/** The JavaScript string operations the screens rely on: `trim`, `split(/\s+/g)`,
    `toLowerCase` and the relational comparison of strings. */
module JsStrings {

  /** The characters `String.prototype.trim` removes and the regular expression `\s` matches:
      WhiteSpace and LineTerminator of ECMA-262. */
  const Whitespace: set<char> := {
    ' ', '\t', '\n', '\r', '\U{B}', '\U{C}', '\U{A0}', '\U{1680}',
    '\U{2000}', '\U{2001}', '\U{2002}', '\U{2003}', '\U{2004}', '\U{2005}',
    '\U{2006}', '\U{2007}', '\U{2008}', '\U{2009}', '\U{200A}',
    '\U{2028}', '\U{2029}', '\U{202F}', '\U{205F}', '\U{3000}', '\U{FEFF}'
  }

  predicate IsWhitespace(ch: char) {
    ch in Whitespace
  }

  predicate AllWhitespace(s: string) {
    forall i :: 0 <= i < |s| ==> IsWhitespace(s[i])
  }

  predicate NoWhitespace(s: string) {
    forall i :: 0 <= i < |s| ==> !IsWhitespace(s[i])
  }

  /** Neither begins nor ends with whitespace: what `trim` leaves. */
  predicate Trimmed(s: string) {
    s == [] || (!IsWhitespace(s[0]) && !IsWhitespace(s[|s| - 1]))
  }

  /** Drops the leading run of whitespace. */
  function TrimStart(s: string): string {
    if s != [] && IsWhitespace(s[0]) then TrimStart(s[1..]) else s
  }

  /** Drops the trailing run of whitespace. */
  function TrimEnd(s: string): string {
    if s != [] && IsWhitespace(s[|s| - 1]) then TrimEnd(s[..|s| - 1]) else s
  }

  /** `s.trim()` */
  function Trim(s: string): string {
    TrimEnd(TrimStart(s))
  }

  /** `TrimStart` leaves the suffix of `s` after its leading whitespace run. */
  lemma {:induction false} TrimStartShape(s: string)
    ensures var r := TrimStart(s);
      && |r| <= |s| && r == s[|s| - |r|..]
      && AllWhitespace(s[..|s| - |r|])
      && (r == [] || !IsWhitespace(r[0]))
  {
    if s != [] && IsWhitespace(s[0]) {
      var r := TrimStart(s[1..]);
      TrimStartShape(s[1..]);
      assert s[1..][|s| - 1 - |r|..] == s[|s| - |r|..];
      var w := s[..|s| - |r|];
      forall i | 0 <= i < |w|
        ensures IsWhitespace(w[i])
      {
        if i > 0 {
          assert w[i] == s[1..][..|s| - 1 - |r|][i - 1];
        }
      }
    }
  }

  /** `TrimEnd` leaves the prefix of `s` before its trailing whitespace run. */
  lemma {:induction false} TrimEndShape(s: string)
    ensures var r := TrimEnd(s);
      && |r| <= |s| && r == s[..|r|]
      && AllWhitespace(s[|r|..])
      && (r == [] || !IsWhitespace(r[|r| - 1]))
  {
    if s != [] && IsWhitespace(s[|s| - 1]) {
      var p := s[..|s| - 1];
      var r := TrimEnd(p);
      TrimEndShape(p);
      assert p[..|r|] == s[..|r|];
      var w := s[|r|..];
      forall i | 0 <= i < |w|
        ensures IsWhitespace(w[i])
      {
        if i < |s| - 1 - |r| {
          assert w[i] == p[|r|..][i];
        }
      }
    }
  }

  /** `trim` removes exactly a whitespace prefix and a whitespace suffix and leaves a trimmed string. */
  lemma TrimShape(s: string)
    ensures var r := Trim(s);
      exists i :: 0 <= i <= |s| - |r| && r == s[i..i + |r|] && AllWhitespace(s[..i]) && AllWhitespace(s[i + |r|..])
    ensures Trimmed(Trim(s))
  {
    var t := TrimStart(s);
    var r := TrimEnd(t);
    TrimStartShape(s);
    TrimEndShape(t);
    var i := |s| - |t|;
    assert r == s[i..i + |r|];
    assert s[i + |r|..] == t[|r|..];
    if r != [] {
      assert r[0] == t[0];
    }
  }

  /** A string that is already trimmed is left alone, so `trim` is idempotent. */
  lemma TrimOfTrimmed(s: string)
    requires Trimmed(s)
    ensures Trim(s) == s
  {
    assert TrimStart(s) == s;
  }

  lemma TrimIdempotent(s: string)
    ensures Trim(Trim(s)) == Trim(s)
  {
    TrimShape(s);
    TrimOfTrimmed(Trim(s));
  }

  /** The scan behind `split(/\s+/g)`: `word` is the piece being read, `inGap` says whether the
      scan is inside a run of whitespace (the piece before that run was already emitted). */
  function Pieces(s: string, word: string, inGap: bool): (pieces: seq<string>)
    ensures |pieces| >= 1
  {
    if s == [] then [word]
    else if IsWhitespace(s[0]) then
      if inGap then Pieces(s[1..], word, true) else [word] + Pieces(s[1..], [], true)
    else Pieces(s[1..], word + [s[0]], false)
  }

  /** `s.split(/\s+/g)`: the pieces between maximal runs of whitespace. A leading run gives an
      empty first piece, a trailing run an empty last piece, and `""` splits into `[""]`. */
  function Split(s: string): seq<string> {
    Pieces(s, [], false)
  }

  /** The characters of `s` that are not whitespace, in order. */
  function Letters(s: string): string {
    if s == [] then [] else (if IsWhitespace(s[0]) then [] else [s[0]]) + Letters(s[1..])
  }

  function Concat(pieces: seq<string>): string {
    if pieces == [] then [] else pieces[0] + Concat(pieces[1..])
  }

  lemma {:induction false} PiecesNoWhitespace(s: string, word: string, inGap: bool)
    requires NoWhitespace(word)
    ensures forall k :: 0 <= k < |Pieces(s, word, inGap)| ==> NoWhitespace(Pieces(s, word, inGap)[k])
  {
    if s != [] {
      if IsWhitespace(s[0]) {
        PiecesNoWhitespace(s[1..], if inGap then word else [], true);
      } else {
        PiecesNoWhitespace(s[1..], word + [s[0]], false);
      }
    }
  }

  lemma ConcatCons(w: string, rest: seq<string>)
    ensures Concat([w] + rest) == w + Concat(rest)
  {
    assert ([w] + rest)[0] == w && ([w] + rest)[1..] == rest;
  }

  lemma GapStep(s: string, word: string)
    requires s != [] && IsWhitespace(s[0])
    requires Concat(Pieces(s[1..], word, true)) == word + Letters(s[1..])
    ensures Concat(Pieces(s, word, true)) == word + Letters(s)
  {
    assert Pieces(s, word, true) == Pieces(s[1..], word, true);
    assert Letters(s) == Letters(s[1..]);
  }

  lemma BreakStep(s: string, word: string)
    requires s != [] && IsWhitespace(s[0])
    requires Concat(Pieces(s[1..], [], true)) == Letters(s[1..])
    ensures Concat(Pieces(s, word, false)) == word + Letters(s)
  {
    assert Pieces(s, word, false) == [word] + Pieces(s[1..], [], true);
    ConcatCons(word, Pieces(s[1..], [], true));
    assert Letters(s) == Letters(s[1..]);
  }

  lemma LettersOfLetter(s: string)
    requires s != [] && !IsWhitespace(s[0])
    ensures Letters(s) == [s[0]] + Letters(s[1..])
  {
  }

  lemma PiecesOfLetter(s: string, word: string, inGap: bool)
    requires s != [] && !IsWhitespace(s[0])
    ensures Pieces(s, word, inGap) == Pieces(s[1..], word + [s[0]], false)
  {
  }

  lemma AppendLetter(word: string, c: char, tail: string)
    ensures (word + [c]) + tail == word + ([c] + tail)
  {
  }

  lemma CharStep(s: string, word: string, inGap: bool)
    requires s != [] && !IsWhitespace(s[0])
    requires Concat(Pieces(s[1..], word + [s[0]], false)) == (word + [s[0]]) + Letters(s[1..])
    ensures Concat(Pieces(s, word, inGap)) == word + Letters(s)
  {
    PiecesOfLetter(s, word, inGap);
    LettersOfLetter(s);
    AppendLetter(word, s[0], Letters(s[1..]));
  }

  lemma {:induction false} PiecesLetters(s: string, word: string, inGap: bool)
    ensures Concat(Pieces(s, word, inGap)) == word + Letters(s)
  {
    if s == [] {
      ConcatCons(word, []);
      assert word + [] == word;
    } else if !IsWhitespace(s[0]) {
      PiecesLetters(s[1..], word + [s[0]], false);
      CharStep(s, word, inGap);
    } else if inGap {
      PiecesLetters(s[1..], word, true);
      GapStep(s, word);
    } else {
      PiecesLetters(s[1..], [], true);
      assert [] + Letters(s[1..]) == Letters(s[1..]);
      BreakStep(s, word);
    }
  }

  lemma {:induction false} PiecesNonEmpty(s: string, word: string, inGap: bool)
    requires s != [] ==> !IsWhitespace(s[|s| - 1])
    requires s == [] ==> word != []
    requires word == [] ==> s != [] && (inGap || !IsWhitespace(s[0]))
    ensures forall k :: 0 <= k < |Pieces(s, word, inGap)| ==> Pieces(s, word, inGap)[k] != []
  {
    if s != [] {
      if IsWhitespace(s[0]) {
        PiecesNonEmpty(s[1..], if inGap then word else [], true);
      } else {
        PiecesNonEmpty(s[1..], word + [s[0]], false);
      }
    }
  }

  /** The pieces `split` returns hold no whitespace and together hold every other character, in order. */
  lemma SplitWords(s: string)
    ensures forall k :: 0 <= k < |Split(s)| ==> NoWhitespace(Split(s)[k])
    ensures Concat(Split(s)) == Letters(s)
  {
    PiecesNoWhitespace(s, [], false);
    PiecesLetters(s, [], false);
  }

  /** What the 12-word rule counts: for a trimmed input, `split` yields exactly its words,
      each non-empty and free of whitespace; an input that trims to `""` counts as one piece. */
  lemma WordCountOfTrimmed(s: string)
    ensures Trim(s) == [] ==> Split(Trim(s)) == [[]]
    ensures Trim(s) != [] ==> forall k :: 0 <= k < |Split(Trim(s))| ==>
      Split(Trim(s))[k] != [] && NoWhitespace(Split(Trim(s))[k])
  {
    TrimShape(s);
    SplitWords(Trim(s));
    if Trim(s) != [] {
      PiecesNonEmpty(Trim(s), [], false);
    }
  }

  /** `toLowerCase` on one character, for the ASCII letters. */
  function LowerChar(ch: char): char {
    if 'A' <= ch <= 'Z' then (ch as int + 32) as char else ch
  }

  /** `s.toLowerCase()` for ASCII letters; other characters are kept. */
  function ToLowerCase(s: string): string {
    seq(|s|, i requires 0 <= i < |s| => LowerChar(s[i]))
  }

  /** Lower-casing keeps the length, leaves no ASCII capital and is idempotent. */
  lemma LowerCaseProperties(s: string)
    ensures |ToLowerCase(s)| == |s|
    ensures forall i :: 0 <= i < |s| ==> !('A' <= ToLowerCase(s)[i] <= 'Z')
    ensures forall i :: 0 <= i < |s| && !('A' <= s[i] <= 'Z') ==> ToLowerCase(s)[i] == s[i]
    ensures ToLowerCase(ToLowerCase(s)) == ToLowerCase(s)
  {
  }

  /** `a <= b` on JavaScript strings: lexicographic order of the characters. */
  predicate StrLe(a: string, b: string)
    decreases |a|
  {
    a == [] || (b != [] && (a[0] < b[0] || (a[0] == b[0] && StrLe(a[1..], b[1..]))))
  }

  lemma {:induction false} StrLeReflexive(a: string)
    ensures StrLe(a, a)
    decreases |a|
  {
    if a != [] {
      StrLeReflexive(a[1..]);
    }
  }

  lemma {:induction false} StrLeTotal(a: string, b: string)
    ensures StrLe(a, b) || StrLe(b, a)
    decreases |a|
  {
    if a != [] && b != [] && a[0] == b[0] {
      StrLeTotal(a[1..], b[1..]);
    }
  }

  lemma {:induction false} StrLeAntisymmetric(a: string, b: string)
    requires StrLe(a, b) && StrLe(b, a)
    ensures a == b
    decreases |a|
  {
    if a != [] {
      StrLeAntisymmetric(a[1..], b[1..]);
      assert a == [a[0]] + a[1..] && b == [b[0]] + b[1..];
    }
  }

  lemma {:induction false} StrLeTransitive(a: string, b: string, c: string)
    requires StrLe(a, b) && StrLe(b, c)
    ensures StrLe(a, c)
    decreases |a|
  {
    if a != [] && a[0] == b[0] && b[0] == c[0] {
      StrLeTransitive(a[1..], b[1..], c[1..]);
    }
  }
}
