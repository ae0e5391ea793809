/** The display order of the transaction ledger: `sortBy(rows, 'createdAt').reverse()` in
    `HomeScreen.loadTransactions`, and the records `saveTransaction` and `cancelTransaction` build. */
module Ledger {
  import opened JsValues
  import opened JsStrings

  /** The sort key: the record's `createdAt`, `undefined` when it has none. */
  function CreatedAt(d: Record): Option<string> {
    Lookup(d, "createdAt")
  }

  /** lodash's ascending order on the key: strings by JavaScript comparison, and `undefined`
      after every string. */
  predicate KeyLe(a: Option<string>, b: Option<string>) {
    match a
    case Some(x) => (match b case Some(y) => StrLe(x, y) case None => true)
    case None => b.None?
  }

  lemma KeyLeTotal(a: Option<string>, b: Option<string>)
    ensures KeyLe(a, b) || KeyLe(b, a)
  {
    if a.Some? && b.Some? {
      StrLeTotal(a.value, b.value);
    }
  }

  lemma KeyLeAntisymmetric(a: Option<string>, b: Option<string>)
    requires KeyLe(a, b) && KeyLe(b, a)
    ensures a == b
  {
    if a.Some? && b.Some? {
      StrLeAntisymmetric(a.value, b.value);
    }
  }

  lemma KeyLeTransitive(a: Option<string>, b: Option<string>, c: Option<string>)
    requires KeyLe(a, b) && KeyLe(b, c)
    ensures KeyLe(a, c)
  {
    if a.Some? && b.Some? && c.Some? {
      StrLeTransitive(a.value, b.value, c.value);
    }
  }

  predicate Ascending(s: seq<Record>) {
    forall i, j :: 0 <= i < j < |s| ==> KeyLe(CreatedAt(s[i]), CreatedAt(s[j]))
  }

  predicate Descending(s: seq<Record>) {
    forall i, j :: 0 <= i < j < |s| ==> KeyLe(CreatedAt(s[j]), CreatedAt(s[i]))
  }

  /** The records of `s` whose key is `k`, in their order in `s`. */
  function WithKey(s: seq<Record>, k: Option<string>): seq<Record> {
    if s == [] then [] else (if CreatedAt(s[0]) == k then [s[0]] else []) + WithKey(s[1..], k)
  }

  function Reverse(s: seq<Record>): seq<Record> {
    if s == [] then [] else Reverse(s[1..]) + [s[0]]
  }

  /** Stable insertion into an ascending sequence: `d` goes after every record whose key is not
      greater than its own. */
  function Insert(t: seq<Record>, d: Record): seq<Record> {
    if t == [] then [d]
    else if !KeyLe(CreatedAt(t[0]), CreatedAt(d)) then [d] + t
    else [t[0]] + Insert(t[1..], d)
  }

  /** `sortBy(s, 'createdAt')`: a stable ascending sort. */
  function SortByCreatedAt(s: seq<Record>): seq<Record> {
    if s == [] then [] else Insert(SortByCreatedAt(s[..|s| - 1]), s[|s| - 1])
  }

  lemma {:induction false} WithKeyAppend(a: seq<Record>, b: seq<Record>, k: Option<string>)
    ensures WithKey(a + b, k) == WithKey(a, k) + WithKey(b, k)
  {
    if a == [] {
      assert a + b == b;
    } else {
      var head := if CreatedAt(a[0]) == k then [a[0]] else [];
      calc {
        WithKey(a + b, k);
        { assert a + b == [a[0]] + (a[1..] + b); }
        WithKey([a[0]] + (a[1..] + b), k);
        { WithKeyCons(a[0], a[1..] + b, k); }
        head + WithKey(a[1..] + b, k);
        { WithKeyAppend(a[1..], b, k); }
        head + (WithKey(a[1..], k) + WithKey(b, k));
        (head + WithKey(a[1..], k)) + WithKey(b, k);
        { WithKeyCons(a[0], a[1..], k); assert [a[0]] + a[1..] == a; }
        WithKey(a, k) + WithKey(b, k);
      }
    }
  }

  lemma {:induction false} InsertMultiset(t: seq<Record>, d: Record)
    ensures multiset(Insert(t, d)) == multiset(t) + multiset{d}
  {
    if t != [] && KeyLe(CreatedAt(t[0]), CreatedAt(d)) {
      InsertMultiset(t[1..], d);
      assert t == [t[0]] + t[1..];
    }
  }

  /** Every record of `s` has a key at or above `lo`. */
  predicate AllAtLeast(lo: Option<string>, s: seq<Record>) {
    forall i :: 0 <= i < |s| ==> KeyLe(lo, CreatedAt(s[i]))
  }

  lemma AscendingCons(x: Record, s: seq<Record>)
    requires Ascending(s) && AllAtLeast(CreatedAt(x), s)
    ensures Ascending([x] + s)
  {
    var r := [x] + s;
    forall i, j | 0 <= i < j < |r|
      ensures KeyLe(CreatedAt(r[i]), CreatedAt(r[j]))
    {
      if i == 0 {
        assert r[j] == s[j - 1];
      } else {
        assert r[i] == s[i - 1] && r[j] == s[j - 1];
      }
    }
  }

  lemma AscendingHead(s: seq<Record>)
    requires s != [] && Ascending(s)
    ensures AllAtLeast(CreatedAt(s[0]), s)
  {
    KeyLeReflexive(CreatedAt(s[0]));
  }

  lemma AscendingTail(s: seq<Record>)
    requires s != [] && Ascending(s)
    ensures Ascending(s[1..]) && AllAtLeast(CreatedAt(s[0]), s[1..])
  {
    forall i, j | 0 <= i < j < |s| - 1
      ensures KeyLe(CreatedAt(s[1..][i]), CreatedAt(s[1..][j]))
    {
      assert s[1..][i] == s[i + 1] && s[1..][j] == s[j + 1];
    }
    forall i | 0 <= i < |s| - 1
      ensures KeyLe(CreatedAt(s[0]), CreatedAt(s[1..][i]))
    {
      assert s[1..][i] == s[i + 1];
    }
  }

  lemma LowerBound(lo: Option<string>, hi: Option<string>, s: seq<Record>)
    requires KeyLe(lo, hi) && AllAtLeast(hi, s)
    ensures AllAtLeast(lo, s)
  {
    forall i | 0 <= i < |s|
      ensures KeyLe(lo, CreatedAt(s[i]))
    {
      KeyLeTransitive(lo, hi, CreatedAt(s[i]));
    }
  }

  lemma {:induction false} InsertAtLeast(t: seq<Record>, d: Record, lo: Option<string>)
    requires AllAtLeast(lo, t) && KeyLe(lo, CreatedAt(d))
    ensures AllAtLeast(lo, Insert(t, d))
  {
    if t != [] && KeyLe(CreatedAt(t[0]), CreatedAt(d)) {
      var rest := Insert(t[1..], d);
      assert AllAtLeast(lo, t[1..]) by {
        forall i | 0 <= i < |t| - 1
          ensures KeyLe(lo, CreatedAt(t[1..][i]))
        {
          assert t[1..][i] == t[i + 1];
        }
      }
      InsertAtLeast(t[1..], d, lo);
      var r := [t[0]] + rest;
      assert Insert(t, d) == r;
      forall i | 0 <= i < |r|
        ensures KeyLe(lo, CreatedAt(r[i]))
      {
        if i > 0 {
          assert r[i] == rest[i - 1];
        }
      }
    }
  }

  lemma {:induction false} InsertAscending(t: seq<Record>, d: Record)
    requires Ascending(t)
    ensures Ascending(Insert(t, d))
  {
    if t == [] {
    } else if !KeyLe(CreatedAt(t[0]), CreatedAt(d)) {
      KeyLeTotal(CreatedAt(t[0]), CreatedAt(d));
      AscendingHead(t);
      LowerBound(CreatedAt(d), CreatedAt(t[0]), t);
      AscendingCons(d, t);
    } else {
      AscendingTail(t);
      InsertAscending(t[1..], d);
      InsertAtLeast(t[1..], d, CreatedAt(t[0]));
      AscendingCons(t[0], Insert(t[1..], d));
    }
  }

  lemma KeyLeReflexive(a: Option<string>)
    ensures KeyLe(a, a)
  {
    if a.Some? {
      StrLeReflexive(a.value);
    }
  }

  /** No record at or above `lo` has a key below `lo`. */
  lemma {:induction false} NoKeyBelow(t: seq<Record>, lo: Option<string>, k: Option<string>)
    requires AllAtLeast(lo, t)
    requires !KeyLe(lo, k)
    ensures WithKey(t, k) == []
  {
    if t != [] {
      assert KeyLe(lo, CreatedAt(t[0]));
      assert AllAtLeast(lo, t[1..]) by {
        forall i | 0 <= i < |t| - 1
          ensures KeyLe(lo, CreatedAt(t[1..][i]))
        {
          assert t[1..][i] == t[i + 1];
        }
      }
      NoKeyBelow(t[1..], lo, k);
    }
  }

  lemma WithKeyCons(x: Record, s: seq<Record>, k: Option<string>)
    ensures WithKey([x] + s, k) == (if CreatedAt(x) == k then [x] else []) + WithKey(s, k)
  {
    assert ([x] + s)[0] == x && ([x] + s)[1..] == s;
  }

  /** Stability of one insertion: among records with the same key, `d` comes last. */
  lemma {:induction false} InsertWithKey(t: seq<Record>, d: Record, k: Option<string>)
    requires Ascending(t)
    ensures WithKey(Insert(t, d), k) == WithKey(t, k) + (if CreatedAt(d) == k then [d] else [])
  {
    var own := if CreatedAt(d) == k then [d] else [];
    if t == [] {
      WithKeyCons(d, [], k);
    } else if !KeyLe(CreatedAt(t[0]), CreatedAt(d)) {
      assert Insert(t, d) == [d] + t;
      WithKeyCons(d, t, k);
      if CreatedAt(d) == k {
        AscendingHead(t);
        NoKeyBelow(t, CreatedAt(t[0]), k);
      }
    } else {
      var rest := Insert(t[1..], d);
      var head := if CreatedAt(t[0]) == k then [t[0]] else [];
      AscendingTail(t);
      calc {
        WithKey(Insert(t, d), k);
        { assert Insert(t, d) == [t[0]] + rest; }
        WithKey([t[0]] + rest, k);
        { WithKeyCons(t[0], rest, k); }
        head + WithKey(rest, k);
        { InsertWithKey(t[1..], d, k); }
        head + (WithKey(t[1..], k) + own);
        (head + WithKey(t[1..], k)) + own;
        { WithKeyCons(t[0], t[1..], k); assert [t[0]] + t[1..] == t; }
        WithKey(t, k) + own;
      }
    }
  }

  lemma {:induction false} SortProperties(s: seq<Record>)
    ensures multiset(SortByCreatedAt(s)) == multiset(s)
    ensures Ascending(SortByCreatedAt(s))
    ensures forall k :: WithKey(SortByCreatedAt(s), k) == WithKey(s, k)
    decreases |s|
  {
    if s != [] {
      var init, last := s[..|s| - 1], s[|s| - 1];
      assert s == init + [last];
      SortProperties(init);
      InsertMultiset(SortByCreatedAt(init), last);
      InsertAscending(SortByCreatedAt(init), last);
      forall k
        ensures WithKey(SortByCreatedAt(s), k) == WithKey(s, k)
      {
        InsertWithKey(SortByCreatedAt(init), last, k);
        WithKeyAppend(init, [last], k);
        assert WithKey([last], k) == (if CreatedAt(last) == k then [last] else []) + WithKey([], k);
      }
    }
  }

  lemma {:induction false} ReverseAt(s: seq<Record>)
    ensures |Reverse(s)| == |s|
    ensures forall i :: 0 <= i < |s| ==> Reverse(s)[i] == s[|s| - 1 - i]
    ensures multiset(Reverse(s)) == multiset(s)
  {
    if s != [] {
      ReverseAt(s[1..]);
      assert s == [s[0]] + s[1..];
    }
  }

  lemma {:induction false} ReverseAppend(a: seq<Record>, b: seq<Record>)
    ensures Reverse(a + b) == Reverse(b) + Reverse(a)
  {
    if a == [] {
      assert a + b == b;
    } else {
      assert (a + b)[0] == a[0] && (a + b)[1..] == a[1..] + b;
      ReverseAppend(a[1..], b);
    }
  }

  lemma {:induction false} WithKeyReverse(s: seq<Record>, k: Option<string>)
    ensures WithKey(Reverse(s), k) == Reverse(WithKey(s, k))
  {
    if s != [] {
      var head := if CreatedAt(s[0]) == k then [s[0]] else [];
      WithKeyReverse(s[1..], k);
      WithKeyAppend(Reverse(s[1..]), [s[0]], k);
      assert WithKey([s[0]], k) == head + WithKey([], k);
      ReverseAppend(head, WithKey(s[1..], k));
      assert Reverse(head) == head by {
        if head != [] {
          assert head[1..] == [];
        }
      }
    }
  }

  /** The list `loadTransactions` shows: all rows, newest `createdAt` first (records without
      one ahead of all others), and records with equal keys in the reverse of their row order,
      because the sort is stable and then reversed. */
  function Display(rows: seq<Record>): (r: seq<Record>)
    ensures multiset(r) == multiset(rows)
    ensures Descending(r)
    ensures forall k :: WithKey(r, k) == Reverse(WithKey(rows, k))
  {
    var sorted := SortByCreatedAt(rows);
    SortProperties(rows);
    ReverseAt(sorted);
    assert forall k :: WithKey(Reverse(sorted), k) == Reverse(WithKey(rows, k)) by {
      forall k
        ensures WithKey(Reverse(sorted), k) == Reverse(WithKey(rows, k))
      {
        WithKeyReverse(sorted, k);
      }
    }
    Reverse(sorted)
  }

  predicate DistinctKeys(s: seq<Record>) {
    forall i, j :: 0 <= i < j < |s| ==> CreatedAt(s[i]) != CreatedAt(s[j])
  }

  lemma DescendingTail(r: seq<Record>)
    requires r != [] && Descending(r)
    ensures Descending(r[1..])
  {
    forall i, j | 0 <= i < j < |r| - 1
      ensures KeyLe(CreatedAt(r[1..][j]), CreatedAt(r[1..][i]))
    {
      assert r[1..][i] == r[i + 1] && r[1..][j] == r[j + 1];
    }
  }

  lemma DistinctTail(r: seq<Record>)
    requires r != [] && DistinctKeys(r)
    ensures DistinctKeys(r[1..])
  {
    forall i, j | 0 <= i < j < |r| - 1
      ensures CreatedAt(r[1..][i]) != CreatedAt(r[1..][j])
    {
      assert r[1..][i] == r[i + 1] && r[1..][j] == r[j + 1];
    }
  }

  /** Two descending orders of the same records, with distinct keys, start alike. */
  lemma SameHead(r1: seq<Record>, r2: seq<Record>)
    requires multiset(r1) == multiset(r2) && r1 != []
    requires Descending(r1) && Descending(r2) && DistinctKeys(r1)
    ensures r2 != [] && r1[0] == r2[0]
  {
    assert |r2| == |multiset(r2)| == |r1|;
    assert r1[0] in multiset(r2);
    var m :| 0 <= m < |r2| && r2[m] == r1[0];
    assert r2[0] in multiset(r1);
    var n :| 0 <= n < |r1| && r1[n] == r2[0];
    if n != 0 {
      assert KeyLe(CreatedAt(r1[n]), CreatedAt(r1[0]));
      if m != 0 {
        assert KeyLe(CreatedAt(r2[m]), CreatedAt(r2[0]));
        KeyLeAntisymmetric(CreatedAt(r1[n]), CreatedAt(r1[0]));
      }
      assert false;
    }
  }

  /** A descending order of records with distinct keys is unique. */
  lemma {:induction false} DescendingUnique(r1: seq<Record>, r2: seq<Record>)
    requires multiset(r1) == multiset(r2)
    requires Descending(r1) && Descending(r2) && DistinctKeys(r1)
    ensures r1 == r2
    decreases |r1|
  {
    if r1 == [] {
      assert |r2| == |multiset(r2)| == 0;
    } else {
      SameHead(r1, r2);
      assert r1 == [r1[0]] + r1[1..] && r2 == [r2[0]] + r2[1..];
      assert multiset(r1[1..]) == multiset(r1) - multiset{r1[0]};
      assert multiset(r2[1..]) == multiset(r2) - multiset{r2[0]};
      DescendingTail(r1);
      DescendingTail(r2);
      DistinctTail(r1);
      DescendingUnique(r1[1..], r2[1..]);
    }
  }

  /** Three records created at `t1 < t2 < t3`, read in any order, are shown `[t3, t2, t1]`. */
  lemma NewestFirst(rows: seq<Record>, a: Record, b: Record, c: Record)
    requires multiset(rows) == multiset{a, b, c}
    requires CreatedAt(a).Some? && CreatedAt(b).Some? && CreatedAt(c).Some?
    requires StrLe(CreatedAt(a).value, CreatedAt(b).value) && CreatedAt(a) != CreatedAt(b)
    requires StrLe(CreatedAt(b).value, CreatedAt(c).value) && CreatedAt(b) != CreatedAt(c)
    ensures Display(rows) == [c, b, a]
  {
    var shown := Display(rows);
    assert Descending(shown) && multiset(shown) == multiset{a, b, c};
    ThreeInOrder(shown, a, b, c);
  }

  lemma ThreeInOrder(shown: seq<Record>, a: Record, b: Record, c: Record)
    requires multiset(shown) == multiset{a, b, c} && Descending(shown)
    requires CreatedAt(a).Some? && CreatedAt(b).Some? && CreatedAt(c).Some?
    requires StrLe(CreatedAt(a).value, CreatedAt(b).value) && CreatedAt(a) != CreatedAt(b)
    requires StrLe(CreatedAt(b).value, CreatedAt(c).value) && CreatedAt(b) != CreatedAt(c)
    ensures shown == [c, b, a]
  {
    var ka, kb, kc := CreatedAt(a), CreatedAt(b), CreatedAt(c);
    StrLeTransitive(ka.value, kb.value, kc.value);
    if ka == kc {
      StrLeAntisymmetric(ka.value, kb.value);
    }
    assert KeyLe(kb, kc) && KeyLe(ka, kb) && KeyLe(ka, kc);
    ThreeDescending(a, b, c);
    assert multiset([c, b, a]) == multiset{a, b, c};
    DescendingUnique([c, b, a], shown);
  }

  lemma ThreeDescending(a: Record, b: Record, c: Record)
    requires KeyLe(CreatedAt(b), CreatedAt(c)) && KeyLe(CreatedAt(a), CreatedAt(b)) && KeyLe(CreatedAt(a), CreatedAt(c))
    requires CreatedAt(a) != CreatedAt(b) && CreatedAt(b) != CreatedAt(c) && CreatedAt(a) != CreatedAt(c)
    ensures Descending([c, b, a]) && DistinctKeys([c, b, a])
  {
    var want := [c, b, a];
    assert want[0] == c && want[1] == b && want[2] == a;
  }

  /** `{ _id: uuid(), ...tx }`: the fields of `tx` win, its own `_id` included. */
  function WithFreshId(freshId: string, tx: Record): (doc: Record)
    ensures doc.Keys == tx.Keys + {"_id"}
    ensures forall f :: f in tx ==> doc[f] == tx[f]
    ensures "_id" !in tx ==> doc["_id"] == freshId
  {
    map["_id" := freshId] + tx
  }

  /** `{ _id: t._id, ...t, status: 'REJECTED' }`: every field of `t`, with the status replaced. */
  function AsRejected(t: Record): (doc: Record)
    ensures doc.Keys == t.Keys + {"status"}
    ensures doc["status"] == "REJECTED"
    ensures forall f :: f in t && f != "status" ==> doc[f] == t[f]
  {
    t["status" := "REJECTED"]
  }
}
