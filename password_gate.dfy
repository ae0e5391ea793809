/** The password gate of `AuthScreen.submit` as a decision over the secret store, and the
    store and session it leaves behind. */
module PasswordGate {
  import opened JsValues
  import opened Crypto
  import opened KeyDerivation
  import opened AppState

  const InvalidPassword := "Invalid password!"
  const Created := "created"

  /** How `${uniqueId}` reads on the line before `const uniqueId` is declared. Under ECMAScript
      block scoping the read throws (`DeadZone`); once Babel lowers `const` to `var` it reads
      `undefined`, which is `Resolved("undefined")`. `Resolved(d)` stands for any text `d` standing there. */
  datatype LocatorReading = Resolved(device: string) | DeadZone


  /** The ways one attempt can end. */
  datatype Branch =
    | Accepted      // a challenge is stored and decrypts to non-empty text
    | BadChallenge  // a challenge is stored and decrypts to ""
    | Claimed       // no challenge, and the device marker says "created"
    | FirstRun      // no challenge and no marker: the challenge is created now
    | Threw         // an exception, caught and reported like a wrong password
  {
    predicate Opens() {
      Accepted? || FirstRun?
    }
  }

  /** Which branch `submit(pwd)` takes on the store `store`. */
  function Decide(c: Primitives, reading: LocatorReading, id: string, store: map<string, string>, pwd: string): Branch {
    match reading
    case DeadZone => Threw
    case Resolved(device) =>
      var challenge := Lookup(store, ChallengeLocator(c, device, pwd));
      if Truthy(challenge) then
        match c.Decrypt(challenge.value, Passphrase(c, pwd))
        case None => Threw
        case Some(text) => if text != "" then Accepted else BadChallenge
      else if Lookup(store, MarkerLocator(id)) == Some(Created) then Claimed
      else FirstRun
  }

  /** The store after `submit(pwd)`: only a first run writes, the challenge and then the marker. */
  function GateStore(c: Primitives, reading: LocatorReading, id: string, store: map<string, string>, pwd: string, salt: Salt): map<string, string> {
    if Decide(c, reading, id, store, pwd) == FirstRun then
      store[ChallengeLocator(c, reading.device, pwd) := c.Encrypt(pwd, Passphrase(c, pwd), salt)][MarkerLocator(id) := Created]
    else store
  }

  /** The session after the gate itself (before `loadSeed` runs on the opening branches). */
  function GateSession(s: Session, b: Branch, c: Primitives, pwd: string): Session {
    if b.Opens() then s.(pwd := Some(PasswordHash(c, pwd)), securityFormError := None, isSecurityRequired := false)
    else s.(securityFormError := Some(InvalidPassword))
  }

  /** First run: the attempt opens the gate, and exactly two entries are written: the encrypted
      password at the challenge locator and "created" at the device marker. */
  lemma FirstRunOpens(c: Primitives, device: string, id: string, store: map<string, string>, pwd: string, salt: Salt, s: Session)
    requires HexDigests(c)
    requires !Truthy(Lookup(store, ChallengeLocator(c, device, pwd)))
    requires Lookup(store, MarkerLocator(id)) != Some(Created)
    ensures Decide(c, Resolved(device), id, store, pwd) == FirstRun
    ensures var after := GateStore(c, Resolved(device), id, store, pwd, salt);
      && ChallengeLocator(c, device, pwd) != MarkerLocator(id)
      && after.Keys == store.Keys + {ChallengeLocator(c, device, pwd), MarkerLocator(id)}
      && after[ChallengeLocator(c, device, pwd)] == c.Encrypt(pwd, Passphrase(c, pwd), salt)
      && after[MarkerLocator(id)] == Created
      && forall k :: k in store && k != ChallengeLocator(c, device, pwd) && k != MarkerLocator(id) ==> after[k] == store[k]
    ensures GateSession(s, FirstRun, c, pwd) == s.(pwd := Some(c.Sha256(pwd)), securityFormError := None, isSecurityRequired := false)
  {
    MarkerIsNoDigest(c, "ss-" + device + "-" + PasswordHash(c, pwd), id);
  }

  /** No challenge but a claimed device: the attempt is refused and nothing is written. */
  lemma ClaimedRefuses(c: Primitives, device: string, id: string, store: map<string, string>, pwd: string, salt: Salt, s: Session)
    requires !Truthy(Lookup(store, ChallengeLocator(c, device, pwd)))
    requires Lookup(store, MarkerLocator(id)) == Some(Created)
    ensures Decide(c, Resolved(device), id, store, pwd) == Claimed
    ensures GateStore(c, Resolved(device), id, store, pwd, salt) == store
    ensures GateSession(s, Claimed, c, pwd) == s.(securityFormError := Some(InvalidPassword))
  {
  }

  /** A stored challenge that decrypts to non-empty text opens the gate without writing. */
  lemma ChallengeOpens(c: Primitives, device: string, id: string, store: map<string, string>, pwd: string, salt: Salt)
    requires Truthy(Lookup(store, ChallengeLocator(c, device, pwd)))
    requires Truthy(c.Decrypt(store[ChallengeLocator(c, device, pwd)], Passphrase(c, pwd)))
    ensures Decide(c, Resolved(device), id, store, pwd) == Accepted
    ensures GateStore(c, Resolved(device), id, store, pwd, salt) == store
  {
  }

  /** A stored challenge that decrypts to "" refuses the attempt. */
  lemma EmptyChallengeRefuses(c: Primitives, device: string, id: string, store: map<string, string>, pwd: string)
    requires Truthy(Lookup(store, ChallengeLocator(c, device, pwd)))
    requires c.Decrypt(store[ChallengeLocator(c, device, pwd)], Passphrase(c, pwd)) == Some("")
    ensures Decide(c, Resolved(device), id, store, pwd) == BadChallenge
  {
  }

  /** Round trip: after a first run with a non-empty password, the same password opens the
      gate through the stored challenge. */
  lemma SamePasswordOpensAgain(c: Primitives, device: string, id: string, store: map<string, string>, pwd: string, salt: Salt)
    requires RoundTrips(c) && HexDigests(c)
    requires Decide(c, Resolved(device), id, store, pwd) == FirstRun
    requires pwd != ""
    requires c.Encrypt(pwd, Passphrase(c, pwd), salt) != ""
    ensures Decide(c, Resolved(device), id, GateStore(c, Resolved(device), id, store, pwd, salt), pwd) == Accepted
  {
    MarkerIsNoDigest(c, "ss-" + device + "-" + PasswordHash(c, pwd), id);
    var after := GateStore(c, Resolved(device), id, store, pwd, salt);
    assert after[ChallengeLocator(c, device, pwd)] == c.Encrypt(pwd, Passphrase(c, pwd), salt);
  }

  /** The empty password locks the device out: its own challenge decrypts to "", and the marker
      stops the challenge from being created again. */
  lemma EmptyPasswordLocksOut(c: Primitives, device: string, id: string, store: map<string, string>, salt: Salt)
    requires RoundTrips(c) && HexDigests(c)
    requires Decide(c, Resolved(device), id, store, "") == FirstRun
    ensures !Decide(c, Resolved(device), id, GateStore(c, Resolved(device), id, store, "", salt), "").Opens()
  {
    MarkerIsNoDigest(c, "ss-" + device + "-" + PasswordHash(c, ""), id);
    var after := GateStore(c, Resolved(device), id, store, "", salt);
    assert after[ChallengeLocator(c, device, "")] == c.Encrypt("", Passphrase(c, ""), salt);
    assert after[MarkerLocator(id)] == Created;
  }

  /** After a first run, a password whose challenge locator differs (and was never written) is
      refused by the marker. */
  lemma OtherPasswordRefused(c: Primitives, device: string, id: string, store: map<string, string>, pwd: string, other: string, salt: Salt)
    requires HexDigests(c)
    requires Decide(c, Resolved(device), id, store, pwd) == FirstRun
    requires ChallengeLocator(c, device, other) != ChallengeLocator(c, device, pwd)
    requires !Truthy(Lookup(store, ChallengeLocator(c, device, other)))
    ensures Decide(c, Resolved(device), id, GateStore(c, Resolved(device), id, store, pwd, salt), other) == Claimed
  {
    MarkerIsNoDigest(c, "ss-" + device + "-" + PasswordHash(c, other), id);
  }

  /** Under ECMAScript scoping every attempt throws before touching the store, and is refused. */
  lemma DeadZoneRefusesAll(c: Primitives, id: string, store: map<string, string>, pwd: string, salt: Salt, s: Session)
    ensures Decide(c, DeadZone, id, store, pwd) == Threw
    ensures GateStore(c, DeadZone, id, store, pwd, salt) == store
    ensures GateSession(s, Threw, c, pwd) == s.(securityFormError := Some(InvalidPassword))
  {
  }

  /** The session's `pwd` changes only on an opening branch; every refusal, thrown or not,
      shows the same message and changes nothing else. */
  lemma RefusalsLookAlike(s: Session, b: Branch, c: Primitives, pwd: string)
    ensures GateSession(s, b, c, pwd).pwd != s.pwd ==> b.Opens()
    ensures b.Opens() ==> GateSession(s, b, c, pwd).pwd == Some(PasswordHash(c, pwd))
    ensures !b.Opens() ==> GateSession(s, b, c, pwd) == s.(securityFormError := Some(InvalidPassword))
  {
  }
}
