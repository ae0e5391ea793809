/** The encrypted seed: how `AuthScreen.loadSeed` reads it and `CreateVaultScreen.createSeed`
    writes it. Both derive the locator and the passphrase the same way. */
module SeedVault {
  import opened JsValues
  import opened JsStrings
  import opened Crypto
  import opened KeyDerivation
  import opened PasswordGate

  /** What reading the seed gives. `Missing` covers both "nothing stored" and "decrypts to
      \"\"", which `loadSeed` treats alike. `Undecodable` is the exception thrown by
      `toString(enc.Utf8)` inside the promise callback, which nothing catches. */
  datatype Unlock = Missing | Opened(seed: string) | Undecodable

  function UnlockSeed(c: Primitives, id: string, store: map<string, string>, sessionPwd: Option<string>): Unlock {
    var stored := Lookup(store, SeedLocator(c, id));
    if !Truthy(stored) then Missing
    else match c.Decrypt(stored.value, SeedPassphrase(c, id, sessionPwd))
      case None => Undecodable
      case Some(seed) => if seed == "" then Missing else Opened(seed)
  }

  /** The store after `createSeed`: the trimmed seed, encrypted, replaces the seed entry. */
  function SealSeed(c: Primitives, id: string, store: map<string, string>, sessionPwd: Option<string>, seedValue: string, salt: Salt): map<string, string> {
    store[SeedLocator(c, id) := c.Encrypt(Trim(seedValue), SeedPassphrase(c, id, sessionPwd), salt)]
  }

  /** Seed round trip: with the same session `pwd`, reading back a sealed seed gives the trimmed
      seed, or `Missing` when it trims to "". */
  lemma SeedRoundTrip(c: Primitives, id: string, store: map<string, string>, sessionPwd: Option<string>, seedValue: string, salt: Salt)
    requires RoundTrips(c)
    requires c.Encrypt(Trim(seedValue), SeedPassphrase(c, id, sessionPwd), salt) != ""
    ensures UnlockSeed(c, id, SealSeed(c, id, store, sessionPwd, seedValue, salt), sessionPwd)
         == if Trim(seedValue) == "" then Missing else Opened(Trim(seedValue))
  {
    var after := SealSeed(c, id, store, sessionPwd, seedValue, salt);
    assert after[SeedLocator(c, id)] == c.Encrypt(Trim(seedValue), SeedPassphrase(c, id, sessionPwd), salt);
  }

  /** Sealing writes the seed entry and nothing else. */
  lemma SealWritesOneEntry(c: Primitives, id: string, store: map<string, string>, sessionPwd: Option<string>, seedValue: string, salt: Salt)
    ensures var after := SealSeed(c, id, store, sessionPwd, seedValue, salt);
      && after.Keys == store.Keys + {SeedLocator(c, id)}
      && forall k :: k in store && k != SeedLocator(c, id) ==> after[k] == store[k]
  {
  }

  /** Writing the seed leaves the password gate's decision alone, as long as the seed locator
      is not the challenge locator (two different SHA-256 inputs). */
  lemma SealKeepsGate(c: Primitives, device: string, id: string, store: map<string, string>, sessionPwd: Option<string>, seedValue: string, salt: Salt, pwd: string)
    requires HexDigests(c)
    requires SeedLocator(c, id) != ChallengeLocator(c, device, pwd)
    ensures Decide(c, Resolved(device), id, SealSeed(c, id, store, sessionPwd, seedValue, salt), pwd)
         == Decide(c, Resolved(device), id, store, pwd)
  {
    MarkerIsNoDigest(c, "ss-" + id, id);
    var after := SealSeed(c, id, store, sessionPwd, seedValue, salt);
    assert Lookup(after, ChallengeLocator(c, device, pwd)) == Lookup(store, ChallengeLocator(c, device, pwd));
    assert Lookup(after, MarkerLocator(id)) == Lookup(store, MarkerLocator(id));
  }

  /** Creating the password challenge leaves the stored seed alone, under the same proviso. */
  lemma GateKeepsSeed(c: Primitives, device: string, id: string, store: map<string, string>, pwd: string, salt: Salt, sessionPwd: Option<string>)
    requires HexDigests(c)
    requires SeedLocator(c, id) != ChallengeLocator(c, device, pwd)
    ensures UnlockSeed(c, id, GateStore(c, Resolved(device), id, store, pwd, salt), sessionPwd)
         == UnlockSeed(c, id, store, sessionPwd)
  {
    MarkerIsNoDigest(c, "ss-" + id, id);
  }
}
