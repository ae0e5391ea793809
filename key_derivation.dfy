/** The locators and passphrases the screens derive from the device id and the password
    (AuthScreen.js and CreateVaultScreen.js build them inline with template literals). */
module KeyDerivation {
  import opened JsValues
  import opened Crypto

  /** `sha256(pwd).toString()`, kept in the session as `pwd` once the gate opens. */
  function PasswordHash(c: Primitives, pwd: string): string {
    c.Sha256(pwd)
  }

  /** `ss`, the passphrase of the password challenge: the hash, a colon, the password itself. */
  function Passphrase(c: Primitives, pwd: string): string {
    PasswordHash(c, pwd) + ":" + pwd
  }

  /** `pwdKey`, where the challenge is stored; `device` is what `${uniqueId}` renders to there. */
  function ChallengeLocator(c: Primitives, device: string, pwd: string): string {
    c.Sha256("ss-" + device + "-" + PasswordHash(c, pwd))
  }

  /** `ss-<id>`, where the "created" marker is stored (not hashed). */
  function MarkerLocator(id: string): string {
    "ss-" + id
  }

  /** `seedKey`, where the encrypted seed is stored. */
  function SeedLocator(c: Primitives, id: string): string {
    c.Sha256("ss-" + id)
  }

  /** `pass`, the passphrase of the seed, from the session's `pwd` (rendered `undefined` when unset). */
  function SeedPassphrase(c: Primitives, id: string, sessionPwd: Option<string>): string {
    c.Sha256("ss-" + id + "-" + Render(sessionPwd))
  }

  /** The marker locator starts with `s`, which no hex digest contains, so a hashed locator
      never lands on the marker. */
  lemma MarkerIsNoDigest(c: Primitives, x: string, id: string)
    requires HexDigests(c)
    ensures c.Sha256(x) != MarkerLocator(id)
  {
    var h := c.Sha256(x);
    assert IsHexDigest(h);
    assert h[0] in "0123456789abcdef";
    assert MarkerLocator(id)[0] == 's';
  }

  /** Were `uniqueId` read after its declaration, the challenge locator of a password would be
      exactly the passphrase that protects the seed once that password is in the session. */
  lemma ChallengeLocatorIsSeedPassphrase(c: Primitives, id: string, pwd: string)
    ensures ChallengeLocator(c, id, pwd) == SeedPassphrase(c, id, Some(PasswordHash(c, pwd)))
  {
  }
}
