/** `AuthScreen`: the password form, and the seed it unlocks once the password is accepted. */
module AuthScreens {
  import opened JsValues
  import opened Crypto
  import opened KeyDerivation
  import opened AppState
  import opened SecretStores
  import opened DocStores
  import opened PasswordGate
  import opened SeedVault
  import opened DeepLink

  class AuthScreen {
    const c: Primitives
    /** `DeviceInfo.getUniqueID()`. */
    const deviceId: string
    /** What `${uniqueId}` gives where `pwdKey` is built, before `uniqueId` is declared. */
    const reading: LocatorReading
    const app: AppStore
    const secrets: SecretStore
    const db: DocStore
    var firstSecret: Option<Record>

    constructor (c: Primitives, deviceId: string, reading: LocatorReading, app: AppStore, secrets: SecretStore, db: DocStore)
      ensures this.c == c && this.deviceId == deviceId && this.reading == reading
      ensures this.app == app && this.secrets == secrets && this.db == db
      ensures firstSecret == None
    {
      this.c, this.deviceId, this.reading := c, deviceId, reading;
      this.app, this.secrets, this.db := app, secrets, db;
      firstSecret := None;
    }

    /** The deep-link branch shared by both arms of `loadSeed`. */
    method FollowDeepLink(q: Record) returns (nav: Option<Route>)
      modifies app
      ensures Step(app.Snapshot(), nav) == FollowLink(old(app.Snapshot()), q)
    {
      var action := Lookup(q, "action");
      if action != Some("getkey") {
        app.currentTransaction := Some(q);
        nav := Some(TransactionDetail);
      } else {
        nav := Some(GetKey(Lookup(q, "URL")));
      }
    }

    /** `loadSeed`: with no seed in the session, decrypts the stored seed under the session's
        `pwd` and routes on the outcome; with one, only follows the deep link (if any). */
    method LoadSeed(link: Option<Record>) returns (nav: Option<Route>)
      modifies app
      ensures Step(app.Snapshot(), nav) == AfterLoadSeed(old(app.Snapshot()), UnlockSeed(c, deviceId, secrets.entries, old(app.pwd)), link)
    {
      nav := None;
      if !Truthy(app.seed) {
        var pwd := app.pwd;
        var value := secrets.GetItem(SeedLocator(c, deviceId));
        if Truthy(value) {
          var bytes := c.Decrypt(value.value, SeedPassphrase(c, deviceId, pwd));
          // `None`: `toString(enc.Utf8)` throws inside the callback and nothing happens
          if bytes.Some? {
            if bytes.value != "" {
              app.seed := Some(bytes.value);
              if link.Some? {
                nav := FollowDeepLink(link.value);
              } else {
                nav := Some(Secrets);
              }
            } else {
              nav := Some(CreateVault);
            }
          }
        } else {
          nav := Some(CreateVault);
        }
      } else if link.Some? {
        nav := FollowDeepLink(link.value);
      }
    }

    /** `submit(pwd)`: the password gate, then `loadSeed` on the branches that open it. `salt`
        stands for the random salt `AES.encrypt` draws. */
    method Submit(pwd: string, salt: Salt, link: Option<Record>) returns (nav: Option<Route>)
      modifies app, secrets
      ensures secrets.entries == GateStore(c, reading, deviceId, old(secrets.entries), pwd, salt)
      ensures var b := Decide(c, reading, deviceId, old(secrets.entries), pwd);
        var gated := GateSession(old(app.Snapshot()), b, c, pwd);
        Step(app.Snapshot(), nav) ==
          if b.Opens() then AfterLoadSeed(gated, UnlockSeed(c, deviceId, secrets.entries, gated.pwd), link)
          else Step(gated, None)
    {
      nav := None;
      var encodedPwd := PasswordHash(c, pwd);
      var ss := Passphrase(c, pwd);
      if reading.DeadZone? {
        // reading `uniqueId` ahead of its declaration throws; the catch reports it
        app.securityFormError := Some(InvalidPassword);
        return;
      }
      var pwdKey := ChallengeLocator(c, reading.device, pwd);
      var pwdencoded := secrets.GetItem(pwdKey);
      var isUniq := secrets.GetItem(MarkerLocator(deviceId));
      if Truthy(pwdencoded) {
        var bytes := c.Decrypt(pwdencoded.value, ss);
        if bytes.Some? && bytes.value != "" {
          app.pwd, app.securityFormError, app.isSecurityRequired := Some(encodedPwd), None, false;
          nav := LoadSeed(link);
        } else {
          // a decryption that throws is caught and reported like an empty one
          app.securityFormError := Some(InvalidPassword);
        }
      } else if isUniq == Some(Created) {
        app.securityFormError := Some(InvalidPassword);
      } else {
        app.pwd, app.securityFormError, app.isSecurityRequired := Some(encodedPwd), None, false;
        secrets.SetItem(pwdKey, c.Encrypt(pwd, ss, salt));
        secrets.SetItem(MarkerLocator(deviceId), Created);
        nav := LoadSeed(link);
      }
    }

    /** `loadData`: keeps the first row of the document listing, when there is one; `listing`
        is what the read gave (`None` when it was rejected). */
    method LoadData() returns (ghost listing: Option<seq<Record>>)
      requires db.Valid()
      modifies this`firstSecret
      ensures listing.Some? ==> IsListing(db.records, listing.value)
      ensures firstSecret == if listing.Some? && listing.value != [] then Some(listing.value[0]) else old(firstSecret)
    {
      var res := db.AllDocs();
      listing := res;
      if res.Some? && res.value != [] {
        firstSecret := Some(res.value[0]);
      }
    }

    /** `toggleModal`: flips `isSecurityRequired` and nothing else. */
    method ToggleModal()
      modifies app
      ensures app.Snapshot() == old(app.Snapshot()).(isSecurityRequired := !old(app.isSecurityRequired))
    {
      app.isSecurityRequired := !app.isSecurityRequired;
    }
  }
}
