/** `CreateVaultScreen`: shows a generated mnemonic and seals the seed the user types back. */
module CreateVaultScreens {
  import opened JsValues
  import opened JsStrings
  import opened Crypto
  import opened KeyDerivation
  import opened AppState
  import opened SecretStores
  import opened SeedVault
  import opened SeedPhrase

  class CreateVaultScreen {
    const c: Primitives
    const deviceId: string
    /** `bip39.validateMnemonic` on a defined value. */
    const validate: string -> bool
    const app: AppStore
    const secrets: SecretStore
    var tab: Tab
    var mnemonic: Option<string>
    var seedValue: Option<string>
    var errorMessage: Option<string>
    var successMessage: Option<string>

    /** The initial state, with `generated` as the mnemonic `componentDidMount` draws. */
    constructor (c: Primitives, deviceId: string, validate: string -> bool, app: AppStore, secrets: SecretStore, generated: string)
      ensures this.c == c && this.deviceId == deviceId && this.validate == validate
      ensures this.app == app && this.secrets == secrets
      ensures tab == Create && mnemonic == Some(generated)
      ensures seedValue == None && errorMessage == None && successMessage == None
    {
      this.c, this.deviceId, this.validate := c, deviceId, validate;
      this.app, this.secrets := app, secrets;
      tab, mnemonic := Create, Some(generated);
      seedValue, errorMessage, successMessage := None, None, None;
    }

    /** `setCurrentTab`: changes the tab and nothing else. */
    method SetCurrentTab(t: Tab)
      modifies this`tab
      ensures tab == t
    {
      tab := t;
    }

    /** The seed input's `onChangeText`: the text is kept lower-cased. */
    method ChangeSeedText(text: string)
      modifies this`seedValue
      ensures seedValue == Some(ToLowerCase(text))
    {
      seedValue := Some(ToLowerCase(text));
    }

    /** `createSeed`, with `salt` for the random salt `AES.encrypt` draws: seals the trimmed
        seed under the session's `pwd`, puts the untrimmed value in the session and opens
        `Secrets`. With no value typed, `trim` throws before anything is written. */
    method CreateSeed(salt: Salt) returns (nav: Option<Route>)
      modifies app, secrets
      ensures seedValue.None? ==> nav == None && secrets.entries == old(secrets.entries) && app.Snapshot() == old(app.Snapshot())
      ensures seedValue.Some? ==>
        && nav == Some(Secrets)
        && secrets.entries == SealSeed(c, deviceId, old(secrets.entries), old(app.pwd), seedValue.value, salt)
        && app.Snapshot() == old(app.Snapshot()).(seed := seedValue)
    {
      nav := None;
      if seedValue.Some? {
        var pwd := app.pwd;
        var ciphertext := c.Encrypt(Trim(seedValue.value), SeedPassphrase(c, deviceId, pwd), salt);
        secrets.SetItem(SeedLocator(c, deviceId), ciphertext);
        app.seed := seedValue;
        nav := Some(Secrets);
      }
    }

    /** `restoreSeed`: runs the check for the current tab, shows its message, and on success
        goes on to `createSeed`. Neither message is cleared by the other. */
    method RestoreSeed(salt: Salt) returns (nav: Option<Route>)
      modifies this`errorMessage, this`successMessage, app, secrets
      ensures var v := Judge(tab, mnemonic, seedValue, validate);
        && (v.Refuse? ==> errorMessage == Some(v.message) && successMessage == old(successMessage))
        && (!v.Refuse? ==> errorMessage == old(errorMessage))
        && (v.Proceed? ==> successMessage == Some(Restoring))
        && (v.Idle? ==> successMessage == old(successMessage))
        && (v.Proceed? ==>
              && nav == Some(Secrets)
              && secrets.entries == SealSeed(c, deviceId, old(secrets.entries), old(app.pwd), seedValue.value, salt)
              && app.Snapshot() == old(app.Snapshot()).(seed := seedValue))
        && (!v.Proceed? ==> nav == None && secrets.entries == old(secrets.entries) && app.Snapshot() == old(app.Snapshot()))
    {
      nav := None;
      if IsValidSeed(seedValue, validate) {
        if tab == Continue {
          if !Truthy(seedValue) || mnemonic != Some(Trim(seedValue.value)) {
            errorMessage := Some(WrongOrder);
          } else {
            successMessage := Some(Restoring);
            nav := CreateSeed(salt);
          }
        }
        if tab == Restore {
          if |Split(Trim(seedValue.value))| == 12 {
            successMessage := Some(Restoring);
            nav := CreateSeed(salt);
          } else {
            errorMessage := Some(WrongCount);
          }
        }
      } else {
        errorMessage := Some(Typo);
      }
    }
  }

  /** What `restoreSeed` leaves for the next unlock: with the same session `pwd`, a seed that
      got through the checks reads back, trimmed (on the `continue` tab, as long as the
      generated mnemonic is not blank). */
  lemma RestoredSeedUnlocks(c: Primitives, id: string, store: map<string, string>, sessionPwd: Option<string>,
                            tab: Tab, mnemonic: Option<string>, v: string, validate: string -> bool, salt: Salt)
    requires RoundTrips(c)
    requires Judge(tab, mnemonic, Some(v), validate) == Proceed
    requires mnemonic != Some("")
    requires c.Encrypt(Trim(v), SeedPassphrase(c, id, sessionPwd), salt) != ""
    ensures Trim(v) != []
    ensures UnlockSeed(c, id, SealSeed(c, id, store, sessionPwd, v, salt), sessionPwd) == Opened(Trim(v))
  {
    if tab == Restore {
      RestoreNeedsTwelveWords(mnemonic, v, validate);
    }
    SeedRoundTrip(c, id, store, sessionPwd, v, salt);
  }
}
