# tron-vault screens, modelled in Dafny

tron-vault is a React Native cold wallet. Three of its screens hold the logic modelled here:

- `AuthScreen` guards the app with a password. On first use it creates a self-verifying challenge in the
  device secret store. Later it checks a candidate password against that challenge, then unlocks the
  encrypted seed and routes to the next screen, following a deep link if one came in.
- `CreateVaultScreen` shows a generated mnemonic. It checks the phrase the user types back, then seals
  that phrase in the secret store.
- `HomeScreen` keeps the transaction ledger, a PouchDB document store. It lists the ledger newest first
  and saves, rejects and deletes records.

## How the model is built

- **Abstract primitives.** SHA-256 and crypto-js' passphrase AES are function values inside
  `Crypto.Primitives`, so nothing about them is built in. Decryption returns `None` where
  `toString(enc.Utf8)` would throw.
- **Laws as preconditions.** The one law used is `Crypto.RoundTrips`: decrypting under the same
  passphrase gives the message back. `Crypto.HexDigests` is a format fact: every digest renders as 64
  lower-case hex characters. Lemmas that need either one say so in a `requires`. There is no axiom.
- **Pure decisions.** The screens' decisions are pure functions over a secret-store map and the session
  fields:
  - `PasswordGate.Decide` and `GateStore` for the password gate;
  - `SeedVault.UnlockSeed` and `SealSeed` for the seed;
  - `DeepLink.AfterLoadSeed` for routing;
  - `SeedPhrase.Judge` for phrase validation;
  - `Ledger.Display` for the transaction list.
- **Screens as classes.** Each screen is a class whose fields are the mutable state: the mobx `appStore`
  (`AppState.AppStore`), the secret store (`SecretStores.SecretStore`) and the document store
  (`DocStores.DocStore`). Each method's postcondition ties the new state to those functions.
- **Randomness and deep links.** The random AES salt, the `uuid()` drawn and the generated mnemonic are
  parameters. A deep link arrives as the record `qs.parse` produced.

## Reading of the source

- **`uniqueId` read too early.** At `AuthScreen.submit`, `uniqueId` is read (src/screens/AuthScreen.js:145)
  one line before it is declared (line 146).
  - Under ECMAScript block scoping that read throws. The catch then turns every attempt into
    "Invalid password!" (`PasswordGate.LocatorReading.DeadZone`).
  - Once Babel lowers `const` to `var`, the read gives `undefined`, so the challenge locator is built from
    the text `"undefined"` (the reading `Resolved("undefined")`).
  - The screen class takes the reading as a parameter. Every property of the gate is proved for every
    `Resolved(device)`, so it holds both for the Babel reading and for an in-order declaration.
- **Challenge format.** The code encrypts the raw password under the passphrase `hash + ":" + pwd`
  (lines 144 and 167). The challenge is stored at `sha256("ss-" + id + "-" + hash)`. The "created" marker
  sits at the unhashed `ss-<id>`. The seed lives at `sha256("ss-" + id)`, a different input from the
  challenge locator.
- **The locator is the seed passphrase.** With `uniqueId` declared in time, the challenge locator of a
  password is exactly the passphrase that protects the seed under that password. The locator is an
  ordinary entry name in the secret store. `KeyDerivation.ChallengeLocatorIsSeedPassphrase` proves the
  equality.
- **24 or 12 words.** The mnemonic is generated from 256 bits of entropy, which is 24 words
  (src/screens/CreateVaultScreen.js:64). The `restore` tab accepts only 12 words, so that tab refuses a
  phrase this screen generated. The model records this and keeps both.
- **Untrimmed seed in the session.** `createSeed` seals the trimmed phrase but puts the untrimmed one in
  the session. A later unlock gives back the trimmed one.
- **Stale list after the last delete.** Saving, rejecting and deleting reload with the default
  `prevTx = []`. An empty ledger then has the same length as `prevTx`, so the reload that
  `deleteTransaction` makes after removing the last record does not refresh the list
  (`HomeScreens.EmptyLedgerKeepsList`). The claim is limited to reloads with the default `prevTx`:
  the `setState` of that reload also runs `shouldComponentUpdate` (src/screens/HomeScreen.js:105-108),
  which reloads with the list on screen as `prevTx`, sees a different length and does refresh it.
  That lifecycle reload is not part of this model.
- **Empty password.** A first run with the empty password stores a challenge that decrypts to `""`. The
  marker is set, so that device can never be unlocked again (`PasswordGate.EmptyPasswordLocksOut`).

## Model

| member | source | states |
|---|---|---|
| PasswordGate.FirstRunOpens | src/screens/AuthScreen.js:160-170 | with no challenge and no marker the attempt opens: the session gets `pwd = sha256(p)`, no error and `isSecurityRequired = false`; exactly two distinct entries are written, the challenge at `pwdKey` and "created" at `ss-<id>`, and every other entry is kept |
| PasswordGate.ClaimedRefuses | src/screens/AuthScreen.js:160-162 | with no challenge but the marker "created", the attempt is refused with "Invalid password!", the store is unchanged and `pwd` is untouched |
| PasswordGate.ChallengeOpens | src/screens/AuthScreen.js:149-156 | a stored challenge that decrypts to non-empty text opens the gate and writes nothing |
| PasswordGate.EmptyChallengeRefuses | src/screens/AuthScreen.js:150-158 | a stored challenge that decrypts to "" refuses the attempt |
| PasswordGate.SamePasswordOpensAgain | src/screens/AuthScreen.js:143-168 | round trip: after a first run with a non-empty password, the same password takes the opening branch through the stored challenge |
| PasswordGate.EmptyPasswordLocksOut | src/screens/AuthScreen.js:149-169 | after a first run with the empty password, no later attempt with it opens the gate |
| PasswordGate.OtherPasswordRefused | src/screens/AuthScreen.js:145-162 | after a first run, a password with a different, unwritten challenge locator is refused by the marker |
| PasswordGate.DeadZoneRefusesAll | src/screens/AuthScreen.js:145-175 | when `uniqueId` throws, every attempt is refused with "Invalid password!" and writes nothing |
| PasswordGate.RefusalsLookAlike | src/screens/AuthScreen.js:153-175 | `pwd` changes only on the two opening branches, and there it becomes the hash; every refusal, caught exception included, leaves the same message and changes nothing else |
| KeyDerivation.MarkerIsNoDigest | src/screens/AuthScreen.js:145-148 | no hashed locator can be the unhashed marker `ss-<id>` |
| KeyDerivation.ChallengeLocatorIsSeedPassphrase | src/screens/AuthScreen.js:145-146 | with `uniqueId` read after its declaration, the challenge locator equals the seed passphrase of the hashed password |
| SeedVault.SeedRoundTrip | src/screens/CreateVaultScreen.js:77-81 | reading back a sealed seed under the same session `pwd` gives the trimmed seed, or `Missing` when it trims to "" |
| SeedVault.SealWritesOneEntry | src/screens/CreateVaultScreen.js:79-82 | sealing writes the seed entry, overwriting it, and keeps every other entry |
| SeedVault.SealKeepsGate | src/screens/CreateVaultScreen.js:79-82 | sealing the seed leaves the password gate's decision unchanged |
| SeedVault.GateKeepsSeed | src/screens/AuthScreen.js:167-169 | creating the challenge and marker leaves the seed readout unchanged |
| DeepLink.MissingSeedCreatesVault | src/screens/AuthScreen.js:68-93 | with no seed in session, an absent or empty seed entry routes to `CreateVault` and changes nothing |
| DeepLink.UnlockedSeedInSession | src/screens/AuthScreen.js:73-87 | a freshly unlocked seed is put in the session whatever the route; there is always a route, and with no deep link it is `Secrets` |
| DeepLink.DeepLinkRoutes | src/screens/AuthScreen.js:75-108 | `action = 'getkey'` routes to `GetKey` with the link's `URL` and keeps `currentTransaction`; any other action sets `currentTransaction` to the link and routes to `TransactionDetail` |
| DeepLink.AlreadyUnlockedStays | src/screens/AuthScreen.js:99-110 | with a seed already in session and no deep link, `loadSeed` neither navigates nor changes anything |
| DeepLink.LoadSeedFrame | src/screens/AuthScreen.js:61-112 | `loadSeed` writes no session field other than `seed` and `currentTransaction` |
| AuthScreens.AuthScreen.constructor | src/screens/AuthScreen.js:38-40 | starts with no first secret (`firstSecret` undefined) |
| AuthScreens.AuthScreen.FollowDeepLink | src/screens/AuthScreen.js:78-83 | the session and route after the deep-link branch are those of `DeepLink.FollowLink` |
| AuthScreens.AuthScreen.LoadSeed | src/screens/AuthScreen.js:61-112 | the session and route are those of `AfterLoadSeed` applied to the seed read with the session's `pwd` |
| AuthScreens.AuthScreen.Submit | src/screens/AuthScreen.js:139-176 | the store becomes `GateStore`; a refused attempt leaves `GateSession` and no route; an opening one runs `loadSeed` on the gated session and the new store |
| AuthScreens.AuthScreen.LoadData | src/screens/AuthScreen.js:123-137 | `firstSecret` becomes the first row of a listing of every stored record, one row per record, when there is one, and is unchanged otherwise |
| AuthScreens.AuthScreen.ToggleModal | src/screens/AuthScreen.js:178-181 | negates `isSecurityRequired` and changes nothing else |
| SecretStores.SecretStore.GetItem | src/screens/AuthScreen.js:147-148 | gives the stored text, or `undefined` when nothing is stored |
| SecretStores.SecretStore.SetItem | src/screens/AuthScreen.js:168-169 | stores the value at the key, replacing what was there, and changes no other entry |
| SeedPhrase.OnlyValidSeedsProceed | src/screens/CreateVaultScreen.js:93-120 | a phrase failing `validateMnemonic` is refused with the typo message on every tab, and only valid phrases proceed |
| SeedPhrase.CreateTabNeverProceeds | src/screens/CreateVaultScreen.js:94-115 | on the `create` tab the button never proceeds; with a valid phrase it does nothing at all |
| SeedPhrase.ContinueNeedsExactMnemonic | src/screens/CreateVaultScreen.js:95-103 | on `continue` a valid phrase proceeds iff it is non-empty and, trimmed, equals the mnemonic; otherwise it is refused with the "same order" message |
| SeedPhrase.RestoreNeedsTwelveWords | src/screens/CreateVaultScreen.js:106-114 | on `restore` a valid phrase proceeds iff the trimmed text splits into 12 pieces; those are then non-empty, whitespace-free and hold every non-blank character in order; a blank phrase and any other count are refused with the "12 words" message |
| CreateVaultScreens.CreateVaultScreen.constructor | src/screens/CreateVaultScreen.js:53-67 | starts on `create` with the generated mnemonic and nothing typed |
| CreateVaultScreens.CreateVaultScreen.SetCurrentTab | src/screens/CreateVaultScreen.js:69-71 | changes `tab` and nothing else |
| CreateVaultScreens.CreateVaultScreen.ChangeSeedText | src/screens/CreateVaultScreen.js:158 | the typed text is kept lower-cased |
| CreateVaultScreens.CreateVaultScreen.CreateSeed | src/screens/CreateVaultScreen.js:73-89 | with a typed value the store becomes `SealSeed` under the session `pwd`, the session `seed` becomes the untrimmed value and the route is `Secrets`; with none nothing changes |
| CreateVaultScreens.CreateVaultScreen.RestoreSeed | src/screens/CreateVaultScreen.js:91-121 | follows `Judge`: a refusal sets its message and writes nothing; a pass sets the success message and does what `createSeed` does; the `create` tab changes nothing |
| CreateVaultScreens.RestoredSeedUnlocks | src/screens/CreateVaultScreen.js:79-109 | a phrase that passed the checks is sealed non-blank and unlocks back to its trimmed text under the same `pwd` |
| JsStrings.TrimShape | src/screens/CreateVaultScreen.js:81 | `trim` removes only a whitespace prefix and suffix, and leaves neither |
| JsStrings.TrimIdempotent | src/screens/CreateVaultScreen.js:96 | trimming twice is trimming once |
| JsStrings.SplitWords | src/screens/CreateVaultScreen.js:107 | the pieces of `split(/\s+/g)` hold no whitespace and, concatenated, give every non-whitespace character in order |
| JsStrings.WordCountOfTrimmed | src/screens/CreateVaultScreen.js:107 | a blank phrase splits into one empty piece; otherwise the pieces of a trimmed phrase are its non-empty words |
| JsStrings.LowerCaseProperties | src/screens/CreateVaultScreen.js:158 | lower-casing keeps the length, leaves no ASCII capital, keeps all other characters and is idempotent |
| JsStrings.StrLeTotal | src/screens/HomeScreen.js:116 | string order is total |
| JsStrings.StrLeAntisymmetric | src/screens/HomeScreen.js:116 | string order is antisymmetric |
| JsStrings.StrLeTransitive | src/screens/HomeScreen.js:116 | string order is transitive |
| Ledger.KeyLeTotal | src/screens/HomeScreen.js:116 | the `createdAt` order, with missing keys last, is total |
| Ledger.KeyLeAntisymmetric | src/screens/HomeScreen.js:116 | the `createdAt` order is antisymmetric |
| Ledger.KeyLeTransitive | src/screens/HomeScreen.js:116 | the `createdAt` order is transitive |
| Ledger.SortProperties | src/screens/HomeScreen.js:116 | `sortBy(rows, 'createdAt')` is a permutation of the rows, ascending, and keeps rows with equal keys in their order |
| Ledger.WithKeyReverse | src/screens/HomeScreen.js:116 | `reverse` reverses the rows of each key |
| Ledger.Display | src/screens/HomeScreen.js:114-116 | the shown list is a permutation of the rows, newest `createdAt` first, with rows of equal key in reverse row order |
| Ledger.DescendingUnique | src/screens/HomeScreen.js:116 | when keys are distinct, only one newest-first order of the records exists |
| Ledger.NewestFirst | src/screens/HomeScreen.js:114-116 | three records created at increasing times are shown newest first, whatever order the store lists them in |
| Ledger.WithFreshId | src/screens/HomeScreen.js:194-197 | the saved record has every field of `tx`, `tx`'s own `_id` included, and the fresh id only when `tx` has none |
| Ledger.AsRejected | src/screens/HomeScreen.js:209-213 | the rejected record has every field of the current transaction with `status = 'REJECTED'` |
| DocStores.DocStore.AllDocs | src/screens/HomeScreen.js:114-115 | a successful read lists every stored record exactly once, one row per stored `_id` |
| DocStores.DistinctValues | src/screens/HomeScreen.js:114-115 | records stored under their own `_id` are pairwise distinct, so there are as many records as ids |
| DocStores.DocStore.Put | src/screens/HomeScreen.js:194-197 | stores the record under its `_id`, replacing any record there, and refuses a record without `_id`; every record stays under its own `_id` |
| DocStores.DocStore.Remove | src/screens/HomeScreen.js:224 | removes exactly the record stored under `doc._id`, refusing when there is none, and keeps every other record |
| HomeScreens.HomeScreen.constructor | src/screens/HomeScreen.js:85-91 | starts with an empty list that is loading |
| HomeScreens.HomeScreen.LoadTransactions | src/screens/HomeScreen.js:111-129 | after a read, the list is replaced by `Display` of the listing iff its length differs from `prevTx`'s, and the result says which; after a failed read it answers `false` and keeps the list; `isLoadingList` ends `false` |
| HomeScreens.HomeScreen.Reload | src/screens/HomeScreen.js:111-128 | a reload with the default `prevTx = []` keeps the list or shows a non-empty listing in `Display` order |
| HomeScreens.EmptyLedgerKeepsList | src/screens/HomeScreen.js:117-121 | once the ledger is empty, a reload with the default `prevTx = []` leaves the list as it was |
| HomeScreens.HomeScreen.ToggleDetailModal | src/screens/HomeScreen.js:139-142 | negates `isDetailModalVisible` and changes nothing else |
| HomeScreens.HomeScreen.SaveTransaction | src/screens/HomeScreen.js:191-203 | stores `{ _id: freshId, ...tx }` under its `_id`, reloads, clears `currentXdr`, and ends with `isLoadingList` false |
| HomeScreens.HomeScreen.CancelTransaction | src/screens/HomeScreen.js:205-220 | stores the current transaction as rejected under its `_id`, reloads (ending with `isLoadingList` false), flips the detail modal and clears `currentTransaction`; with no current transaction nothing changes, `isLoadingList` included |
| HomeScreens.HomeScreen.DeleteTransaction | src/screens/HomeScreen.js:222-229 | removes the given record and reloads, ending with `isLoadingList` false; a refused removal changes nothing, `isLoadingList` included |

## Findings

| source | as written | input that shows it | evidently intended | confidence | as-written member | corrected member |
|---|---|---|---|---|---|---|
| src/screens/AuthScreen.js:145-146 | `pwdKey` reads `uniqueId` one line before `const uniqueId` is declared | any `submit(pwd)` under ECMAScript block scoping | the challenge locator is built from the device id and a correct password opens the vault | high, not executed | PasswordGate.DeadZoneRefusesAll | PasswordGate.SamePasswordOpensAgain |

The corrected half is the gate proved for every `Resolved(device)`, in particular for the device id read
after its declaration; `AuthScreens.AuthScreen` takes the reading as a parameter.

## Left out

- Storage failure: SInfo and PouchDB I/O failures are not modelled. A rejected `SInfo.getItem` in
  `submit` would end in the catch, like `Threw`. `DocStores.DocStore.AllDocs` always reads, but every
  caller is proved for a failed read too.
- Ordering: the asynchrony of every storage call is left out, including the unawaited `setItem` and
  `put` calls (src/screens/AuthScreen.js:168-169; src/screens/HomeScreen.js:194, 209). They are modelled
  as finishing in program order, before the reload or `loadSeed` that follows.
- PouchDB revisions: `_rev` conflicts are not modelled. `put` is an upsert, and `remove` needs only
  `_id`.
- AuthScreens.AuthScreen.LoadData: the listing is in an arbitrary order, not PouchDB's `_id` order. Its
  catch branch (line 135) sets the error only for a synchronous throw from `allDocs`, which is not
  modelled.
- Crypto internals: SHA-256 (FIPS 180-4) and crypto-js AES with OpenSSL `EVP_BytesToKey` key derivation
  are not modelled. Nothing is assumed about decryption under a wrong passphrase, so the model does not
  prove that a wrong password is refused when a challenge exists.
- PasswordGate.SamePasswordOpensAgain and SeedVault.SeedRoundTrip also take as a precondition that the
  ciphertext text is non-empty. crypto-js output always starts with a salted header, but the model only
  states it.
- CreateVaultScreens.RestoredSeedUnlocks: takes the same non-empty ciphertext precondition, for the
  same reason, and also requires that the typed mnemonic is not the empty string.
- BIP-39: `bip39.generateMnemonic`, `validateMnemonic` and `randomatic` are abstract. The mnemonic is a
  constructor parameter, and validation is a predicate on defined values. An undefined value is
  treated as invalid, because the library catches its own error and answers `false`.
- `qs.parse` is not modelled: a deep link arrives as the record it produced.
- Route parameters: the constant `mobile: true` passed with `TransactionDetail` and `GetKey` is not
  modelled.
- JsStrings.LowerCaseProperties: `toLowerCase` is modelled for ASCII letters only; other characters are
  kept, so Unicode case mapping beyond ASCII is not captured.
- Ledger.KeyLe: records hold string fields only. `createdAt` values are compared character by character
  as Unicode code points; this differs from JavaScript's UTF-16 order only around surrogate pairs.
- UI is not modelled: rendering, `navigationOptions`, button animations, `Keyboard`, `alert`
  (`createSeed`'s catch only alerts), `SplashScreen` and the mount-time alert.
- Lifecycle and dead code are not modelled: React lifecycle loops (`shouldComponentUpdate`,
  `handleCurrentTx`), `decodeXdr`, `saveCurrentTransaction`, `toggleAddModal`, `enableDeepLinks` and
  `debugKeychain`.
  The reload `shouldComponentUpdate` makes passes the list on screen as `prevTx`; it would refresh
  the list that `HomeScreens.EmptyLedgerKeepsList` shows a default reload leaving in place.
