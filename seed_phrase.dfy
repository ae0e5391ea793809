/** The validation `CreateVaultScreen.restoreSeed` runs before it seals a seed. */
module SeedPhrase {
  import opened JsValues
  import opened JsStrings

  /** The tabs of the vault screen: `'create'`, `'continue'` and `'restore'`. */
  datatype Tab = Create | Continue | Restore

  const WrongOrder := "Invalid seed combination, please make sure to write with the same order."
  const WrongCount := "Invalid seed combination, you must type a seed with 12 words."
  const Typo := "Invalid seed. Please, check if any of your 12 words has any typo."
  const Restoring := "The seed combination is valid. We are restoring your master key..."

  /** The outcome of one press of "Restore Seed": go on to `createSeed`, show an error, or
      (on the `create` tab) do nothing. */
  datatype Verdict = Proceed | Refuse(message: string) | Idle

  /** `bip39.validateMnemonic(seedValue)`, with `validate` standing for the word-list check;
      an `undefined` value fails it (the library catches its own exception and says `false`). */
  predicate IsValidSeed(seedValue: Option<string>, validate: string -> bool) {
    seedValue.Some? && validate(seedValue.value)
  }

  /** The verdict for `tab`, the generated `mnemonic` and the typed `seedValue`. */
  function Judge(tab: Tab, mnemonic: Option<string>, seedValue: Option<string>, validate: string -> bool): Verdict {
    if !IsValidSeed(seedValue, validate) then Refuse(Typo)
    else match tab
      case Create => Idle
      case Continue =>
        if !Truthy(seedValue) || mnemonic != Some(Trim(seedValue.value)) then Refuse(WrongOrder) else Proceed
      case Restore =>
        if |Split(Trim(seedValue.value))| == 12 then Proceed else Refuse(WrongCount)
  }

  /** An invalid mnemonic is refused with the typo message on every tab, and nothing proceeds
      without a valid one. */
  lemma OnlyValidSeedsProceed(tab: Tab, mnemonic: Option<string>, seedValue: Option<string>, validate: string -> bool)
    ensures !IsValidSeed(seedValue, validate) <==> Judge(tab, mnemonic, seedValue, validate) == Refuse(Typo)
    ensures Judge(tab, mnemonic, seedValue, validate) == Proceed ==> IsValidSeed(seedValue, validate)
  {
  }

  /** On the `create` tab the button never leads anywhere. */
  lemma CreateTabNeverProceeds(mnemonic: Option<string>, seedValue: Option<string>, validate: string -> bool)
    ensures Judge(Create, mnemonic, seedValue, validate) != Proceed
    ensures IsValidSeed(seedValue, validate) ==> Judge(Create, mnemonic, seedValue, validate) == Idle
  {
  }

  /** On the `continue` tab a valid seed proceeds exactly when, trimmed, it is the generated
      mnemonic word for word; anything else is refused as being out of order. */
  lemma ContinueNeedsExactMnemonic(mnemonic: Option<string>, v: string, validate: string -> bool)
    requires validate(v)
    ensures Judge(Continue, mnemonic, Some(v), validate) == Proceed <==> v != "" && mnemonic == Some(Trim(v))
    ensures Judge(Continue, mnemonic, Some(v), validate) != Proceed ==> Judge(Continue, mnemonic, Some(v), validate) == Refuse(WrongOrder)
  {
  }

  /** On the `restore` tab a valid seed proceeds exactly when its trimmed text splits into 12
      pieces; those pieces are then 12 non-empty words without whitespace that hold, in order,
      every non-blank character typed. A blank entry counts as one piece and is refused. */
  lemma RestoreNeedsTwelveWords(mnemonic: Option<string>, v: string, validate: string -> bool)
    requires validate(v)
    ensures Judge(Restore, mnemonic, Some(v), validate) == Proceed <==> |Split(Trim(v))| == 12
    ensures Judge(Restore, mnemonic, Some(v), validate) != Proceed ==> Judge(Restore, mnemonic, Some(v), validate) == Refuse(WrongCount)
    ensures Judge(Restore, mnemonic, Some(v), validate) == Proceed ==>
      && (forall k :: 0 <= k < 12 ==> Split(Trim(v))[k] != [] && NoWhitespace(Split(Trim(v))[k]))
      && Concat(Split(Trim(v))) == Letters(Trim(v))
    ensures Trim(v) == [] ==> Judge(Restore, mnemonic, Some(v), validate) == Refuse(WrongCount)
  {
    WordCountOfTrimmed(v);
    SplitWords(Trim(v));
  }
}
