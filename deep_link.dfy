/** Where `AuthScreen.loadSeed` navigates, and what it puts in the session on the way:
    the seed it unlocked, and the deep-link transaction `qs.parse` produced. */
module DeepLink {
  import opened JsValues
  import opened AppState
  import opened SeedVault

  /** `deepLinkData.action === 'getkey'`; a missing `action` is not `'getkey'`. */
  predicate AsksForKey(q: Record) {
    Lookup(q, "action") == Some("getkey")
  }

  /** The deep-link branch: key export carries `URL`; anything else becomes the current
      transaction and opens its detail. */
  function FollowLink(s: Session, q: Record): Step {
    if AsksForKey(q) then Step(s, Some(GetKey(Lookup(q, "URL"))))
    else Step(s.(currentTransaction := Some(q)), Some(TransactionDetail))
  }

  /** `loadSeed`, given what reading the seed gives and the parsed deep link (`None` when the
      navigation carries no `data`). */
  function AfterLoadSeed(s: Session, u: Unlock, link: Option<Record>): Step {
    if Truthy(s.seed) then
      match link
      case None => Step(s, None)
      case Some(q) => FollowLink(s, q)
    else
      match u
      case Missing => Step(s, Some(CreateVault))
      case Undecodable => Step(s, None)
      case Opened(seed) =>
        var unlocked := s.(seed := Some(seed));
        match link
        case None => Step(unlocked, Some(Secrets))
        case Some(q) => FollowLink(unlocked, q)
  }

  /** With no seed in the session, a missing (or empty) seed entry sends the user to vault creation. */
  lemma MissingSeedCreatesVault(s: Session, link: Option<Record>)
    requires !Truthy(s.seed)
    ensures AfterLoadSeed(s, Missing, link) == Step(s, Some(CreateVault))
  {
  }

  /** A freshly unlocked seed is put in the session whatever the route, and the route is
      `Secrets` unless a deep link says otherwise. */
  lemma UnlockedSeedInSession(s: Session, seed: string, link: Option<Record>)
    requires !Truthy(s.seed)
    ensures AfterLoadSeed(s, Opened(seed), link).session.seed == Some(seed)
    ensures link.None? ==> AfterLoadSeed(s, Opened(seed), link) == Step(s.(seed := Some(seed)), Some(Secrets))
    ensures AfterLoadSeed(s, Opened(seed), link).nav.Some?
  {
  }

  /** The deep-link routes, the same whether the seed was already in the session or was just
      unlocked: key export keeps the session, any other action becomes the current transaction. */
  lemma DeepLinkRoutes(s: Session, u: Unlock, q: Record)
    requires Truthy(s.seed) || u.Opened?
    ensures var step := AfterLoadSeed(s, u, Some(q));
      && (AsksForKey(q) ==> step.nav == Some(GetKey(Lookup(q, "URL"))) && step.session.currentTransaction == s.currentTransaction)
      && (!AsksForKey(q) ==> step.nav == Some(TransactionDetail) && step.session.currentTransaction == Some(q))
  {
  }

  /** With the seed already in the session and no deep link, `loadSeed` does nothing at all. */
  lemma AlreadyUnlockedStays(s: Session, u: Unlock)
    requires Truthy(s.seed)
    ensures AfterLoadSeed(s, u, None) == Step(s, None)
  {
  }

  /** `loadSeed` writes only `seed` and `currentTransaction`. */
  lemma LoadSeedFrame(s: Session, u: Unlock, link: Option<Record>)
    ensures var t := AfterLoadSeed(s, u, link).session;
      t == s.(seed := t.seed, currentTransaction := t.currentTransaction)
  {
  }
}
