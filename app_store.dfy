/** The mobx `appStore` the screens share, and the navigation targets they choose. */
module AppState {
  import opened JsValues

  /** The screens the core navigates to. `TransactionDetail` and `GetKey` are always opened
      with `mobile: true`. */
  datatype Route = CreateVault | Secrets | TransactionDetail | GetKey(url: Option<string>)

  /** A snapshot of the `appStore` keys the core reads and writes. */
  datatype Session = Session(
    pwd: Option<string>,
    seed: Option<string>,
    securityFormError: Option<string>,
    isSecurityRequired: bool,
    currentTransaction: Option<Record>,
    isDetailModalVisible: bool,
    currentXdr: Option<string>)

  /** What an operation leaves in the session, and where it navigates (if anywhere). */
  datatype Step = Step(session: Session, nav: Option<Route>)

  /** The shared `appStore`; `appStore.set(k, v)` is an assignment to the field `k`. */
  class AppStore {
    var pwd: Option<string>
    var seed: Option<string>
    var securityFormError: Option<string>
    var isSecurityRequired: bool
    var currentTransaction: Option<Record>
    var isDetailModalVisible: bool
    var currentXdr: Option<string>

    function Snapshot(): (s: Session)
      reads this
    {
      Session(pwd, seed, securityFormError, isSecurityRequired, currentTransaction, isDetailModalVisible, currentXdr)
    }

    /** A fresh store: every key `undefined` (falsy). */
    constructor ()
      ensures Snapshot() == Session(None, None, None, false, None, false, None)
    {
      pwd, seed, securityFormError := None, None, None;
      isSecurityRequired, currentTransaction := false, None;
      isDetailModalVisible, currentXdr := false, None;
    }
  }
}
