/**
 * The client's authentication slice (a Redux reducer) together with the two browser
 * storage entries it reads and clears. The reducer is given twice: as the pure
 * transition function `Reduce`, about which the invariants are proved, and as the
 * `AuthStore` object whose `Dispatch` assigns the fields of the state in place.
 */
module AuthSlice {
  import opened Wrappers
  import opened Text

  /** The user record the server returns and the client keeps. */
  datatype User = User(id: string, username: string, email: string, role: string, isVerified: bool)

  /** The two storage entries the slice uses: "token" and "user". */
  datatype StorageKey = TokenKey | UserKey

  type Storage = map<StorageKey, string>

  /** What `JSON.parse` makes of the stored user text (it throws on malformed text). */
  datatype ParsedUser = Unparseable | NullValue | UserObject(user: User)

  datatype AuthState = AuthState(
    user: Option<User>,
    token: Option<string>,
    isLoading: bool,
    isAuthenticated: bool,
    error: Option<string>,
    message: Option<string>,
    pendingVerification: Option<string>,
    verificationSuccess: bool,
    resendSuccess: bool,
    loginError: bool)

  /** The slice state together with the storage it reads and clears. */
  datatype Session = Session(auth: AuthState, storage: Storage)

  /** Every action the slice handles: its seven reducers, the restore step and the thunk cases. */
  datatype Action =
    | ClearError
    | ClearMessage
    | SetPendingVerification(email: Option<string>)
    | ClearPendingVerification
    | ClearVerificationSuccess
    | ClearResendSuccess
    | ClearLoginError
    | LoadUserFromStorage
    | SignupPending
    | SignupFulfilled(message: Option<string>, email: Option<string>)
    | SignupRejected(reason: string)
    | LoginPending
    | LoginFulfilled(user: Option<User>, token: Option<string>, message: Option<string>)
    | LoginRejected(message: Option<string>, email: Option<string>, userId: Option<string>)
    | VerifyPending
    | VerifyFulfilled(message: Option<string>)
    | VerifyRejected(reason: string)
    | ResendPending
    | ResendFulfilled(message: Option<string>)
    | ResendRejected(reason: string)
    | LogoutPending
    | LogoutFulfilled
    | LogoutRejected
  {
    /** The slice's own reducers, as opposed to the request lifecycle cases. */
    predicate IsReducer() {
      ClearError? || ClearMessage? || SetPendingVerification? || ClearPendingVerification?
      || ClearVerificationSuccess? || ClearResendSuccess? || ClearLoginError?
    }

    predicate IsPending() {
      SignupPending? || LoginPending? || VerifyPending? || ResendPending? || LogoutPending?
    }

    predicate IsSettled() {
      SignupFulfilled? || SignupRejected? || LoginFulfilled? || LoginRejected?
      || VerifyFulfilled? || VerifyRejected? || ResendFulfilled? || ResendRejected?
      || LogoutFulfilled? || LogoutRejected?
    }
  }

  /** `localStorage.getItem(k)` is truthy. */
  predicate HasItem(st: Storage, k: StorageKey) { k in st && st[k] != "" }

  function RemoveAuthItems(st: Storage): Storage { st - {TokenKey, UserKey} }

  /** Storage from which `loadUserFromStorage` grants a session: both entries and a verified user. */
  predicate RestoresSession(st: Storage, parse: string -> ParsedUser) {
    HasItem(st, TokenKey) && HasItem(st, UserKey)
    && parse(st[UserKey]).UserObject? && parse(st[UserKey]).user.isVerified
  }

  /** A state in which nobody is signed in and no verification is in progress. */
  predicate LoggedOut(a: AuthState) {
    a.user.None? && a.token.None? && !a.isAuthenticated && a.pendingVerification.None?
    && !a.verificationSuccess && !a.resendSuccess
  }

  /**
   * The state the slice starts from, read from storage when the module loads. `None`
   * when the stored user text is malformed: `JSON.parse` then throws during loading.
   */
  function InitialState(st: Storage, parse: string -> ParsedUser): Option<AuthState> {
    var user :=
      if UserKey !in st then Some(None)
      else match parse(st[UserKey])
        case Unparseable => None
        case NullValue => Some(None)
        case UserObject(u) => Some(Some(u));
    if user.None? then None
    else Some(AuthState(
      user := user.value,
      token := if HasItem(st, TokenKey) then Some(st[TokenKey]) else None,
      isLoading := false,
      isAuthenticated := HasItem(st, TokenKey),
      error := None,
      message := None,
      pendingVerification := None,
      verificationSuccess := false,
      resendSuccess := false,
      loginError := false))
  }

  /** The initial state trusts any stored token: it does not look at `isVerified`. */
  lemma InitialStateTrustsToken(st: Storage, parse: string -> ParsedUser)
    requires InitialState(st, parse).Some?
    ensures InitialState(st, parse).value.isAuthenticated <==> HasItem(st, TokenKey)
    ensures FeedbackCleared(InitialState(st, parse).value)
  {
  }

  /** Nothing is loading and every error, message and verification flag is cleared. */
  predicate FeedbackCleared(a: AuthState) {
    !a.isLoading && a.error.None? && a.message.None? && a.pendingVerification.None?
    && !a.verificationSuccess && !a.resendSuccess && !a.loginError
  }

  /** `loadUserFromStorage`. */
  function Restore(s: Session, parse: string -> ParsedUser): Session {
    var st := s.storage;
    if HasItem(st, TokenKey) && HasItem(st, UserKey) then
      match parse(st[UserKey])
      case UserObject(u) =>
        if u.isVerified then
          Session(s.auth.(token := Some(st[TokenKey]), user := Some(u), isAuthenticated := true), st)
        else
          Session(s.auth.(pendingVerification := Some(u.email)), RemoveAuthItems(st))
      case _ => Session(s.auth, RemoveAuthItems(st))
    else s
  }

  /** The reducer: the state and storage after one action. */
  function Reduce(s: Session, a: Action, parse: string -> ParsedUser): (r: Session)
    ensures !s.auth.isAuthenticated && r.auth.isAuthenticated ==>
      a.LoginFulfilled? || (a.LoadUserFromStorage? && RestoresSession(s.storage, parse))
    ensures a.LoginFulfilled? ==> r.auth.isAuthenticated && r.auth.pendingVerification.None?
    ensures a.IsPending() ==> r.auth.isLoading
    ensures a.IsSettled() ==> !r.auth.isLoading
    ensures r.storage == s.storage
      || (r.storage == RemoveAuthItems(s.storage) && (a.LoadUserFromStorage? || a.LoginRejected?))
    ensures r.auth.loginError != s.auth.loginError ==>
      (a.LoginRejected? && r.auth.loginError) || (a.ClearLoginError? && !r.auth.loginError)
    ensures a.LogoutFulfilled? || a.LogoutRejected? ==> LoggedOut(r.auth)
  {
    if a.LoadUserFromStorage? then Restore(s, parse)
    else if a.LoginRejected? then RejectLogin(s, a.message, a.email, a.userId)
    else if a.IsReducer() then Session(ApplyReducer(s.auth, a), s.storage)
    else Session(ApplyThunkCase(s.auth, a), s.storage)
  }

  /** The rejected case of the login request (it may also clear storage). */
  function RejectLogin(s: Session, msg: Option<string>, email: Option<string>,
                       userId: Option<string>): Session
  {
    var y := s.auth.(isLoading := false, error := msg, loginError := true);
    if Truthy(email) && Truthy(userId) then
      Session(y.(pendingVerification := email, isAuthenticated := false, user := None, token := None),
              RemoveAuthItems(s.storage))
    else Session(y, s.storage)
  }

  /** The slice's own reducers: each sets one field. */
  function ApplyReducer(x: AuthState, a: Action): (r: AuthState)
    requires a.IsReducer()
    ensures r.isLoading == x.isLoading && r.isAuthenticated == x.isAuthenticated
    ensures r.loginError != x.loginError ==> a.ClearLoginError? && !r.loginError
  {
    match a
    case ClearError => x.(error := None)
    case ClearMessage => x.(message := None)
    case SetPendingVerification(email) => x.(pendingVerification := email)
    case ClearPendingVerification => x.(pendingVerification := None)
    case ClearVerificationSuccess => x.(verificationSuccess := false)
    case ClearResendSuccess => x.(resendSuccess := false)
    case ClearLoginError => x.(loginError := false)
  }

  /** The request cases that touch only the slice state (all but restore and rejected login). */
  function ApplyThunkCase(x: AuthState, a: Action): (r: AuthState)
    requires a.IsPending() || (a.IsSettled() && !a.LoginRejected?)
    ensures !x.isAuthenticated && r.isAuthenticated ==> a.LoginFulfilled?
    ensures a.LoginFulfilled? ==> r.isAuthenticated && r.pendingVerification.None?
    ensures r.isLoading <==> a.IsPending()
    ensures r.loginError == x.loginError
    ensures a.LogoutFulfilled? || a.LogoutRejected? ==> LoggedOut(r)
  {
    if a.IsPending() then ApplyPending(x, a) else ApplySettled(x, a)
  }

  /** A request has started: loading, and (except for logout) no stale feedback. */
  function ApplyPending(x: AuthState, a: Action): (r: AuthState)
    requires a.IsPending()
    ensures r.isLoading && r.isAuthenticated == x.isAuthenticated && r.loginError == x.loginError
  {
    if a.LogoutPending? then x.(isLoading := true)
    else x.(isLoading := true, error := None, message := None)
  }

  /** A request has settled, other than a rejected login. */
  function ApplySettled(x: AuthState, a: Action): (r: AuthState)
    requires a.IsSettled() && !a.LoginRejected?
    ensures !x.isAuthenticated && r.isAuthenticated ==> a.LoginFulfilled?
    ensures a.LoginFulfilled? ==> r.isAuthenticated && r.pendingVerification.None?
    ensures !r.isLoading && r.loginError == x.loginError
    ensures a.LogoutFulfilled? || a.LogoutRejected? ==> LoggedOut(r)
  {
    match a
    case SignupFulfilled(msg, email) => x.(isLoading := false, message := msg, pendingVerification := email)
    case SignupRejected(reason) => x.(isLoading := false, error := Some(reason))
    case LoginFulfilled(user, token, msg) =>
      x.(isLoading := false, user := user, token := token, isAuthenticated := true,
         message := msg, pendingVerification := None)
    case VerifyFulfilled(msg) =>
      x.(isLoading := false, message := msg, pendingVerification := None, verificationSuccess := true)
    case VerifyRejected(reason) => x.(isLoading := false, error := Some(reason), verificationSuccess := false)
    case ResendFulfilled(msg) => x.(isLoading := false, message := msg, resendSuccess := true)
    case ResendRejected(reason) => x.(isLoading := false, error := Some(reason), resendSuccess := false)
    case LogoutFulfilled =>
      x.(isLoading := false, user := None, token := None, isAuthenticated := false,
         error := None, message := None, pendingVerification := None,
         verificationSuccess := false, resendSuccess := false)
    case LogoutRejected =>
      x.(isLoading := false, user := None, token := None, isAuthenticated := false,
         pendingVerification := None, verificationSuccess := false, resendSuccess := false)
  }

  /* ---------- single-step properties ---------- */

  /**
   * Restoring from storage: a verified user gets a session; an unverified one has both
   * entries removed and becomes the pending verification, with token, user and
   * authentication untouched; unreadable data only clears storage; without both entries
   * nothing changes.
   */
  lemma RestoreOutcomes(s: Session, parse: string -> ParsedUser)
    ensures var r := Reduce(s, LoadUserFromStorage, parse);
      && (RestoresSession(s.storage, parse) ==>
            r.auth == s.auth.(token := Some(s.storage[TokenKey]),
                              user := Some(parse(s.storage[UserKey]).user),
                              isAuthenticated := true)
            && r.storage == s.storage)
      && (HasItem(s.storage, TokenKey) && HasItem(s.storage, UserKey)
          && parse(s.storage[UserKey]).UserObject? && !parse(s.storage[UserKey]).user.isVerified ==>
            r.storage == RemoveAuthItems(s.storage)
            && r.auth == s.auth.(pendingVerification := Some(parse(s.storage[UserKey]).user.email)))
      && (HasItem(s.storage, TokenKey) && HasItem(s.storage, UserKey)
          && !parse(s.storage[UserKey]).UserObject? ==>
            r.storage == RemoveAuthItems(s.storage) && r.auth == s.auth)
      && (!(HasItem(s.storage, TokenKey) && HasItem(s.storage, UserKey)) ==> r == s)
  {
  }

  /**
   * A rejected login always records the error and the login-error flag; when the answer
   * names an unverified account (email and userId both present) it also signs out and
   * clears storage, and otherwise nothing else changes.
   */
  lemma LoginRejectedOutcomes(s: Session, msg: Option<string>, email: Option<string>,
                              userId: Option<string>, parse: string -> ParsedUser)
    ensures var r := Reduce(s, LoginRejected(msg, email, userId), parse);
      var base := s.auth.(isLoading := false, error := msg, loginError := true);
      && (Truthy(email) && Truthy(userId) ==>
            r.auth == base.(pendingVerification := email, isAuthenticated := false,
                            user := None, token := None)
            && r.storage == RemoveAuthItems(s.storage)
            && TokenKey !in r.storage && UserKey !in r.storage)
      && (!(Truthy(email) && Truthy(userId)) ==> r == Session(base, s.storage))
  {
  }

  /**
   * Both logout outcomes end signed out; only the fulfilled one also clears the error
   * and message, the rejected one keeps them.
   */
  lemma LogoutOutcomes(s: Session, parse: string -> ParsedUser)
    ensures var f := Reduce(s, LogoutFulfilled, parse);
      LoggedOut(f.auth) && !f.auth.isLoading && f.auth.error.None? && f.auth.message.None?
      && f.storage == s.storage && f.auth.loginError == s.auth.loginError
    ensures var j := Reduce(s, LogoutRejected, parse);
      LoggedOut(j.auth) && !j.auth.isLoading && j.auth.error == s.auth.error
      && j.auth.message == s.auth.message && j.storage == s.storage
  {
  }

  /**
   * The pending cases of signup, login, verification and resend start loading and reset
   * the error and message; the logout pending case only starts loading.
   */
  lemma PendingResetsFeedback(s: Session, a: Action, parse: string -> ParsedUser)
    requires a.IsPending()
    ensures var r := Reduce(s, a, parse);
      && r.storage == s.storage
      && (!a.LogoutPending? ==> r.auth == s.auth.(isLoading := true, error := None, message := None))
      && (a.LogoutPending? ==> r.auth == s.auth.(isLoading := true))
  {
  }

  /** A successful verification clears the pending email and raises the success flag; a failed one lowers it. */
  lemma VerifyOutcomes(s: Session, msg: Option<string>, reason: string, parse: string -> ParsedUser)
    ensures var f := Reduce(s, VerifyFulfilled(msg), parse);
      f.auth.pendingVerification.None? && f.auth.verificationSuccess && f.auth.message == msg
      && f.auth.isAuthenticated == s.auth.isAuthenticated
    ensures var j := Reduce(s, VerifyRejected(reason), parse);
      !j.auth.verificationSuccess && j.auth.error == Some(reason)
      && j.auth.pendingVerification == s.auth.pendingVerification
  {
  }

  /** Each clearing reducer resets its own field and leaves everything else as it was. */
  lemma ClearReducersTouchOneField(s: Session, parse: string -> ParsedUser)
    ensures Reduce(s, ClearError, parse) == Session(s.auth.(error := None), s.storage)
    ensures Reduce(s, ClearMessage, parse) == Session(s.auth.(message := None), s.storage)
    ensures Reduce(s, ClearPendingVerification, parse)
      == Session(s.auth.(pendingVerification := None), s.storage)
    ensures Reduce(s, ClearVerificationSuccess, parse)
      == Session(s.auth.(verificationSuccess := false), s.storage)
    ensures Reduce(s, ClearResendSuccess, parse) == Session(s.auth.(resendSuccess := false), s.storage)
    ensures Reduce(s, ClearLoginError, parse) == Session(s.auth.(loginError := false), s.storage)
  {
  }

  /* ---------- properties of action sequences ---------- */

  /**
   * The session after dispatching the actions of `trace` in order. The two storage
   * writes the login request makes before its fulfilled case (`AuthStore.PersistLogin`)
   * are not actions of the slice, so a trace sees storage only as restored, cleared or
   * as given at its start.
   */
  function Run(s: Session, trace: seq<Action>, parse: string -> ParsedUser): Session
    decreases |trace|
  {
    if |trace| == 0 then s else Run(Reduce(s, trace[0], parse), trace[1..], parse)
  }

  lemma RunPrefixStep(s: Session, trace: seq<Action>, i: nat, parse: string -> ParsedUser)
    requires i < |trace|
    ensures Run(s, trace[..i + 1], parse) == Run(Reduce(s, trace[0], parse), trace[1..][..i], parse)
  {
    assert trace[..i + 1][1..] == trace[1..][..i];
  }

  /** Step `i` of `trace` is a fulfilled login or a restore from storage holding a verified user. */
  predicate SignsInAt(s: Session, trace: seq<Action>, i: nat, parse: string -> ParsedUser)
    requires i < |trace|
  {
    trace[i].LoginFulfilled?
    || (trace[i].LoadUserFromStorage? && RestoresSession(Run(s, trace[..i], parse).storage, parse))
  }

  /**
   * Over any sequence of actions, a signed-out client becomes signed in only through a
   * fulfilled login or a restore from storage that holds a verified user at that moment.
   */
  lemma {:induction false} SessionNeedsLoginOrVerifiedRestore(s: Session, trace: seq<Action>,
                                                              parse: string -> ParsedUser)
    requires !s.auth.isAuthenticated && Run(s, trace, parse).auth.isAuthenticated
    ensures exists i :: 0 <= i < |trace| && SignsInAt(s, trace, i, parse)
    decreases |trace|
  {
    var s1 := Reduce(s, trace[0], parse);
    if s1.auth.isAuthenticated {
      assert trace[..0] == [];
      assert SignsInAt(s, trace, 0, parse);
    } else {
      SessionNeedsLoginOrVerifiedRestore(s1, trace[1..], parse);
      var j :| 0 <= j < |trace[1..]| && SignsInAt(s1, trace[1..], j, parse);
      RunPrefixStep(s, trace, j, parse);
      assert trace[j + 1] == trace[1..][j];
      assert SignsInAt(s, trace, j + 1, parse);
    }
  }

  /**
   * Without a fulfilled login, storage that does not hold a verified user never yields a
   * session: storage only ever loses its entries, so it never starts to restore one.
   */
  lemma {:induction false} UnverifiedStorageNeverSignsIn(s: Session, trace: seq<Action>,
                                                         parse: string -> ParsedUser)
    requires !s.auth.isAuthenticated && !RestoresSession(s.storage, parse)
    requires forall i :: 0 <= i < |trace| ==> !trace[i].LoginFulfilled?
    ensures !Run(s, trace, parse).auth.isAuthenticated
    ensures !RestoresSession(Run(s, trace, parse).storage, parse)
    decreases |trace|
  {
    if |trace| > 0 {
      var s1 := Reduce(s, trace[0], parse);
      assert !RestoresSession(s1.storage, parse) by {
        if s1.storage != s.storage {
          assert TokenKey !in s1.storage;
        }
      }
      assert !trace[0].LoginFulfilled?;
      forall i | 0 <= i < |trace[1..]|
        ensures !trace[1..][i].LoginFulfilled?
      {
        assert trace[1..][i] == trace[i + 1];
      }
      UnverifiedStorageNeverSignsIn(s1, trace[1..], parse);
    }
  }

  /** The login-error flag is raised only by a rejected login. */
  lemma {:induction false} LoginErrorNeedsRejectedLogin(s: Session, trace: seq<Action>,
                                                        parse: string -> ParsedUser)
    requires !s.auth.loginError && Run(s, trace, parse).auth.loginError
    ensures exists i :: 0 <= i < |trace| && trace[i].LoginRejected?
    decreases |trace|
  {
    var s1 := Reduce(s, trace[0], parse);
    if s1.auth.loginError {
      assert trace[0].LoginRejected?;
    } else {
      LoginErrorNeedsRejectedLogin(s1, trace[1..], parse);
      var j :| 0 <= j < |trace[1..]| && trace[1..][j].LoginRejected?;
      assert trace[j + 1].LoginRejected?;
    }
  }

  /* ---------- the store object ---------- */

  /** How the logout request ended: answered ok, answered with an error, or not answered. */
  datatype LogoutResponse = ResponseOk | ResponseFailed | NetworkError

  /** The slice state held by the Redux store, and the browser storage next to it. */
  class AuthStore {
    var user: Option<User>
    var token: Option<string>
    var isLoading: bool
    var isAuthenticated: bool
    var error: Option<string>
    var message: Option<string>
    var pendingVerification: Option<string>
    var verificationSuccess: bool
    var resendSuccess: bool
    var loginError: bool
    var storage: Storage
    /** `JSON.parse` applied to the stored user text. */
    const parse: string -> ParsedUser

    function State(): AuthState
      reads this
    {
      AuthState(user, token, isLoading, isAuthenticated, error, message, pendingVerification,
                verificationSuccess, resendSuccess, loginError)
    }

    function Snapshot(): Session
      reads this
    {
      Session(State(), storage)
    }

    /** The store as created when the module loads (loading fails on a malformed stored user). */
    constructor (initialStorage: Storage, parseUser: string -> ParsedUser)
      requires InitialState(initialStorage, parseUser).Some?
      ensures Snapshot() == Session(InitialState(initialStorage, parseUser).value, initialStorage)
      ensures parse == parseUser
    {
      var init := InitialState(initialStorage, parseUser).value;
      user, token, isLoading, isAuthenticated := init.user, init.token, false, init.isAuthenticated;
      error, message, pendingVerification := None, None, None;
      verificationSuccess, resendSuccess, loginError := false, false, false;
      storage := initialStorage;
      parse := parseUser;
    }

    /** Runs the reducer case for `a`, assigning the fields it names. */
    method Dispatch(a: Action)
      modifies this
      ensures Snapshot() == Reduce(old(Snapshot()), a, parse)
      ensures isAuthenticated && !old(isAuthenticated) ==>
        a.LoginFulfilled? || (a.LoadUserFromStorage? && RestoresSession(old(storage), parse))
    {
      if a.LoadUserFromStorage? {
        LoadFromStorage();
      } else if a.LoginRejected? {
        OnLoginRejected(a.message, a.email, a.userId);
      } else if a.IsReducer() {
        RunReducer(a);
      } else {
        RunThunkCase(a);
      }
    }

    /** `loadUserFromStorage`. */
    method LoadFromStorage()
      modifies this
      ensures Snapshot() == Restore(old(Snapshot()), parse)
    {
      if HasItem(storage, TokenKey) && HasItem(storage, UserKey) {
        var parsed := parse(storage[UserKey]);
        if parsed.UserObject? {
          if parsed.user.isVerified {
            token := Some(storage[TokenKey]);
            user := Some(parsed.user);
            isAuthenticated := true;
          } else {
            storage := RemoveAuthItems(storage);
            pendingVerification := Some(parsed.user.email);
          }
        } else {
          storage := RemoveAuthItems(storage);
        }
      }
    }

    method OnLoginRejected(msg: Option<string>, email: Option<string>, userId: Option<string>)
      modifies this
      ensures Snapshot() == RejectLogin(old(Snapshot()), msg, email, userId)
    {
      isLoading := false;
      error := msg;
      loginError := true;
      if Truthy(email) && Truthy(userId) {
        pendingVerification := email;
        isAuthenticated := false;
        user := None;
        token := None;
        storage := RemoveAuthItems(storage);
      }
    }

    method RunReducer(a: Action)
      requires a.IsReducer()
      modifies this
      ensures State() == ApplyReducer(old(State()), a) && storage == old(storage)
    {
      match a
      case ClearError => error := None;
      case ClearMessage => message := None;
      case SetPendingVerification(email) => pendingVerification := email;
      case ClearPendingVerification => pendingVerification := None;
      case ClearVerificationSuccess => verificationSuccess := false;
      case ClearResendSuccess => resendSuccess := false;
      case ClearLoginError => loginError := false;
    }

    method RunThunkCase(a: Action)
      requires a.IsPending() || (a.IsSettled() && !a.LoginRejected?)
      modifies this
      ensures State() == ApplyThunkCase(old(State()), a) && storage == old(storage)
    {
      if a.IsPending() {
        RunPendingCase(a);
      } else {
        RunSettledCase(a);
      }
    }

    method RunPendingCase(a: Action)
      requires a.IsPending()
      modifies this
      ensures State() == ApplyPending(old(State()), a) && storage == old(storage)
    {
      if a.LogoutPending? {
        isLoading := true;
      } else {
        isLoading, error, message := true, None, None;
      }
    }

    method RunSettledCase(a: Action)
      requires a.IsSettled() && !a.LoginRejected?
      modifies this
      ensures State() == ApplySettled(old(State()), a) && storage == old(storage)
    {
      match a
      case SignupFulfilled(msg, email) =>
        isLoading, message, pendingVerification := false, msg, email;
      case SignupRejected(reason) =>
        isLoading, error := false, Some(reason);
      case LoginFulfilled(u, t, msg) =>
        isLoading, user, token, isAuthenticated := false, u, t, true;
        message, pendingVerification := msg, None;
      case VerifyFulfilled(msg) =>
        isLoading, message, pendingVerification, verificationSuccess := false, msg, None, true;
      case VerifyRejected(reason) =>
        isLoading, error, verificationSuccess := false, Some(reason), false;
      case ResendFulfilled(msg) =>
        isLoading, message, resendSuccess := false, msg, true;
      case ResendRejected(reason) =>
        isLoading, error, resendSuccess := false, Some(reason), false;
      case LogoutFulfilled =>
        isLoading, user, token, isAuthenticated := false, None, None, false;
        error, message, pendingVerification := None, None, None;
        verificationSuccess, resendSuccess := false, false;
      case LogoutRejected =>
        isLoading, user, token, isAuthenticated := false, None, None, false;
        pendingVerification, verificationSuccess, resendSuccess := None, false, false;
    }

    /** The storage writes of the login request once the server accepted the credentials. */
    method PersistLogin(tokenText: string, userText: string)
      modifies this
      ensures storage == old(storage)[TokenKey := tokenText][UserKey := userText]
      ensures State() == old(State())
    {
      storage := storage[TokenKey := tokenText];
      storage := storage[UserKey := userText];
    }

    /**
     * The logout request: whatever the server answers, or if it cannot be reached, both
     * storage entries are removed; the request itself never fails.
     */
    method LogoutRequest(response: LogoutResponse) returns (resultMessage: string)
      modifies this
      ensures TokenKey !in storage && UserKey !in storage
      ensures storage == RemoveAuthItems(old(storage))
      ensures State() == old(State())
      ensures resultMessage == if response.NetworkError? then "Logout completed locally"
                               else "Logout successful"
    {
      if response.NetworkError? {
        storage := RemoveAuthItems(storage);
        resultMessage := "Logout completed locally";
      } else {
        storage := RemoveAuthItems(storage);
        resultMessage := "Logout successful";
      }
    }
  }
}
