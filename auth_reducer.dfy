/**
 * `authReducer` (libs/auth/useAuthContext.tsx): the specification functions for
 * each of the four cases, the lemmas that say what the login scan computes, and
 * the reducer itself as a method whose login case is the source's loop.
 */
module AuthReducer {
  import opened AuthTypes

  /** The two local variables of the login loop, `matched` and `error`. */
  datatype ScanState = ScanState(matched: Option<Auth>, error: Option<string>)

  /** A record whose email matches case-insensitively and whose password matches exactly. */
  predicate FullMatch(r: Auth, email: string, password: string)
  {
    SameEmail(r.email, email) && r.password == password
  }

  /** A record whose email matches case-insensitively but whose password differs. */
  predicate WrongPassword(r: Auth, email: string, password: string)
  {
    SameEmail(r.email, email) && r.password != password
  }

  /** Index `i` holds a full match and no later record does. */
  ghost predicate IsLastFullMatch(records: seq<Auth>, email: string, password: string, i: int)
  {
    && 0 <= i < |records|
    && FullMatch(records[i], email, password)
    && forall j :: i < j < |records| ==> !FullMatch(records[j], email, password)
  }

  /** One iteration of the login loop over `record`. */
  function ScanStep(s: ScanState, record: Auth, email: string, password: string): ScanState
  {
    if SameEmail(record.email, email) then
      if record.password == password then s.(matched := Some(record))
      else s.(error := Some(InvalidCredential))
    else s
  }

  /**
   * The state of the login loop after it has visited every record of `records`,
   * in order, starting from `matched = null, error = null`.
   */
  function Scan(records: seq<Auth>, email: string, password: string): (s: ScanState)
    ensures s.matched.Some? ==> s.matched.value in records
    ensures s.error.Some? ==> s.error.value == InvalidCredential
    decreases |records|
  {
    if records == [] then ScanState(None, None)
    else
      var init := records[..|records| - 1];
      var s' := Scan(init, email, password);
      assert s'.matched.Some? ==> s'.matched.value in records by {
        if s'.matched.Some? {
          var k :| 0 <= k < |init| && init[k] == s'.matched.value;
          assert records[k] == init[k];
        }
      }
      ScanStep(s', records[|records| - 1], email, password)
  }

  /**
   * `matched` is null exactly when no record fully matches, and otherwise it is
   * the LAST fully matching record in iteration order: later matches overwrite
   * earlier ones.
   */
  lemma {:induction false} ScanFindsLastFullMatch(records: seq<Auth>, email: string, password: string)
    ensures Scan(records, email, password).matched.None?
        <==> forall i :: 0 <= i < |records| ==> !FullMatch(records[i], email, password)
    ensures Scan(records, email, password).matched.Some? ==>
        exists i :: IsLastFullMatch(records, email, password, i)
                 && Scan(records, email, password).matched.value == records[i]
    decreases |records|
  {
    if records != [] {
      var n := |records|;
      var init, last := records[..n - 1], records[n - 1];
      ScanFindsLastFullMatch(init, email, password);
      var m := Scan(records, email, password).matched;
      if FullMatch(last, email, password) {
        assert m == Some(last);
        assert IsLastFullMatch(records, email, password, n - 1);
      } else {
        assert m == Scan(init, email, password).matched;
        assert forall i :: 0 <= i < n - 1 ==> records[i] == init[i];
        if m.Some? {
          var i :| IsLastFullMatch(init, email, password, i) && m.value == init[i];
          assert IsLastFullMatch(records, email, password, i);
        } else {
          forall i | 0 <= i < n
            ensures !FullMatch(records[i], email, password)
          {
            if i < n - 1 {
              assert records[i] == init[i];
            }
          }
        }
      }
    }
  }

  /** The full match at a last index is unique, so the lemma above pins `matched` down. */
  lemma LastFullMatchIsUnique(records: seq<Auth>, email: string, password: string, i: int, j: int)
    requires IsLastFullMatch(records, email, password, i)
    requires IsLastFullMatch(records, email, password, j)
    ensures i == j
  {
  }

  /**
   * `error` ends as `'Invalid credential.'` exactly when SOME record has a
   * matching email and a different password, wherever it stands relative to a
   * full match: the loop never resets it.
   */
  lemma {:induction false} ScanErrorIffWrongPassword(records: seq<Auth>, email: string, password: string)
    ensures Scan(records, email, password).error
         == if exists i :: 0 <= i < |records| && WrongPassword(records[i], email, password)
            then Some(InvalidCredential) else None
    decreases |records|
  {
    if records != [] {
      var n := |records|;
      var init, last := records[..n - 1], records[n - 1];
      ScanErrorIffWrongPassword(init, email, password);
      assert forall i :: 0 <= i < n - 1 ==> records[i] == init[i];
      if !WrongPassword(last, email, password) {
        if exists i :: 0 <= i < n && WrongPassword(records[i], email, password) {
          var i :| 0 <= i < n && WrongPassword(records[i], email, password);
          assert i < n - 1 && WrongPassword(init[i], email, password);
        }
      }
    }
  }

  /** Once the error is set by some prefix of the records, the rest of the scan keeps it. */
  lemma {:induction false} ScanErrorIsSticky(records: seq<Auth>, k: nat, email: string, password: string)
    requires k <= |records|
    requires Scan(records[..k], email, password).error.Some?
    ensures Scan(records, email, password).error == Some(InvalidCredential)
  {
    ScanErrorIffWrongPassword(records[..k], email, password);
    var i :| 0 <= i < k && WrongPassword(records[..k][i], email, password);
    assert records[i] == records[..k][i];
    ScanErrorIffWrongPassword(records, email, password);
  }

  /** With no record whose email matches, the scan finds neither a session nor an error. */
  lemma {:induction false} ScanWithUnknownEmail(records: seq<Auth>, email: string, password: string)
    requires forall i :: 0 <= i < |records| ==> !SameEmail(records[i].email, email)
    ensures Scan(records, email, password) == ScanState(None, None)
  {
    ScanFindsLastFullMatch(records, email, password);
    ScanErrorIffWrongPassword(records, email, password);
  }

  /**
   * The `login` case: the scan's `matched` becomes the session, its `error` the
   * error, the records are untouched, and the session is written to storage
   * exactly when there is one.
   */
  function ReduceLogin(state: AuthDatabase, credentials: LoginPayload): (r: (AuthDatabase, Effect))
    ensures r.0.records == state.records
    ensures r.0.authInfo.Some? ==> r.0.authInfo.value in state.records
    ensures r.0.authInfo.None?
        <==> forall i :: 0 <= i < |state.records| ==> !FullMatch(state.records[i], credentials.email, credentials.password)
    ensures r.0.authInfo.Some? ==>
        exists i :: IsLastFullMatch(state.records, credentials.email, credentials.password, i)
                 && r.0.authInfo.value == state.records[i]
    ensures r.0.error.Some?
        <==> exists i :: 0 <= i < |state.records| && WrongPassword(state.records[i], credentials.email, credentials.password)
    ensures ErrorWellFormed(r.0)
    ensures r.1 == if r.0.authInfo.Some? then SetItem(StorageKey, r.0.authInfo.value) else NoEffect
  {
    var s := Scan(state.records, credentials.email, credentials.password);
    ScanFindsLastFullMatch(state.records, credentials.email, credentials.password);
    ScanErrorIffWrongPassword(state.records, credentials.email, credentials.password);
    (AuthDatabase(state.records, s.matched, s.error),
     if s.matched.Some? then SetItem(StorageKey, s.matched.value) else NoEffect)
  }

  /** The `logout` case: the session and the error are cleared and the stored session is removed. */
  function ReduceLogout(state: AuthDatabase): (r: (AuthDatabase, Effect))
    ensures r.0.records == state.records
    ensures !IsLoggedIn(r.0) && r.0.error == None
    ensures r.1 == RemoveItem(StorageKey)
  {
    (AuthDatabase(state.records, None, None), RemoveItem(StorageKey))
  }

  /**
   * The `signup` case: the account is appended after the old records, which stay
   * an unchanged prefix; nobody is logged in and there is no error.
   */
  function ReduceSignup(state: AuthDatabase, account: Auth): (r: AuthDatabase)
    ensures |r.records| == |state.records| + 1
    ensures r.records[..|state.records|] == state.records
    ensures r.records[|state.records|] == account
    ensures !IsLoggedIn(r) && r.error == None
  {
    AuthDatabase(state.records + [account], None, None)
  }

  /**
   * The `restore` case: the session becomes exactly the payload (null included),
   * the error is cleared, and the records are kept as they are: the restored
   * account is not added to them.
   */
  function ReduceRestore(state: AuthDatabase, session: Option<Auth>): (r: AuthDatabase)
    ensures r.authInfo == session
    ensures r.error == None
    ensures r.records == state.records
  {
    AuthDatabase(state.records, session, None)
  }

  /**
   * The whole reducer as a function: the new database and the storage effect
   * the source fires while computing it. Every action keeps the old records as a
   * prefix, and only a login can leave an error behind.
   */
  function Reduce(state: AuthDatabase, action: AuthAction): (r: (AuthDatabase, Effect))
    ensures state.records <= r.0.records
    ensures ErrorWellFormed(r.0)
    ensures r.0.error.Some? ==> action.Login?
    ensures r.1 != NoEffect ==> action.Login? || action.Logout?
  {
    match action
    case Login(credentials) => ReduceLogin(state, credentials)
    case Logout => ReduceLogout(state)
    case Signup(account) =>
      var r := ReduceSignup(state, account);
      assert state.records == r.records[..|state.records|];
      (r, NoEffect)
    case Restore(session) => (ReduceRestore(state, session), NoEffect)
  }

  /**
   * `authReducer`. The login case scans the records in order with a loop that
   * overwrites `matched` on every full match and sets `error` on every email
   * match with a wrong password; the other cases build the new database directly.
   */
  method AuthReducer(state: AuthDatabase, action: AuthAction) returns (next: AuthDatabase, effect: Effect)
    ensures (next, effect) == Reduce(state, action)
  {
    match action {
      case Login(credentials) =>
        var matched: Option<Auth> := None;
        var error: Option<string> := None;
        for i := 0 to |state.records|
          invariant ScanState(matched, error) == Scan(state.records[..i], credentials.email, credentials.password)
        {
          var record := state.records[i];
          assert state.records[..i + 1][..i] == state.records[..i];
          if Lower(record.email) == Lower(credentials.email) {
            if record.password == credentials.password {
              matched := Some(record);
            } else {
              error := Some(InvalidCredential);
            }
          }
        }
        assert state.records[..|state.records|] == state.records;
        if matched.Some? {
          effect := SetItem(StorageKey, matched.value);
        } else {
          effect := NoEffect;
        }
        next := AuthDatabase(state.records, matched, error);
      case Logout =>
        effect := RemoveItem(StorageKey);
        next := AuthDatabase(state.records, None, None);
      case Signup(account) =>
        effect := NoEffect;
        next := AuthDatabase(state.records + [account], None, None);
      case Restore(session) =>
        effect := NoEffect;
        next := AuthDatabase(state.records, session, None);
    }
  }
}
