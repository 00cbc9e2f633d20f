/**
 * `AuthContextProvider` (libs/auth/useAuthContext.tsx): the initial database,
 * the startup restore decided by `bootstrapAsync`, the storage slot the
 * reducer's effects act on, and runs of the reducer over sequences of actions.
 */
module AuthProvider {
  import opened AuthTypes
  import opened AuthReducer

  /** The state `useReducer` starts from: no records, no session, no error. */
  const InitialState: AuthDatabase := AuthDatabase([], None, None)

  /**
   * What the startup read yields: `getItem` returned null, or a string that
   * `JSON.parse` turned into an account, or one of the two threw.
   */
  datatype StoredSession = Missing | Cached(parsed: Auth) | ReadFailed

  /**
   * The action `bootstrapAsync` dispatches: always a restore, carrying the
   * parsed account exactly when there was one and null otherwise (a missing
   * value and a failed read or parse are treated alike).
   */
  function BootstrapAction(read: StoredSession): (a: AuthAction)
    ensures a.Restore?
    ensures a.session.Some? <==> read.Cached?
    ensures read.Cached? ==> a.session.value == read.parsed
  {
    match read
    case Cached(parsed) => Restore(Some(parsed))
    case Missing => Restore(None)
    case ReadFailed => Restore(None)
  }

  /** The durable key-value store, with values kept as records rather than JSON text. */
  type Storage = map<string, Auth>

  /** Carries out one storage effect; writes are assumed to succeed. */
  function ApplyEffect(storage: Storage, effect: Effect): Storage
  {
    match effect
    case NoEffect => storage
    case SetItem(key, value) => storage[key := value]
    case RemoveItem(key) => storage - {key}
  }

  /** The startup read of the session slot, on a store whose reads succeed. */
  function ReadSession(storage: Storage): StoredSession
  {
    if StorageKey in storage then Cached(storage[StorageKey]) else Missing
  }

  /** The database right after the startup restore of a fresh provider. */
  function Startup(read: StoredSession): (s: AuthDatabase)
    ensures s.records == [] && s.error == None
    ensures IsLoggedIn(s) <==> read.Cached?
    ensures read.Cached? ==> s.authInfo.value == read.parsed
  {
    Reduce(InitialState, BootstrapAction(read)).0
  }

  /**
   * A successful login writes its session under the storage key, so a restart
   * that reads the slot back logs the same account in again, with no records.
   */
  lemma LoginSurvivesRestart(state: AuthDatabase, storage: Storage, credentials: LoginPayload)
    requires IsLoggedIn(Reduce(state, Login(credentials)).0)
    ensures var (s, e) := Reduce(state, Login(credentials));
            && ReadSession(ApplyEffect(storage, e)) == Cached(s.authInfo.value)
            && Startup(ReadSession(ApplyEffect(storage, e))).authInfo == s.authInfo
            && Startup(ReadSession(ApplyEffect(storage, e))).records == []
  {
  }

  /** A failed login leaves the storage as it was. */
  lemma FailedLoginKeepsStorage(state: AuthDatabase, storage: Storage, credentials: LoginPayload)
    requires !IsLoggedIn(Reduce(state, Login(credentials)).0)
    ensures ApplyEffect(storage, Reduce(state, Login(credentials)).1) == storage
  {
  }

  /** After a logout the slot is empty, so a restart comes up logged out. */
  lemma LogoutSurvivesRestart(state: AuthDatabase, storage: Storage)
    ensures var (s, e) := Reduce(state, Logout);
            && ReadSession(ApplyEffect(storage, e)) == Missing
            && !IsLoggedIn(Startup(ReadSession(ApplyEffect(storage, e))))
  {
  }

  /** Dispatches the actions in order, carrying out each storage effect as it is fired. */
  function Run(state: AuthDatabase, storage: Storage, actions: seq<AuthAction>): (AuthDatabase, Storage)
    decreases |actions|
  {
    if actions == [] then (state, storage)
    else
      var (s, e) := Reduce(state, actions[0]);
      Run(s, ApplyEffect(storage, e), actions[1..])
  }

  /** The accounts the sign-ups among `actions` carry, in order. */
  function SignupAccounts(actions: seq<AuthAction>): seq<Auth>
    decreases |actions|
  {
    if actions == [] then []
    else (if actions[0].Signup? then [actions[0].account] else []) + SignupAccounts(actions[1..])
  }

  /** The records only ever grow, by the sign-up payloads, in dispatch order. */
  lemma {:induction false} RunRecordsAreSignups(state: AuthDatabase, storage: Storage, actions: seq<AuthAction>)
    ensures Run(state, storage, actions).0.records == state.records + SignupAccounts(actions)
    decreases |actions|
  {
    if actions != [] {
      var (s, e) := Reduce(state, actions[0]);
      RunRecordsAreSignups(s, ApplyEffect(storage, e), actions[1..]);
      var head := if actions[0].Signup? then [actions[0].account] else [];
      assert s.records == state.records + head;
      assert state.records + head + SignupAccounts(actions[1..])
          == state.records + (head + SignupAccounts(actions[1..]));
    }
  }

  /** Sign-ups are collected piecewise: the accounts of two runs are those of each, in order. */
  lemma {:induction false} SignupAccountsAppend(a: seq<AuthAction>, b: seq<AuthAction>)
    ensures SignupAccounts(a + b) == SignupAccounts(a) + SignupAccounts(b)
    decreases |a|
  {
    if a == [] {
      assert a + b == b;
    } else {
      assert (a + b)[0] == a[0];
      assert (a + b)[1..] == a[1..] + b;
      SignupAccountsAppend(a[1..], b);
      var head := if a[0].Signup? then [a[0].account] else [];
      assert head + (SignupAccounts(a[1..]) + SignupAccounts(b))
          == (head + SignupAccounts(a[1..])) + SignupAccounts(b);
    }
  }

  /** Inserting an action that is not a sign-up anywhere in a run adds no account. */
  lemma InsertKeepsSignups(actions: seq<AuthAction>, inserted: AuthAction, k: nat)
    requires !inserted.Signup?
    requires k <= |actions|
    ensures SignupAccounts(actions[..k] + [inserted] + actions[k..]) == SignupAccounts(actions)
  {
    var before, after := actions[..k], actions[k..];
    SignupAccountsAppend(before + [inserted], after);
    SignupAccountsAppend(before, [inserted]);
    assert SignupAccounts([inserted]) == [] by {
      assert [inserted][1..] == [];
    }
    assert SignupAccounts(before + [inserted]) == SignupAccounts(before);
    SignupAccountsAppend(before, after);
    assert before + after == actions;
  }

  /**
   * The session is either a registered record or the session the startup
   * restore carries (a restore does not check the records); the stored session
   * is either a registered record or what the slot held before this run; and the
   * error slot only holds the one message.
   */
  ghost predicate Consistent(s: AuthDatabase, storage: Storage, restored: Option<Auth>, prior: Option<Auth>)
  {
    && (IsLoggedIn(s) ==> s.authInfo.value in s.records || s.authInfo == restored)
    && (StorageKey in storage ==> storage[StorageKey] in s.records || Some(storage[StorageKey]) == prior)
    && ErrorWellFormed(s)
  }

  /** Every action keeps the database and the storage consistent, a restore as long as it carries `restored`. */
  lemma ReduceKeepsConsistent(state: AuthDatabase, storage: Storage, restored: Option<Auth>, prior: Option<Auth>, action: AuthAction)
    requires action.Restore? ==> action.session == restored
    requires Consistent(state, storage, restored, prior)
    ensures var (s, e) := Reduce(state, action); Consistent(s, ApplyEffect(storage, e), restored, prior)
  {
  }

  /** Runs whose restores all carry `restored` keep the database and the storage consistent. */
  lemma {:induction false} RunKeepsConsistent(state: AuthDatabase, storage: Storage, restored: Option<Auth>, prior: Option<Auth>, actions: seq<AuthAction>)
    requires forall i :: 0 <= i < |actions| && actions[i].Restore? ==> actions[i].session == restored
    requires Consistent(state, storage, restored, prior)
    ensures var (s, st) := Run(state, storage, actions); Consistent(s, st, restored, prior)
    decreases |actions|
  {
    if actions != [] {
      ReduceKeepsConsistent(state, storage, restored, prior, actions[0]);
      var (s, e) := Reduce(state, actions[0]);
      RunKeepsConsistent(s, ApplyEffect(storage, e), restored, prior, actions[1..]);
    }
  }

  /**
   * A whole application run. The provider starts from the initial state; the
   * user dispatches `actions` (none of them a restore), and the startup restore,
   * which is asynchronous, arrives after the first `k` of them. Its read either
   * succeeds on the stored slot or fails. The records are then exactly the
   * accounts signed up in this run; the session is one of them or the restored
   * session; and the stored session is one of them or what the slot held before.
   */
  lemma AppRun(storage: Storage, read: StoredSession, actions: seq<AuthAction>, k: nat)
    requires read == ReadSession(storage) || read == ReadFailed
    requires forall i :: 0 <= i < |actions| ==> !actions[i].Restore?
    requires k <= |actions|
    ensures var final := Run(InitialState, storage, actions[..k] + [BootstrapAction(read)] + actions[k..]);
            var restored := BootstrapAction(read).session;
            && final.0.records == SignupAccounts(actions)
            && (IsLoggedIn(final.0) ==> final.0.authInfo.value in final.0.records || final.0.authInfo == restored)
            && (StorageKey in final.1 ==>
                  || final.1[StorageKey] in final.0.records
                  || (StorageKey in storage && final.1[StorageKey] == storage[StorageKey]))
  {
    var dispatched := actions[..k] + [BootstrapAction(read)] + actions[k..];
    var restored := BootstrapAction(read).session;
    var prior := if StorageKey in storage then Some(storage[StorageKey]) else None;
    forall i | 0 <= i < |dispatched|
      ensures dispatched[i].Restore? ==> dispatched[i].session == restored
    {
      if i < k {
        assert dispatched[i] == actions[i];
      } else if i > k {
        assert dispatched[i] == actions[i - 1];
      }
    }
    assert Consistent(InitialState, storage, restored, prior);
    RunKeepsConsistent(InitialState, storage, restored, prior, dispatched);
    RunRecordsAreSignups(InitialState, storage, dispatched);
    InsertKeepsSignups(actions, BootstrapAction(read), k);
  }
}
