# Authentication state machine of the sign-up / login app

This project models `authReducer` and its provider from
`libs/auth/useAuthContext.tsx`. The app keeps an in-memory `AuthDatabase` with
three parts: the registered `records` in sign-up order, the current session
`authInfo`, and the last login `error`. Four tagged actions drive it: `login`,
`logout`, `signup` and `restore`. A successful login also writes the session to
`AsyncStorage`, and a logout removes it. At startup the provider reads that slot
back and dispatches a `restore`.

Modules:

- `AuthTypes` (`auth_types.dfy`): the `Auth`, `AuthDatabase` and `AuthAction`
  types, the storage `Effect` the reducer fires, the storage key `"AAAA"`, the
  message `"Invalid credential."`, and the case-insensitive email comparison.
- `AuthReducer` (`auth_reducer.dfy`): the login loop as a recursive
  specification function `Scan` over the records, the lemmas that characterise
  its result, one function per action case, the whole reducer as the function
  `Reduce`, and the method `AuthReducer`. That method runs the source's loop, and
  its loop invariant ties it to `Scan`.
- `AuthProvider` (`auth_provider.dfy`): the initial state, the restore decision
  of `bootstrapAsync`, a storage slot that the effects act on, runs of the
  reducer over sequences of actions, and the invariants those runs keep.
- `AuthScenarios` (`auth_scenarios.dfy`): concrete logins over two records whose
  emails differ only in letter case.

Storage calls are returned as an explicit effect (`SetItem`, `RemoveItem` or
`NoEffect`) next to the new database. The reducer does not perform them.

The login outcome follows the code exactly:

- `matched` is overwritten by every full match, so it ends as the last one.
- `error` is set by any email match with a wrong password, and it is never reset.
- So a successful login can leave both a session and `"Invalid credential."`
  behind. This happens when another record has the same email and a different
  password, wherever that record stands in the list.
- A reading in which the last email-matching record decides both slots would
  predict no error for records `[a@x.com/p1, A@X.com/p2]` and a login as
  `a@x.com/p2`. The loop at lines 73-81 sets the error on the first record and
  never clears it; see `AuthScenarios.LaterMatchKeepsEarlierError`.

## Model

| member | source | states |
|---|---|---|
| `AuthReducer.Scan` | libs/auth/useAuthContext.tsx:70-81 | the loop's `matched`, when set, is one of the scanned records; its `error`, when set, is `'Invalid credential.'` |
| `AuthReducer.ScanFindsLastFullMatch` | libs/auth/useAuthContext.tsx:70-81 | `matched` is null iff no record matches both email (case-insensitively) and password; otherwise it is the record at the last fully matching index |
| `AuthReducer.LastFullMatchIsUnique` | libs/auth/useAuthContext.tsx:73-81 | there is only one last fully matching index, so `matched` is determined |
| `AuthReducer.ScanErrorIffWrongPassword` | libs/auth/useAuthContext.tsx:71-80 | `error` is `'Invalid credential.'` iff some record matches the email with a different password, and null otherwise, whether or not a full match exists |
| `AuthReducer.ScanErrorIsSticky` | libs/auth/useAuthContext.tsx:73-81 | once an error is set while scanning a prefix, the whole scan still ends with it |
| `AuthReducer.ScanWithUnknownEmail` | libs/auth/useAuthContext.tsx:70-81 | with no case-insensitive email match, the scan ends with `matched` and `error` both null |
| `AuthReducer.ReduceLogin` | libs/auth/useAuthContext.tsx:69-92 | login keeps `records`; `authInfo` is null iff there is no full match, and otherwise it is the last full match and an element of `records`; `error` is set iff a record matches the email but not the password; the effect writes the session under the key exactly when `authInfo` is non-null, and does nothing otherwise |
| `AuthReducer.ReduceLogout` | libs/auth/useAuthContext.tsx:93-99 | logout keeps `records`, clears `authInfo` and `error`, and removes the stored session |
| `AuthReducer.ReduceSignup` | libs/auth/useAuthContext.tsx:100-105 | sign-up grows `records` by exactly one, keeps the old records as a prefix, puts the payload last, and leaves `authInfo` and `error` null |
| `AuthReducer.ReduceRestore` | libs/auth/useAuthContext.tsx:106-111 | restore sets `authInfo` to exactly its payload (null included), clears `error`, and leaves `records` equal to the old records, so the payload is not added |
| `AuthReducer.Reduce` | libs/auth/useAuthContext.tsx:67-113 | every action keeps the old records as a prefix; `error` only ever holds `'Invalid credential.'`, and only after a login; only login and logout fire a storage effect |
| `AuthReducer.AuthReducer` | libs/auth/useAuthContext.tsx:67-113 | the reducer, with the login `for` loop over the records, returns exactly the new database and storage effect of `Reduce` |
| `AuthProvider.BootstrapAction` | libs/auth/useAuthContext.tsx:135-147 | startup always dispatches a restore, carrying the parsed account iff the read produced one; a missing value and a failed read or parse both give null |
| `AuthProvider.Startup` | libs/auth/useAuthContext.tsx:128-150 | right after startup the records are empty, there is no error, and the user is logged in iff the read produced an account, which is then the session |
| `AuthProvider.LoginSurvivesRestart` | libs/auth/useAuthContext.tsx:83-85 | after a successful login the slot holds the session, and a restart restores that same session (but none of the records) |
| `AuthProvider.FailedLoginKeepsStorage` | libs/auth/useAuthContext.tsx:83-85 | a login that finds no full match leaves the storage unchanged |
| `AuthProvider.LogoutSurvivesRestart` | libs/auth/useAuthContext.tsx:93-94 | after a logout the slot is empty, and a restart comes up logged out |
| `AuthProvider.RunRecordsAreSignups` | libs/auth/useAuthContext.tsx:100-105 | over any run of actions, the records are the old records followed by the sign-up payloads in dispatch order |
| `AuthProvider.ReduceKeepsConsistent` | libs/auth/useAuthContext.tsx:67-113 | every action keeps this invariant, a restore as long as it carries the startup session: the session is a registered record or the restored session, the stored session is a registered record or what the slot held before the run, and `error` is well formed |
| `AuthProvider.RunKeepsConsistent` | libs/auth/useAuthContext.tsx:67-113 | a run whose restores all carry the startup session keeps that invariant |
| `AuthProvider.AppRun` | libs/auth/useAuthContext.tsx:127-150 | a provider run in which the startup restore (from a read that succeeds or throws) arrives after any number of user actions: the records are exactly the accounts signed up by the user, the session is one of them or the restored session, and the stored session is one of them or the value the slot held before the run |
| `AuthScenarios.EmailsMatchUpToCase` | libs/auth/useAuthContext.tsx:74 | `a@x.com` and `A@X.com` compare equal after lower-casing |
| `AuthScenarios.LaterMatchKeepsEarlierError` | libs/auth/useAuthContext.tsx:73-81 | records `[a@x.com/p1, A@X.com/p2]`, login `a@x.com/p2`: the second record becomes the session and is written, but the first record's error remains |
| `AuthScenarios.EarlierMatchThenError` | libs/auth/useAuthContext.tsx:73-81 | the same records in the other order give the same session and the same error |
| `AuthScenarios.SingleMatch` | libs/auth/useAuthContext.tsx:73-90 | one fully matching record: it becomes the session, there is no error, and it is written to storage |
| `AuthScenarios.AllPasswordsWrong` | libs/auth/useAuthContext.tsx:73-90 | every record matches the email and none the password: no session, the error, no write |
| `AuthScenarios.LastFullMatchWins` | libs/auth/useAuthContext.tsx:73-81 | of two full matches, the later record becomes the session |

## Left out

- `toLowerCase`: modelled as lower-casing of the ASCII letters `A`-`Z` only. JavaScript's full Unicode case mapping is not modelled.
- `JSON.stringify` / `JSON.parse`: the stored value is the record itself. Parsing shows up only as the read result `Cached`, or as `ReadFailed` when parsing or the read throws.
- `AsyncStorage`: its calls are asynchronous and fire-and-forget. They are modelled as effects that take place in dispatch order and always succeed. Write and delete failures are not modelled.
- `AuthProvider.AppRun` takes the startup read of the slot as it was when the run began. In the app, `getItem` is issued at mount, and only its result arrives later.
- React plumbing is not modelled: `createContext`, `useReducer`, `useEffect`, and the `useAuthContext` guard that throws outside a provider.
- Screens, widgets, the theme, navigation wiring and `libs/auth/validation.ts` are not part of this model. Inputs are taken as already validated. The reducer does not depend on validation. "Logged in" on the root screen is `AuthTypes.IsLoggedIn`.
