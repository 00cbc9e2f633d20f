/**
 * The values the authentication state machine works on: an account record,
 * the in-memory auth database, the four tagged actions, and the storage
 * effects the reducer fires (libs/auth/useAuthContext.tsx).
 */
module AuthTypes {

  /** `T | null` in the source. */
  datatype Option<T> = None | Some(value: T)

  /** An account record (`interface Auth`). Strings are sequences of characters. */
  datatype Auth = Auth(name: string, email: string, password: string)

  /**
   * `interface AuthDatabase`: the registered records in sign-up order, the
   * current session and the last login error.
   */
  datatype AuthDatabase = AuthDatabase(records: seq<Auth>, authInfo: Option<Auth>, error: Option<string>)

  /** `AuthLoginPayload`. */
  datatype LoginPayload = LoginPayload(email: string, password: string)

  /**
   * `type AuthAction`. The sign-up payload has exactly the fields of `Auth` and
   * is appended to `records` as it is, so it is carried as an `Auth` here.
   */
  datatype AuthAction =
    | Login(credentials: LoginPayload)
    | Logout
    | Signup(account: Auth)
    | Restore(session: Option<Auth>)

  /**
   * A storage call the reducer fires and does not wait for:
   * `AsyncStorage.setItem(key, JSON.stringify(value))`, `AsyncStorage.removeItem(key)`,
   * or nothing. Serialisation is not modelled: the stored value is the record itself.
   */
  datatype Effect = NoEffect | SetItem(key: string, value: Auth) | RemoveItem(key: string)

  /** The one storage key the session is kept under. */
  const StorageKey: string := "AAAA"

  /** The only error message the reducer ever produces. */
  const InvalidCredential: string := "Invalid credential."

  /** `String.prototype.toLowerCase`, restricted to the ASCII letters A-Z. */
  function LowerChar(c: char): char
  {
    if 'A' <= c <= 'Z' then (c as int - 'A' as int + 'a' as int) as char else c
  }

  function Lower(s: string): string
  {
    seq(|s|, i requires 0 <= i < |s| => LowerChar(s[i]))
  }

  /** `record.email.toLowerCase() === payload.email.toLowerCase()`. */
  predicate SameEmail(a: string, b: string)
  {
    Lower(a) == Lower(b)
  }

  /** The root component shows the home screen exactly when this holds (`authInfo !== null`). */
  predicate IsLoggedIn(db: AuthDatabase)
  {
    db.authInfo.Some?
  }

  /** The error slot only ever holds the one message. */
  predicate ErrorWellFormed(db: AuthDatabase)
  {
    db.error == None || db.error == Some(InvalidCredential)
  }
}
