/**
 * Concrete runs of the login scan over accounts that share an email up to
 * letter case, pinning down its order-dependent outcome.
 */
module AuthScenarios {
  import opened AuthTypes
  import opened AuthReducer

  const First: Auth := Auth("Ann", "a@x.com", "p1")
  const Second: Auth := Auth("Ann", "A@X.com", "p2")

  lemma EmailsMatchUpToCase()
    ensures SameEmail(First.email, Second.email)
    ensures SameEmail(Second.email, "a@x.com")
  {
  }

  /** The scan of two records is the two loop iterations in order. */
  lemma UnrollPair(a: Auth, b: Auth, email: string, password: string)
    ensures Scan([a, b], email, password)
         == ScanStep(ScanStep(ScanState(None, None), a, email, password), b, email, password)
  {
    assert [a][..0] == [];
    assert Scan([a], email, password) == ScanStep(ScanState(None, None), a, email, password);
    assert [a, b][..1] == [a];
  }

  /**
   * The later record matches in full and becomes the session, but the earlier
   * record with the same email and another password has already set the error,
   * and nothing clears it: both slots are filled.
   */
  lemma LaterMatchKeepsEarlierError()
    ensures var (s, e) := Reduce(AuthDatabase([First, Second], None, None), Login(LoginPayload("a@x.com", "p2")));
            && s.authInfo == Some(Second)
            && s.error == Some(InvalidCredential)
            && e == SetItem(StorageKey, Second)
  {
    EmailsMatchUpToCase();
    UnrollPair(First, Second, "a@x.com", "p2");
  }

  /** The same two records in the other order: the match comes first, the error after it. */
  lemma EarlierMatchThenError()
    ensures var (s, e) := Reduce(AuthDatabase([Second, First], None, None), Login(LoginPayload("a@x.com", "p2")));
            && s.authInfo == Some(Second)
            && s.error == Some(InvalidCredential)
            && e == SetItem(StorageKey, Second)
  {
    EmailsMatchUpToCase();
    UnrollPair(Second, First, "a@x.com", "p2");
  }

  /** A single record matching in full logs in with no error and writes the session. */
  lemma SingleMatch()
    ensures var (s, e) := Reduce(AuthDatabase([Second], None, None), Login(LoginPayload("a@x.com", "p2")));
            && s.authInfo == Some(Second)
            && s.error == None
            && e == SetItem(StorageKey, Second)
  {
    EmailsMatchUpToCase();
  }

  /** Every record matches the email and none the password: no session, the error, no write. */
  lemma AllPasswordsWrong()
    ensures var (s, e) := Reduce(AuthDatabase([First, Second], None, None), Login(LoginPayload("a@x.com", "wrong")));
            && s.authInfo == None
            && s.error == Some(InvalidCredential)
            && e == NoEffect
  {
    EmailsMatchUpToCase();
  }

  /** Of two full matches the later one wins. */
  lemma LastFullMatchWins()
    ensures var twin := Second.(name := "Bob");
            var (s, e) := Reduce(AuthDatabase([Second, twin], None, None), Login(LoginPayload("a@x.com", "p2")));
            && s.authInfo == Some(twin)
            && s.error == None
  {
    EmailsMatchUpToCase();
  }
}
