/** Sequences of handler calls against one store, as a client would issue
    them, with what the handlers promise across the calls. All run with the
    deployed policy (no handler asks for a login) and no storage faults. */
module Scenarios {
  import opened Common
  import Validate
  import Auth
  import Store
  import opened Resolvers

  /** Deleting an employee twice: the first call returns the removed
      document, the second answers the eid entry. */
  method DeleteTwice(store: Store.Store, eid: Store.Id) returns (first: EmployeePayload, second: EmployeePayload)
    requires store.Valid() && store.FindById(eid).Some?
    modifies store
    ensures first.success && first.employee == old(store.FindById(eid))
    ensures second == EmployeeFailure("Employee not found", [EidNotFound])
  {
    first := DeleteEmployeeByEid(store, Deployed, None, eid, None);
    second := DeleteEmployeeByEid(store, Deployed, None, eid, None);
  }

  /** Adding an employee with a photo and fetching it by id gives back the
      created document, whose photo is the uploaded file's URL. */
  method AddThenFetch(store: Store.Store, lib: Library, a: NewEmployee, url: string)
    returns (added: EmployeePayload, fetched: EmployeePayload)
    requires store.Valid()
    requires Validate.Validation(AddEmployeeSchema, NewEmployeeArgs(a), lib.checks).None?
    requires a.photo.Given? && lib.upload(a.photo.value, PhotoFolder) == Ok(url)
    modifies store
    ensures added.success && fetched.success
    ensures fetched.employee == added.employee && fetched.employee.Some?
    ensures "employee_photo" in fetched.employee.value.fields && fetched.employee.value.fields["employee_photo"] == Str(url)
  {
    added := AddEmployee(store, lib, Deployed, None, a, None);
    fetched := SearchEmployeeByEid(store, Deployed, None, added.employee.value.id, None);
  }

  /** Signing up, then logging in with the same username and password,
      succeeds and returns the new account and a token for it. The login
      looks the username up also as a lower-cased e-mail, so no earlier
      account may have that e-mail. */
  method SignupThenLogin(store: Store.Store, lib: Library, env: Auth.Env, username: string, email: string, password: string)
    returns (signedUp: AuthPayload, loggedIn: AuthPayload)
    requires store.Valid()
    requires Validate.Validation(SignupSchema, SignupArgs(username, email, password), lib.checks).None?
    requires store.FindUser(username, Lower(email)).None?
    requires forall x :: x in store.users ==> x.email != Lower(username)
    requires lib.compare(password, lib.hash(password))
    modifies store
    ensures signedUp.success && signedUp.token.None? && signedUp.user.Some?
    ensures loggedIn.success && loggedIn.user == signedUp.user
    ensures loggedIn.token == Some(Auth.IssueToken(ClaimsOf(signedUp.user.value), env, lib.jwt))
  {
    SignupValidation(username, email, password, lib.checks);
    ghost var before := store.users;
    signedUp := Signup(store, lib, username, email, password, None, None);
    var account := signedUp.user.value;
    forall j | 0 <= j < |before| ensures !Store.UserMatches(before[j], username, Lower(username)) {
      assert before[j] in before;
    }
    Store.FirstUserAppend(before, account, username, Lower(username));
    loggedIn := Login(store, lib, env, username, password, None);
  }

  /** Signing up, then logging in with the e-mail as the account stores it
      (lower-cased), succeeds: the login lower-cases the identifier again,
      which changes nothing. */
  method SignupThenLoginByEmail(store: Store.Store, lib: Library, env: Auth.Env, username: string, email: string, password: string)
    returns (signedUp: AuthPayload, loggedIn: AuthPayload)
    requires store.Valid()
    requires Validate.Validation(SignupSchema, SignupArgs(username, email, password), lib.checks).None?
    requires store.FindUser(username, Lower(email)).None?
    requires forall x :: x in store.users ==> x.username != Lower(email)
    requires lib.compare(password, lib.hash(password))
    modifies store
    ensures signedUp.success && signedUp.user.Some? && signedUp.user.value.email == Lower(email)
    ensures loggedIn.success && loggedIn.user == signedUp.user
    ensures loggedIn.token == Some(Auth.IssueToken(ClaimsOf(signedUp.user.value), env, lib.jwt))
  {
    SignupValidation(username, email, password, lib.checks);
    ghost var before := store.users;
    signedUp := Signup(store, lib, username, email, password, None, None);
    var account := signedUp.user.value;
    LowerIdempotent(email);
    forall j | 0 <= j < |before| ensures !Store.UserMatches(before[j], account.email, Lower(account.email)) {
      assert before[j] in before;
    }
    Store.FirstUserAppend(before, account, account.email, Lower(account.email));
    loggedIn := Login(store, lib, env, account.email, password, None);
  }

  /** E-mail uniqueness ignores case: once an account holds an e-mail, a
      signup with the same e-mail in other letter case is refused and
      leaves the store as it was. */
  method SignupSameEmailOtherCase(store: Store.Store, lib: Library, name1: string, name2: string, email1: string, email2: string, password: string)
    returns (first: AuthPayload, second: AuthPayload)
    requires store.Valid()
    requires Validate.Validation(SignupSchema, SignupArgs(name1, email1, password), lib.checks).None?
    requires Validate.Validation(SignupSchema, SignupArgs(name2, email2, password), lib.checks).None?
    requires store.FindUser(name1, Lower(email1)).None?
    requires Lower(email2) == Lower(email1)
    modifies store
    ensures first.success && first.user.Some?
    ensures second == AuthFailure("User already exists", [AlreadyTaken])
    ensures store.users == old(store.users) + [first.user.value]
  {
    first := Signup(store, lib, name1, email1, password, None, None);
    assert Store.UserMatches(first.user.value, name2, Lower(email2));
    second := Signup(store, lib, name2, email2, password, None, None);
  }
}
