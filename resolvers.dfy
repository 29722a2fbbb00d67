/** The GraphQL operation handlers of graphql/resolvers.js. Each handler
    validates, then reads or changes the store, and always answers with an
    envelope `{success, message, <entity>, errors}`: nothing is thrown past
    a handler, every caught error goes through `Errors.ToErrorDetails`, and
    the not-found and bad-credential cases answer with literal entries. */
module Resolvers {
  import opened Common
  import Errors
  import Validate
  import Auth
  import Store

  /** The libraries the handlers call, left uninterpreted: the validator's
      predicates, bcrypt's hash and compare, jsonwebtoken, and the photo
      upload (the uploaded file's `secure_url`, or the error it throws). */
  datatype Library = Library(
    checks: Validate.Predicates,
    hash: string -> string,
    compare: (string, string) -> bool,
    jwt: Auth.Jwt,
    upload: (Upload, string) -> Result<string, Exception>)

  /** The `requireAuth(context)` call of each protected handler, as a switch. */
  datatype Policy = Policy(
    getAllEmployees: bool,
    searchEmployeeByEid: bool,
    searchEmployeeByDesignationOrDepartment: bool,
    addEmployee: bool,
    updateEmployeeByEid: bool,
    deleteEmployeeByEid: bool)

  /** As shipped every `requireAuth(context)` call is commented out. */
  const Deployed := Policy(false, false, false, false, false, false)

  datatype AuthPayload = AuthPayload(success: bool, message: string, token: Option<string>, user: Option<Store.User>, errors: seq<ErrorDetail>)

  datatype EmployeePayload = EmployeePayload(success: bool, message: string, employee: Option<Store.Employee>, errors: seq<ErrorDetail>)

  datatype EmployeeListPayload = EmployeeListPayload(success: bool, message: string, employees: seq<Store.Employee>, errors: seq<ErrorDetail>)

  /** The envelope invariant: success carries the entity and no errors; a
      failure carries no entity (and no token). */
  predicate AuthEnvelope(p: AuthPayload) {
    && (p.success ==> p.errors == [] && p.user.Some?)
    && (!p.success ==> p.token.None? && p.user.None?)
  }

  predicate EmployeeEnvelope(p: EmployeePayload) {
    && (p.success ==> p.errors == [] && p.employee.Some?)
    && (!p.success ==> p.employee.None?)
  }

  predicate ListEnvelope(p: EmployeeListPayload) {
    && (p.success ==> p.errors == [])
    && (!p.success ==> p.employees == [])
  }

  function AuthFailure(message: string, errors: seq<ErrorDetail>): (p: AuthPayload)
    ensures AuthEnvelope(p) && !p.success
  {
    AuthPayload(false, message, None, None, errors)
  }

  function EmployeeFailure(message: string, errors: seq<ErrorDetail>): (p: EmployeePayload)
    ensures EmployeeEnvelope(p) && !p.success
  {
    EmployeePayload(false, message, None, errors)
  }

  function ListFailure(message: string, errors: seq<ErrorDetail>): (p: EmployeeListPayload)
    ensures ListEnvelope(p) && !p.success
  {
    EmployeeListPayload(false, message, [], errors)
  }

  const UserNotFound := ErrorDetail("usernameOrEmail", "User not found")
  const WrongPassword := ErrorDetail("password", "Incorrect password")
  const AlreadyTaken := ErrorDetail("username/email", "Username or email already taken")
  const EidNotFound := ErrorDetail("eid", "No employee with this id")
  const FilterRequired := ErrorDetail("designation/department", "At least one filter is required")

  const Genders := ["Male", "Female", "Other"]
  const PhotoFolder := "employees"
  const MinSalary := 1000.0

  const EmailMessage := "email must be valid"
  const GenderMessage := "gender must be Male/Female/Other"
  const SalaryMessage := "salary must be >= 1000"
  const DateMessage := "date_of_joining must be a valid date (YYYY-MM-DD)"

  // ----- rule tables -----

  /** A required string field: a string, and not empty. */
  function RequiredString(field: string, required: string): Validate.FieldRules {
    Validate.FieldRules(field, false, [Validate.IsString(Validate.DefaultMessage), Validate.NotEmpty(required)])
  }

  const LoginSchema: Validate.Schema := [RequiredString("usernameOrEmail", "usernameOrEmail is required"), RequiredString("password", "password is required")]

  const UsernameRules := RequiredString("username", "username is required")
  const SignupEmailRules := Validate.FieldRules("email", false, [Validate.IsEmail(EmailMessage), Validate.NotEmpty("email is required")])
  const PasswordRules := Validate.FieldRules("password", false, [Validate.IsString(Validate.DefaultMessage), Validate.IsLength(6, "password must be at least 6 chars")])

  const SignupSchema: Validate.Schema := [UsernameRules, SignupEmailRules, PasswordRules]

  const EmailRules := Validate.FieldRules("email", false, [Validate.IsEmail(EmailMessage)])
  const GenderRules := Validate.FieldRules("gender", false, [Validate.IsIn(Genders, GenderMessage)])
  const SalaryRules := Validate.FieldRules("salary", false, [Validate.IsFloat(MinSalary, SalaryMessage)])
  const DateRules := Validate.FieldRules("date_of_joining", false, [Validate.IsISO8601(DateMessage)])

  const FirstNameRules := RequiredString("first_name", "first_name is required")
  const LastNameRules := RequiredString("last_name", "last_name is required")
  const DesignationRules := RequiredString("designation", "designation is required")
  const DepartmentRules := RequiredString("department", "department is required")

  const AddEmployeeSchema: Validate.Schema := [
    FirstNameRules, LastNameRules, DesignationRules, SalaryRules, DateRules, DepartmentRules,
    GenderRules.(optional := true), EmailRules.(optional := true)
  ]

  // ----- arguments -----

  /** The arguments of `addEmployee` (non-null ones as plain values). */
  datatype NewEmployee = NewEmployee(
    firstName: string, lastName: string, email: Arg<string>, gender: Arg<string>,
    designation: string, salary: real, dateOfJoining: string, department: string,
    photo: Arg<Upload>)

  /** The arguments of `updateEmployeeByEid` besides `eid`, all nullable. */
  datatype EmployeePatch = EmployeePatch(
    firstName: Arg<string>, lastName: Arg<string>, email: Arg<string>, gender: Arg<string>,
    designation: Arg<string>, salary: Arg<real>, dateOfJoining: Arg<string>, department: Arg<string>,
    photo: Arg<Upload>)

  /** Adds a nullable string argument to a map as JavaScript would hold it. */
  function PutText(m: map<string, Value>, key: string, a: Arg<string>): map<string, Value> {
    match a
    case Omitted => m
    case NullArg => m[key := Null]
    case Given(s) => m[key := Str(s)]
  }

  function LoginArgs(usernameOrEmail: string, password: string): Validate.Args {
    map["usernameOrEmail" := Str(usernameOrEmail), "password" := Str(password)]
  }

  function SignupArgs(username: string, email: string, password: string): Validate.Args {
    map["username" := Str(username), "email" := Str(email), "password" := Str(password)]
  }

  /** The `addEmployee` arguments the validator sees (the photo is not in
      any rule, so it is left out of the bag). */
  function NewEmployeeArgs(a: NewEmployee): (r: Validate.Args)
    ensures "first_name" in r && r["first_name"] == Str(a.firstName)
    ensures "salary" in r && r["salary"] == Num(a.salary)
    ensures "date_of_joining" in r && r["date_of_joining"] == Str(a.dateOfJoining)
    ensures "last_name" in r && r["last_name"] == Str(a.lastName)
    ensures "designation" in r && r["designation"] == Str(a.designation)
    ensures "department" in r && r["department"] == Str(a.department)
    ensures "gender" in r <==> !a.gender.Omitted?
    ensures "gender" in r ==> r["gender"] == (if a.gender.NullArg? then Null else Str(a.gender.value))
    ensures "email" in r <==> !a.email.Omitted?
    ensures "email" in r ==> r["email"] == (if a.email.NullArg? then Null else Str(a.email.value))
    ensures r.Keys <= {"first_name", "last_name", "designation", "salary", "date_of_joining", "department", "gender", "email"}
  {
    var required := map[
      "first_name" := Str(a.firstName), "last_name" := Str(a.lastName),
      "designation" := Str(a.designation), "salary" := Num(a.salary),
      "date_of_joining" := Str(a.dateOfJoining), "department" := Str(a.department)];
    PutText(PutText(required, "gender", a.gender), "email", a.email)
  }

  /** The document `addEmployee` creates: the e-mail lower-cased and left
      out when falsy, the gender as given (left out when undefined), the
      date as `new Date(...)`, and the photo URL or null. */
  function NewDocument(a: NewEmployee, photoUrl: Option<string>): (doc: map<string, Value>)
    ensures "employee_photo" in doc && doc["employee_photo"] == (if photoUrl.Some? then Str(photoUrl.value) else Null)
    ensures "email" in doc <==> TruthyText(a.email)
    ensures "email" in doc ==> doc["email"] == Str(Lower(a.email.value))
    ensures "gender" in doc <==> !a.gender.Omitted?
    ensures "gender" in doc ==> doc["gender"] == (if a.gender.NullArg? then Null else Str(a.gender.value))
    ensures doc.Keys <= {"first_name", "last_name", "email", "gender", "designation", "salary", "date_of_joining", "department", "employee_photo"}
    ensures "date_of_joining" in doc && doc["date_of_joining"] == Date(a.dateOfJoining)
    ensures "salary" in doc && doc["salary"] == Num(a.salary)
    ensures "first_name" in doc && doc["first_name"] == Str(a.firstName)
    ensures "last_name" in doc && doc["last_name"] == Str(a.lastName)
    ensures "designation" in doc && doc["designation"] == Str(a.designation)
    ensures "department" in doc && doc["department"] == Str(a.department)
  {
    var base := map[
      "first_name" := Str(a.firstName), "last_name" := Str(a.lastName),
      "designation" := Str(a.designation), "salary" := Num(a.salary),
      "date_of_joining" := Date(a.dateOfJoining), "department" := Str(a.department),
      "employee_photo" := if photoUrl.Some? then Str(photoUrl.value) else Null];
    var withEmail := if TruthyText(a.email) then base["email" := Str(Lower(a.email.value))] else base;
    PutText(withEmail, "gender", a.gender)
  }

  /** The keys an update may carry. */
  const PatchKeys := {"first_name", "last_name", "email", "gender", "designation", "salary", "date_of_joining", "department", "employee_photo"}

  /** A nullable string argument as JavaScript holds it: None when undefined. */
  function TextEntry(a: Arg<string>): Option<Value> {
    match a
    case Omitted => None
    case NullArg => Some(Null)
    case Given(s) => Some(Str(s))
  }

  /** What `const { eid, ...updates } = args` holds under a key, None when
      that argument was not sent. An uploaded file is not a storable value;
      a sent file is always replaced by its URL before the update, so only a
      null photo is listed here. */
  function SentEntry(u: EmployeePatch, key: string): Option<Value> {
    if key == "first_name" then TextEntry(u.firstName)
    else if key == "last_name" then TextEntry(u.lastName)
    else if key == "email" then TextEntry(u.email)
    else if key == "gender" then TextEntry(u.gender)
    else if key == "designation" then TextEntry(u.designation)
    else if key == "date_of_joining" then TextEntry(u.dateOfJoining)
    else if key == "department" then TextEntry(u.department)
    else if key == "salary" then
      (match u.salary case Omitted => None case NullArg => Some(Null) case Given(x) => Some(Num(x)))
    else if key == "employee_photo" && u.photo.NullArg? then Some(Null)
    else None
  }

  function SentFields(u: EmployeePatch): (m: map<string, Value>)
    ensures m.Keys <= PatchKeys
    ensures "first_name" in m <==> !u.firstName.Omitted?
    ensures "email" in m <==> !u.email.Omitted?
    ensures "salary" in m <==> !u.salary.Omitted?
    ensures "employee_photo" in m <==> u.photo.NullArg?
    ensures "employee_photo" in m ==> m["employee_photo"] == Null
  {
    map k | k in PatchKeys && SentEntry(u, k).Some? :: SentEntry(u, k).value
  }

  /** The update set's entry under a key once the handler has normalised
      it: a truthy e-mail lower-cased, a truthy date made a date, and the
      photo present only as the URL of an uploaded file. */
  function UpdateEntry(u: EmployeePatch, photoUrl: Option<string>, key: string): Option<Value> {
    if key == "email" && TruthyText(u.email) then Some(Str(Lower(u.email.value)))
    else if key == "date_of_joining" && TruthyText(u.dateOfJoining) then Some(Date(u.dateOfJoining.value))
    else if key == "employee_photo" then (if photoUrl.Some? then Some(Str(photoUrl.value)) else None)
    else SentEntry(u, key)
  }

  function UpdateSet(u: EmployeePatch, photoUrl: Option<string>): (m: map<string, Value>)
    ensures m.Keys <= PatchKeys
    ensures "employee_photo" in m <==> photoUrl.Some?
  {
    map k | k in PatchKeys && UpdateEntry(u, photoUrl, k).Some? :: UpdateEntry(u, photoUrl, k).value
  }

  /** What reaches the stored document: the photo only when a file was
      uploaded (a null or missing photo leaves the stored one alone), a
      truthy e-mail lower-cased, an empty e-mail or date stored as the empty
      string without validation, and nothing for an argument not sent. */
  lemma UpdateSetContents(u: EmployeePatch, photoUrl: Option<string>)
    ensures var s := UpdateSet(u, photoUrl);
      && ("employee_photo" in s <==> photoUrl.Some?)
      && (photoUrl.Some? ==> s["employee_photo"] == Str(photoUrl.value))
      && (TruthyText(u.email) ==> "email" in s && s["email"] == Str(Lower(u.email.value)))
      && (TruthyText(u.dateOfJoining) ==> "date_of_joining" in s && s["date_of_joining"] == Date(u.dateOfJoining.value))
      && (u.email == Given("") ==> "email" in s && s["email"] == Str(""))
      && (u.dateOfJoining == Given("") ==> "date_of_joining" in s && s["date_of_joining"] == Str(""))
      && (u.gender.Given? ==> "gender" in s && s["gender"] == Str(u.gender.value))
      && (u.salary.Given? ==> "salary" in s && s["salary"] == Num(u.salary.value))
      && (u.salary.NullArg? ==> "salary" in s && s["salary"] == Null)
      && (u.firstName.Omitted? ==> "first_name" !in s)
      && (u.lastName.Omitted? ==> "last_name" !in s)
      && (u.email.Omitted? ==> "email" !in s)
      && (u.gender.Omitted? ==> "gender" !in s)
      && (u.designation.Omitted? ==> "designation" !in s)
      && (u.salary.Omitted? ==> "salary" !in s)
      && (u.dateOfJoining.Omitted? ==> "date_of_joining" !in s)
      && (u.department.Omitted? ==> "department" !in s)
      && (forall k :: k in s ==> k in PatchKeys)
  {
  }

  /** The other sent arguments reach the stored document as sent: a given
      string as that string, and a null argument as null. */
  lemma UpdateSetTextValues(u: EmployeePatch, photoUrl: Option<string>)
    ensures var s := UpdateSet(u, photoUrl);
      && (u.firstName.Given? ==> "first_name" in s && s["first_name"] == Str(u.firstName.value))
      && (u.lastName.Given? ==> "last_name" in s && s["last_name"] == Str(u.lastName.value))
      && (u.designation.Given? ==> "designation" in s && s["designation"] == Str(u.designation.value))
      && (u.department.Given? ==> "department" in s && s["department"] == Str(u.department.value))
      && (u.firstName.NullArg? ==> "first_name" in s && s["first_name"] == Null)
      && (u.lastName.NullArg? ==> "last_name" in s && s["last_name"] == Null)
      && (u.email.NullArg? ==> "email" in s && s["email"] == Null)
      && (u.gender.NullArg? ==> "gender" in s && s["gender"] == Null)
      && (u.designation.NullArg? ==> "designation" in s && s["designation"] == Null)
      && (u.dateOfJoining.NullArg? ==> "date_of_joining" in s && s["date_of_joining"] == Null)
      && (u.department.NullArg? ==> "department" in s && s["department"] == Null)
  {
  }

  /** The handler's in-place edits of the sent arguments yield the update
      set: e-mail, then date, then the photo set or deleted. */
  lemma UpdatesNormalised(u: EmployeePatch, photoUrl: Option<string>)
    ensures var sent := SentFields(u);
      var m1 := if TruthyText(u.email) then sent["email" := Str(Lower(u.email.value))] else sent;
      var m2 := if TruthyText(u.dateOfJoining) then m1["date_of_joining" := Date(u.dateOfJoining.value)] else m1;
      (if photoUrl.Some? then m2["employee_photo" := Str(photoUrl.value)] else m2 - {"employee_photo"}) == UpdateSet(u, photoUrl)
  {
    var sent := SentFields(u);
    var m1 := if TruthyText(u.email) then sent["email" := Str(Lower(u.email.value))] else sent;
    var m2 := if TruthyText(u.dateOfJoining) then m1["date_of_joining" := Date(u.dateOfJoining.value)] else m1;
    var m3 := if photoUrl.Some? then m2["employee_photo" := Str(photoUrl.value)] else m2 - {"employee_photo"};
    var s := UpdateSet(u, photoUrl);
    forall k ensures (k in m3 <==> k in s) && (k in s ==> m3[k] == s[k]) {
      if k == "employee_photo" {
      } else if k == "date_of_joining" {
      } else if k == "email" {
      } else {
        assert k in m3 <==> k in sent;
      }
    }
  }

  /** The entry for the first of the update's separate validations that
      fails, in the handler's order: email, gender, salary, date. Only
      truthy email, gender and date are checked; salary whenever sent
      non-null. */
  function PatchViolation(u: EmployeePatch, p: Validate.Predicates): (r: Option<ErrorDetail>)
    ensures r.None? <==>
              && (TruthyText(u.email) ==> p.isEmail(u.email.value))
              && (TruthyText(u.gender) ==> u.gender.value in Genders)
              && (u.salary.Given? ==> u.salary.value >= MinSalary)
              && (TruthyText(u.dateOfJoining) ==> p.isISO8601(u.dateOfJoining.value))
    ensures TruthyText(u.email) && !p.isEmail(u.email.value) ==> r == Some(ErrorDetail("email", EmailMessage))
    ensures r.Some? ==> r.value.field in ["email", "gender", "salary", "date_of_joining"]
  {
    if TruthyText(u.email) && !p.isEmail(u.email.value) then Some(ErrorDetail("email", EmailMessage))
    else if TruthyText(u.gender) && u.gender.value !in Genders then Some(ErrorDetail("gender", GenderMessage))
    else if u.salary.Given? && u.salary.value < MinSalary then Some(ErrorDetail("salary", SalaryMessage))
    else if TruthyText(u.dateOfJoining) && !p.isISO8601(u.dateOfJoining.value) then Some(ErrorDetail("date_of_joining", DateMessage))
    else None
  }

  function ClaimsOf(u: Store.User): Auth.Claims {
    Auth.Claims(u.id, u.username, u.email)
  }

  /** A protected handler's first step: `requireAuth(context)` when its
      switch is on. */
  function Guard(enabled: bool, user: Option<Auth.Claims>): (r: Option<Exception>)
    ensures r.Some? <==> enabled && user.None?
    ensures r.Some? ==> Errors.ToErrorDetails(r.value) == [ErrorDetail("general", "Unauthorized: Please login first.")]
  {
    if enabled then
      match Auth.RequireAuth(user)
      case Err(e) => Some(e)
      case Ok(_) => None
    else None
  }

  // ----- queries -----

  /** `login`: validate, find the account by username or lower-cased e-mail,
      compare the password, sign a token. */
  method Login(store: Store.Store, lib: Library, env: Auth.Env, usernameOrEmail: string, password: string, fault: Option<Exception>)
    returns (p: AuthPayload)
    requires store.Valid()
    ensures AuthEnvelope(p)
    ensures usernameOrEmail == "" || password == "" ==>
              p == AuthFailure("Login failed", Validate.Details(Validate.Failures(LoginSchema, LoginArgs(usernameOrEmail, password), lib.checks)))
              && |p.errors| == (if usernameOrEmail == "" then 1 else 0) + (if password == "" then 1 else 0)
    ensures usernameOrEmail != "" && password != "" && fault.Some? ==>
              p == AuthFailure("Login failed", Errors.ToErrorDetails(fault.value))
    ensures usernameOrEmail != "" && password != "" && fault.None? ==>
              var found := store.FindUser(usernameOrEmail, Lower(usernameOrEmail));
              && (found.None? ==> p == AuthFailure("Invalid username/email or password", [UserNotFound]))
              && (found.Some? && !lib.compare(password, found.value.passwordHash) ==>
                    p == AuthFailure("Invalid username/email or password", [WrongPassword]))
              && (found.Some? && lib.compare(password, found.value.passwordHash) ==>
                    p == AuthPayload(true, "Login successful", Some(Auth.IssueToken(ClaimsOf(found.value), env, lib.jwt)), found, []))
  {
    var args := LoginArgs(usernameOrEmail, password);
    var thrown := Validate.ValidateArgs(LoginSchema, args, lib.checks);
    LoginValidation(usernameOrEmail, password, lib.checks);
    if thrown.Some? {
      return AuthFailure("Login failed", Errors.ToErrorDetails(thrown.value));
    }
    if fault.Some? {
      return AuthFailure("Login failed", Errors.ToErrorDetails(fault.value));
    }
    var user := store.FindUser(usernameOrEmail, Lower(usernameOrEmail));
    if user.None? {
      return AuthFailure("Invalid username/email or password", [UserNotFound]);
    }
    var ok := lib.compare(password, user.value.passwordHash);
    if !ok {
      return AuthFailure("Invalid username/email or password", [WrongPassword]);
    }
    var token := Auth.IssueToken(ClaimsOf(user.value), env, lib.jwt);
    p := AuthPayload(true, "Login successful", Some(token), user, []);
  }

  /** `getAllEmployees`: every employee, newest first. */
  method GetAllEmployees(store: Store.Store, policy: Policy, user: Option<Auth.Claims>, fault: Option<Exception>)
    returns (p: EmployeeListPayload)
    requires store.Valid()
    ensures ListEnvelope(p)
    ensures p.success <==> Guard(policy.getAllEmployees, user).None? && fault.None?
    ensures p.success ==> (forall e :: e in p.employees <==> e in store.employees) && Store.Descending(p.employees)
    ensures p.success ==> p.message == "Employees fetched"
    ensures Guard(policy.getAllEmployees, user).Some? ==>
              p == ListFailure("Failed to fetch employees", Errors.ToErrorDetails(Guard(policy.getAllEmployees, user).value))
    ensures Guard(policy.getAllEmployees, user).None? && fault.Some? ==>
              p == ListFailure("Failed to fetch employees", Errors.ToErrorDetails(fault.value))
  {
    var denied := Guard(policy.getAllEmployees, user);
    if denied.Some? {
      return ListFailure("Failed to fetch employees", Errors.ToErrorDetails(denied.value));
    }
    if fault.Some? {
      return ListFailure("Failed to fetch employees", Errors.ToErrorDetails(fault.value));
    }
    var employees := store.Find(map[]);
    Store.NewestFirstDescending(store.employees, map[]);
    p := EmployeeListPayload(true, "Employees fetched", employees, []);
  }

  /** `searchEmployeeByEid`: the employee with that id, or the eid entry. */
  method SearchEmployeeByEid(store: Store.Store, policy: Policy, user: Option<Auth.Claims>, eid: Store.Id, fault: Option<Exception>)
    returns (p: EmployeePayload)
    requires store.Valid()
    ensures EmployeeEnvelope(p)
    ensures p.success <==> Guard(policy.searchEmployeeByEid, user).None? && fault.None? && store.FindById(eid).Some?
    ensures p.success ==> p.employee == store.FindById(eid) && p.employee.value.id == eid && p.message == "Employee fetched"
    ensures Guard(policy.searchEmployeeByEid, user).Some? ==>
              p == EmployeeFailure("Failed to search employee", Errors.ToErrorDetails(Guard(policy.searchEmployeeByEid, user).value))
    ensures Guard(policy.searchEmployeeByEid, user).None? && fault.None? && store.FindById(eid).None? ==>
              p == EmployeeFailure("Employee not found", [EidNotFound])
    ensures Guard(policy.searchEmployeeByEid, user).None? && fault.Some? ==>
              p == EmployeeFailure("Failed to search employee", Errors.ToErrorDetails(fault.value))
  {
    var denied := Guard(policy.searchEmployeeByEid, user);
    if denied.Some? {
      return EmployeeFailure("Failed to search employee", Errors.ToErrorDetails(denied.value));
    }
    if fault.Some? {
      return EmployeeFailure("Failed to search employee", Errors.ToErrorDetails(fault.value));
    }
    var employee := store.FindById(eid);
    if employee.None? {
      return EmployeeFailure("Employee not found", [EidNotFound]);
    }
    p := EmployeePayload(true, "Employee fetched", employee, []);
  }

  /** The filter built from whichever of the two arguments is truthy. */
  function SearchFilter(designation: Arg<string>, department: Arg<string>): (f: Store.Filter)
    ensures "designation" in f <==> TruthyText(designation)
    ensures "department" in f <==> TruthyText(department)
    ensures forall k :: k in f ==> k == "designation" || k == "department"
    ensures "designation" in f ==> f["designation"] == Str(designation.value)
    ensures "department" in f ==> f["department"] == Str(department.value)
  {
    var f := if TruthyText(designation) then map["designation" := Str(designation.value)] else map[];
    if TruthyText(department) then f["department" := Str(department.value)] else f
  }

  /** `searchEmployeeByDesignationOrDepartment`: at least one truthy filter,
      then the employees equal to every supplied one, newest first. */
  method SearchEmployeeByDesignationOrDepartment(store: Store.Store, policy: Policy, user: Option<Auth.Claims>,
                                                 designation: Arg<string>, department: Arg<string>, fault: Option<Exception>)
    returns (p: EmployeeListPayload)
    requires store.Valid()
    ensures ListEnvelope(p)
    ensures Guard(policy.searchEmployeeByDesignationOrDepartment, user).None? && !TruthyText(designation) && !TruthyText(department) ==>
              p == ListFailure("Provide designation or department", [FilterRequired])
    ensures p.success <==>
              Guard(policy.searchEmployeeByDesignationOrDepartment, user).None? &&
              (TruthyText(designation) || TruthyText(department)) && fault.None?
    ensures p.success ==> Store.Descending(p.employees) && p.message == "Employees fetched"
    ensures p.success ==> p.employees == store.Find(SearchFilter(designation, department))
    ensures Guard(policy.searchEmployeeByDesignationOrDepartment, user).Some? ==>
              p == ListFailure("Failed to search employees",
                               Errors.ToErrorDetails(Guard(policy.searchEmployeeByDesignationOrDepartment, user).value))
    ensures Guard(policy.searchEmployeeByDesignationOrDepartment, user).None? &&
            (TruthyText(designation) || TruthyText(department)) && fault.Some? ==>
              p == ListFailure("Failed to search employees", Errors.ToErrorDetails(fault.value))
    ensures p.success ==> forall e :: e in p.employees <==>
              && e in store.employees
              && (TruthyText(designation) ==> "designation" in e.fields && e.fields["designation"] == Str(designation.value))
              && (TruthyText(department) ==> "department" in e.fields && e.fields["department"] == Str(department.value))
  {
    var denied := Guard(policy.searchEmployeeByDesignationOrDepartment, user);
    if denied.Some? {
      return ListFailure("Failed to search employees", Errors.ToErrorDetails(denied.value));
    }
    if !TruthyText(designation) && !TruthyText(department) {
      return ListFailure("Provide designation or department", [FilterRequired]);
    }
    var filter: Store.Filter := map[];
    if TruthyText(designation) {
      filter := filter["designation" := Str(designation.value)];
    }
    if TruthyText(department) {
      filter := filter["department" := Str(department.value)];
    }
    if fault.Some? {
      return ListFailure("Failed to search employees", Errors.ToErrorDetails(fault.value));
    }
    assert filter == SearchFilter(designation, department);
    var employees := store.Find(filter);
    Store.NewestFirstDescending(store.employees, filter);
    p := EmployeeListPayload(true, "Employees fetched", employees, []);
  }

  // ----- mutations -----

  /** `signup`: validate, refuse a taken username or lower-cased e-mail,
      store the account with its password hashed. No token is issued. */
  method Signup(store: Store.Store, lib: Library, username: string, email: string, password: string,
                findFault: Option<Exception>, createFault: Option<Exception>)
    returns (p: AuthPayload)
    requires store.Valid()
    modifies store
    ensures store.Valid()
    ensures AuthEnvelope(p) && p.token.None?
    ensures !p.success ==> unchanged(store)
    ensures Validate.Validation(SignupSchema, SignupArgs(username, email, password), lib.checks).Some? ==>
              p == AuthFailure("Signup failed", Validate.Details(Validate.Failures(SignupSchema, SignupArgs(username, email, password), lib.checks)))
    ensures Validate.Validation(SignupSchema, SignupArgs(username, email, password), lib.checks).None? && findFault.None? &&
            old(store.FindUser(username, Lower(email))).Some? ==>
              p == AuthFailure("User already exists", [AlreadyTaken])
    ensures Validate.Validation(SignupSchema, SignupArgs(username, email, password), lib.checks).None? && findFault.Some? ==>
              p == AuthFailure("Signup failed", Errors.ToErrorDetails(findFault.value))
    ensures Validate.Validation(SignupSchema, SignupArgs(username, email, password), lib.checks).None? && findFault.None? &&
            old(store.FindUser(username, Lower(email))).None? && createFault.Some? ==>
              p == AuthFailure("Signup failed", Errors.ToErrorDetails(createFault.value))
    ensures p.success <==>
              && Validate.Validation(SignupSchema, SignupArgs(username, email, password), lib.checks).None?
              && findFault.None? && createFault.None?
              && old(store.FindUser(username, Lower(email))).None?
    ensures p.success ==>
              && p.message == "Signup successful"
              && p.user == Some(Store.User(old(store.clock), username, Lower(email), lib.hash(password), old(store.clock)))
              && store.users == old(store.users) + [p.user.value]
              && store.employees == old(store.employees)
  {
    var args := SignupArgs(username, email, password);
    var thrown := Validate.ValidateArgs(SignupSchema, args, lib.checks);
    if thrown.Some? {
      Validate.ClassifiedVerbatim(SignupSchema, args, lib.checks);
      return AuthFailure("Signup failed", Errors.ToErrorDetails(thrown.value));
    }
    var emailLower := Lower(email);
    if findFault.Some? {
      return AuthFailure("Signup failed", Errors.ToErrorDetails(findFault.value));
    }
    var existing := store.FindUser(username, emailLower);
    if existing.Some? {
      return AuthFailure("User already exists", [AlreadyTaken]);
    }
    var hashed := lib.hash(password);
    var created := store.CreateUser(username, emailLower, hashed, createFault);
    if created.Err? {
      return AuthFailure("Signup failed", Errors.ToErrorDetails(created.error));
    }
    p := AuthPayload(true, "Signup successful", None, Some(created.value), []);
  }

  /** `addEmployee`: validate every field first, then upload the photo if
      one was sent, then create the document. */
  method AddEmployee(store: Store.Store, lib: Library, policy: Policy, user: Option<Auth.Claims>, a: NewEmployee, fault: Option<Exception>)
    returns (p: EmployeePayload)
    requires store.Valid()
    modifies store
    ensures store.Valid()
    ensures EmployeeEnvelope(p)
    ensures !p.success ==> unchanged(store)
    ensures Guard(policy.addEmployee, user).None? && Validate.Validation(AddEmployeeSchema, NewEmployeeArgs(a), lib.checks).Some? ==>
              p == EmployeeFailure("Failed to create employee", Validate.Details(Validate.Failures(AddEmployeeSchema, NewEmployeeArgs(a), lib.checks)))
    ensures Guard(policy.addEmployee, user).Some? ==>
              p == EmployeeFailure("Failed to create employee", Errors.ToErrorDetails(Guard(policy.addEmployee, user).value))
    ensures Guard(policy.addEmployee, user).None? && Validate.Validation(AddEmployeeSchema, NewEmployeeArgs(a), lib.checks).None? &&
            a.photo.Given? && lib.upload(a.photo.value, PhotoFolder).Err? ==>
              p == EmployeeFailure("Failed to create employee", Errors.ToErrorDetails(lib.upload(a.photo.value, PhotoFolder).error))
    ensures Guard(policy.addEmployee, user).None? && Validate.Validation(AddEmployeeSchema, NewEmployeeArgs(a), lib.checks).None? &&
            (a.photo.Given? ==> lib.upload(a.photo.value, PhotoFolder).Ok?) && fault.Some? ==>
              p == EmployeeFailure("Failed to create employee", Errors.ToErrorDetails(fault.value))
    ensures p.success <==>
              && Guard(policy.addEmployee, user).None?
              && Validate.Validation(AddEmployeeSchema, NewEmployeeArgs(a), lib.checks).None?
              && (a.photo.Given? ==> lib.upload(a.photo.value, PhotoFolder).Ok?)
              && fault.None?
    ensures p.success ==>
              var url := if a.photo.Given? then Some(lib.upload(a.photo.value, PhotoFolder).value) else None;
              && p.message == "Employee created"
              && p.employee == Some(Store.Employee(old(store.clock), old(store.clock), NewDocument(a, url)))
              && store.employees == old(store.employees) + [p.employee.value]
              && store.users == old(store.users)
              && store.FindById(p.employee.value.id) == p.employee
  {
    var denied := Guard(policy.addEmployee, user);
    if denied.Some? {
      return EmployeeFailure("Failed to create employee", Errors.ToErrorDetails(denied.value));
    }
    var args := NewEmployeeArgs(a);
    var thrown := Validate.ValidateArgs(AddEmployeeSchema, args, lib.checks);
    if thrown.Some? {
      Validate.ClassifiedVerbatim(AddEmployeeSchema, args, lib.checks);
      return EmployeeFailure("Failed to create employee", Errors.ToErrorDetails(thrown.value));
    }
    var photoUrl: Option<string> := None;
    if a.photo.Given? {
      var uploaded := lib.upload(a.photo.value, PhotoFolder);
      if uploaded.Err? {
        return EmployeeFailure("Failed to create employee", Errors.ToErrorDetails(uploaded.error));
      }
      photoUrl := Some(uploaded.value);
    }
    var created := store.CreateEmployee(NewDocument(a, photoUrl), fault);
    if created.Err? {
      return EmployeeFailure("Failed to create employee", Errors.ToErrorDetails(created.error));
    }
    p := EmployeePayload(true, "Employee created", Some(created.value), []);
  }

  /** `updateEmployeeByEid`: the separate validations of the truthy fields
      (the first failure ends the call), the photo upload, then the partial
      update by id. */
  method UpdateEmployeeByEid(store: Store.Store, lib: Library, policy: Policy, user: Option<Auth.Claims>,
                             eid: Store.Id, u: EmployeePatch, fault: Option<Exception>)
    returns (p: EmployeePayload)
    requires store.Valid()
    modifies store
    ensures store.Valid()
    ensures EmployeeEnvelope(p)
    ensures !p.success ==> unchanged(store)
    ensures Guard(policy.updateEmployeeByEid, user).None? && PatchViolation(u, lib.checks).Some? ==>
              p == EmployeeFailure("Failed to update employee", [PatchViolation(u, lib.checks).value])
    ensures Guard(policy.updateEmployeeByEid, user).Some? ==>
              p == EmployeeFailure("Failed to update employee", Errors.ToErrorDetails(Guard(policy.updateEmployeeByEid, user).value))
    ensures Guard(policy.updateEmployeeByEid, user).None? && PatchViolation(u, lib.checks).None? &&
            u.photo.Given? && lib.upload(u.photo.value, PhotoFolder).Err? ==>
              p == EmployeeFailure("Failed to update employee", Errors.ToErrorDetails(lib.upload(u.photo.value, PhotoFolder).error))
    ensures Guard(policy.updateEmployeeByEid, user).None? && PatchViolation(u, lib.checks).None? &&
            (u.photo.Given? ==> lib.upload(u.photo.value, PhotoFolder).Ok?) && fault.Some? ==>
              p == EmployeeFailure("Failed to update employee", Errors.ToErrorDetails(fault.value))
    ensures Guard(policy.updateEmployeeByEid, user).None? && PatchViolation(u, lib.checks).None? &&
            (u.photo.Given? ==> lib.upload(u.photo.value, PhotoFolder).Ok?) &&
            fault.None? && old(store.FindById(eid)).None? ==>
              p == EmployeeFailure("Employee not found", [EidNotFound])
    ensures p.success <==>
              && Guard(policy.updateEmployeeByEid, user).None?
              && PatchViolation(u, lib.checks).None?
              && (u.photo.Given? ==> lib.upload(u.photo.value, PhotoFolder).Ok?)
              && fault.None?
              && old(store.FindById(eid)).Some?
    ensures p.success ==>
              var url := if u.photo.Given? then Some(lib.upload(u.photo.value, PhotoFolder).value) else None;
              var before := old(store.FindById(eid)).value;
              && p.message == "Employee updated"
              && p.employee == Some(before.(fields := before.fields + UpdateSet(u, url)))
              && (forall k :: k in before.fields && k !in UpdateSet(u, url) ==>
                    k in p.employee.value.fields && p.employee.value.fields[k] == before.fields[k])
              && store.FindById(eid) == p.employee
              && store.users == old(store.users)
              && |store.employees| == |old(store.employees)|
              && (forall e :: e in old(store.employees) && e.id != eid ==> e in store.employees)
  {
    var denied := Guard(policy.updateEmployeeByEid, user);
    if denied.Some? {
      return EmployeeFailure("Failed to update employee", Errors.ToErrorDetails(denied.value));
    }
    var thrown := CheckPatch(u, lib.checks);
    if thrown.Some? {
      return EmployeeFailure("Failed to update employee", Errors.ToErrorDetails(thrown.value));
    }
    var updates := SentFields(u);
    if TruthyText(u.email) {
      updates := updates["email" := Str(Lower(u.email.value))];
    }
    if TruthyText(u.dateOfJoining) {
      updates := updates["date_of_joining" := Date(u.dateOfJoining.value)];
    }
    var photoUrl: Option<string> := None;
    if u.photo.Given? {
      var uploaded := lib.upload(u.photo.value, PhotoFolder);
      if uploaded.Err? {
        return EmployeeFailure("Failed to update employee", Errors.ToErrorDetails(uploaded.error));
      }
      photoUrl := Some(uploaded.value);
      updates := updates["employee_photo" := Str(uploaded.value)];
    } else {
      updates := updates - {"employee_photo"};
    }
    UpdatesNormalised(u, photoUrl);
    var updated := store.UpdateById(eid, updates, fault);
    if updated.Err? {
      return EmployeeFailure("Failed to update employee", Errors.ToErrorDetails(updated.error));
    }
    if updated.value.None? {
      return EmployeeFailure("Employee not found", [EidNotFound]);
    }
    p := EmployeePayload(true, "Employee updated", updated.value, []);
    ghost var k := Store.IndexOf(old(store.employees), eid).value;
    forall e | e in old(store.employees) && e.id != eid ensures e in store.employees {
      var i :| 0 <= i < |old(store.employees)| && old(store.employees)[i] == e;
      assert store.employees[i] == e;
    }
  }

  /** The update's validations: each truthy e-mail, gender and date, and a
      non-null salary, is checked by a call of its own, in that order, and
      the first call that throws ends the sequence. */
  method CheckPatch(u: EmployeePatch, p: Validate.Predicates) returns (thrown: Option<Exception>)
    ensures thrown.None? <==> PatchViolation(u, p).None?
    ensures thrown.Some? ==> thrown.value == Validate.ValidationError([PatchViolation(u, p).value])
  {
    thrown := None;
    if TruthyText(u.email) {
      thrown := ValidateOne(EmailRules, Str(u.email.value), p);
      if thrown.Some? {
        return;
      }
    }
    if TruthyText(u.gender) {
      thrown := ValidateOne(GenderRules, Str(u.gender.value), p);
      if thrown.Some? {
        return;
      }
    }
    if u.salary.Given? {
      thrown := ValidateOne(SalaryRules, Num(u.salary.value), p);
      if thrown.Some? {
        return;
      }
    }
    if TruthyText(u.dateOfJoining) {
      thrown := ValidateOne(DateRules, Str(u.dateOfJoining.value), p);
    }
  }

  /** One of the update's `validateArgs` calls, on a one-field table. */
  method ValidateOne(rules: Validate.FieldRules, v: Value, p: Validate.Predicates) returns (thrown: Option<Exception>)
    requires |rules.checks| == 1 && !rules.optional
    ensures thrown == if Validate.Passes(rules.checks[0], Some(v), p) then None
                      else Some(Validate.ValidationError([ErrorDetail(rules.field, rules.checks[0].msg)]))
  {
    thrown := Validate.ValidateArgs([rules], map[rules.field := v], p);
    SingleCheck(rules, v, p);
  }

  /** `deleteEmployeeByEid`: the removed employee, or the eid entry. */
  method DeleteEmployeeByEid(store: Store.Store, policy: Policy, user: Option<Auth.Claims>, eid: Store.Id, fault: Option<Exception>)
    returns (p: EmployeePayload)
    requires store.Valid()
    modifies store
    ensures store.Valid()
    ensures EmployeeEnvelope(p)
    ensures !p.success ==> unchanged(store)
    ensures p.success <==> Guard(policy.deleteEmployeeByEid, user).None? && fault.None? && old(store.FindById(eid)).Some?
    ensures Guard(policy.deleteEmployeeByEid, user).None? && fault.None? && old(store.FindById(eid)).None? ==>
              p == EmployeeFailure("Employee not found", [EidNotFound])
    ensures Guard(policy.deleteEmployeeByEid, user).Some? ==>
              p == EmployeeFailure("Failed to delete employee", Errors.ToErrorDetails(Guard(policy.deleteEmployeeByEid, user).value))
    ensures Guard(policy.deleteEmployeeByEid, user).None? && fault.Some? ==>
              p == EmployeeFailure("Failed to delete employee", Errors.ToErrorDetails(fault.value))
    ensures p.success ==>
              && p.message == "Employee deleted"
              && p.employee == old(store.FindById(eid))
              && store.FindById(eid).None?
              && store.users == old(store.users)
              && (forall e :: e in store.employees <==> e in old(store.employees) && e.id != eid)
  {
    var denied := Guard(policy.deleteEmployeeByEid, user);
    if denied.Some? {
      return EmployeeFailure("Failed to delete employee", Errors.ToErrorDetails(denied.value));
    }
    ghost var before := store.employees;
    var deleted := store.DeleteById(eid, fault);
    if deleted.Err? {
      return EmployeeFailure("Failed to delete employee", Errors.ToErrorDetails(deleted.error));
    }
    if deleted.value.None? {
      return EmployeeFailure("Employee not found", [EidNotFound]);
    }
    p := EmployeePayload(true, "Employee deleted", deleted.value, []);
    ghost var k := Store.IndexOf(before, eid).value;
    forall e ensures e in store.employees <==> e in before && e.id != eid {
      if e in before && e.id != eid {
        var i :| 0 <= i < |before| && before[i] == e;
        assert i != k;
        if i < k { assert store.employees[i] == e; } else { assert store.employees[i - 1] == e; }
      }
    }
  }

  /** A unique-index clash raised by the store (the creation racing a
      concurrent signup) reaches the payload as the single entry blaming the
      field. */
  lemma DuplicateKeyEntry(field: string)
    requires field != ""
    ensures Errors.ToErrorDetails(Store.DuplicateKey(field)) == [ErrorDetail(field, field + " already exists (must be unique)")]
  {
  }

  // ----- properties of the rule tables -----

  /** Login validation reports each empty argument, both when both are
      empty: the chains do not stop at the first failing field. */
  lemma LoginValidation(usernameOrEmail: string, password: string, p: Validate.Predicates)
    ensures Validate.Failures(LoginSchema, LoginArgs(usernameOrEmail, password), p) ==
              (if usernameOrEmail == "" then [Validate.Failure("usernameOrEmail", "usernameOrEmail is required")] else []) +
              (if password == "" then [Validate.Failure("password", "password is required")] else [])
    ensures Validate.Validation(LoginSchema, LoginArgs(usernameOrEmail, password), p).None? <==> usernameOrEmail != "" && password != ""
  {
    var args := LoginArgs(usernameOrEmail, password);
    RequiredStringOnText("usernameOrEmail", "usernameOrEmail is required", usernameOrEmail, args, p);
    RequiredStringOnText("password", "password is required", password, args, p);
    var first, second := RequiredString("usernameOrEmail", "usernameOrEmail is required"), RequiredString("password", "password is required");
    assert LoginSchema[..1] == [first] && LoginSchema[1] == second;
    assert [first][..0] == [];
    assert Validate.Failures([first], args, p) == Validate.ChainFailures(first, args, p);
    assert Validate.Failures(LoginSchema, args, p) == Validate.ChainFailures(first, args, p) + Validate.ChainFailures(second, args, p);
  }

  /** A required-string chain on a string fails only on the empty string,
      and then only its not-empty check. */
  lemma RequiredStringOnText(field: string, required: string, s: string, args: Validate.Args, p: Validate.Predicates)
    requires field in args && args[field] == Str(s)
    ensures Validate.ChainFailures(RequiredString(field, required), args, p) ==
              if s == "" then [Validate.Failure(field, required)] else []
  {
    var v := Validate.Lookup(args, field);
    assert v == Some(Str(s));
    RequiredStringChain(field, required, v, p);
  }

  /** A required-string chain on a missing argument fails both checks. */
  lemma RequiredStringOnMissing(field: string, required: string, args: Validate.Args, p: Validate.Predicates)
    requires field !in args
    ensures Validate.ChainFailures(RequiredString(field, required), args, p) ==
              [Validate.Failure(field, Validate.DefaultMessage), Validate.Failure(field, required)]
  {
    RequiredStringChain(field, required, None, p);
  }

  /** The two checks of a required-string chain, each on its own. */
  lemma RequiredStringChain(field: string, required: string, v: Option<Value>, p: Validate.Predicates)
    ensures Validate.CheckFailures(field, RequiredString(field, required).checks, v, p) ==
              (if Validate.Passes(Validate.IsString(Validate.DefaultMessage), v, p) then [] else [Validate.Failure(field, Validate.DefaultMessage)]) +
              (if Validate.Passes(Validate.NotEmpty(required), v, p) then [] else [Validate.Failure(field, required)])
  {
    var c0, c1 := Validate.IsString(Validate.DefaultMessage), Validate.NotEmpty(required);
    var checks := RequiredString(field, required).checks;
    assert checks == [c0, c1];
    assert checks[1..] == [c1];
    assert [c1][1..] == [];
    var last := Validate.CheckFailures(field, [c1], v, p);
    assert last == (if Validate.Passes(c1, v, p) then [] else [Validate.Failure(field, c1.msg)]) + Validate.CheckFailures(field, [], v, p);
  }

  /** A mandatory chain of one check fails with that check's message
      exactly when the value does not pass it. */
  lemma OneCheckChain(rules: Validate.FieldRules, args: Validate.Args, p: Validate.Predicates)
    requires |rules.checks| == 1 && !rules.optional
    ensures Validate.ChainFailures(rules, args, p) ==
              if Validate.Passes(rules.checks[0], Validate.Lookup(args, rules.field), p) then []
              else [Validate.Failure(rules.field, rules.checks[0].msg)]
  {
    assert rules.checks[1..] == [];
  }

  /** A mandatory chain of two checks reports each failing one, in order. */
  lemma TwoCheckChain(rules: Validate.FieldRules, args: Validate.Args, p: Validate.Predicates)
    requires |rules.checks| == 2 && !rules.optional
    ensures var v := Validate.Lookup(args, rules.field);
      Validate.ChainFailures(rules, args, p) ==
        (if Validate.Passes(rules.checks[0], v, p) then [] else [Validate.Failure(rules.field, rules.checks[0].msg)]) +
        (if Validate.Passes(rules.checks[1], v, p) then [] else [Validate.Failure(rules.field, rules.checks[1].msg)])
  {
    var v := Validate.Lookup(args, rules.field);
    var c1 := rules.checks[1];
    assert rules.checks[1..] == [c1];
    assert [c1][1..] == [];
    var last := Validate.CheckFailures(rules.field, [c1], v, p);
    assert last == (if Validate.Passes(c1, v, p) then [] else [Validate.Failure(rules.field, c1.msg)]) + Validate.CheckFailures(rules.field, [], v, p);
  }

  /** Signup validation reports an empty username, an e-mail that is not
      one and an empty e-mail separately, and a password under six
      characters; all of them when all apply. */
  lemma SignupValidation(username: string, email: string, password: string, p: Validate.Predicates)
    ensures Validate.Failures(SignupSchema, SignupArgs(username, email, password), p) ==
              (if username == "" then [Validate.Failure("username", "username is required")] else []) +
              (if p.isEmail(email) then [] else [Validate.Failure("email", EmailMessage)]) +
              (if email == "" then [Validate.Failure("email", "email is required")] else []) +
              (if |password| >= 6 then [] else [Validate.Failure("password", "password must be at least 6 chars")])
    ensures Validate.Validation(SignupSchema, SignupArgs(username, email, password), p).None? <==>
              username != "" && p.isEmail(email) && email != "" && |password| >= 6
  {
    var args := SignupArgs(username, email, password);
    var c1, c2, c3 := Validate.ChainFailures(UsernameRules, args, p), Validate.ChainFailures(SignupEmailRules, args, p), Validate.ChainFailures(PasswordRules, args, p);
    SignupChains(args, p);
    RequiredStringOnText("username", "username is required", username, args, p);
    assert c1 == if username == "" then [Validate.Failure("username", "username is required")] else [];
    TwoCheckChain(SignupEmailRules, args, p);
    assert Validate.Lookup(args, "email") == Some(Str(email));
    TwoCheckChain(PasswordRules, args, p);
    assert Validate.Lookup(args, "password") == Some(Str(password));
    var notEmail := if p.isEmail(email) then [] else [Validate.Failure("email", EmailMessage)];
    var noEmail := if email == "" then [Validate.Failure("email", "email is required")] else [];
    assert c2 == notEmail + noEmail;
    assert c3 == if |password| >= 6 then [] else [Validate.Failure("password", "password must be at least 6 chars")];
    Validate.ConcatAssoc(c1, notEmail, noEmail);
  }

  /** The signup table reports each field's failures in table order. */
  lemma SignupChains(args: Validate.Args, p: Validate.Predicates)
    ensures Validate.Failures(SignupSchema, args, p) ==
              Validate.ChainFailures(UsernameRules, args, p) + Validate.ChainFailures(SignupEmailRules, args, p) +
              Validate.ChainFailures(PasswordRules, args, p)
  {
    var t1 := [UsernameRules];
    var t2 := t1 + [SignupEmailRules];
    assert SignupSchema == t2 + [PasswordRules];
    var c1 := Validate.ChainFailures(UsernameRules, args, p);
    Validate.FailuresSnoc([], UsernameRules, args, p);
    assert [] + [UsernameRules] == t1 && [] + c1 == c1;
    Validate.FailuresSnoc(t1, SignupEmailRules, args, p);
    Validate.FailuresSnoc(t2, PasswordRules, args, p);
  }

  /** The update's one-field tables: the call throws exactly when the one
      check fails, with the one entry for that field. */
  lemma SingleCheck(rules: Validate.FieldRules, v: Value, p: Validate.Predicates)
    requires |rules.checks| == 1 && !rules.optional
    ensures Validate.Validation([rules], map[rules.field := v], p) ==
              if Validate.Passes(rules.checks[0], Some(v), p) then None
              else Some(Validate.ValidationError([ErrorDetail(rules.field, rules.checks[0].msg)]))
  {
    var args := map[rules.field := v];
    OneCheckChain(rules, args, p);
    assert Validate.Lookup(args, rules.field) == Some(v);
    assert [rules][..0] == [];
    assert Validate.Failures([rules], args, p) == Validate.ChainFailures(rules, args, p);
    var f := Validate.Failure(rules.field, rules.checks[0].msg);
    assert Validate.Details([f]) == [ErrorDetail(f.path, f.msg)];
  }

  /** The two failures a required-string field records when it is missing. */
  function Missing(field: string, required: string): seq<Validate.Failure> {
    [Validate.Failure(field, Validate.DefaultMessage), Validate.Failure(field, required)]
  }

  /** The `addEmployee` table reports, for any arguments, each field's
      failures in table order. */
  lemma AddEmployeeChains(args: Validate.Args, p: Validate.Predicates)
    ensures Validate.Failures(AddEmployeeSchema, args, p) ==
              Validate.ChainFailures(FirstNameRules, args, p) + Validate.ChainFailures(LastNameRules, args, p) +
              Validate.ChainFailures(DesignationRules, args, p) + Validate.ChainFailures(SalaryRules, args, p) +
              Validate.ChainFailures(DateRules, args, p) + Validate.ChainFailures(DepartmentRules, args, p) +
              Validate.ChainFailures(GenderRules.(optional := true), args, p) +
              Validate.ChainFailures(EmailRules.(optional := true), args, p)
  {
    var gender, email := GenderRules.(optional := true), EmailRules.(optional := true);
    var t1 := [FirstNameRules];
    var t2 := t1 + [LastNameRules];
    var t3 := t2 + [DesignationRules];
    var t4 := t3 + [SalaryRules];
    var t5 := t4 + [DateRules];
    var t6 := t5 + [DepartmentRules];
    var t7 := t6 + [gender];
    var t8 := t7 + [email];
    assert AddEmployeeSchema == t8;
    var c1, c2 := Validate.ChainFailures(FirstNameRules, args, p), Validate.ChainFailures(LastNameRules, args, p);
    var c3, c4 := Validate.ChainFailures(DesignationRules, args, p), Validate.ChainFailures(SalaryRules, args, p);
    var c5, c6 := Validate.ChainFailures(DateRules, args, p), Validate.ChainFailures(DepartmentRules, args, p);
    var c7, c8 := Validate.ChainFailures(gender, args, p), Validate.ChainFailures(email, args, p);
    Validate.FailuresSnoc([], FirstNameRules, args, p);
    assert [] + [FirstNameRules] == t1 && [] + c1 == c1;
    Validate.FailuresSnoc(t1, LastNameRules, args, p);
    assert Validate.Failures(t2, args, p) == c1 + c2;
    Validate.FailuresSnoc(t2, DesignationRules, args, p);
    assert Validate.Failures(t3, args, p) == c1 + c2 + c3;
    Validate.FailuresSnoc(t3, SalaryRules, args, p);
    assert Validate.Failures(t4, args, p) == c1 + c2 + c3 + c4;
    Validate.FailuresSnoc(t4, DateRules, args, p);
    assert Validate.Failures(t5, args, p) == c1 + c2 + c3 + c4 + c5;
    Validate.FailuresSnoc(t5, DepartmentRules, args, p);
    assert Validate.Failures(t6, args, p) == c1 + c2 + c3 + c4 + c5 + c6;
    Validate.FailuresSnoc(t6, gender, args, p);
    assert Validate.Failures(t7, args, p) == c1 + c2 + c3 + c4 + c5 + c6 + c7;
    Validate.FailuresSnoc(t7, email, args, p);
  }

  /** An `addEmployee` call with no arguments at all reports every
      required field, each check separately, in table order, and nothing
      for the optional gender and e-mail. */
  lemma AddEmployeeEmptyArgs(p: Validate.Predicates)
    requires Validate.RejectsEmpty(p)
    ensures Validate.Failures(AddEmployeeSchema, map[], p) ==
              Missing("first_name", "first_name is required") + Missing("last_name", "last_name is required") +
              Missing("designation", "designation is required") +
              [Validate.Failure("salary", SalaryMessage)] + [Validate.Failure("date_of_joining", DateMessage)] +
              Missing("department", "department is required")
  {
    AddEmployeeChains(map[], p);
    EmptyArgsRequiredChains(p);
    EmptyArgsOtherChains(p);
  }

  /** With no arguments, each required string field fails both checks. */
  lemma EmptyArgsRequiredChains(p: Validate.Predicates)
    ensures Validate.ChainFailures(FirstNameRules, map[], p) == Missing("first_name", "first_name is required")
    ensures Validate.ChainFailures(LastNameRules, map[], p) == Missing("last_name", "last_name is required")
    ensures Validate.ChainFailures(DesignationRules, map[], p) == Missing("designation", "designation is required")
    ensures Validate.ChainFailures(DepartmentRules, map[], p) == Missing("department", "department is required")
  {
    RequiredStringOnMissing("first_name", "first_name is required", map[], p);
    RequiredStringOnMissing("last_name", "last_name is required", map[], p);
    RequiredStringOnMissing("designation", "designation is required", map[], p);
    RequiredStringOnMissing("department", "department is required", map[], p);
  }

  /** With no arguments, salary and date fail their one check, and the
      optional gender and e-mail are skipped. */
  lemma EmptyArgsOtherChains(p: Validate.Predicates)
    requires Validate.RejectsEmpty(p)
    ensures Validate.ChainFailures(SalaryRules, map[], p) == [Validate.Failure("salary", SalaryMessage)]
    ensures Validate.ChainFailures(DateRules, map[], p) == [Validate.Failure("date_of_joining", DateMessage)]
    ensures Validate.ChainFailures(GenderRules.(optional := true), map[], p) == []
    ensures Validate.ChainFailures(EmailRules.(optional := true), map[], p) == []
  {
    OneCheckChain(SalaryRules, map[], p);
    OneCheckChain(DateRules, map[], p);
  }
}
