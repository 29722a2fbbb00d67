/** The two MongoDB collections the handlers use (the User and Employee
    models), as one in-memory store. Documents are kept in natural
    (insertion) order; one counter hands out both the id and the creation
    stamp of every new document, so "sort by created_at descending" is the
    reverse of natural order. */
module Store {
  import opened Common

  type Id = nat

  /** A stored account; the password is kept only as its bcrypt hash. */
  datatype User = User(id: Id, username: string, email: string, passwordHash: string, createdAt: nat)

  /** A stored employee: its id, creation stamp, and the document's fields
      (first_name, salary, employee_photo, ...) by name. */
  datatype Employee = Employee(id: Id, createdAt: nat, fields: map<string, Value>)

  /** An equality filter: every listed field must be present and equal. */
  type Filter = map<string, Value>

  predicate Matches(e: Employee, filter: Filter): (ok: bool)
    ensures filter == map[] ==> ok
    ensures ok ==> filter.Keys <= e.fields.Keys
  {
    forall k :: k in filter ==> k in e.fields && e.fields[k] == filter[k]
  }

  /** A user matches `{$or: [{username}, {email}]}`. */
  predicate UserMatches(u: User, username: string, email: string) {
    u.username == username || u.email == email
  }

  /** The error MongoDB raises when a unique index on `field` is violated. */
  function DuplicateKey(field: string): Exception {
    Exception("E11000 duplicate key error", NumCode(11000), None, [field])
  }

  /** The position of the first user (in natural order) that matches. */
  function FirstUser(us: seq<User>, username: string, email: string): (r: Option<nat>)
    ensures r.Some? ==> r.value < |us| && UserMatches(us[r.value], username, email)
    ensures r.Some? ==> forall j :: 0 <= j < r.value ==> !UserMatches(us[j], username, email)
    ensures r.None? ==> forall j :: 0 <= j < |us| ==> !UserMatches(us[j], username, email)
  {
    if us == [] then None
    else if UserMatches(us[0], username, email) then Some(0)
    else
      match FirstUser(us[1..], username, email)
      case None => None
      case Some(k) => Some(k + 1)
  }

  /** The position of the employee with the given id. */
  function IndexOf(es: seq<Employee>, id: Id): (r: Option<nat>)
    ensures r.Some? ==> r.value < |es| && es[r.value].id == id
    ensures r.Some? ==> forall j :: 0 <= j < r.value ==> es[j].id != id
    ensures r.None? ==> forall j :: 0 <= j < |es| ==> es[j].id != id
  {
    if es == [] then None
    else if es[0].id == id then Some(0)
    else
      match IndexOf(es[1..], id)
      case None => None
      case Some(k) => Some(k + 1)
  }

  /** The employees matching a filter, newest (last inserted) first. */
  function NewestFirst(es: seq<Employee>, filter: Filter): (r: seq<Employee>)
    ensures forall e :: e in r <==> e in es && Matches(e, filter)
    ensures |r| <= |es|
  {
    if es == [] then []
    else
      var last := es[|es| - 1];
      var older := NewestFirst(es[..|es| - 1], filter);
      assert forall e :: e in es <==> e in es[..|es| - 1] || e == last;
      (if Matches(last, filter) then [last] else []) + older
  }

  /** Ids and creation stamps grow strictly along natural order. */
  ghost predicate Chronological(es: seq<Employee>) {
    forall i, j :: 0 <= i < j < |es| ==> es[i].id < es[j].id && es[i].createdAt < es[j].createdAt
  }

  ghost predicate Descending(es: seq<Employee>) {
    forall i, j :: 0 <= i < j < |es| ==> es[i].createdAt > es[j].createdAt
  }

  /** `find(filter).sort({created_at: -1})` returns strictly descending
      creation stamps. */
  lemma {:induction false} NewestFirstDescending(es: seq<Employee>, filter: Filter)
    requires Chronological(es)
    ensures Descending(NewestFirst(es, filter))
  {
    if es != [] {
      var init, last := es[..|es| - 1], es[|es| - 1];
      assert Chronological(init);
      NewestFirstDescending(init, filter);
      var older := NewestFirst(init, filter);
      forall e | e in older ensures e.createdAt < last.createdAt {
        var i :| 0 <= i < |init| && init[i] == e;
      }
    }
  }

  /** In a chronological sequence an id sits at one position only. */
  lemma IndexOfUnique(es: seq<Employee>, id: Id, k: nat)
    requires Chronological(es) && k < |es| && es[k].id == id
    ensures IndexOf(es, id) == Some(k)
  {
  }

  /** A user appended after users that do not match is the first match. */
  lemma {:induction false} FirstUserAppend(us: seq<User>, x: User, username: string, email: string)
    requires forall j :: 0 <= j < |us| ==> !UserMatches(us[j], username, email)
    requires UserMatches(x, username, email)
    ensures FirstUser(us + [x], username, email) == Some(|us|)
  {
    if us != [] {
      assert (us + [x])[1..] == us[1..] + [x];
      FirstUserAppend(us[1..], x, username, email);
    }
  }

  class Store {
    var users: seq<User>
    var employees: seq<Employee>
    var clock: nat

    /** Ids and stamps below the counter, growing along natural order. */
    ghost predicate Valid()
      reads this
    {
      && Chronological(employees)
      && (forall i :: 0 <= i < |employees| ==> employees[i].id < clock && employees[i].createdAt < clock)
      && (forall i, j :: 0 <= i < j < |users| ==> users[i].id < users[j].id)
      && (forall i :: 0 <= i < |users| ==> users[i].id < clock)
    }

    constructor ()
      ensures Valid() && users == [] && employees == []
    {
      users, employees, clock := [], [], 0;
    }

    /** `User.findOne({$or: [{username}, {email}]})`: the first match. */
    function FindUser(username: string, email: string): (r: Option<User>)
      reads this
      ensures r.Some? ==> r.value in users && UserMatches(r.value, username, email)
      ensures r.None? <==> forall u :: u in users ==> !UserMatches(u, username, email)
    {
      match FirstUser(users, username, email)
      case None => None
      case Some(k) => Some(users[k])
    }

    /** `Employee.findById(id)`. */
    function FindById(id: Id): (r: Option<Employee>)
      reads this
      ensures r.Some? ==> r.value in employees && r.value.id == id
      ensures r.None? <==> forall e :: e in employees ==> e.id != id
    {
      match IndexOf(employees, id)
      case None => None
      case Some(k) => Some(employees[k])
    }

    /** `Employee.find(filter).sort({created_at: -1})`. */
    function Find(filter: Filter): (r: seq<Employee>)
      reads this
      ensures forall e :: e in r <==> e in employees && Matches(e, filter)
    {
      NewestFirst(employees, filter)
    }

    predicate UsernameTaken(username: string)
      reads this
    {
      exists u :: u in users && u.username == username
    }

    predicate EmailTaken(email: string)
      reads this
    {
      exists u :: u in users && u.email == email
    }

    /** `User.create`: the unique indexes on username and email reject a
        clash with the duplicate-key error; otherwise the user is appended. */
    method CreateUser(username: string, email: string, passwordHash: string, fault: Option<Exception>)
      returns (r: Result<User, Exception>)
      requires Valid()
      modifies this
      ensures Valid()
      ensures fault.Some? ==> r == Err(fault.value)
      ensures fault.None? && old(UsernameTaken(username)) ==> r == Err(DuplicateKey("username"))
      ensures fault.None? && !old(UsernameTaken(username)) && old(EmailTaken(email)) ==> r == Err(DuplicateKey("email"))
      ensures r.Err? ==> unchanged(this)
      ensures r.Ok? <==> fault.None? && !old(UsernameTaken(username)) && !old(EmailTaken(email))
      ensures r.Ok? ==> r.value == User(old(clock), username, email, passwordHash, old(clock))
      ensures r.Ok? ==> users == old(users) + [r.value] && employees == old(employees) && clock == old(clock) + 1
    {
      if fault.Some? {
        return Err(fault.value);
      }
      if UsernameTaken(username) {
        return Err(DuplicateKey("username"));
      }
      if EmailTaken(email) {
        return Err(DuplicateKey("email"));
      }
      var user := User(clock, username, email, passwordHash, clock);
      users := users + [user];
      clock := clock + 1;
      r := Ok(user);
    }

    /** `Employee.create(fields)`: the new document, appended. */
    method CreateEmployee(fields: map<string, Value>, fault: Option<Exception>) returns (r: Result<Employee, Exception>)
      requires Valid()
      modifies this
      ensures Valid()
      ensures fault.Some? <==> r.Err?
      ensures r.Err? ==> r.error == fault.value && unchanged(this)
      ensures r.Ok? ==> r.value == Employee(old(clock), old(clock), fields)
      ensures r.Ok? ==> employees == old(employees) + [r.value] && users == old(users) && clock == old(clock) + 1
      ensures r.Ok? ==> FindById(r.value.id) == Some(r.value)
    {
      if fault.Some? {
        return Err(fault.value);
      }
      var e := Employee(clock, clock, fields);
      employees := employees + [e];
      clock := clock + 1;
      r := Ok(e);
      assert employees[|employees| - 1] == e;
    }

    /** `Employee.findByIdAndUpdate(id, updates, {new: true})`: the updated
        document, or None when no employee has that id. Fields named in
        `updates` are overwritten; every other field stays. */
    method UpdateById(id: Id, updates: map<string, Value>, fault: Option<Exception>)
      returns (r: Result<Option<Employee>, Exception>)
      requires Valid()
      modifies this
      ensures Valid()
      ensures fault.Some? ==> r == Err(fault.value)
      ensures fault.None? ==> r.Ok? && (r.value.None? <==> old(FindById(id)).None?)
      ensures r.Err? || r.value.None? ==> unchanged(this)
      ensures r.Ok? && r.value.Some? ==>
                var k := IndexOf(old(employees), id).value;
                var before := old(employees)[k];
                && r.value.value == before.(fields := before.fields + updates)
                && employees == old(employees)[k := r.value.value]
                && users == old(users) && clock == old(clock)
      ensures r.Ok? && r.value.Some? ==> FindById(id) == r.value
    {
      if fault.Some? {
        return Err(fault.value);
      }
      match IndexOf(employees, id)
      case None =>
        r := Ok(None);
      case Some(k) =>
        var before := employees[k];
        var after := before.(fields := before.fields + updates);
        employees := employees[k := after];
        r := Ok(Some(after));
        IndexOfUnique(employees, id, k);
    }

    /** `Employee.findByIdAndDelete(id)`: the removed document, or None when
        no employee has that id. */
    method DeleteById(id: Id, fault: Option<Exception>) returns (r: Result<Option<Employee>, Exception>)
      requires Valid()
      modifies this
      ensures Valid()
      ensures fault.Some? ==> r == Err(fault.value)
      ensures fault.None? ==> r == Ok(old(FindById(id)))
      ensures r.Err? || r.value.None? ==> unchanged(this)
      ensures r.Ok? && r.value.Some? ==>
                var k := IndexOf(old(employees), id).value;
                && employees == old(employees)[..k] + old(employees)[k + 1..]
                && users == old(users) && clock == old(clock)
      ensures fault.None? ==> FindById(id).None?
    {
      if fault.Some? {
        return Err(fault.value);
      }
      match IndexOf(employees, id)
      case None =>
        r := Ok(None);
      case Some(k) =>
        var gone := employees[k];
        ghost var before := employees;
        employees := employees[..k] + employees[k + 1..];
        r := Ok(Some(gone));
        forall e | e in employees ensures e.id != id {
          var i :| 0 <= i < |employees| && employees[i] == e;
          if i < k { assert e == before[i]; } else { assert e == before[i + 1]; }
        }
    }
  }
}
