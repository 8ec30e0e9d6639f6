/** The database the core works on: the five tables, the referential and
    unique constraints the schema enforces on them, the deletions the
    foreign keys allow (PROTECT refuses, SET_NULL clears), and a mutable
    `Database` object whose methods perform the in-place updates of the
    employee model (soft deletion of one row or of a queryset). */
module Store {
  import opened Common
  import opened TelecomModels
  import opened EmployeeModels
  import opened AllocationModels
  import opened UserModels

  datatype Db = Db(
    employees: Table<Employee>,
    sims: Table<SimCard>,
    lines: Table<PhoneLine>,
    /** `LineAllocation` rows; the primary key of a row is its position. */
    allocations: seq<LineAllocation>,
    users: Table<SystemUser>)

  predicate UserRef(users: map<Id, SystemUser>, u: Option<Id>) {
    u.None? || u.value in users
  }

  /** Every foreign key of every allocation names an existing row. */
  ghost predicate AllocationsReference(db: Db) {
    forall i :: 0 <= i < |db.allocations| ==>
      && db.allocations[i].employee in db.employees.rows
      && db.allocations[i].phoneLine in db.lines.rows
      && UserRef(db.users.rows, db.allocations[i].allocatedBy)
      && UserRef(db.users.rows, db.allocations[i].releasedBy)
  }

  /** The schema's constraints: keys below the sequences, unique columns,
      one line per SIM card, and every foreign key resolving. */
  ghost predicate Valid(db: Db) {
    && EmployeesValid(db.employees)
    && TelecomValid(db.sims, db.lines)
    && db.users.Valid() && UniqueUserEmails(db.users.rows)
    && AllocationsReference(db)
  }

  function EmptyDb(): (db: Db)
    ensures Valid(db)
    ensures db.allocations == [] && db.employees.rows == map[] && db.lines.rows == map[]
  {
    Db(EmptyTable(), EmptyTable(), EmptyTable(), [], EmptyTable())
  }

  // ---------------------------------------------------------------------
  // Hard deletions and what the foreign keys do about them

  /** `Employee.all_objects.filter(pk__in=pks).delete()` (a real DELETE):
      `LineAllocation.employee` is PROTECT, so any allocation, active or
      historical, that references a selected employee refuses the whole
      deletion; otherwise the rows go and nothing else changes. */
  function DeleteEmployees(db: Db, pks: set<Id>): (r: Result<Db, DbError>)
    ensures r.Err? <==> exists i :: 0 <= i < |db.allocations| && db.allocations[i].employee in pks
    ensures r.Ok? ==> r.value == db.(employees := db.employees.Remove(pks))
    ensures r.Ok? ==> r.value.employees.rows.Keys == db.employees.rows.Keys - pks
  {
    if exists i :: 0 <= i < |db.allocations| && db.allocations[i].employee in pks then
      Err(ProtectedError("employee referenced by a line allocation"))
    else
      Ok(db.(employees := db.employees.Remove(pks)))
  }

  /** PROTECT keeps every allocation's employee in place. */
  lemma DeleteEmployeesKeepsValid(db: Db, pks: set<Id>)
    requires Valid(db)
    ensures DeleteEmployees(db, pks).Ok? ==> Valid(DeleteEmployees(db, pks).value)
  {
    var r := DeleteEmployees(db, pks);
    if r.Ok? {
      var e := r.value.employees;
      forall i | 0 <= i < |db.allocations| ensures db.allocations[i].employee in e.rows {
        assert db.allocations[i].employee !in pks;
      }
    }
  }

  /** Deleting phone lines: PROTECT from `LineAllocation.phone_line`. */
  function DeletePhoneLines(db: Db, pks: set<Id>): (r: Result<Db, DbError>)
    ensures r.Err? <==> exists i :: 0 <= i < |db.allocations| && db.allocations[i].phoneLine in pks
    ensures r.Ok? ==> r.value == db.(lines := db.lines.Remove(pks))
    ensures r.Ok? ==> r.value.lines.rows.Keys == db.lines.rows.Keys - pks
  {
    if exists i :: 0 <= i < |db.allocations| && db.allocations[i].phoneLine in pks then
      Err(ProtectedError("phone line referenced by a line allocation"))
    else
      Ok(db.(lines := db.lines.Remove(pks)))
  }

  lemma DeletePhoneLinesKeepsValid(db: Db, pks: set<Id>)
    requires Valid(db)
    ensures DeletePhoneLines(db, pks).Ok? ==> Valid(DeletePhoneLines(db, pks).value)
  {
    var r := DeletePhoneLines(db, pks);
    if r.Ok? {
      var l := r.value.lines;
      forall i | 0 <= i < |db.allocations| ensures db.allocations[i].phoneLine in l.rows {
        assert db.allocations[i].phoneLine !in pks;
      }
      assert TelecomValid(r.value.sims, l);
    }
  }

  /** Deleting SIM cards: PROTECT from `PhoneLine.sim_card`. */
  function DeleteSims(db: Db, pks: set<Id>): (r: Result<Db, DbError>)
    ensures r.Err? <==> exists k :: k in db.lines.rows && db.lines.rows[k].simCard in pks && db.lines.rows[k].simCard in db.sims.rows
    ensures r.Ok? ==> r.value.sims.rows.Keys == db.sims.rows.Keys - pks
    ensures r.Ok? ==> r.value.lines == db.lines && r.value.allocations == db.allocations
    ensures r.Ok? && Valid(db) ==> Valid(r.value)
  {
    match DeleteSimCards(db.sims, db.lines.rows, pks)
    case Err(e) => Err(e)
    case Ok(s) => Ok(db.(sims := s))
  }

  /** Deleting user `u`: `allocated_by` and `released_by` are SET_NULL, so
      every allocation stays and only the references to `u` are cleared. */
  function DeleteUser(db: Db, u: Id): (r: Db)
    ensures r.users.rows.Keys == db.users.rows.Keys - {u}
    ensures |r.allocations| == |db.allocations|
    ensures forall i :: 0 <= i < |r.allocations| ==>
      r.allocations[i].allocatedBy != Some(u) && r.allocations[i].releasedBy != Some(u)
    ensures r.employees == db.employees && r.lines == db.lines && r.sims == db.sims
  {
    db.(allocations := OnUserDeleted(db.allocations, u), users := db.users.Remove({u}))
  }

  lemma {:induction false} DeleteUserKeepsValid(db: Db, u: Id)
    requires Valid(db)
    ensures Valid(DeleteUser(db, u))
  {
    var r := DeleteUser(db, u);
    forall i | 0 <= i < |r.allocations|
      ensures && r.allocations[i].employee in r.employees.rows
              && r.allocations[i].phoneLine in r.lines.rows
              && UserRef(r.users.rows, r.allocations[i].allocatedBy)
              && UserRef(r.users.rows, r.allocations[i].releasedBy)
    {
      assert r.allocations[i] == db.allocations[i].(allocatedBy := r.allocations[i].allocatedBy, releasedBy := r.allocations[i].releasedBy);
      assert UserRef(db.users.rows, db.allocations[i].allocatedBy) && UserRef(db.users.rows, db.allocations[i].releasedBy);
    }
  }

  // ---------------------------------------------------------------------
  // The mutable database

  class Database {
    var employees: Table<Employee>
    var sims: Table<SimCard>
    var lines: Table<PhoneLine>
    var allocations: seq<LineAllocation>
    var users: Table<SystemUser>

    function State(): Db
      reads this
    {
      Db(employees, sims, lines, allocations, users)
    }

    constructor ()
      ensures State() == EmptyDb()
    {
      employees, sims, lines, allocations, users := EmptyTable(), EmptyTable(), EmptyTable(), [], EmptyTable();
    }

    /** `Employee.delete()`: sets the flag and `updated_at` and saves those
        two columns; the row is kept and nothing else changes. */
    method DeleteEmployee(pk: Id, now: Time)
      requires pk in employees.rows
      modifies this
      ensures State() == old(State()).(employees := SoftDelete(old(employees), pk, now))
      ensures pk in employees.rows && pk !in Objects(employees)
      ensures Valid(old(State())) ==> Valid(State())
    {
      employees := employees.Update(pk, employees.rows[pk].(isDeleted := true, updatedAt := now));
      assert employees.rows[pk].employeeId == old(employees.rows[pk].employeeId);
    }

    /** `Employee.objects.filter(pk__in=selected).delete()`: the overridden
        queryset delete is one UPDATE; it returns how many rows it flagged. */
    method DeleteEmployeeQuerySet(selected: set<Id>, now: Time) returns (n: nat)
      modifies this
      ensures (State(), n) == (old(State()).(employees := QuerySetDelete(old(employees), selected, now).0),
                               QuerySetDelete(old(employees), selected, now).1)
      ensures Objects(employees).Keys == Objects(old(employees)).Keys - selected
      ensures employees.rows.Keys == old(employees.rows.Keys)
      ensures Valid(old(State())) ==> Valid(State())
    {
      var r := QuerySetDelete(employees, selected, now);
      if Valid(State()) {
        QuerySetDeleteKeepsUnique(employees, selected, now);
      }
      employees, n := r.0, r.1;
    }

    /** `Employee.all_objects.filter(pk__in=pks).delete()`. */
    method HardDeleteEmployees(pks: set<Id>) returns (r: Result<(), DbError>)
      modifies this
      ensures var d := DeleteEmployees(old(State()), pks);
        && (d.Err? ==> r == Err(d.error) && State() == old(State()))
        && (d.Ok? ==> r == Ok(()) && State() == d.value)
    {
      var d := DeleteEmployees(State(), pks);
      if d.Err? {
        r := Err(d.error);
      } else {
        employees := d.value.employees;
        r := Ok(());
      }
    }
  }
}
