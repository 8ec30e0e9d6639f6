/** Employees: the record, its status enumeration and defaults, the two
    managers (`objects` hides soft-deleted rows, `all_objects` does not),
    soft deletion of one row or of a queryset, and the unique columns. */
module EmployeeModels {
  import opened Common

  datatype EmployeeStatus = Active | Inactive

  function EmployeeStatusValue(s: EmployeeStatus): string
  {
    match s
    case Active => "active"
    case Inactive => "inactive"
  }

  /** `get_status_display()`. */
  function EmployeeStatusLabel(s: EmployeeStatus): string
  {
    match s
    case Active => "Ativo"
    case Inactive => "Inativo"
  }

  datatype Employee = Employee(
    fullName: string,
    corporateEmail: string,
    employeeId: string,
    teams: string,
    status: EmployeeStatus,
    createdAt: Time,
    updatedAt: Time,
    isDeleted: bool)

  /** `Employee(...)` created at `now`; an omitted status is `inactive`. */
  function NewEmployee(fullName: string, email: string, employeeId: string, teams: string,
                       status: Option<EmployeeStatus>, now: Time): (e: Employee)
    ensures e.fullName == fullName && e.corporateEmail == email && e.employeeId == employeeId && e.teams == teams
    ensures status.None? ==> e.status == Inactive
    ensures status.Some? ==> e.status == status.value
    ensures !e.isDeleted && e.createdAt == now && e.updatedAt == now
  {
    Employee(fullName, email, employeeId, teams, if status.Some? then status.value else Inactive, now, now, false)
  }

  /** `Employee.__str__`: "full_name (employee_id)". */
  function EmployeeStr(e: Employee): (s: string)
    ensures e.fullName <= s
    ensures |s| == |e.fullName| + |e.employeeId| + 3
    ensures s[|e.fullName|..] == " (" + e.employeeId + ")"
  {
    e.fullName + " (" + e.employeeId + ")"
  }

  // ---------------------------------------------------------------------
  // Managers

  /** `Employee.objects`: EmployeeManager.get_queryset filters out the
      soft-deleted rows. `Employee.all_objects` is the table itself. */
  function Objects(t: Table<Employee>): (m: map<Id, Employee>)
    ensures m.Keys <= t.rows.Keys
    ensures forall k :: k in m <==> k in t.rows && !t.rows[k].isDeleted
    ensures forall k :: k in m ==> m[k] == t.rows[k]
  {
    map k | k in t.rows && !t.rows[k].isDeleted :: t.rows[k]
  }

  // ---------------------------------------------------------------------
  // Unique columns (over all rows, soft-deleted ones included)

  ghost predicate UniqueEmployeeIds(rows: map<Id, Employee>) {
    forall a, b :: a in rows && b in rows && a != b ==> rows[a].employeeId != rows[b].employeeId
  }

  ghost predicate UniqueEmails(rows: map<Id, Employee>) {
    forall a, b :: a in rows && b in rows && a != b ==> rows[a].corporateEmail != rows[b].corporateEmail
  }

  ghost predicate EmployeesValid(t: Table<Employee>) {
    t.Valid() && UniqueEmployeeIds(t.rows) && UniqueEmails(t.rows)
  }

  predicate EmployeeIdTaken(rows: map<Id, Employee>, employeeId: string, except: Option<Id>) {
    exists k :: k in rows && Some(k) != except && rows[k].employeeId == employeeId
  }

  predicate EmailTaken(rows: map<Id, Employee>, email: string, except: Option<Id>) {
    exists k :: k in rows && Some(k) != except && rows[k].corporateEmail == email
  }

  /** Saving `e` under key `pk` (an existing row, or a new one when `pk` is
      None): the unique indexes on employee_id and corporate_email reject it
      when another row already holds either value. */
  function SaveEmployee(t: Table<Employee>, pk: Option<Id>, e: Employee): (r: Result<(Table<Employee>, Id), string>)
    requires t.Valid()
    requires pk.Some? ==> pk.value in t.rows
    ensures r.Err? <==> EmployeeIdTaken(t.rows, e.employeeId, pk) || EmailTaken(t.rows, e.corporateEmail, pk)
    ensures r.Ok? ==> r.value.0.Valid() && r.value.1 in r.value.0.rows && r.value.0.rows[r.value.1] == e
    ensures r.Ok? && pk.Some? ==> r.value.1 == pk.value && r.value.0.rows.Keys == t.rows.Keys
    ensures r.Ok? && pk.None? ==> r.value.1 !in t.rows && r.value.0.rows.Keys == t.rows.Keys + {r.value.1}
    ensures r.Ok? ==> forall k :: k in t.rows && k != r.value.1 ==> r.value.0.rows[k] == t.rows[k]
  {
    if EmployeeIdTaken(t.rows, e.employeeId, pk) then Err("UNIQUE constraint failed: employee_id")
    else if EmailTaken(t.rows, e.corporateEmail, pk) then Err("UNIQUE constraint failed: corporate_email")
    else if pk.Some? then Ok((t.Update(pk.value, e), pk.value))
    else Ok((t.Insert(e), t.nextId))
  }

  lemma SaveEmployeeKeepsUnique(t: Table<Employee>, pk: Option<Id>, e: Employee)
    requires EmployeesValid(t)
    requires pk.Some? ==> pk.value in t.rows
    ensures var r := SaveEmployee(t, pk, e); r.Ok? ==> EmployeesValid(r.value.0)
  {
    var r := SaveEmployee(t, pk, e);
    if r.Ok? {
      var rows := r.value.0.rows;
      var id := r.value.1;
      forall a, b | a in rows && b in rows && a != b
        ensures rows[a].employeeId != rows[b].employeeId && rows[a].corporateEmail != rows[b].corporateEmail
      {
        if a == id {
          assert b in t.rows && Some(b) != pk;
        } else if b == id {
          assert a in t.rows && Some(a) != pk;
        }
      }
    }
  }

  // ---------------------------------------------------------------------
  // Soft deletion

  /** `Employee.delete()` on the row `pk`: the flag and `updated_at` are
      written, the row stays. */
  function SoftDelete(t: Table<Employee>, pk: Id, now: Time): (r: Table<Employee>)
    requires pk in t.rows
    ensures r.rows.Keys == t.rows.Keys && r.nextId == t.nextId
    ensures r.rows[pk] == t.rows[pk].(isDeleted := true, updatedAt := now)
    ensures forall k :: k in t.rows && k != pk ==> r.rows[k] == t.rows[k]
    ensures pk !in Objects(r) && pk in r.rows
  {
    t.Update(pk, t.rows[pk].(isDeleted := true, updatedAt := now))
  }

  /** The rows a queryset of `Employee.objects` holds: those of `selected`
      (the caller's filter) that are not soft-deleted. */
  function Targets(t: Table<Employee>, selected: set<Id>): (ks: set<Id>)
    ensures forall k :: k in ks <==> k in selected && k in Objects(t)
  {
    set k | k in selected && k in t.rows && !t.rows[k].isDeleted
  }

  /** `EmployeeQuerySet.delete()` on `objects.filter(pk__in=selected)`: one
      UPDATE of the flag and `updated_at`; the number of rows updated is
      returned. No row is removed. */
  function QuerySetDelete(t: Table<Employee>, selected: set<Id>, now: Time): (r: (Table<Employee>, nat))
    ensures r.0.rows.Keys == t.rows.Keys && r.0.nextId == t.nextId
    ensures r.1 == |Targets(t, selected)|
    ensures forall k :: k in Targets(t, selected) ==> r.0.rows[k] == t.rows[k].(isDeleted := true, updatedAt := now)
    ensures forall k :: k in t.rows && k !in Targets(t, selected) ==> r.0.rows[k] == t.rows[k]
    ensures Objects(r.0).Keys == Objects(t).Keys - selected
  {
    var ks := Targets(t, selected);
    var rows := map k | k in t.rows :: if k in ks then t.rows[k].(isDeleted := true, updatedAt := now) else t.rows[k];
    (Table(rows, t.nextId), |ks|)
  }

  /** Soft deletion never changes a unique column, so it keeps them unique. */
  lemma QuerySetDeleteKeepsUnique(t: Table<Employee>, selected: set<Id>, now: Time)
    requires EmployeesValid(t)
    ensures EmployeesValid(QuerySetDelete(t, selected, now).0)
  {
    var r := QuerySetDelete(t, selected, now).0;
    forall k | k in r.rows
      ensures r.rows[k].employeeId == t.rows[k].employeeId && r.rows[k].corporateEmail == t.rows[k].corporateEmail
    {
    }
  }
}
