/** The allocation engine (`AllocationService`): allocating a phone line to
    an employee and releasing an allocation. `Allocate` and `Release` say
    what one call does to the database; `AllocateLine` and `ReleaseLine`
    perform it in place on a `Database`. The lemmas prove which of the
    engine's three invariants each operation keeps:
      - no employee holds more than two active allocations,
      - no line has two active allocations,
      - a line's status is ALLOCATED exactly when an active allocation
        references it. */
module AllocationService {
  import opened Common
  import opened TelecomModels
  import opened EmployeeModels
  import opened AllocationModels
  import opened Store

  /** `MAX_ACTIVE_ALLOCATIONS_PER_EMPLOYEE`. */
  const MaxActiveAllocationsPerEmployee: nat := 2

  datatype AllocationError =
    /** `Employee.DoesNotExist` (also raised for a soft-deleted employee). */
    | EmployeeNotFound
    /** `PhoneLine.DoesNotExist`. */
    | LineNotFound
    /** The capacity `BusinessRuleException`, naming the employee. */
    | CapacityExceeded(fullName: string)
    /** The exclusivity `BusinessRuleException`, naming the line. */
    | AlreadyAllocated(phoneNumber: string)
    /** Refusal of the corrected release: the allocation is not active. */
    | NotActive

  /** The text of the exception each error stands for. */
  function ErrorMessage(e: AllocationError): (m: string)
    ensures e.EmployeeNotFound? ==> m == "Employee matching query does not exist."
    ensures e.LineNotFound? ==> m == "PhoneLine matching query does not exist."
    ensures e.CapacityExceeded? ==>
      && "O funcionário " + e.fullName <= m
      && m[|"O funcionário " + e.fullName|..] == " já possui 2 linhas alocadas ativas."
    ensures e.AlreadyAllocated? ==>
      && "A linha " + e.phoneNumber <= m
      && m[|"A linha " + e.phoneNumber|..] == " já está alocada."
    ensures e.NotActive? ==> m == "A alocação já foi liberada."
  {
    match e
    case EmployeeNotFound => "Employee matching query does not exist."
    case LineNotFound => "PhoneLine matching query does not exist."
    case CapacityExceeded(n) => "O funcionário " + n + " já possui 2 linhas alocadas ativas."
    case AlreadyAllocated(p) => "A linha " + p + " já está alocada."
    case NotActive => "A alocação já foi liberada."
  }

  /** Different refusals have different texts: a message tells which check
      refused the call, and names the employee or the line it refused. */
  lemma ErrorMessageInjective(e1: AllocationError, e2: AllocationError)
    ensures ErrorMessage(e1) == ErrorMessage(e2) ==> e1 == e2
  {
    var m1, m2 := ErrorMessage(e1), ErrorMessage(e2);
    if e1.CapacityExceeded? && e2.CapacityExceeded? {
      if m1 == m2 {
        PrefixWithTail("O funcionário ", e1.fullName, e2.fullName, " já possui 2 linhas alocadas ativas.", m1);
      }
    } else if e1.AlreadyAllocated? && e2.AlreadyAllocated? {
      if m1 == m2 {
        PrefixWithTail("A linha ", e1.phoneNumber, e2.phoneNumber, " já está alocada.", m1);
      }
    } else if e1 != e2 {
      assert m1[0] != m2[0] || m1[2] != m2[2];
    }
  }

  /** The middle of "<p><x><t>" is determined by the whole text. */
  lemma PrefixWithTail(p: string, x: string, y: string, t: string, m: string)
    requires p + x <= m && m[|p + x|..] == t
    requires p + y <= m && m[|p + y|..] == t
    ensures x == y
  {
    assert |x| == |y|;
    assert x == m[|p|..|p| + |x|];
    assert y == m[|p|..|p| + |y|];
  }

  // ---------------------------------------------------------------------
  // The invariants

  ghost predicate CapacityRespected(s: seq<LineAllocation>) {
    forall e :: ActiveCount(s, e) <= MaxActiveAllocationsPerEmployee
  }

  ghost predicate LineExclusive(s: seq<LineAllocation>) {
    forall i, j :: 0 <= i < |s| && 0 <= j < |s| && i != j && s[i].isActive && s[j].isActive ==>
      s[i].phoneLine != s[j].phoneLine
  }

  ghost predicate StatusConsistent(lines: map<Id, PhoneLine>, s: seq<LineAllocation>) {
    forall l :: l in lines ==> (lines[l].status == Allocated <==> HasActiveForLine(s, l))
  }

  ghost predicate EngineInvariant(db: Db) {
    && CapacityRespected(db.allocations)
    && LineExclusive(db.allocations)
    && StatusConsistent(db.lines.rows, db.allocations)
  }

  // ---------------------------------------------------------------------
  // allocate_line

  /** `allocate_line(employee, phone_line, allocated_by)` at time `now`.
      The employee is looked up through `Employee.objects` (soft-deleted rows
      are not found), the line through the plain manager; then the capacity
      rule, then line exclusivity. On success one allocation is appended
      (its key is returned) and only the line's status column changes; the
      line's current status is not examined. */
  function Allocate(db: Db, e: Id, l: Id, actor: Option<Id>, now: Time): (r: Result<(Db, Id), AllocationError>)
    ensures e !in Objects(db.employees) ==> r == Err(EmployeeNotFound)
    ensures e in Objects(db.employees) && l !in db.lines.rows ==> r == Err(LineNotFound)
    ensures e in Objects(db.employees) && l in db.lines.rows
            && ActiveCount(db.allocations, e) >= MaxActiveAllocationsPerEmployee
            ==> r == Err(CapacityExceeded(db.employees.rows[e].fullName))
    ensures e in Objects(db.employees) && l in db.lines.rows
            && ActiveCount(db.allocations, e) < MaxActiveAllocationsPerEmployee
            && HasActiveForLine(db.allocations, l)
            ==> r == Err(AlreadyAllocated(db.lines.rows[l].phoneNumber))
    ensures r.Ok? <==> && e in Objects(db.employees) && l in db.lines.rows
                       && ActiveCount(db.allocations, e) < MaxActiveAllocationsPerEmployee
                       && !HasActiveForLine(db.allocations, l)
    ensures r.Ok? ==>
      var (d, k) := r.value;
      && k == |db.allocations| && |d.allocations| == k + 1
      && d.allocations[..k] == db.allocations
      && d.allocations[k] == NewAllocation(e, l, actor, now)
      && d.lines.rows.Keys == db.lines.rows.Keys && d.lines.nextId == db.lines.nextId
      && d.lines.rows[l] == db.lines.rows[l].(status := Allocated)
      && (forall m :: m in db.lines.rows && m != l ==> d.lines.rows[m] == db.lines.rows[m])
      && d.employees == db.employees && d.sims == db.sims && d.users == db.users
  {
    if e !in Objects(db.employees) then Err(EmployeeNotFound)
    else if l !in db.lines.rows then Err(LineNotFound)
    else if ActiveCount(db.allocations, e) >= MaxActiveAllocationsPerEmployee then
      Err(CapacityExceeded(db.employees.rows[e].fullName))
    else if HasActiveForLine(db.allocations, l) then
      Err(AlreadyAllocated(db.lines.rows[l].phoneNumber))
    else
      var a := NewAllocation(e, l, actor, now);
      var d := db.(allocations := db.allocations + [a],
                   lines := db.lines.Update(l, db.lines.rows[l].(status := Allocated)));
      assert d.allocations[..|db.allocations|] == db.allocations;
      Ok((d, |db.allocations|))
  }

  lemma HasActiveForLineAppend(s: seq<LineAllocation>, a: LineAllocation, m: Id)
    ensures HasActiveForLine(s + [a], m) <==> HasActiveForLine(s, m) || (a.isActive && a.phoneLine == m)
  {
    if HasActiveForLine(s, m) {
      var i :| 0 <= i < |s| && s[i].isActive && s[i].phoneLine == m;
      assert (s + [a])[i] == s[i];
    }
    if HasActiveForLine(s + [a], m) && !(a.isActive && a.phoneLine == m) {
      var i :| 0 <= i < |s + [a]| && (s + [a])[i].isActive && (s + [a])[i].phoneLine == m;
      assert i < |s| && (s + [a])[i] == s[i];
    }
    if a.isActive && a.phoneLine == m {
      assert (s + [a])[|s|] == a;
    }
  }

  /** `allocate_line` keeps all three invariants. */
  lemma AllocatePreservesInvariant(db: Db, e: Id, l: Id, actor: Option<Id>, now: Time)
    requires EngineInvariant(db)
    ensures Allocate(db, e, l, actor, now).Ok? ==> EngineInvariant(Allocate(db, e, l, actor, now).value.0)
  {
    var r := Allocate(db, e, l, actor, now);
    if r.Ok? {
      var d := r.value.0;
      var s := db.allocations;
      var a := NewAllocation(e, l, actor, now);
      assert d.allocations == s + [a];
      forall x ensures ActiveCount(d.allocations, x) <= MaxActiveAllocationsPerEmployee {
        ActiveCountAppend(s, a, x);
      }
      forall i, j | 0 <= i < |d.allocations| && 0 <= j < |d.allocations| && i != j
                    && d.allocations[i].isActive && d.allocations[j].isActive
        ensures d.allocations[i].phoneLine != d.allocations[j].phoneLine
      {
        if i == |s| {
          assert d.allocations[j] == s[j];
        } else if j == |s| {
          assert d.allocations[i] == s[i];
        } else {
          assert d.allocations[i] == s[i] && d.allocations[j] == s[j];
        }
      }
      forall m | m in d.lines.rows
        ensures d.lines.rows[m].status == Allocated <==> HasActiveForLine(d.allocations, m)
      {
        HasActiveForLineAppend(s, a, m);
      }
    }
  }

  /** `allocate_line` keeps the schema's constraints when `allocated_by` is
      an existing user (or none). */
  lemma AllocateKeepsValid(db: Db, e: Id, l: Id, actor: Option<Id>, now: Time)
    requires Valid(db) && UserRef(db.users.rows, actor)
    ensures Allocate(db, e, l, actor, now).Ok? ==> Valid(Allocate(db, e, l, actor, now).value.0)
  {
    var r := Allocate(db, e, l, actor, now);
    if r.Ok? {
      var d := r.value.0;
      assert UniquePhoneNumbers(d.lines.rows) by {
        forall x, y | x in d.lines.rows && y in d.lines.rows && x != y
          ensures d.lines.rows[x].phoneNumber != d.lines.rows[y].phoneNumber
        {
          assert d.lines.rows[x].phoneNumber == db.lines.rows[x].phoneNumber;
          assert d.lines.rows[y].phoneNumber == db.lines.rows[y].phoneNumber;
        }
      }
      assert SimBoundOnce(d.lines.rows) by {
        forall x, y | x in d.lines.rows && y in d.lines.rows && x != y
          ensures d.lines.rows[x].simCard != d.lines.rows[y].simCard
        {
          assert d.lines.rows[x].simCard == db.lines.rows[x].simCard;
          assert d.lines.rows[y].simCard == db.lines.rows[y].simCard;
        }
      }
      assert LinesReferenceSims(d.lines.rows, d.sims.rows) by {
        forall x | x in d.lines.rows ensures d.lines.rows[x].simCard in d.sims.rows {
          assert d.lines.rows[x].simCard == db.lines.rows[x].simCard;
        }
      }
      forall i | 0 <= i < |d.allocations|
        ensures && d.allocations[i].employee in d.employees.rows
                && d.allocations[i].phoneLine in d.lines.rows
                && UserRef(d.users.rows, d.allocations[i].allocatedBy)
                && UserRef(d.users.rows, d.allocations[i].releasedBy)
      {
        if i < |db.allocations| {
          assert d.allocations[i] == d.allocations[..|db.allocations|][i] == db.allocations[i];
        }
      }
    }
  }

  // ---------------------------------------------------------------------
  // release_line, as written

  /** `release_line(allocation, released_by)` at time `now`: the allocation
      is stamped (`released_at`, `is_active = False`, `released_by`) and its
      line set to AVAILABLE, whether or not the allocation was still active.
      No row is added or removed. */
  function Release(db: Db, a: Id, actor: Option<Id>, now: Time): (r: Db)
    requires a < |db.allocations| && db.allocations[a].phoneLine in db.lines.rows
    ensures |r.allocations| == |db.allocations|
    ensures r.allocations[a] == db.allocations[a].(releasedAt := Some(now), isActive := false, releasedBy := actor)
    ensures forall i :: 0 <= i < |db.allocations| && i != a ==> r.allocations[i] == db.allocations[i]
    ensures var l := db.allocations[a].phoneLine;
      && r.lines.rows.Keys == db.lines.rows.Keys && r.lines.nextId == db.lines.nextId
      && r.lines.rows[l] == db.lines.rows[l].(status := Available)
      && (forall m :: m in db.lines.rows && m != l ==> r.lines.rows[m] == db.lines.rows[m])
    ensures r.employees == db.employees && r.sims == db.sims && r.users == db.users
  {
    var x := db.allocations[a];
    var l := x.phoneLine;
    db.(allocations := db.allocations[a := x.(releasedAt := Some(now), isActive := false, releasedBy := actor)],
        lines := db.lines.Update(l, db.lines.rows[l].(status := Available)))
  }

  lemma HasActiveForLineUpdate(s: seq<LineAllocation>, a: nat, x: LineAllocation, m: Id)
    requires a < |s| && !x.isActive && s[a].phoneLine != m
    ensures HasActiveForLine(s[a := x], m) <==> HasActiveForLine(s, m)
  {
    if HasActiveForLine(s, m) {
      var i :| 0 <= i < |s| && s[i].isActive && s[i].phoneLine == m;
      assert s[a := x][i] == s[i];
    }
    if HasActiveForLine(s[a := x], m) {
      var i :| 0 <= i < |s| && s[a := x][i].isActive && s[a := x][i].phoneLine == m;
      assert s[a := x][i] == s[i];
    }
  }

  /** Releasing changes the active count only of the allocation's own
      employee, and by one exactly when the allocation was active. */
  lemma ReleaseActiveCount(db: Db, a: Id, actor: Option<Id>, now: Time, e: Id)
    requires a < |db.allocations| && db.allocations[a].phoneLine in db.lines.rows
    ensures var x := db.allocations[a];
      ActiveCount(Release(db, a, actor, now).allocations, e)
        == ActiveCount(db.allocations, e) - (if x.isActive && x.employee == e then 1 else 0)
  {
    var x := db.allocations[a];
    var y := x.(releasedAt := Some(now), isActive := false, releasedBy := actor);
    assert Release(db, a, actor, now).allocations == db.allocations[a := y];
    ActiveCountUpdate(db.allocations, a, y, e);
  }

  /** Releasing an ACTIVE allocation keeps all three invariants. */
  lemma ReleasePreservesInvariant(db: Db, a: Id, actor: Option<Id>, now: Time)
    requires EngineInvariant(db)
    requires a < |db.allocations| && db.allocations[a].phoneLine in db.lines.rows
    requires db.allocations[a].isActive
    ensures EngineInvariant(Release(db, a, actor, now))
  {
    var d := Release(db, a, actor, now);
    var s := db.allocations;
    var l := s[a].phoneLine;
    var y := s[a].(releasedAt := Some(now), isActive := false, releasedBy := actor);
    assert d.allocations == s[a := y];
    forall x ensures ActiveCount(d.allocations, x) <= MaxActiveAllocationsPerEmployee {
      ReleaseActiveCount(db, a, actor, now, x);
    }
    forall i, j | 0 <= i < |d.allocations| && 0 <= j < |d.allocations| && i != j
                  && d.allocations[i].isActive && d.allocations[j].isActive
      ensures d.allocations[i].phoneLine != d.allocations[j].phoneLine
    {
      assert i != a && j != a;
      assert d.allocations[i] == s[i] && d.allocations[j] == s[j];
    }
    forall m | m in d.lines.rows
      ensures d.lines.rows[m].status == Allocated <==> HasActiveForLine(d.allocations, m)
    {
      if m == l {
        forall i | 0 <= i < |d.allocations| && d.allocations[i].phoneLine == l
          ensures !d.allocations[i].isActive
        {
          if i != a {
            assert d.allocations[i] == s[i];
          }
        }
      } else {
        HasActiveForLineUpdate(s, a, y, m);
      }
    }
  }

  /** `release_line` keeps the schema's constraints when `released_by` is
      an existing user (or none). */
  lemma ReleaseKeepsValid(db: Db, a: Id, actor: Option<Id>, now: Time)
    requires Valid(db) && UserRef(db.users.rows, actor)
    requires a < |db.allocations|
    ensures db.allocations[a].phoneLine in db.lines.rows
    ensures Valid(Release(db, a, actor, now))
  {
    var d := Release(db, a, actor, now);
    assert UniquePhoneNumbers(d.lines.rows) by {
      forall x, y | x in d.lines.rows && y in d.lines.rows && x != y
        ensures d.lines.rows[x].phoneNumber != d.lines.rows[y].phoneNumber
      {
        assert d.lines.rows[x].phoneNumber == db.lines.rows[x].phoneNumber;
        assert d.lines.rows[y].phoneNumber == db.lines.rows[y].phoneNumber;
      }
    }
    assert SimBoundOnce(d.lines.rows) by {
      forall x, y | x in d.lines.rows && y in d.lines.rows && x != y
        ensures d.lines.rows[x].simCard != d.lines.rows[y].simCard
      {
        assert d.lines.rows[x].simCard == db.lines.rows[x].simCard;
        assert d.lines.rows[y].simCard == db.lines.rows[y].simCard;
      }
    }
    assert LinesReferenceSims(d.lines.rows, d.sims.rows) by {
      forall x | x in d.lines.rows ensures d.lines.rows[x].simCard in d.sims.rows {
        assert d.lines.rows[x].simCard == db.lines.rows[x].simCard;
      }
    }
  }

  /** Releasing an allocation that was already released, while a newer
      allocation of the same line is active, leaves that line AVAILABLE with
      an active allocation: the status invariant is broken. */
  lemma ReleaseOfStaleAllocationBreaksStatus(db: Db, a: Id, b: Id, actor: Option<Id>, now: Time)
    requires a < |db.allocations| && b < |db.allocations| && a != b
    requires db.allocations[a].phoneLine in db.lines.rows
    requires !db.allocations[a].isActive
    requires db.allocations[b].isActive && db.allocations[b].phoneLine == db.allocations[a].phoneLine
    ensures !StatusConsistent(Release(db, a, actor, now).lines.rows, Release(db, a, actor, now).allocations)
  {
    var d := Release(db, a, actor, now);
    var l := db.allocations[a].phoneLine;
    assert d.allocations[b] == db.allocations[b];
    assert HasActiveForLine(d.allocations, l);
    assert d.lines.rows[l].status == Available;
  }

  // ---------------------------------------------------------------------
  // A reachable run of the engine that shows the stale release

  const Alice: Employee := NewEmployee("Alice", "alice@corp", "E1", "Joinville", Some(Active), 0)
  const Bruno: Employee := NewEmployee("Bruno", "bruno@corp", "E2", "Joinville", Some(Active), 0)

  /** Two employees, one SIM card, one AVAILABLE line (key 1), no allocation. */
  function SampleDb(): (db: Db)
    ensures Valid(db) && EngineInvariant(db)
    ensures 1 in Objects(db.employees) && 2 in Objects(db.employees) && 1 in db.lines.rows
  {
    var sims := Table(map[1 := NewSimCard("8955000000000000001", "Vivo", None, 0)], 2);
    var lines := Table(map[1 := NewPhoneLine("47999990000", 1, None, 0)], 2);
    SampleTelecomValid(sims, lines);
    Db(SampleEmployees(), sims, lines, [], EmptyTable())
  }

  function SampleEmployees(): (t: Table<Employee>)
    ensures EmployeesValid(t) && 1 in Objects(t) && 2 in Objects(t)
  {
    var t := Table(map[1 := Alice, 2 := Bruno], 3);
    assert Objects(t).Keys == {1, 2};
    t
  }

  lemma SampleTelecomValid(sims: Table<SimCard>, lines: Table<PhoneLine>)
    requires sims == Table(map[1 := NewSimCard("8955000000000000001", "Vivo", None, 0)], 2)
    requires lines == Table(map[1 := NewPhoneLine("47999990000", 1, None, 0)], 2)
    ensures TelecomValid(sims, lines)
  {
  }

  /** Allocate the line to Alice, release it, allocate it to Bruno, then
      release Alice's old allocation again: every step is accepted by the
      engine as written, and the last one breaks the status invariant. */
  lemma DoubleReleaseIsReachable()
    ensures var db0 := SampleDb();
      && Allocate(db0, 1, 1, None, 10).Ok?
      && var db1 := Allocate(db0, 1, 1, None, 10).value.0;
      && var db2 := Release(db1, 0, None, 20);
      && Allocate(db2, 2, 1, None, 30).Ok?
      && var db3 := Allocate(db2, 2, 1, None, 30).value.0;
      && EngineInvariant(db3)
      && var db4 := Release(db3, 0, None, 40);
      && !StatusConsistent(db4.lines.rows, db4.allocations)
  {
    var db0 := SampleDb();
    assert ActiveCount(db0.allocations, 1) == 0;
    AllocatePreservesInvariant(db0, 1, 1, None, 10);
    var db1 := Allocate(db0, 1, 1, None, 10).value.0;
    assert db1.allocations[0].isActive && db1.allocations[0].phoneLine == 1;
    ReleasePreservesInvariant(db1, 0, None, 20);
    var db2 := Release(db1, 0, None, 20);
    assert |db2.allocations| == 1 && !db2.allocations[0].isActive;
    assert !HasActiveForLine(db2.allocations, 1);
    assert ActiveCount(db2.allocations, 2) == 0 by {
      assert db2.allocations[..0] == [];
    }
    AllocatePreservesInvariant(db2, 2, 1, None, 30);
    var db3 := Allocate(db2, 2, 1, None, 30).value.0;
    assert db3.allocations[1].isActive && db3.allocations[1].phoneLine == 1;
    assert db3.allocations[0] == db2.allocations[0];
    ReleaseOfStaleAllocationBreaksStatus(db3, 0, 1, None, 40);
  }

  // ---------------------------------------------------------------------
  // The corrected release

  /** Release that refuses an allocation that is no longer active and
      otherwise does what `release_line` does. */
  function ReleaseActive(db: Db, a: Id, actor: Option<Id>, now: Time): (r: Result<Db, AllocationError>)
    requires a < |db.allocations| && db.allocations[a].phoneLine in db.lines.rows
    ensures r.Err? <==> !db.allocations[a].isActive
    ensures r.Err? ==> r.error == NotActive
    ensures r.Ok? ==> r.value == Release(db, a, actor, now)
  {
    if !db.allocations[a].isActive then Err(NotActive) else Ok(Release(db, a, actor, now))
  }

  /** The corrected release keeps all three invariants on every input. */
  lemma ReleaseActivePreservesInvariant(db: Db, a: Id, actor: Option<Id>, now: Time)
    requires EngineInvariant(db)
    requires a < |db.allocations| && db.allocations[a].phoneLine in db.lines.rows
    ensures ReleaseActive(db, a, actor, now).Ok? ==> EngineInvariant(ReleaseActive(db, a, actor, now).value)
  {
    if db.allocations[a].isActive {
      ReleasePreservesInvariant(db, a, actor, now);
    }
  }

  /** Under the invariant, an active allocation's line is ALLOCATED, and an
      ALLOCATED line has an active allocation. The converse of the first
      fails: after a line is allocated again, its older, released
      allocation is inactive while the line is ALLOCATED. */
  lemma ActiveMeansLineAllocated(db: Db, a: Id)
    requires EngineInvariant(db)
    requires a < |db.allocations| && db.allocations[a].phoneLine in db.lines.rows
    ensures db.allocations[a].isActive ==> db.lines.rows[db.allocations[a].phoneLine].status == Allocated
    ensures db.lines.rows[db.allocations[a].phoneLine].status == Allocated ==>
      exists i :: 0 <= i < |db.allocations| && db.allocations[i].isActive
                  && db.allocations[i].phoneLine == db.allocations[a].phoneLine
  {
    var l := db.allocations[a].phoneLine;
    if db.allocations[a].isActive {
      assert HasActiveForLine(db.allocations, l);
    }
  }

  // ---------------------------------------------------------------------
  // Allocate, release, allocate again

  /** Allocating a free line, releasing it and allocating it again to the
      same employee succeeds and leaves two rows for the line: the first
      released, the second active. */
  lemma ReallocateAfterRelease(db: Db, e: Id, l: Id, actor: Option<Id>, t1: Time, t2: Time, t3: Time)
    requires EngineInvariant(db)
    requires e in Objects(db.employees) && l in db.lines.rows
    requires ActiveCount(db.allocations, e) < MaxActiveAllocationsPerEmployee
    requires !HasActiveForLine(db.allocations, l)
    ensures Allocate(db, e, l, actor, t1).Ok?
    ensures var (db1, k) := Allocate(db, e, l, actor, t1).value;
      && k == |db.allocations|
      && db1.allocations[k].phoneLine in db1.lines.rows
      && var db2 := Release(db1, k, actor, t2);
      && Allocate(db2, e, l, actor, t3).Ok?
      && var (db3, k3) := Allocate(db2, e, l, actor, t3).value;
      && k3 == k + 1 && |db3.allocations| == |db.allocations| + 2
      && db3.allocations[k].phoneLine == l && !db3.allocations[k].isActive && db3.allocations[k].releasedAt == Some(t2)
      && db3.allocations[k3].phoneLine == l && db3.allocations[k3].isActive
      && db3.lines.rows[l].status == Allocated
      && EngineInvariant(db3)
  {
    var (db1, k) := Allocate(db, e, l, actor, t1).value;
    AllocatePreservesInvariant(db, e, l, actor, t1);
    assert db1.allocations[k].isActive && db1.allocations[k].employee == e;
    ReleasePreservesInvariant(db1, k, actor, t2);
    var db2 := Release(db1, k, actor, t2);
    ReleaseActiveCount(db1, k, actor, t2, e);
    ActiveCountAppend(db.allocations, db1.allocations[k], e);
    assert db1.allocations == db.allocations + [db1.allocations[k]] by {
      assert db1.allocations == db1.allocations[..k] + [db1.allocations[k]];
    }
    assert ActiveCount(db2.allocations, e) == ActiveCount(db.allocations, e);
    assert db2.lines.rows[l].status == Available;
    assert !HasActiveForLine(db2.allocations, l);
    AllocatePreservesInvariant(db2, e, l, actor, t3);
    var (db3, k3) := Allocate(db2, e, l, actor, t3).value;
    assert db3.allocations[k] == db3.allocations[..k3][k] == db2.allocations[k];
  }

  // ---------------------------------------------------------------------
  // The service operating in place on the database

  /** `AllocationService.allocate_line`: returns the new allocation's key. */
  method AllocateLine(store: Database, e: Id, l: Id, actor: Option<Id>, now: Time) returns (r: Result<Id, AllocationError>)
    modifies store
    ensures var o := Allocate(old(store.State()), e, l, actor, now);
      && (o.Ok? ==> r == Ok(o.value.1) && store.State() == o.value.0)
      && (o.Err? ==> r == Err(o.error) && store.State() == old(store.State()))
    ensures EngineInvariant(old(store.State())) ==> EngineInvariant(store.State())
  {
    ghost var before := store.State();
    if EngineInvariant(before) {
      AllocatePreservesInvariant(before, e, l, actor, now);
    }
    if e !in Objects(store.employees) {
      return Err(EmployeeNotFound);
    }
    if l !in store.lines.rows {
      return Err(LineNotFound);
    }
    var employee := store.employees.rows[e];
    var line := store.lines.rows[l];
    if ActiveCount(store.allocations, e) >= MaxActiveAllocationsPerEmployee {
      return Err(CapacityExceeded(employee.fullName));
    }
    if HasActiveForLine(store.allocations, l) {
      return Err(AlreadyAllocated(line.phoneNumber));
    }
    var k := |store.allocations|;
    store.allocations := store.allocations + [NewAllocation(e, l, actor, now)];
    store.lines := store.lines.Update(l, line.(status := Allocated));
    r := Ok(k);
  }

  /** `AllocationService.release_line`: returns the updated allocation. */
  method ReleaseLine(store: Database, a: Id, actor: Option<Id>, now: Time) returns (r: LineAllocation)
    requires a < |store.allocations| && store.allocations[a].phoneLine in store.lines.rows
    modifies store
    ensures store.State() == Release(old(store.State()), a, actor, now)
    ensures r == store.allocations[a] && !r.isActive && r.releasedAt == Some(now)
    ensures EngineInvariant(old(store.State())) && old(store.allocations[a].isActive) ==> EngineInvariant(store.State())
  {
    if EngineInvariant(store.State()) && store.allocations[a].isActive {
      ReleasePreservesInvariant(store.State(), a, actor, now);
    }
    r := store.allocations[a].(releasedAt := Some(now), isActive := false, releasedBy := actor);
    store.allocations := store.allocations[a := r];
    var l := r.phoneLine;
    store.lines := store.lines.Update(l, store.lines.rows[l].(status := Available));
  }
}
