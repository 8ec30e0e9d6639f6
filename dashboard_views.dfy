/** The dashboard's figures: the headline counters, the per-status counts
    of SIM cards and lines, the negociador table (one row per live
    employee, flagged when it has no active allocation) and the daily
    indicators. */
module DashboardViews {
  import opened Common
  import opened TelecomModels
  import opened EmployeeModels
  import opened AllocationModels
  import opened Store
  import opened Aggregation
  import AllocationService

  // ---------------------------------------------------------------------
  // The filters the page uses

  predicate LiveSim(c: SimCard) { !c.isDeleted }
  function SimState(c: SimCard): SimStatus { c.status }
  predicate LiveLine(l: PhoneLine) { !l.isDeleted }
  function LineState(l: PhoneLine): LineStatus { l.status }
  predicate ActiveEmployee(e: Employee) { e.status == Active }
  predicate IsActiveAllocation(a: LineAllocation) { a.isActive }

  /** A live line whose status is anything but ALLOCATED. */
  predicate FreeLine(l: PhoneLine) { !l.isDeleted && l.status != Allocated }
  predicate LiveAllocatedLine(l: PhoneLine) { !l.isDeleted && l.status == Allocated }
  predicate LiveAvailableLine(l: PhoneLine) { !l.isDeleted && l.status == Available }

  // ---------------------------------------------------------------------
  // Headline counters

  datatype Counters = Counters(
    totalEmployees: nat,
    totalLines: nat,
    allocatedLines: nat,
    availableLines: int,
    totalSimcards: nat)

  /** The integer counters of `get_context_data`: ACTIVE employees through
      `Employee.objects` (soft-deleted rows hidden), live lines, active
      allocations, their difference (which nothing keeps non-negative) and
      live SIM cards. */
  function DashboardCounters(db: Db): (c: Counters)
    ensures c.availableLines == c.totalLines - c.allocatedLines
    ensures c.totalEmployees <= |Objects(db.employees)|
    ensures c.totalLines <= |db.lines.rows| && c.totalSimcards <= |db.sims.rows|
    ensures c.allocatedLines == CountSeq(db.allocations, IsActiveAllocation)
  {
    assert ActiveTotal(db.allocations) == CountSeq(db.allocations, IsActiveAllocation) by {
      ActiveTotalCounts(db.allocations);
    }
    var totalLines := Count(db.lines.rows, LiveLine);
    var active := ActiveTotal(db.allocations);
    Counters(Count(Objects(db.employees), ActiveEmployee), totalLines, active,
             totalLines - active, Count(db.sims.rows, LiveSim))
  }

  lemma {:induction false} ActiveTotalCounts(s: seq<LineAllocation>)
    ensures ActiveTotal(s) == CountSeq(s, IsActiveAllocation)
  {
    if s != [] {
      ActiveTotalCounts(s[..|s| - 1]);
    }
  }

  /** The lines with an active allocation. */
  ghost function ActiveLines(lines: set<Id>, s: seq<LineAllocation>): set<Id> {
    set l | l in lines && HasActiveForLine(s, l)
  }

  /** Under line exclusivity, counting active allocations is counting the
      lines they hold. */
  lemma {:induction false} ActiveTotalIsActiveLines(s: seq<LineAllocation>, lines: set<Id>)
    requires AllocationService.LineExclusive(s)
    requires forall i :: 0 <= i < |s| && s[i].isActive ==> s[i].phoneLine in lines
    ensures ActiveTotal(s) == |ActiveLines(lines, s)|
  {
    if s != [] {
      var n := |s| - 1;
      var front := s[..n];
      var a := s[n];
      assert s == front + [a];
      assert AllocationService.LineExclusive(front);
      ActiveTotalIsActiveLines(front, lines);
      forall m ensures HasActiveForLine(s, m) <==> HasActiveForLine(front, m) || (a.isActive && a.phoneLine == m) {
        AllocationService.HasActiveForLineAppend(front, a, m);
      }
      if a.isActive {
        assert !HasActiveForLine(front, a.phoneLine);
        assert ActiveLines(lines, s) == ActiveLines(lines, front) + {a.phoneLine};
      } else {
        assert ActiveLines(lines, s) == ActiveLines(lines, front);
      }
    }
  }

  /** The invariant `available = total − allocated` relies on: every
      active allocation holds a live line of the table. */
  ghost predicate ActiveLinesLive(db: Db) {
    forall i :: 0 <= i < |db.allocations| && db.allocations[i].isActive ==>
      db.allocations[i].phoneLine in db.lines.rows && !db.lines.rows[db.allocations[i].phoneLine].isDeleted
  }

  /** While the engine's invariants hold and no allocated line has been
      soft-deleted, `available_lines` is exactly the number of live lines
      that are not ALLOCATED. */
  lemma AvailableLinesAreFree(db: Db)
    requires AllocationService.EngineInvariant(db)
    requires ActiveLinesLive(db)
    ensures DashboardCounters(db).availableLines == Count(db.lines.rows, FreeLine)
  {
    ActiveTotalIsActiveLines(db.allocations, db.lines.rows.Keys);
    ActiveLinesAreLiveAllocated(db);
    LiveLinesSplit(db.lines.rows);
  }

  lemma ActiveLinesAreLiveAllocated(db: Db)
    requires AllocationService.EngineInvariant(db)
    requires ActiveLinesLive(db)
    ensures ActiveLines(db.lines.rows.Keys, db.allocations) == Kept(db.lines.rows, LiveAllocatedLine)
  {
    var rows := db.lines.rows;
    forall l | l in rows ensures HasActiveForLine(db.allocations, l) ==> !rows[l].isDeleted {
      if HasActiveForLine(db.allocations, l) {
        var i :| 0 <= i < |db.allocations| && db.allocations[i].isActive && db.allocations[i].phoneLine == l;
      }
    }
  }

  /** The live lines are the allocated ones and the free ones. */
  lemma LiveLinesSplit(rows: map<Id, PhoneLine>)
    ensures Count(rows, LiveLine) == Count(rows, LiveAllocatedLine) + Count(rows, FreeLine)
  {
    assert Kept(rows, LiveLine) == Kept(rows, LiveAllocatedLine) + Kept(rows, FreeLine);
    assert Kept(rows, LiveAllocatedLine) * Kept(rows, FreeLine) == {};
  }

  /** Under the same invariants the AVAILABLE numbers are among the free
      ones, so `numeros_disponiveis` never exceeds `available_lines`. */
  lemma AvailableNumbersWithinFree(db: Db, today: int)
    requires AllocationService.EngineInvariant(db)
    requires ActiveLinesLive(db)
    ensures Indicators(db, today).numerosDisponiveis <= DashboardCounters(db).availableLines
  {
    AvailableLinesAreFree(db);
    SubsetCard(Kept(db.lines.rows, LiveAvailableLine), Kept(db.lines.rows, FreeLine));
  }

  /** As written, a soft-deleted line that is still allocated drives
      `available_lines` below zero. */
  lemma AvailableLinesCanBeNegative()
    ensures var sim := NewSimCard("S1", "Vivo", None, 0);
      var line := NewPhoneLine("111", 1, Some(Allocated), 0).(isDeleted := true);
      var db := Db(EmptyTable(), Table(map[1 := sim], 2), Table(map[1 := line], 2),
                   [NewAllocation(1, 1, None, 0)], EmptyTable());
      AllocationService.EngineInvariant(db) && DashboardCounters(db).availableLines == -1
  {
    var sim := NewSimCard("S1", "Vivo", None, 0);
    var line := NewPhoneLine("111", 1, Some(Allocated), 0).(isDeleted := true);
    var a := NewAllocation(1, 1, None, 0);
    var db := Db(EmptyTable(), Table(map[1 := sim], 2), Table(map[1 := line], 2), [a], EmptyTable());
    assert Kept(db.lines.rows, LiveLine) == {};
    assert [a][..0] == [];
    assert ActiveTotal([a]) == 1;
    assert ActiveCount([a], 1) == 1;
    assert forall e :: e != 1 ==> ActiveCount([a], e) == 0;
    assert HasActiveForLine([a], 1);
  }

  // ---------------------------------------------------------------------
  // _build_status_counts

  /** One of its two loops: each grouped row assigns its count to its
      status, a later row overwriting an earlier one. */
  method FillCounts<S(==, !new)>(groups: seq<(S, nat)>) returns (counts: map<S, nat>)
    ensures counts == ToMap(groups)
  {
    counts := map[];
    var i := 0;
    while i < |groups|
      invariant 0 <= i <= |groups|
      invariant counts == ToMap(groups[..i])
    {
      assert groups[..i + 1][..i] == groups[..i];
      counts := counts[groups[i].0 := groups[i].1];
      i := i + 1;
    }
    assert groups[..|groups|] == groups;
  }

  /** `_build_status_counts`, given what the two GROUP BY queries return:
      one entry per status choice in declaration order, each labelled and
      counting the live rows with that status (0 for an absent status);
      the entries add up to the live totals. */
  method BuildStatusCounts(db: Db, simGroups: seq<(SimStatus, nat)>, lineGroups: seq<(LineStatus, nat)>)
    returns (simCounts: seq<StatusCount>, lineCounts: seq<StatusCount>)
    requires IsGroupBy(simGroups, db.sims.rows, LiveSim, SimState)
    requires IsGroupBy(lineGroups, db.lines.rows, LiveLine, LineState)
    ensures |simCounts| == |SimStatusChoices|
    ensures forall i :: 0 <= i < |SimStatusChoices| ==>
      simCounts[i] == StatusCount(SimStatusLabel(SimStatusChoices[i]), GroupCount(db.sims.rows, LiveSim, SimState, SimStatusChoices[i]))
    ensures |lineCounts| == |LineStatusChoices|
    ensures forall i :: 0 <= i < |LineStatusChoices| ==>
      lineCounts[i] == StatusCount(LineStatusLabel(LineStatusChoices[i]), GroupCount(db.lines.rows, LiveLine, LineState, LineStatusChoices[i]))
    ensures SumCounts(simCounts) == DashboardCounters(db).totalSimcards
    ensures SumCounts(lineCounts) == DashboardCounters(db).totalLines
  {
    var simMap := FillCounts(simGroups);
    var lineMap := FillCounts(lineGroups);
    simCounts := CountsList(SimStatusChoices, SimStatusLabel, simMap);
    lineCounts := CountsList(LineStatusChoices, LineStatusLabel, lineMap);
    CountsListCounts(SimStatusChoices, SimStatusLabel, simGroups, db.sims.rows, LiveSim, SimState);
    CountsListCounts(LineStatusChoices, LineStatusLabel, lineGroups, db.lines.rows, LiveLine, LineState);
    ChoicesCoverStatuses(db);
    CountsListAddsUp(SimStatusChoices, SimStatusLabel, simGroups, db.sims.rows, LiveSim, SimState);
    CountsListAddsUp(LineStatusChoices, LineStatusLabel, lineGroups, db.lines.rows, LiveLine, LineState);
  }

  lemma ChoicesCoverStatuses(db: Db)
    ensures Distinct(SimStatusChoices) && Distinct(LineStatusChoices)
    ensures forall k :: k in db.sims.rows ==> SimState(db.sims.rows[k]) in SimStatusChoices
    ensures forall k :: k in db.lines.rows ==> LineState(db.lines.rows[k]) in LineStatusChoices
  {
    forall k | k in db.sims.rows ensures SimState(db.sims.rows[k]) in SimStatusChoices {
      SimStatusChoicesComplete(db.sims.rows[k].status);
    }
    forall k | k in db.lines.rows ensures LineState(db.lines.rows[k]) in LineStatusChoices {
      match db.lines.rows[k].status
      case Available => assert LineStatusChoices[0] == Available;
      case Allocated => assert LineStatusChoices[1] == Allocated;
      case Suspended => assert LineStatusChoices[2] == Suspended;
      case Cancelled => assert LineStatusChoices[3] == Cancelled;
    }
  }

  // ---------------------------------------------------------------------
  // The negociador table

  datatype NegociadorRow = NegociadorRow(
    supervisor: string,
    negociador: string,
    semWhats: bool,
    carteira: string,
    unidade: string,
    pa: string,
    status: string)

  /** The row of one employee; `Employee` has no `carteira`, `unidade` or
      `pa` attribute, so the three `getattr` calls give their default. */
  function NegociadorRowOf(e: Employee, hasWhats: bool): (r: NegociadorRow)
    ensures r.supervisor == e.teams && r.negociador == e.fullName && r.status == EmployeeStatusLabel(e.status)
    ensures r.semWhats <==> !hasWhats
    ensures r.carteira == "-" && r.unidade == "-" && r.pa == "-"
  {
    NegociadorRow(e.teams, e.fullName, !hasWhats, "-", "-", "-", EmployeeStatusLabel(e.status))
  }

  /** The loop over `Employee.objects.filter(is_deleted=False)`; `order` is
      the order in which the queryset yields the live employees. */
  method BuildNegociadorData(db: Db, order: seq<Id>) returns (rows: seq<NegociadorRow>)
    requires forall i :: 0 <= i < |order| ==> order[i] in Objects(db.employees)
    ensures |rows| == |order|
    ensures forall i :: 0 <= i < |order| ==>
      var e := Objects(db.employees)[order[i]];
      && rows[i].supervisor == e.teams && rows[i].negociador == e.fullName
      && rows[i].status == EmployeeStatusLabel(e.status)
      && rows[i].carteira == "-" && rows[i].unidade == "-" && rows[i].pa == "-"
      && (rows[i].semWhats <==> !HasActiveForEmployee(db.allocations, order[i]))
  {
    var live := Objects(db.employees);
    rows := [];
    var i := 0;
    while i < |order|
      invariant 0 <= i <= |order|
      invariant |rows| == i
      invariant forall j :: 0 <= j < i ==>
        rows[j] == NegociadorRowOf(live[order[j]], HasActiveForEmployee(db.allocations, order[j]))
    {
      var emp := live[order[i]];
      var hasWhats := HasActiveForEmployee(db.allocations, order[i]);
      rows := rows + [NegociadorRowOf(emp, hasWhats)];
      i := i + 1;
    }
  }

  predicate IsSemWhats(r: NegociadorRow) { r.semWhats }

  /** Live employees without an active allocation: the `sem_whats` query
      (`exclude(allocations__is_active=True)`). */
  function SemWhats(db: Db): (n: nat)
    ensures n <= |Objects(db.employees)|
  {
    var ks := set k | k in Objects(db.employees) && !HasActiveForEmployee(db.allocations, k);
    assert |ks| <= |Objects(db.employees)| by { SubsetCard(ks, Objects(db.employees).Keys); }
    |ks|
  }

  /** When the queryset yields every live employee once, the table flags
      exactly as many negociadores as the `sem_whats` indicator counts. */
  lemma FlaggedRowsMatchSemWhats(db: Db, order: seq<Id>, rows: seq<NegociadorRow>)
    requires Distinct(order)
    requires forall k :: k in Objects(db.employees) <==> k in order
    requires |rows| == |order|
    requires forall i :: 0 <= i < |order| ==> (rows[i].semWhats <==> !HasActiveForEmployee(db.allocations, order[i]))
    ensures CountSeq(rows, IsSemWhats) == SemWhats(db)
  {
    var p := (k: Id) => !HasActiveForEmployee(db.allocations, k);
    CountSeqPointwise(rows, IsSemWhats, order, p);
    CountDistinct(order, p);
    assert (set k | k in order && p(k)) == (set k | k in Objects(db.employees) && !HasActiveForEmployee(db.allocations, k));
  }

  // ---------------------------------------------------------------------
  // Daily indicators

  /** The integer indicators of the day `today` (the percentage and the
      formatted date are not modelled). */
  datatype DailyIndicators = DailyIndicators(
    pessoasLogadas: nat,
    b2bSemWhats: nat,
    b2cSemWhats: nat,
    numerosDisponiveis: nat,
    numerosEntregues: nat,
    reconectados: nat,
    novos: nat,
    totalDescobertoDia: nat)

  function Indicators(db: Db, today: int): (d: DailyIndicators)
    ensures d.b2bSemWhats == 0 && d.b2cSemWhats == 0
  {
    DailyIndicators(
      Count(Objects(db.employees), ActiveEmployee),
      0, 0,
      Count(db.lines.rows, LiveAvailableLine),
      CountSeq(db.allocations, (a: LineAllocation) => a.isActive && DayOf(a.allocatedAt) == today),
      CountSeq(db.allocations, (a: LineAllocation) => a.releasedAt.Some? && DayOf(a.allocatedAt) == today),
      Count(db.lines.rows, (l: PhoneLine) => !l.isDeleted && DayOf(l.createdAt) == today),
      SemWhats(db))
  }

  /** How the indicators sit against the counters: the logged-in people
      are the ACTIVE employees, the uncovered ones are at most the live
      employees, the lines delivered today are among the active
      allocations and the lines created today among the live lines. */
  lemma IndicatorsWithinCounters(db: Db, today: int)
    ensures var d := Indicators(db, today);
      var c := DashboardCounters(db);
      && d.pessoasLogadas == c.totalEmployees
      && d.totalDescobertoDia == SemWhats(db) <= |Objects(db.employees)|
      && d.numerosEntregues <= c.allocatedLines
      && d.novos <= c.totalLines
  {
    var s := db.allocations;
    CountSeqMonotone(s, (a: LineAllocation) => a.isActive && DayOf(a.allocatedAt) == today, IsActiveAllocation);
    SubsetCard(Kept(db.lines.rows, (l: PhoneLine) => !l.isDeleted && DayOf(l.createdAt) == today), Kept(db.lines.rows, LiveLine));
  }

  /** Rows the engine writes are released exactly when inactive. */
  ghost predicate ReleasedIffInactive(s: seq<LineAllocation>) {
    forall i :: 0 <= i < |s| ==> (s[i].releasedAt.Some? <==> !s[i].isActive)
  }

  lemma EngineKeepsReleasedIffInactive(db: Db, e: Id, l: Id, a: Id, actor: Option<Id>, now: Time)
    requires ReleasedIffInactive(db.allocations)
    ensures AllocationService.Allocate(db, e, l, actor, now).Ok? ==>
      ReleasedIffInactive(AllocationService.Allocate(db, e, l, actor, now).value.0.allocations)
    ensures a < |db.allocations| && db.allocations[a].phoneLine in db.lines.rows ==>
      ReleasedIffInactive(AllocationService.Release(db, a, actor, now).allocations)
  {
    var r := AllocationService.Allocate(db, e, l, actor, now);
    if r.Ok? {
      var s := r.value.0.allocations;
      forall i | 0 <= i < |s| ensures s[i].releasedAt.Some? <==> !s[i].isActive {
        if i < |db.allocations| {
          assert s[i] == s[..|db.allocations|][i];
        }
      }
    }
  }

  /** On rows the engine wrote, a line delivered today and a line
      reconnected today are different allocations made today. */
  lemma DeliveredAndReconnectedDisjoint(db: Db, today: int)
    requires ReleasedIffInactive(db.allocations)
    ensures Indicators(db, today).numerosEntregues + Indicators(db, today).reconectados
            <= CountSeq(db.allocations, (a: LineAllocation) => DayOf(a.allocatedAt) == today)
  {
    CountSeqDisjoint(db.allocations,
                     (a: LineAllocation) => a.isActive && DayOf(a.allocatedAt) == today,
                     (a: LineAllocation) => a.releasedAt.Some? && DayOf(a.allocatedAt) == today,
                     (a: LineAllocation) => DayOf(a.allocatedAt) == today);
  }
}
