/** The telecom overview page: live SIM cards and lines, active
    allocations, the derived number of available lines, and the
    per-status counts built by dictionary and list comprehensions. */
module TelecomViews {
  import opened Common
  import opened TelecomModels
  import opened AllocationModels
  import opened Store
  import opened Aggregation
  import opened DashboardViews
  import AllocationService

  datatype Overview = Overview(
    totalSimcards: nat,
    totalLines: nat,
    allocatedLines: nat,
    availableLines: int,
    simStatusCounts: seq<StatusCount>,
    lineStatusCounts: seq<StatusCount>)

  /** `_status_counts`, given what its two GROUP BY queries return. */
  function StatusCounts(simGroups: seq<(SimStatus, nat)>, lineGroups: seq<(LineStatus, nat)>)
    : (r: (seq<StatusCount>, seq<StatusCount>))
    ensures |r.0| == |SimStatusChoices| && |r.1| == |LineStatusChoices|
  {
    (CountsList(SimStatusChoices, SimStatusLabel, ToMap(simGroups)),
     CountsList(LineStatusChoices, LineStatusLabel, ToMap(lineGroups)))
  }

  /** `TelecomOverviewView.get_context_data`. */
  function OverviewContext(db: Db, simGroups: seq<(SimStatus, nat)>, lineGroups: seq<(LineStatus, nat)>): (o: Overview)
    ensures o.availableLines == o.totalLines - o.allocatedLines
    ensures o.totalSimcards <= |db.sims.rows| && o.totalLines <= |db.lines.rows|
  {
    var totalLines := Count(db.lines.rows, LiveLine);
    var active := ActiveTotal(db.allocations);
    var counts := StatusCounts(simGroups, lineGroups);
    Overview(Count(db.sims.rows, LiveSim), totalLines, active, totalLines - active, counts.0, counts.1)
  }

  /** Each status list has one entry per choice, in declaration order,
      counting the live rows with that status (0 when none has it), and
      its entries add up to the live total. */
  lemma OverviewStatusCounts(db: Db, simGroups: seq<(SimStatus, nat)>, lineGroups: seq<(LineStatus, nat)>)
    requires IsGroupBy(simGroups, db.sims.rows, LiveSim, SimState)
    requires IsGroupBy(lineGroups, db.lines.rows, LiveLine, LineState)
    ensures var o := OverviewContext(db, simGroups, lineGroups);
      && |o.simStatusCounts| == |SimStatusChoices|
      && (forall i :: 0 <= i < |SimStatusChoices| ==>
            o.simStatusCounts[i] == StatusCount(SimStatusLabel(SimStatusChoices[i]), GroupCount(db.sims.rows, LiveSim, SimState, SimStatusChoices[i])))
      && |o.lineStatusCounts| == |LineStatusChoices|
      && (forall i :: 0 <= i < |LineStatusChoices| ==>
            o.lineStatusCounts[i] == StatusCount(LineStatusLabel(LineStatusChoices[i]), GroupCount(db.lines.rows, LiveLine, LineState, LineStatusChoices[i])))
      && SumCounts(o.simStatusCounts) == o.totalSimcards
      && SumCounts(o.lineStatusCounts) == o.totalLines
  {
    CountsListCounts(SimStatusChoices, SimStatusLabel, simGroups, db.sims.rows, LiveSim, SimState);
    CountsListCounts(LineStatusChoices, LineStatusLabel, lineGroups, db.lines.rows, LiveLine, LineState);
    ChoicesCoverStatuses(db);
    CountsListAddsUp(SimStatusChoices, SimStatusLabel, simGroups, db.sims.rows, LiveSim, SimState);
    CountsListAddsUp(LineStatusChoices, LineStatusLabel, lineGroups, db.lines.rows, LiveLine, LineState);
  }

  /** The overview and the dashboard report the same totals, and on the
      same database the same status lists (the dashboard's loop fills its
      dictionary exactly as this page's comprehension does). */
  lemma OverviewAgreesWithDashboard(db: Db, simGroups: seq<(SimStatus, nat)>, lineGroups: seq<(LineStatus, nat)>)
    ensures var o := OverviewContext(db, simGroups, lineGroups);
      var c := DashboardCounters(db);
      && o.totalSimcards == c.totalSimcards && o.totalLines == c.totalLines
      && o.allocatedLines == c.allocatedLines && o.availableLines == c.availableLines
      && o.simStatusCounts == CountsList(SimStatusChoices, SimStatusLabel, ToMap(simGroups))
      && o.lineStatusCounts == CountsList(LineStatusChoices, LineStatusLabel, ToMap(lineGroups))
  {
  }

  /** Under the engine's invariants, with no allocated line soft-deleted,
      the overview's available lines are the live lines not ALLOCATED. */
  lemma OverviewAvailableAreFree(db: Db, simGroups: seq<(SimStatus, nat)>, lineGroups: seq<(LineStatus, nat)>)
    requires AllocationService.EngineInvariant(db)
    requires ActiveLinesLive(db)
    ensures OverviewContext(db, simGroups, lineGroups).availableLines == Count(db.lines.rows, FreeLine)
  {
    AvailableLinesAreFree(db);
  }
}
