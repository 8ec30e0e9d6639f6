/** The allocation record (`LineAllocation`): its defaults, its string form,
    its default ordering (newest `allocated_at` first), the queries the rest
    of the system asks of the allocation table, and what deleting a user
    does to it (`SET_NULL`). */
module AllocationModels {
  import opened Common
  import opened TelecomModels
  import opened EmployeeModels

  datatype LineAllocation = LineAllocation(
    employee: Id,
    phoneLine: Id,
    allocatedAt: Time,
    releasedAt: Option<Time>,
    allocatedBy: Option<Id>,
    isActive: bool,
    createdAt: Time,
    releasedBy: Option<Id>)

  /** `LineAllocation.objects.create(employee=..., phone_line=..., allocated_by=...)`
      at `now`: active, not released, both timestamps `now`. */
  function NewAllocation(employee: Id, line: Id, allocatedBy: Option<Id>, now: Time): (a: LineAllocation)
    ensures a.employee == employee && a.phoneLine == line && a.allocatedBy == allocatedBy
    ensures a.isActive && a.releasedAt.None? && a.releasedBy.None?
    ensures a.allocatedAt == now && a.createdAt == now
  {
    LineAllocation(employee, line, now, None, allocatedBy, true, now, None)
  }

  /** `LineAllocation.__str__`: "<employee> - <phone line>". */
  function AllocationStr(e: Employee, l: PhoneLine): (s: string)
    ensures EmployeeStr(e) <= s && e.fullName <= s
    ensures s[|EmployeeStr(e)|..] == " - " + PhoneLineStr(l)
  {
    var es := EmployeeStr(e);
    assert e.fullName <= es;
    es + " - " + PhoneLineStr(l)
  }

  // ---------------------------------------------------------------------
  // Default ordering: ['-allocated_at']

  ghost predicate NewestFirst(s: seq<LineAllocation>) {
    forall i, j :: 0 <= i < j < |s| ==> s[i].allocatedAt >= s[j].allocatedAt
  }

  lemma ConsNewestFirst(h: LineAllocation, s: seq<LineAllocation>)
    requires NewestFirst(s)
    requires forall x | x in s :: x.allocatedAt <= h.allocatedAt
    ensures NewestFirst([h] + s)
  {
    var r := [h] + s;
    forall i, j | 0 <= i < j < |r| ensures r[i].allocatedAt >= r[j].allocatedAt {
      if i > 0 { assert r[i] == s[i - 1] && r[j] == s[j - 1]; }
      else { assert r[j] == s[j - 1] && r[j] in s; }
    }
  }

  /** Puts `a` in front of the first row that is not newer than it. */
  function InsertByNewest(a: LineAllocation, s: seq<LineAllocation>): (r: seq<LineAllocation>)
    requires NewestFirst(s)
    ensures NewestFirst(r)
    ensures multiset(r) == multiset(s) + multiset{a}
  {
    if s == [] || s[0].allocatedAt <= a.allocatedAt then
      assert forall x | x in s :: x.allocatedAt <= a.allocatedAt by {
        forall x | x in s ensures x.allocatedAt <= a.allocatedAt {
          var j :| 0 <= j < |s| && s[j] == x;
          assert s[0].allocatedAt >= s[j].allocatedAt;
        }
      }
      ConsNewestFirst(a, s);
      [a] + s
    else
      var tail := s[1..];
      assert s == [s[0]] + tail;
      assert NewestFirst(tail);
      var rest := InsertByNewest(a, tail);
      assert forall x | x in rest :: x.allocatedAt <= s[0].allocatedAt by {
        forall x | x in rest ensures x.allocatedAt <= s[0].allocatedAt {
          assert x in multiset(rest);
          if x != a {
            assert x in multiset(tail);
            var j :| 0 <= j < |tail| && tail[j] == x;
            assert s[j + 1] == x;
          }
        }
      }
      ConsNewestFirst(s[0], rest);
      [s[0]] + rest
  }

  /** The rows of `LineAllocation.objects.filter(...)` in the model's default
      order: newest first, a permutation of the input. */
  function OrderByNewest(s: seq<LineAllocation>): (r: seq<LineAllocation>)
    ensures NewestFirst(r)
    ensures multiset(r) == multiset(s)
    ensures |r| == |s|
  {
    if s == [] then []
    else
      assert s == [s[0]] + s[1..];
      InsertByNewest(s[0], OrderByNewest(s[1..]))
  }

  // ---------------------------------------------------------------------
  // Queries on the allocation table (pk = position)

  /** `LineAllocation.objects.filter(employee=e, is_active=True).count()` */
  function ActiveCount(s: seq<LineAllocation>, e: Id): nat
  {
    if s == [] then 0
    else ActiveCount(s[..|s| - 1], e) + (if s[|s| - 1].isActive && s[|s| - 1].employee == e then 1 else 0)
  }

  /** `LineAllocation.objects.filter(is_active=True).count()` */
  function ActiveTotal(s: seq<LineAllocation>): nat
  {
    if s == [] then 0
    else ActiveTotal(s[..|s| - 1]) + (if s[|s| - 1].isActive then 1 else 0)
  }

  /** `LineAllocation.objects.filter(phone_line=l, is_active=True).exists()` */
  predicate HasActiveForLine(s: seq<LineAllocation>, l: Id) {
    exists i :: 0 <= i < |s| && s[i].isActive && s[i].phoneLine == l
  }

  /** `LineAllocation.objects.filter(employee=e, is_active=True).exists()` */
  predicate HasActiveForEmployee(s: seq<LineAllocation>, e: Id) {
    exists i :: 0 <= i < |s| && s[i].isActive && s[i].employee == e
  }

  /** Rows referencing employee `e` or line `l`, active or historical (what
      the PROTECT collector looks for). */
  predicate ReferencesEmployee(s: seq<LineAllocation>, e: Id) {
    exists i :: 0 <= i < |s| && s[i].employee == e
  }

  predicate ReferencesLine(s: seq<LineAllocation>, l: Id) {
    exists i :: 0 <= i < |s| && s[i].phoneLine == l
  }

  lemma {:induction false} ActiveCountPositive(s: seq<LineAllocation>, e: Id)
    ensures ActiveCount(s, e) > 0 <==> HasActiveForEmployee(s, e)
  {
    if s != [] {
      var p := s[..|s| - 1];
      ActiveCountPositive(p, e);
      if HasActiveForEmployee(p, e) {
        var i :| 0 <= i < |p| && p[i].isActive && p[i].employee == e;
        assert s[i] == p[i];
      }
      if HasActiveForEmployee(s, e) && !(s[|s| - 1].isActive && s[|s| - 1].employee == e) {
        var i :| 0 <= i < |s| && s[i].isActive && s[i].employee == e;
        assert i < |p| && p[i] == s[i];
      }
    }
  }

  lemma ActiveCountAppend(s: seq<LineAllocation>, a: LineAllocation, e: Id)
    ensures ActiveCount(s + [a], e) == ActiveCount(s, e) + (if a.isActive && a.employee == e then 1 else 0)
  {
    assert (s + [a])[..|s|] == s;
  }

  /** Replacing one row changes an employee's active count only by that
      row's own contribution. */
  lemma {:induction false} ActiveCountUpdate(s: seq<LineAllocation>, i: nat, a: LineAllocation, e: Id)
    requires i < |s|
    ensures ActiveCount(s[i := a], e) + (if s[i].isActive && s[i].employee == e then 1 else 0)
         == ActiveCount(s, e) + (if a.isActive && a.employee == e then 1 else 0)
  {
    var t := s[i := a];
    var n := |s| - 1;
    if i == n {
      assert t[..n] == s[..n];
    } else {
      ActiveCountUpdate(s[..n], i, a, e);
      assert t[..n] == s[..n][i := a];
    }
  }

  // ---------------------------------------------------------------------
  // on_delete=SET_NULL for allocated_by and released_by

  /** Deleting user `u`: every reference to it becomes NULL; no row is
      removed and nothing else changes. */
  function OnUserDeleted(s: seq<LineAllocation>, u: Id): (r: seq<LineAllocation>)
    ensures |r| == |s|
    ensures forall i :: 0 <= i < |s| ==>
      && r[i].allocatedBy == (if s[i].allocatedBy == Some(u) then None else s[i].allocatedBy)
      && r[i].releasedBy == (if s[i].releasedBy == Some(u) then None else s[i].releasedBy)
      && r[i] == s[i].(allocatedBy := r[i].allocatedBy, releasedBy := r[i].releasedBy)
    ensures forall i :: 0 <= i < |r| ==> r[i].allocatedBy != Some(u) && r[i].releasedBy != Some(u)
  {
    seq(|s|, i requires 0 <= i < |s| =>
      s[i].(allocatedBy := if s[i].allocatedBy == Some(u) then None else s[i].allocatedBy,
            releasedBy := if s[i].releasedBy == Some(u) then None else s[i].releasedBy))
  }
}
