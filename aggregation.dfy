/** The ORM aggregations the overview pages are built from:
    `filter(...).count()` on a table or on the allocation sequence, and
    `filter(...).values(column).annotate(count=Count("id"))` (a GROUP BY),
    together with the dictionary a page builds from the grouped rows and
    the per-choice list it renders. */
module Aggregation {
  import opened Common

  // ---------------------------------------------------------------------
  // Counting

  /** The keys of the rows a filter keeps. */
  function Kept<T>(rows: map<Id, T>, keep: T -> bool): (ks: set<Id>)
    ensures ks <= rows.Keys
    ensures forall k :: k in ks <==> k in rows && keep(rows[k])
  {
    set k | k in rows && keep(rows[k])
  }

  /** `filter(keep).count()` on a table. */
  function Count<T>(rows: map<Id, T>, keep: T -> bool): (n: nat)
    ensures n <= |rows|
  {
    var ks := Kept(rows, keep);
    assert |ks| <= |rows.Keys| by { SubsetCard(ks, rows.Keys); }
    |ks|
  }

  lemma {:induction false} SubsetCard<K>(a: set<K>, b: set<K>)
    requires a <= b
    ensures |a| <= |b|
  {
    if a != {} {
      var x :| x in a;
      SubsetCard(a - {x}, b - {x});
    }
  }

  /** The kept rows whose `key` is `s`: one GROUP BY group. */
  function Group<T, S(==)>(rows: map<Id, T>, keep: T -> bool, key: T -> S, s: S): (ks: set<Id>)
    ensures forall k :: k in ks <==> k in rows && keep(rows[k]) && key(rows[k]) == s
  {
    set k | k in rows && keep(rows[k]) && key(rows[k]) == s
  }

  /** The size of a group: one `Count("id")` cell. */
  function GroupCount<T, S(==)>(rows: map<Id, T>, keep: T -> bool, key: T -> S, s: S): nat
  {
    |Group(rows, keep, key, s)|
  }

  /** `filter(p).count()` on the allocation sequence (or on any sequence). */
  function CountSeq<T>(s: seq<T>, p: T -> bool): (n: nat)
    ensures n <= |s|
  {
    if s == [] then 0
    else CountSeq(s[..|s| - 1], p) + (if p(s[|s| - 1]) then 1 else 0)
  }

  /** A filter that keeps more counts more. */
  lemma {:induction false} CountSeqMonotone<T>(s: seq<T>, p: T -> bool, q: T -> bool)
    requires forall i :: 0 <= i < |s| && p(s[i]) ==> q(s[i])
    ensures CountSeq(s, p) <= CountSeq(s, q)
  {
    if s != [] {
      CountSeqMonotone(s[..|s| - 1], p, q);
    }
  }

  /** Two filters that never keep the same element and both keep only
      what `r` keeps count together at most what `r` counts. */
  lemma {:induction false} CountSeqDisjoint<T>(s: seq<T>, p: T -> bool, q: T -> bool, r: T -> bool)
    requires forall i :: 0 <= i < |s| ==> (p(s[i]) ==> r(s[i])) && (q(s[i]) ==> r(s[i])) && !(p(s[i]) && q(s[i]))
    ensures CountSeq(s, p) + CountSeq(s, q) <= CountSeq(s, r)
  {
    if s != [] {
      CountSeqDisjoint(s[..|s| - 1], p, q, r);
    }
  }

  /** Counting along two sequences that agree pointwise on the filters. */
  lemma {:induction false} CountSeqPointwise<A, B>(a: seq<A>, p: A -> bool, b: seq<B>, q: B -> bool)
    requires |a| == |b|
    requires forall i :: 0 <= i < |a| ==> p(a[i]) == q(b[i])
    ensures CountSeq(a, p) == CountSeq(b, q)
  {
    if a != [] {
      CountSeqPointwise(a[..|a| - 1], p, b[..|b| - 1], q);
    }
  }

  predicate Distinct<T(==)>(s: seq<T>) {
    forall i, j :: 0 <= i < j < |s| ==> s[i] != s[j]
  }

  /** Along a list of distinct keys, counting the positions a predicate
      keeps is counting the keys it keeps. */
  lemma {:induction false} CountDistinct(order: seq<Id>, p: Id -> bool)
    requires Distinct(order)
    ensures CountSeq(order, p) == |set k | k in order && p(k)|
  {
    if order != [] {
      var n := |order| - 1;
      var front := order[..n];
      assert Distinct(front);
      CountDistinct(front, p);
      var a := set k | k in front && p(k);
      var b := set k | k in order && p(k);
      assert order[n] !in front;
      if p(order[n]) {
        assert b == a + {order[n]};
      } else {
        assert b == a;
      }
    }
  }

  // ---------------------------------------------------------------------
  // GROUP BY and the dictionary built from it

  /** `groups` is a result of `filter(keep).values(key).annotate(count=
      Count("id"))`: every pair carries the number of kept rows with its
      value, and every value among the kept rows is reported. The order
      of the pairs is the database's. */
  ghost predicate IsGroupBy<T, S>(groups: seq<(S, nat)>, rows: map<Id, T>, keep: T -> bool, key: T -> S) {
    && (forall i :: 0 <= i < |groups| ==> groups[i].1 == GroupCount(rows, keep, key, groups[i].0))
    && (forall k :: k in rows && keep(rows[k]) ==> exists i :: 0 <= i < |groups| && groups[i].0 == key(rows[k]))
  }

  /** `{row[key]: row[value] for row in pairs}`, equivalently a loop that
      assigns each pair in turn: a later pair overwrites an earlier one. */
  function ToMap<S(!new), V>(pairs: seq<(S, V)>): (m: map<S, V>)
    ensures forall s :: s in m <==> exists i :: 0 <= i < |pairs| && pairs[i].0 == s
  {
    if pairs == [] then map[]
    else
      var n := |pairs| - 1;
      var m := ToMap(pairs[..n]);
      assert forall i :: 0 <= i < n ==> pairs[..n][i] == pairs[i];
      m[pairs[n].0 := pairs[n].1]
  }

  /** A key all of whose pairs carry `v` maps to `v`. */
  lemma {:induction false} ToMapUniform<S(!new), V>(pairs: seq<(S, V)>, s: S, v: V)
    requires s in ToMap(pairs)
    requires forall i :: 0 <= i < |pairs| && pairs[i].0 == s ==> pairs[i].1 == v
    ensures ToMap(pairs)[s] == v
  {
    var n := |pairs| - 1;
    if pairs[n].0 != s {
      assert forall i :: 0 <= i < n ==> pairs[..n][i] == pairs[i];
      ToMapUniform(pairs[..n], s, v);
    }
  }

  /** `counts.get(value, 0)`. */
  function Lookup<S>(counts: map<S, nat>, s: S): nat {
    if s in counts then counts[s] else 0
  }

  /** One `{"label": ..., "count": ...}` entry of a status-count list. */
  datatype StatusCount = StatusCount(statusLabel: string, count: nat)

  /** `[{"label": label, "count": counts.get(value, 0)} for value, label in
      choices]`. */
  function CountsList<S>(choices: seq<S>, labelOf: S -> string, counts: map<S, nat>): (r: seq<StatusCount>)
    ensures |r| == |choices|
    ensures forall i :: 0 <= i < |choices| ==> r[i].statusLabel == labelOf(choices[i])
  {
    seq(|choices|, i requires 0 <= i < |choices| => StatusCount(labelOf(choices[i]), Lookup(counts, choices[i])))
  }

  /** Reading a GROUP BY through the dictionary gives, for every value,
      the number of kept rows with it, and 0 for a value no kept row has. */
  lemma GroupLookup<T, S(!new)>(groups: seq<(S, nat)>, rows: map<Id, T>, keep: T -> bool, key: T -> S, s: S)
    requires IsGroupBy(groups, rows, keep, key)
    ensures Lookup(ToMap(groups), s) == GroupCount(rows, keep, key, s)
  {
    var m := ToMap(groups);
    if s in m {
      ToMapUniform(groups, s, GroupCount(rows, keep, key, s));
    } else {
      assert Group(rows, keep, key, s) == {};
    }
  }

  /** The rendered list has one entry per choice, in the choices' order,
      labelled by the choice and counting the kept rows with that value
      (0 when the GROUP BY did not report it), whatever order the
      database returned the groups in. */
  lemma CountsListCounts<T, S(!new)>(choices: seq<S>, labelOf: S -> string, groups: seq<(S, nat)>,
                                   rows: map<Id, T>, keep: T -> bool, key: T -> S)
    requires IsGroupBy(groups, rows, keep, key)
    ensures var r := CountsList(choices, labelOf, ToMap(groups));
      && |r| == |choices|
      && forall i :: 0 <= i < |choices| ==> r[i] == StatusCount(labelOf(choices[i]), GroupCount(rows, keep, key, choices[i]))
  {
    forall i | 0 <= i < |choices|
      ensures Lookup(ToMap(groups), choices[i]) == GroupCount(rows, keep, key, choices[i])
    {
      GroupLookup(groups, rows, keep, key, choices[i]);
    }
  }

  // ---------------------------------------------------------------------
  // The counts of a list add up to the rows counted

  function SumCounts(r: seq<StatusCount>): nat {
    if r == [] then 0 else SumCounts(r[..|r| - 1]) + r[|r| - 1].count
  }

  /** The kept rows whose value is one of `cs`. */
  function KeptAmong<T, S(==)>(rows: map<Id, T>, keep: T -> bool, key: T -> S, cs: seq<S>): set<Id> {
    set k | k in rows && keep(rows[k]) && key(rows[k]) in cs
  }

  function SumGroups<T, S(==)>(rows: map<Id, T>, keep: T -> bool, key: T -> S, cs: seq<S>): nat {
    if cs == [] then 0
    else SumGroups(rows, keep, key, cs[..|cs| - 1]) + GroupCount(rows, keep, key, cs[|cs| - 1])
  }

  lemma {:induction false} SumGroupsPartition<T, S>(rows: map<Id, T>, keep: T -> bool, key: T -> S, cs: seq<S>)
    requires Distinct(cs)
    ensures SumGroups(rows, keep, key, cs) == |KeptAmong(rows, keep, key, cs)|
  {
    if cs != [] {
      var n := |cs| - 1;
      var front := cs[..n];
      assert Distinct(front);
      SumGroupsPartition(rows, keep, key, front);
      var a := KeptAmong(rows, keep, key, front);
      var b := Group(rows, keep, key, cs[n]);
      assert cs[n] !in front;
      assert KeptAmong(rows, keep, key, cs) == a + b by {
        forall k ensures k in KeptAmong(rows, keep, key, cs) <==> k in a + b {
          if k in rows && keep(rows[k]) {
            assert key(rows[k]) in cs <==> key(rows[k]) in front || key(rows[k]) == cs[n] by {
              assert cs == front + [cs[n]];
            }
          }
        }
      }
      assert a * b == {};
    }
  }

  lemma {:induction false} SumCountsOfList<T, S>(choices: seq<S>, labelOf: S -> string, counts: map<S, nat>,
                                                   rows: map<Id, T>, keep: T -> bool, key: T -> S)
    requires forall i :: 0 <= i < |choices| ==> Lookup(counts, choices[i]) == GroupCount(rows, keep, key, choices[i])
    ensures SumCounts(CountsList(choices, labelOf, counts)) == SumGroups(rows, keep, key, choices)
  {
    if choices != [] {
      var n := |choices| - 1;
      var r := CountsList(choices, labelOf, counts);
      assert r[..n] == CountsList(choices[..n], labelOf, counts);
      SumCountsOfList(choices[..n], labelOf, counts, rows, keep, key);
    }
  }

  /** When the choices are distinct and cover every value a kept row can
      have, the entries of the rendered list add up to the rows counted. */
  lemma CountsListAddsUp<T, S(!new)>(choices: seq<S>, labelOf: S -> string, groups: seq<(S, nat)>,
                                   rows: map<Id, T>, keep: T -> bool, key: T -> S)
    requires IsGroupBy(groups, rows, keep, key)
    requires Distinct(choices)
    requires forall k :: k in rows && keep(rows[k]) ==> key(rows[k]) in choices
    ensures SumCounts(CountsList(choices, labelOf, ToMap(groups))) == Count(rows, keep)
  {
    CountsListCounts(choices, labelOf, groups, rows, keep, key);
    SumCountsOfList(choices, labelOf, ToMap(groups), rows, keep, key);
    SumGroupsPartition(rows, keep, key, choices);
    assert KeptAmong(rows, keep, key, choices) == Kept(rows, keep);
  }
}
