/** Shared vocabulary: optional values, results, auto-increment tables and the
    few string operations of Python's `str` that the system relies on
    (restricted to ASCII). */
module Common {

  datatype Option<T> = None | Some(value: T)

  datatype Result<T, E> = Ok(value: T) | Err(error: E)

  /** Primary keys of database rows. */
  type Id = nat

  /** An abstract clock value (seconds in the server's local time zone). */
  type Time = int

  const SecondsPerDay: nat := 86400

  /** Calendar day of a timestamp, as `timestamp.date()` gives it. */
  function DayOf(t: Time): (d: int)
    ensures d * SecondsPerDay <= t < (d + 1) * SecondsPerDay
  {
    t / SecondsPerDay
  }

  /** A database table whose primary keys come from an auto-increment
      sequence: keys are never reused, so every key is below `nextId`. */
  datatype Table<T> = Table(rows: map<Id, T>, nextId: Id) {

    ghost predicate Valid() {
      forall k :: k in rows ==> k < nextId
    }

    /** INSERT: the new row gets the next key of the sequence. */
    function Insert(x: T): (t: Table<T>)
      requires Valid()
      ensures t.Valid() && nextId !in rows
      ensures t.rows == rows[nextId := x] && t.nextId == nextId + 1
      ensures |t.rows| == |rows| + 1
    {
      Table(rows[nextId := x], nextId + 1)
    }

    /** UPDATE of one existing row. */
    function Update(k: Id, x: T): (t: Table<T>)
      requires k in rows
      ensures Valid() ==> t.Valid()
      ensures t.rows.Keys == rows.Keys && t.rows[k] == x && t.nextId == nextId
      ensures forall j :: j in rows && j != k ==> t.rows[j] == rows[j]
    {
      Table(rows[k := x], nextId)
    }

    /** DELETE of a set of rows; the sequence is not rewound. */
    function Remove(ks: set<Id>): (t: Table<T>)
      ensures Valid() ==> t.Valid()
      ensures t.rows.Keys == rows.Keys - ks && t.nextId == nextId
      ensures forall j :: j in t.rows ==> t.rows[j] == rows[j]
    {
      Table(rows - ks, nextId)
    }
  }

  function EmptyTable<T>(): (t: Table<T>)
    ensures t.Valid() && t.rows == map[]
  {
    Table(map[], 1)
  }

  // ---------------------------------------------------------------------
  // ASCII string helpers (Python's str.lower / str.strip on ASCII text)

  predicate IsUpper(c: char) { 'A' <= c <= 'Z' }
  predicate IsLower(c: char) { 'a' <= c <= 'z' }
  predicate IsDigit(c: char) { '0' <= c <= '9' }
  predicate IsLetter(c: char) { IsUpper(c) || IsLower(c) }

  /** Whitespace as `str.isspace` and the regular expression `\s` see it
      on ASCII: tab, line feed, vertical tab, form feed, carriage return,
      the four information separators and space. */
  predicate IsSpace(c: char) {
    ('\t' <= c <= '\r') || ('\U{1C}' <= c <= ' ')
  }

  function LowerChar(c: char): (d: char)
    ensures IsUpper(c) ==> IsLower(d) && d as int == c as int + 32
    ensures !IsUpper(c) ==> d == c
  {
    if IsUpper(c) then (c as int + 32) as char else c
  }

  function Lower(s: string): (r: string)
    ensures |r| == |s|
    ensures forall i :: 0 <= i < |s| ==> r[i] == LowerChar(s[i])
  {
    if s == [] then [] else [LowerChar(s[0])] + Lower(s[1..])
  }

  /** Lowercasing character by character. */
  lemma LowerIs(s: string, t: string)
    requires |s| == |t| && forall i :: 0 <= i < |s| ==> LowerChar(s[i]) == t[i]
    ensures Lower(s) == t
  {
  }

  lemma {:induction false} LowerIdempotent(s: string)
    ensures Lower(Lower(s)) == Lower(s)
  {
    var l := Lower(s);
    assert forall i :: 0 <= i < |l| ==> !IsUpper(l[i]);
  }

  function TrimStart(s: string): (r: string)
    ensures r == [] || !IsSpace(r[0])
    ensures exists n :: 0 <= n <= |s| && r == s[n..] && forall i :: 0 <= i < n ==> IsSpace(s[i])
  {
    if s != [] && IsSpace(s[0]) then
      var r := TrimStart(s[1..]);
      ghost var n :| 0 <= n <= |s| - 1 && r == s[1..][n..] && forall i :: 0 <= i < n ==> IsSpace(s[1..][i]);
      assert r == s[n + 1..];
      r
    else
      assert s == s[0..];
      s
  }

  function TrimEnd(s: string): (r: string)
    ensures r == [] || !IsSpace(r[|r| - 1])
    ensures exists n :: 0 <= n <= |s| && r == s[..n] && forall i :: n <= i < |s| ==> IsSpace(s[i])
  {
    if s != [] && IsSpace(s[|s| - 1]) then
      var r := TrimEnd(s[..|s| - 1]);
      ghost var n :| 0 <= n <= |s| - 1 && r == s[..|s| - 1][..n] && forall i :: n <= i < |s| - 1 ==> IsSpace(s[i]);
      assert r == s[..n];
      r
    else
      assert s == s[..|s|];
      s
  }

  /** `str.strip()` with no argument. */
  function Strip(s: string): (r: string)
    ensures r == [] || (!IsSpace(r[0]) && !IsSpace(r[|r| - 1]))
    ensures |r| <= |s|
    ensures exists a, b :: Surrounds(s, a, b) && r == s[a..b]
  {
    var t := TrimStart(s);
    var r := TrimEnd(t);
    assert r != [] ==> r[0] == t[0];
    TrimBoth(s);
    r
  }

  /** Trimming both ends leaves a slice of `s` with only whitespace around it. */
  lemma TrimBoth(s: string)
    ensures exists a, b :: Surrounds(s, a, b) && TrimEnd(TrimStart(s)) == s[a..b]
  {
    var t := TrimStart(s);
    var a := TrimStartAt(s);
    var n := TrimEndAt(t);
    TrailingSpaces(s, t, a, n);
    SliceOfSuffix(s, t, TrimEnd(t), a, n);
  }

  /** Where `TrimStart` cuts. */
  lemma TrimStartAt(s: string) returns (a: nat)
    ensures a <= |s| && TrimStart(s) == s[a..] && forall i :: 0 <= i < a ==> IsSpace(s[i])
  {
    a :| 0 <= a <= |s| && TrimStart(s) == s[a..] && forall i :: 0 <= i < a ==> IsSpace(s[i]);
  }

  /** Where `TrimEnd` cuts. */
  lemma TrimEndAt(t: string) returns (n: nat)
    ensures n <= |t| && TrimEnd(t) == t[..n] && forall i :: n <= i < |t| ==> IsSpace(t[i])
  {
    n :| 0 <= n <= |t| && TrimEnd(t) == t[..n] && forall i :: n <= i < |t| ==> IsSpace(t[i]);
  }

  lemma SliceOfSuffix(s: string, t: string, r: string, a: nat, n: nat)
    requires a <= |s| && t == s[a..] && n <= |t| && r == t[..n]
    ensures r == s[a..a + n]
  {
  }

  /** `s[..a]` and `s[b..]` are all whitespace. */
  ghost predicate Surrounds(s: string, a: int, b: int) {
    && 0 <= a <= b <= |s|
    && (forall i :: 0 <= i < a ==> IsSpace(s[i]))
    && (forall i :: b <= i < |s| ==> IsSpace(s[i]))
  }

  lemma TrailingSpaces(s: string, t: string, a: nat, n: nat)
    requires a <= |s| && t == s[a..] && n <= |t|
    requires forall i :: 0 <= i < a ==> IsSpace(s[i])
    requires forall i :: n <= i < |t| ==> IsSpace(t[i])
    ensures Surrounds(s, a, a + n)
  {
    forall i | a + n <= i < |s| ensures IsSpace(s[i]) {
      assert s[i] == t[i - a];
    }
  }

  /** Decimal rendering of a natural number, as `str(n)`. */
  function NatToString(n: nat): (s: string)
    ensures |s| >= 1 && forall i :: 0 <= i < |s| ==> IsDigit(s[i])
    decreases n
  {
    var d := ['0' + (n % 10) as char];
    if n < 10 then d else NatToString(n / 10) + d
  }

  /** The number a text of decimal digits denotes, as `int()` reads it. */
  function DigitsValue(s: string): int
  {
    if s == [] then 0 else DigitsValue(s[..|s| - 1]) * 10 + (s[|s| - 1] as int - '0' as int)
  }

  /** The decimal text of `n` reads back as `n`. */
  lemma {:induction false} NatToStringRoundTrip(n: nat)
    ensures DigitsValue(NatToString(n)) == n
    decreases n
  {
    var s := NatToString(n);
    if n >= 10 {
      NatToStringRoundTrip(n / 10);
      assert s[..|s| - 1] == NatToString(n / 10);
    } else {
      assert s[..|s| - 1] == [];
    }
  }

  /** Distinct numbers have distinct decimal texts. */
  lemma NatToStringInjective(n: nat, m: nat)
    ensures NatToString(n) == NatToString(m) ==> n == m
  {
    NatToStringRoundTrip(n);
    NatToStringRoundTrip(m);
  }

  /** `sep.join(parts)`. */
  function Join(parts: seq<string>, sep: string): string
  {
    if parts == [] then ""
    else if |parts| == 1 then parts[0]
    else parts[0] + sep + Join(parts[1..], sep)
  }

  /** `s.rfind(c)`: the position of the last occurrence of `c`, if any. */
  function LastIndexOf(s: string, c: char): (r: Option<nat>)
    ensures r.None? <==> c !in s
    ensures r.Some? ==> r.value < |s| && s[r.value] == c && c !in s[r.value + 1..]
  {
    if s == [] then None
    else if s[|s| - 1] == c then
      assert s[|s|..] == [];
      Some(|s| - 1)
    else
      var front := s[..|s| - 1];
      var r := LastIndexOf(front, c);
      assert s == front + [s[|s| - 1]];
      if r.Some? then
        DropSnoc(front, s[|s| - 1], r.value + 1);
        r
      else r
  }

  lemma DropSnoc(a: string, x: char, n: nat)
    requires n <= |a|
    ensures (a + [x])[n..] == a[n..] + [x]
  {
    var l := (a + [x])[n..];
    var m := a[n..] + [x];
    assert |l| == |m|;
    forall k | 0 <= k < |l| ensures l[k] == m[k] {
      if k < |l| - 1 {
        assert l[k] == a[n + k] == m[k];
      }
    }
  }

  /** The least key of `t`, from `i` on, whose row satisfies `p`. */
  function FindFrom<T>(t: Table<T>, p: T -> bool, i: nat): (r: Option<Id>)
    ensures r.Some? ==> i <= r.value && r.value in t.rows && p(t.rows[r.value])
    ensures r.None? ==> forall k :: k in t.rows && i <= k < t.nextId ==> !p(t.rows[k])
    decreases t.nextId - i
  {
    if i >= t.nextId then None
    else if i in t.rows && p(t.rows[i]) then Some(i)
    else FindFrom(t, p, i + 1)
  }

  /** A lookup on a unique column, such as `get(employee_id=...)`: the key
      of a row satisfying `p`, or None when there is none. */
  function FindRow<T>(t: Table<T>, p: T -> bool): (r: Option<Id>)
    requires t.Valid()
    ensures r.Some? ==> r.value in t.rows && p(t.rows[r.value])
    ensures r.None? <==> forall k :: k in t.rows ==> !p(t.rows[k])
  {
    FindFrom(t, p, 0)
  }

  /** The final component of a '/'-separated path. */
  function BaseName(path: string): (r: string)
    ensures '/' !in r
    ensures |r| <= |path| && r == path[|path| - |r|..]
  {
    match LastIndexOf(path, '/')
    case None => path
    case Some(j) => path[j + 1..]
  }

  /** A suffix of a suffix is a suffix. */
  lemma SuffixOfSuffix(p: string, q: string, r: string)
    requires |q| <= |p| && q == p[|p| - |q|..]
    requires |r| <= |q| && r == q[|q| - |r|..]
    ensures r == p[|p| - |r|..]
  {
    var m := p[|p| - |r|..];
    assert |m| == |r|;
    forall k | 0 <= k < |r| ensures r[k] == m[k] {
      assert r[k] == q[|q| - |r| + k] == p[|p| - |q| + |q| - |r| + k];
    }
  }

  /** The suffix of one path component: the text from its last '.' on,
      provided that dot is neither its first nor its last character. */
  function DotSuffix(name: string): (r: string)
    ensures r != [] ==> |r| >= 2 && r[0] == '.' && '.' !in r[1..]
    ensures |r| <= |name| && r == name[|name| - |r|..]
    ensures '/' !in name ==> '/' !in r
  {
    match LastIndexOf(name, '.')
    case None => ""
    case Some(i) =>
      if 0 < i < |name| - 1 then
        assert name[i..][1..] == name[i + 1..];
        name[i..]
      else ""
  }

  /** `PurePath(name).suffix`: the suffix of the final component. */
  function PathSuffix(path: string): (r: string)
    ensures r != [] ==> |r| >= 2 && r[0] == '.' && '.' !in r[1..] && '/' !in r
    ensures |r| <= |path| && r == path[|path| - |r|..]
    ensures var name := BaseName(path); var dot := LastIndexOf(name, '.');
      && (r != [] <==> dot.Some? && 0 < dot.value < |name| - 1)
      && (r != [] ==> r == name[dot.value..])
  {
    var name := BaseName(path);
    var r := DotSuffix(name);
    SuffixOfSuffix(path, name, r);
    r
  }

  /** A file name with an extension has it as its suffix. */
  lemma PathSuffixOfCsv()
    ensures PathSuffix("in/a.csv") == ".csv"
  {
    assert LastIndexOf("in/a.csv", '/') == Some(2);
    assert "in/a.csv"[3..] == "a.csv";
    assert LastIndexOf("a.csv", '.') == Some(1);
  }

  /** A name whose only dot is its first character has no suffix. */
  lemma PathSuffixOfDotFile()
    ensures PathSuffix(".bashrc") == ""
  {
    assert LastIndexOf(".bashrc", '/') == None;
    assert LastIndexOf(".bashrc", '.') == Some(0);
  }

  /** A dot in a directory name is not a suffix. */
  lemma PathSuffixOfDottedDirectory()
    ensures PathSuffix("v1.2/data") == ""
  {
    assert LastIndexOf("v1.2/data", '/') == Some(4);
    assert "v1.2/data"[5..] == "data";
    assert LastIndexOf("data", '.') == None;
  }
}
