/** The interval set of PGUPV/src/intervals.cpp (class Intervals): an ordered
    list of closed ranges of `ulong` values. Adding a range merges it with a
    stored range it overlaps; popping a value consumes the set from the left.

    The operations are methods of the class IntervalSet, which keeps the list
    in a field as the C++ class keeps its std::list. Each method is proved
    equal to a function of the old list (Added, Consolidated, Popped, ...);
    the properties of the set are lemmas about those functions. */
module Intervals {

  /** `ulong` is 64 bits wide on the library's targets. */
  const ULONG_LIMIT: int := 0x1_0000_0000_0000_0000
  const ULONG_MAX: int := ULONG_LIMIT - 1
  type ULong = x: int | 0 <= x < ULONG_LIMIT

  /** The closed range [start, end]. Nothing in the source enforces
      start <= end, so an Interval may be empty. */
  datatype Interval = Interval(start: ULong, end: ULong)

  /** `isInInterval`: a range whose start is past its end holds nothing. */
  predicate InInterval(v: int, i: Interval)
    ensures InInterval(v, i) ==> i.start <= i.end
    ensures InInterval(v, i) ==> 0 <= v < ULONG_LIMIT
  {
    i.start <= v <= i.end
  }

  /** True when an endpoint of one range lies inside the other. For
      well-formed ranges this is the usual overlap test, so it is symmetric. */
  predicate Intersects(a: Interval, b: Interval)
    ensures a.start <= a.end && b.start <= b.end ==>
      (Intersects(a, b) <==> a.start <= b.end && b.start <= a.end)
  {
    InInterval(a.start, b) || InInterval(a.end, b) || InInterval(b.start, a) || InInterval(b.end, a)
  }

  /** The smallest range holding both (MergeCovers: for intersecting ranges
      it holds exactly their values). */
  function Merge(a: Interval, b: Interval): (r: Interval)
    ensures r.start <= a.start && r.start <= b.start && a.end <= r.end && b.end <= r.end
    ensures r.start == a.start || r.start == b.start
    ensures r.end == a.end || r.end == b.end
  {
    Interval(if a.start <= b.start then a.start else b.start,
             if a.end >= b.end then a.end else b.end)
  }

  /** v + 1 computed in 64-bit unsigned arithmetic. */
  function Succ(v: ULong): ULong {
    (v + 1) % ULONG_LIMIT
  }

  predicate WellFormed(i: Interval) {
    i.start <= i.end
  }

  predicate AllWellFormed(s: seq<Interval>) {
    forall k :: 0 <= k < |s| ==> WellFormed(s[k])
  }

  /** Some stored range holds v. */
  predicate Covers(s: seq<Interval>, v: int) {
    exists k :: 0 <= k < |s| && InInterval(v, s[k])
  }

  /** Ranges in ascending order, each ending before the next one starts. */
  predicate Sorted(s: seq<Interval>) {
    forall i, j :: 0 <= i < j < |s| ==> s[i].end < s[j].start
  }

  /** Ranges in ascending order of start; they may overlap. */
  predicate StartsSorted(s: seq<Interval>) {
    forall i, j :: 0 <= i < j < |s| ==> s[i].start <= s[j].start
  }

  // ---------------------------------------------------------------------
  // Specification of consolidate: one forward pass that folds each range
  // into its successor when the two intersect.

  function MergeRun(cur: Interval, rest: seq<Interval>): seq<Interval>
    decreases |rest|
  {
    if rest == [] then [cur]
    else if Intersects(cur, rest[0]) then MergeRun(Merge(cur, rest[0]), rest[1..])
    else [cur] + MergeRun(rest[0], rest[1..])
  }

  function Consolidated(s: seq<Interval>): seq<Interval> {
    if |s| < 2 then s else MergeRun(s[0], s[1..])
  }

  // ---------------------------------------------------------------------
  // Specification of addInterval.

  datatype ScanOutcome = ScanOutcome(list: seq<Interval>, merged: bool)

  /** The iterator loop of addInterval as written: the first stored range
      that intersects n absorbs it and the scan stops; before that, n is
      inserted in front of EVERY stored range that starts after n.end,
      because the loop does not stop after an insertion. */
  function Scan(s: seq<Interval>, n: Interval): ScanOutcome
    decreases |s|
  {
    if s == [] then ScanOutcome([], false)
    else if Intersects(s[0], n) then ScanOutcome([Merge(s[0], n)] + s[1..], true)
    else
      var tail := Scan(s[1..], n);
      if s[0].start > n.end then ScanOutcome([n, s[0]] + tail.list, tail.merged)
      else ScanOutcome([s[0]] + tail.list, tail.merged)
  }

  /** The list after addInterval(n.start, n.end), as the source computes it. */
  function Added(s: seq<Interval>, n: Interval): seq<Interval> {
    if s == [] || n.end < s[0].start then [n] + s
    else if n.start > s[|s| - 1].end then s + [n]
    else
      var o := Scan(s, n);
      if o.merged then Consolidated(o.list) else o.list
  }

  function AddedAll(s: seq<Interval>, others: seq<Interval>): seq<Interval>
    decreases |others|
  {
    if others == [] then s else AddedAll(Added(s, others[0]), others[1..])
  }

  /** The scan as evidently intended: it stops after the first insertion. */
  function ScanFixed(s: seq<Interval>, n: Interval): ScanOutcome
    decreases |s|
  {
    if s == [] then ScanOutcome([], false)
    else if Intersects(s[0], n) then ScanOutcome([Merge(s[0], n)] + s[1..], true)
    else if s[0].start > n.end then ScanOutcome([n] + s, false)
    else
      var tail := ScanFixed(s[1..], n);
      ScanOutcome([s[0]] + tail.list, tail.merged)
  }

  function AddedFixed(s: seq<Interval>, n: Interval): seq<Interval> {
    if s == [] || n.end < s[0].start then [n] + s
    else if n.start > s[|s| - 1].end then s + [n]
    else
      var o := ScanFixed(s, n);
      if o.merged then Consolidated(o.list) else o.list
  }

  /** n falls strictly between stored ranges and touches none of them: the
      case in which the scan inserts it. */
  predicate InteriorGap(s: seq<Interval>, n: Interval) {
    && s != []
    && s[0].start <= n.end
    && n.start <= s[|s| - 1].end
    && forall k :: 0 <= k < |s| ==> !Intersects(s[k], n)
  }

  /** n placed in front of every range of t. */
  function Spread(t: seq<Interval>, n: Interval): (r: seq<Interval>)
    ensures |r| == 2 * |t|
    decreases |t|
  {
    if t == [] then [] else [n, t[0]] + Spread(t[1..], n)
  }

  // ---------------------------------------------------------------------
  // Specification of popValue.

  datatype PopOutcome = PopOutcome(found: bool, rest: seq<Interval>)

  function Popped(s: seq<Interval>, v: ULong): PopOutcome
    decreases |s|
  {
    if s == [] || v < s[0].start then PopOutcome(false, s)
    else if InInterval(v, s[0]) then
      var front := Interval(Succ(v), s[0].end);
      PopOutcome(true, if front.end < front.start then s[1..] else [front] + s[1..])
    else Popped(s[1..], v)
  }

  // ---------------------------------------------------------------------
  // The class.

  class IntervalSet {
    var intervals: seq<Interval>

    constructor ()
      ensures intervals == []
    {
      intervals := [];
    }

    /** `empty()`: no stored range, hence no covered value. */
    function Empty(): (r: bool)
      reads this
      ensures r ==> forall v :: !Covers(intervals, v)
      ensures !r ==> |intervals| > 0 && (AllWellFormed(intervals) ==> Covers(intervals, intervals[0].start))
    {
      |intervals| == 0
    }

    method AddInterval(start: ULong, end: ULong)
      modifies this
      ensures intervals == Added(old(intervals), Interval(start, end))
    {
      var n := Interval(start, end);
      if |intervals| == 0 || end < intervals[0].start {
        intervals := [n] + intervals;
      } else if start > intervals[|intervals| - 1].end {
        intervals := intervals + [n];
      } else {
        var l := intervals;
        var p := 0;
        while p < |l|
          invariant 0 <= p <= |l|
          invariant Scan(old(intervals), n) == ScanOutcome(l[..p] + Scan(l[p..], n).list, Scan(l[p..], n).merged)
          decreases |l| - p
        {
          if Intersects(l[p], n) {
            ScanStepMerge(l, p, n);
            intervals := l[p := Merge(l[p], n)];
            Consolidate();
            return;
          } else if l[p].start > n.end {
            ScanStepInsert(l, p, n);
            l := l[..p] + [n] + l[p..];
            p := p + 1;
          } else {
            ScanStepSkip(l, p, n);
          }
          p := p + 1;
        }
        assert l[..p] == l && l[p..] == [];
        intervals := l;
      }
    }

    /** `addIntervals(other)`: `other` is passed by value in the source, so
        its ranges are read once, before this set changes. */
    method AddIntervals(other: IntervalSet)
      modifies this
      ensures intervals == AddedAll(old(intervals), old(other.intervals))
    {
      var src := other.intervals;
      var i := 0;
      while i < |src|
        invariant 0 <= i <= |src|
        invariant AddedAll(old(intervals), src) == AddedAll(intervals, src[i..])
      {
        assert src[i..][1..] == src[i + 1..];
        AddInterval(src[i].start, src[i].end);
        i := i + 1;
      }
    }

    method Consolidate()
      modifies this
      ensures intervals == Consolidated(old(intervals))
    {
      if |intervals| < 2 {
        return;
      }
      var l := intervals;
      var p := 0;
      while p + 1 < |l|
        invariant 0 <= p < |l|
        invariant Consolidated(old(intervals)) == l[..p] + MergeRun(l[p], l[p + 1..])
        decreases |l| - p
      {
        if Intersects(l[p], l[p + 1]) {
          MergeRunFold(l, p);
          l := l[..p] + [Merge(l[p], l[p + 1])] + l[p + 2..];
        } else {
          MergeRunKeep(l, p);
          p := p + 1;
        }
      }
      assert l[p + 1..] == [];
      assert l == l[..p] + [l[p]];
      intervals := l;
    }

    method PopValue(v: ULong) returns (found: bool)
      modifies this
      ensures PopOutcome(found, intervals) == Popped(old(intervals), v)
    {
      while |intervals| > 0 && v >= intervals[0].start
        invariant Popped(old(intervals), v) == Popped(intervals, v)
        decreases |intervals|
      {
        if InInterval(v, intervals[0]) {
          intervals := intervals[0 := Interval(Succ(v), intervals[0].end)];
          if intervals[0].end < intervals[0].start {
            intervals := intervals[1..];
          }
          return true;
        } else {
          intervals := intervals[1..];
        }
      }
      return false;
    }
  }

  // ---------------------------------------------------------------------
  // Steps of the consolidate loop.

  lemma MergeRunFold(s: seq<Interval>, p: nat)
    requires p + 1 < |s| && Intersects(s[p], s[p + 1])
    ensures var t := s[..p] + [Merge(s[p], s[p + 1])] + s[p + 2..];
      t[..p] + MergeRun(t[p], t[p + 1..]) == s[..p] + MergeRun(s[p], s[p + 1..])
  {
    var t := s[..p] + [Merge(s[p], s[p + 1])] + s[p + 2..];
    assert t[..p] == s[..p];
    assert t[p] == Merge(s[p], s[p + 1]);
    assert t[p + 1..] == s[p + 2..];
    assert s[p + 1..][0] == s[p + 1];
    assert s[p + 1..][1..] == s[p + 2..];
  }

  lemma MergeRunKeep(s: seq<Interval>, p: nat)
    requires p + 1 < |s| && !Intersects(s[p], s[p + 1])
    ensures s[..p + 1] + MergeRun(s[p + 1], s[p + 2..]) == s[..p] + MergeRun(s[p], s[p + 1..])
  {
    assert s[..p + 1] == s[..p] + [s[p]];
    assert s[p + 1..][0] == s[p + 1];
    assert s[p + 1..][1..] == s[p + 2..];
  }

  // ---------------------------------------------------------------------
  // Steps of the addInterval loop.

  lemma ScanStepMerge(l: seq<Interval>, p: nat, n: Interval)
    requires p < |l| && Intersects(l[p], n)
    ensures l[..p] + Scan(l[p..], n).list == l[p := Merge(l[p], n)]
    ensures Scan(l[p..], n).merged
  {
    assert l[p..][0] == l[p];
    assert l[p..][1..] == l[p + 1..];
    assert l[p := Merge(l[p], n)] == l[..p] + [Merge(l[p], n)] + l[p + 1..];
  }

  lemma ScanStepInsert(l: seq<Interval>, p: nat, n: Interval)
    requires p < |l| && !Intersects(l[p], n) && l[p].start > n.end
    ensures var l' := l[..p] + [n] + l[p..];
      && l[..p] + Scan(l[p..], n).list == l'[..p + 2] + Scan(l'[p + 2..], n).list
      && Scan(l[p..], n).merged == Scan(l'[p + 2..], n).merged
  {
    var l' := l[..p] + [n] + l[p..];
    assert l[p..][0] == l[p];
    assert l[p..][1..] == l[p + 1..];
    InsertSlices(l, p, n);
  }

  lemma InsertSlices<T>(l: seq<T>, p: nat, n: T)
    requires p < |l|
    ensures var l' := l[..p] + [n] + l[p..];
      l'[..p + 2] == l[..p] + [n, l[p]] && l'[p + 2..] == l[p + 1..]
  {
    var l' := l[..p] + [n] + l[p..];
    assert l'[..p + 2] == l[..p] + [n, l[p]];
  }

  lemma ScanStepSkip(l: seq<Interval>, p: nat, n: Interval)
    requires p < |l| && !Intersects(l[p], n) && l[p].start <= n.end
    ensures l[..p] + Scan(l[p..], n).list == l[..p + 1] + Scan(l[p + 1..], n).list
    ensures Scan(l[p..], n).merged == Scan(l[p + 1..], n).merged
  {
    assert l[p..][0] == l[p];
    assert l[p..][1..] == l[p + 1..];
    assert l[..p + 1] == l[..p] + [l[p]];
  }

  // ---------------------------------------------------------------------
  // Lemmas about single ranges.

  /** For non-empty ranges, the endpoint test is exactly "share a value". */
  lemma IntersectsIffShared(a: Interval, b: Interval)
    requires WellFormed(a) && WellFormed(b)
    ensures Intersects(a, b) <==> exists v :: InInterval(v, a) && InInterval(v, b)
  {
    if exists v :: InInterval(v, a) && InInterval(v, b) {
      var v :| InInterval(v, a) && InInterval(v, b);
      if a.start <= b.start {
        assert InInterval(b.start, a);
      } else {
        assert InInterval(a.start, b);
      }
    }
    if Intersects(a, b) {
      if InInterval(a.start, b) {
        assert InInterval(a.start, a);
      } else if InInterval(a.end, b) {
        assert InInterval(a.end, a);
      } else if InInterval(b.start, a) {
        assert InInterval(b.start, b);
      } else {
        assert InInterval(b.end, b);
      }
    }
  }

  /** Ranges that touch without sharing a value do not intersect, so they
      are never merged. */
  lemma AdjacentDoNotIntersect(a: Interval, b: Interval)
    requires WellFormed(a) && WellFormed(b) && a.end + 1 == b.start
    ensures !Intersects(a, b) && !Intersects(b, a)
  {
  }

  /** Merging two intersecting ranges covers exactly their union. */
  lemma MergeCovers(a: Interval, b: Interval, v: int)
    requires Intersects(a, b)
    ensures InInterval(v, Merge(a, b)) <==> InInterval(v, a) || InInterval(v, b)
  {
  }

  // ---------------------------------------------------------------------
  // Coverage helpers.

  lemma CoversConcat(a: seq<Interval>, b: seq<Interval>, v: int)
    ensures Covers(a + b, v) <==> Covers(a, v) || Covers(b, v)
  {
    if Covers(a + b, v) {
      var k :| 0 <= k < |a + b| && InInterval(v, (a + b)[k]);
      if k < |a| {
        assert InInterval(v, a[k]);
      } else {
        assert InInterval(v, b[k - |a|]);
      }
    }
    if Covers(a, v) {
      var k :| 0 <= k < |a| && InInterval(v, a[k]);
      assert (a + b)[k] == a[k];
    }
    if Covers(b, v) {
      var k :| 0 <= k < |b| && InInterval(v, b[k]);
      assert (a + b)[|a| + k] == b[k];
    }
  }

  lemma CoversCons(x: Interval, s: seq<Interval>, v: int)
    ensures Covers([x] + s, v) <==> InInterval(v, x) || Covers(s, v)
  {
    CoversConcat([x], s, v);
    if InInterval(v, x) {
      assert [x][0] == x;
    }
  }

  lemma CoversHead(s: seq<Interval>, v: int)
    requires s != []
    ensures Covers(s, v) <==> InInterval(v, s[0]) || Covers(s[1..], v)
  {
    assert s == [s[0]] + s[1..];
    CoversCons(s[0], s[1..], v);
  }

  // ---------------------------------------------------------------------
  // Consolidation.

  lemma {:induction false} MergeRunCovers(cur: Interval, rest: seq<Interval>, v: int)
    ensures Covers(MergeRun(cur, rest), v) <==> InInterval(v, cur) || Covers(rest, v)
    decreases |rest|
  {
    if rest == [] {
      CoversCons(cur, [], v);
      assert [cur] + [] == [cur];
    } else if Intersects(cur, rest[0]) {
      MergeRunCovers(Merge(cur, rest[0]), rest[1..], v);
      MergeCovers(cur, rest[0], v);
      CoversHead(rest, v);
    } else {
      MergeRunCovers(rest[0], rest[1..], v);
      CoversCons(cur, MergeRun(rest[0], rest[1..]), v);
      CoversHead(rest, v);
    }
  }

  lemma {:induction false} MergeRunWellFormed(cur: Interval, rest: seq<Interval>)
    requires WellFormed(cur) && AllWellFormed(rest)
    ensures AllWellFormed(MergeRun(cur, rest))
    decreases |rest|
  {
    if rest == [] {
    } else if Intersects(cur, rest[0]) {
      MergeRunWellFormed(Merge(cur, rest[0]), rest[1..]);
    } else {
      MergeRunWellFormed(rest[0], rest[1..]);
    }
  }

  /** On ranges ordered by start, the forward pass leaves them strictly
      ordered: each ends before the next one starts. */
  lemma {:induction false} MergeRunSorted(cur: Interval, rest: seq<Interval>)
    requires WellFormed(cur) && AllWellFormed(rest) && StartsSorted(rest)
    requires forall k :: 0 <= k < |rest| ==> cur.start <= rest[k].start
    ensures var r := MergeRun(cur, rest);
      && |r| > 0 && r[0].start == cur.start && Sorted(r)
      && forall k :: 0 <= k < |r| ==> cur.start <= r[k].start
    decreases |rest|
  {
    if rest == [] {
    } else if Intersects(cur, rest[0]) {
      MergeRunSorted(Merge(cur, rest[0]), rest[1..]);
    } else {
      assert rest[0].start > cur.end;
      MergeRunSorted(rest[0], rest[1..]);
      var t := MergeRun(rest[0], rest[1..]);
      var r := [cur] + t;
      forall i, j | 0 <= i < j < |r| ensures r[i].end < r[j].start {
        if i > 0 {
          assert r[i] == t[i - 1] && r[j] == t[j - 1];
        } else {
          assert r[j] == t[j - 1];
        }
      }
    }
  }

  /** consolidate never changes which values are covered. */
  lemma ConsolidatedCovers(s: seq<Interval>, v: int)
    ensures Covers(Consolidated(s), v) <==> Covers(s, v)
  {
    if |s| >= 2 {
      MergeRunCovers(s[0], s[1..], v);
      CoversHead(s, v);
    }
  }

  /** On well-formed ranges ordered by start, consolidate leaves no two
      consecutive ranges intersecting (indeed strictly ordered), and it
      keeps every range well formed. */
  lemma ConsolidatedSorted(s: seq<Interval>)
    requires AllWellFormed(s) && StartsSorted(s)
    ensures var r := Consolidated(s);
      && Sorted(r) && AllWellFormed(r)
      && forall i :: 0 <= i < |r| - 1 ==> !Intersects(r[i], r[i + 1])
  {
    if |s| >= 2 {
      MergeRunSorted(s[0], s[1..]);
      MergeRunWellFormed(s[0], s[1..]);
    }
    var r := Consolidated(s);
    forall i | 0 <= i < |r| - 1 ensures !Intersects(r[i], r[i + 1]) {
      assert r[i].end < r[i + 1].start;
    }
  }

  // ---------------------------------------------------------------------
  // addInterval as written: coverage.

  predicate Reaches(s: seq<Interval>, n: Interval) {
    exists k :: 0 <= k < |s| && (Intersects(s[k], n) || s[k].start > n.end)
  }

  lemma {:induction false} ScanCovers(s: seq<Interval>, n: Interval, v: int)
    ensures Covers(Scan(s, n).list, v) ==> Covers(s, v) || InInterval(v, n)
    ensures Covers(s, v) ==> Covers(Scan(s, n).list, v)
    ensures Reaches(s, n) && InInterval(v, n) ==> Covers(Scan(s, n).list, v)
    decreases |s|
  {
    if s == [] {
    } else if Intersects(s[0], n) {
      MergeCovers(s[0], n, v);
      CoversCons(Merge(s[0], n), s[1..], v);
      CoversHead(s, v);
    } else {
      var tail := Scan(s[1..], n);
      ScanCovers(s[1..], n, v);
      CoversHead(s, v);
      if Reaches(s, n) && !(s[0].start > n.end) {
        var k :| 0 <= k < |s| && (Intersects(s[k], n) || s[k].start > n.end);
        assert k > 0;
        assert Reaches(s[1..], n) by {
          assert s[1..][k - 1] == s[k];
        }
      }
      if s[0].start > n.end {
        assert [n, s[0]] + tail.list == [n] + ([s[0]] + tail.list);
        CoversCons(n, [s[0]] + tail.list, v);
        CoversCons(s[0], tail.list, v);
      } else {
        CoversCons(s[0], tail.list, v);
      }
    }
  }

  lemma {:induction false} ScanWellFormed(s: seq<Interval>, n: Interval)
    requires AllWellFormed(s) && WellFormed(n)
    ensures AllWellFormed(Scan(s, n).list)
    decreases |s|
  {
    if s != [] && !Intersects(s[0], n) {
      ScanWellFormed(s[1..], n);
    }
  }

  /** With well-formed ranges, the last stored range either meets n or
      starts after it whenever n is not appended, so n is never lost. */
  lemma LastReaches(s: seq<Interval>, n: Interval)
    requires AllWellFormed(s) && WellFormed(n) && s != [] && n.start <= s[|s| - 1].end
    ensures Reaches(s, n)
  {
    var last := s[|s| - 1];
    if !Intersects(last, n) {
      assert last.start > n.end;
    }
  }

  /** After addInterval(start, end) the covered values are the old ones
      plus [start, end]. Holds for any list of well-formed ranges. */
  lemma AddedCovers(s: seq<Interval>, n: Interval, v: int)
    requires AllWellFormed(s) && WellFormed(n)
    ensures Covers(Added(s, n), v) <==> Covers(s, v) || InInterval(v, n)
    ensures AllWellFormed(Added(s, n))
  {
    if s == [] || n.end < s[0].start {
      CoversCons(n, s, v);
    } else if n.start > s[|s| - 1].end {
      CoversConcat(s, [n], v);
      CoversCons(n, [], v);
      assert [n] + [] == [n];
    } else {
      LastReaches(s, n);
      ScanCovers(s, n, v);
      ScanWellFormed(s, n);
      var o := Scan(s, n);
      if o.merged {
        ConsolidatedCovers(o.list, v);
        if |o.list| >= 2 {
          MergeRunWellFormed(o.list[0], o.list[1..]);
        }
      }
    }
  }

  /** Fast paths: a range before the first stored one is prepended, one
      after the last is appended; nothing else changes. */
  lemma AddedFastPaths(s: seq<Interval>, n: Interval)
    ensures s == [] || n.end < s[0].start ==> Added(s, n) == [n] + s
    ensures s != [] && s[0].start <= n.end && n.start > s[|s| - 1].end ==> Added(s, n) == s + [n]
  {
  }

  /** addIntervals: the result covers the union of both sets. */
  lemma {:induction false} AddedAllCovers(s: seq<Interval>, others: seq<Interval>, v: int)
    requires AllWellFormed(s) && AllWellFormed(others)
    ensures Covers(AddedAll(s, others), v) <==> Covers(s, v) || Covers(others, v)
    decreases |others|
  {
    if others != [] {
      AddedCovers(s, others[0], v);
      forall w { AddedCovers(s, others[0], w); }
      AddedAllCovers(Added(s, others[0]), others[1..], v);
      CoversHead(others, v);
    }
  }

  /** Adding a list and then one more range is adding the longer list. */
  lemma {:induction false} AddedAllSnoc(s: seq<Interval>, others: seq<Interval>, n: Interval)
    ensures AddedAll(s, others + [n]) == Added(AddedAll(s, others), n)
    decreases |others|
  {
    if others == [] {
      assert [] + [n] == [n];
      assert [n][1..] == [];
    } else {
      assert (others + [n])[0] == others[0];
      assert (others + [n])[1..] == others[1..] + [n];
      AddedAllSnoc(Added(s, others[0]), others[1..], n);
    }
  }

  // ---------------------------------------------------------------------
  // addInterval as written: ordering.

  /** The first stored range that meets n: in a sorted list every range
      before it ends before n starts. */
  lemma FirstMeet(s: seq<Interval>, n: Interval) returns (p: nat)
    requires Sorted(s) && AllWellFormed(s) && WellFormed(n)
    requires exists k :: 0 <= k < |s| && Intersects(s[k], n)
    ensures p < |s| && Intersects(s[p], n)
    ensures forall i :: 0 <= i < p ==> !Intersects(s[i], n) && s[i].end < n.start
  {
    var k :| 0 <= k < |s| && Intersects(s[k], n);
    p := 0;
    while !Intersects(s[p], n)
      invariant p <= k
      invariant forall i :: 0 <= i < p ==> !Intersects(s[i], n)
      decreases k - p
    {
      p := p + 1;
    }
    forall i | 0 <= i < p ensures s[i].end < n.start {
      assert s[i].end < s[p].start;
      assert !Intersects(s[i], n);
    }
  }

  /** When the first range meeting n is at p, both scans merge n into it
      and leave every other range in place. */
  lemma {:induction false} ScanMergeShape(s: seq<Interval>, n: Interval, p: nat)
    requires p < |s| && Intersects(s[p], n)
    requires forall i :: 0 <= i < p ==> !Intersects(s[i], n) && s[i].start <= n.end
    ensures Scan(s, n) == ScanOutcome(s[..p] + [Merge(s[p], n)] + s[p + 1..], true)
    ensures ScanFixed(s, n) == Scan(s, n)
    decreases p
  {
    if p > 0 {
      ScanMergeShape(s[1..], n, p - 1);
      assert s[..p] == [s[0]] + s[1..][..p - 1];
      assert s[p + 1..] == s[1..][p..];
    } else {
      assert s[..0] == [];
    }
  }

  /** In an interior gap, the as-written scan puts n in front of each of
      the ranges that start after it. */
  lemma {:induction false} ScanGapShape(s: seq<Interval>, n: Interval, k: nat)
    requires forall i :: 0 <= i < |s| ==> !Intersects(s[i], n)
    requires k <= |s|
    requires forall i :: 0 <= i < k ==> s[i].start <= n.end
    requires forall i :: k <= i < |s| ==> s[i].start > n.end
    ensures Scan(s, n) == ScanOutcome(s[..k] + Spread(s[k..], n), false)
    decreases k
  {
    if k == 0 {
      ScanSpread(s, n);
      assert s[..0] == [] && s[0..] == s;
    } else {
      ScanGapShape(s[1..], n, k - 1);
      DropFirst(s, k);
    }
  }

  lemma DropFirst<T>(s: seq<T>, k: nat)
    requires 0 < k <= |s|
    ensures s[..k] == [s[0]] + s[1..][..k - 1] && s[k..] == s[1..][k - 1..]
  {
  }

  /** Ranges that all start after n and none of which meets it each get a
      copy of n in front. */
  lemma {:induction false} ScanSpread(t: seq<Interval>, n: Interval)
    requires forall i :: 0 <= i < |t| ==> !Intersects(t[i], n) && t[i].start > n.end
    ensures Scan(t, n) == ScanOutcome(Spread(t, n), false)
    decreases |t|
  {
    if t != [] {
      ScanSpread(t[1..], n);
    }
  }

  /** In an interior gap, the intended scan inserts n once, in front of the
      first range that starts after it. */
  lemma {:induction false} ScanFixedGapShape(s: seq<Interval>, n: Interval, k: nat)
    requires forall i :: 0 <= i < |s| ==> !Intersects(s[i], n)
    requires k < |s|
    requires forall i :: 0 <= i < k ==> s[i].start <= n.end
    requires s[k].start > n.end
    ensures ScanFixed(s, n) == ScanOutcome(s[..k] + [n] + s[k..], false)
    decreases k
  {
    if k == 0 {
      assert s[..0] == [] && s[0..] == s;
    } else {
      ScanFixedGapShape(s[1..], n, k - 1);
      assert s[..k] == [s[0]] + s[1..][..k - 1];
      assert s[k..] == s[1..][k - 1..];
    }
  }

  lemma SpreadTwice(t: seq<Interval>, n: Interval)
    requires |t| >= 2
    ensures |Spread(t, n)| >= 4 && Spread(t, n)[0] == n && Spread(t, n)[2] == n
  {
    assert Spread(t, n) == [n, t[0]] + ([n, t[1]] + Spread(t[2..], n)) by {
      assert t[1..][1..] == t[2..];
    }
  }

  lemma SortedInsert(s: seq<Interval>, n: Interval, k: nat)
    requires Sorted(s) && AllWellFormed(s) && WellFormed(n) && k < |s|
    requires forall i :: 0 <= i < k ==> s[i].end < n.start
    requires n.end < s[k].start
    ensures Sorted(s[..k] + [n] + s[k..]) && AllWellFormed(s[..k] + [n] + s[k..])
  {
    var r := s[..k] + [n] + s[k..];
    forall i, j | 0 <= i < j < |r| ensures r[i].end < r[j].start {
      if j < k {
        assert r[i] == s[i] && r[j] == s[j];
      } else if j == k {
        assert r[i] == s[i];
      } else if i == k {
        assert r[j] == s[j - 1];
        assert s[k].start <= s[j - 1].start by {
          if j - 1 > k {
            assert s[k].end < s[j - 1].start;
          }
        }
      } else if i < k {
        assert r[i] == s[i] && r[j] == s[j - 1];
      } else {
        assert r[i] == s[i - 1] && r[j] == s[j - 1];
      }
    }
    forall i | 0 <= i < |r| ensures WellFormed(r[i]) {
      if i < k {
        assert r[i] == s[i];
      } else if i > k {
        assert r[i] == s[i - 1];
      }
    }
  }

  /** In an interior gap of a sorted list, every range before the gap ends
      before n starts, and the ranges after it form a suffix. */
  lemma GapSplit(s: seq<Interval>, n: Interval) returns (k: nat)
    requires Sorted(s) && AllWellFormed(s) && WellFormed(n) && InteriorGap(s, n)
    ensures 0 < k < |s|
    ensures forall i :: 0 <= i < k ==> s[i].start <= n.end && s[i].end < n.start
    ensures forall i :: k <= i < |s| ==> s[i].start > n.end
  {
    LastReaches(s, n);
    k := |s| - 1;
    assert s[k].start > n.end by {
      assert !Intersects(s[k], n);
    }
    while k > 0 && s[k - 1].start > n.end
      invariant 0 <= k < |s|
      invariant forall i :: k <= i < |s| ==> s[i].start > n.end
      decreases k
    {
      k := k - 1;
    }
    assert k > 0;
    forall i | 0 <= i < k ensures s[i].start <= n.end && s[i].end < n.start {
      if i < k - 1 {
        assert s[i].end < s[k - 1].start;
      }
      assert !Intersects(s[i], n);
    }
  }

  /** The list after merging n into the range at p is still ordered by
      start and well formed, so consolidate can restore strict order. */
  lemma MergedStartsSorted(s: seq<Interval>, n: Interval, p: nat)
    requires Sorted(s) && AllWellFormed(s) && WellFormed(n)
    requires p < |s| && Intersects(s[p], n)
    requires forall i :: 0 <= i < p ==> s[i].end < n.start
    ensures var l := s[..p] + [Merge(s[p], n)] + s[p + 1..];
      StartsSorted(l) && AllWellFormed(l)
  {
    var l := s[..p] + [Merge(s[p], n)] + s[p + 1..];
    forall i, j | 0 <= i < j < |l| ensures l[i].start <= l[j].start {
      if i < p {
        assert l[i] == s[i];
        if j == p {
          assert s[i].end < s[p].start;
        } else {
          assert l[j] == s[j];
          assert s[i].end < s[j].start;
        }
      } else if i == p {
        assert l[j] == s[j];
        assert s[p].end < s[j].start;
      } else {
        assert l[i] == s[i] && l[j] == s[j];
        assert s[i].end < s[j].start;
      }
    }
    forall i | 0 <= i < |l| ensures WellFormed(l[i]) {
      if i != p {
        assert l[i] == s[i];
      }
    }
  }

  lemma PrependSorted(s: seq<Interval>, n: Interval)
    requires Sorted(s) && AllWellFormed(s) && WellFormed(n)
    requires s == [] || n.end < s[0].start
    ensures Sorted([n] + s) && AllWellFormed([n] + s)
  {
    var r := [n] + s;
    forall i, j | 0 <= i < j < |r| ensures r[i].end < r[j].start {
      if i == 0 {
        assert r[j] == s[j - 1];
        if j > 1 {
          assert s[0].end < s[j - 1].start;
        }
      } else {
        assert r[i] == s[i - 1] && r[j] == s[j - 1];
      }
    }
    forall i | 0 <= i < |r| ensures WellFormed(r[i]) {
      if i > 0 {
        assert r[i] == s[i - 1];
      }
    }
  }

  lemma AppendSorted(s: seq<Interval>, n: Interval)
    requires Sorted(s) && AllWellFormed(s) && WellFormed(n)
    requires s != [] && n.start > s[|s| - 1].end
    ensures Sorted(s + [n]) && AllWellFormed(s + [n])
  {
    var r := s + [n];
    forall i, j | 0 <= i < j < |r| ensures r[i].end < r[j].start {
      if j == |s| && i < |s| - 1 {
        assert s[i].end < s[|s| - 1].start;
      }
    }
  }

  /** Exactly when addInterval keeps a sorted list sorted: always, except
      for a range that falls into an interior gap with two or more stored
      ranges after it, which is then inserted more than once. */
  lemma AddedSortedIff(s: seq<Interval>, n: Interval)
    requires Sorted(s) && AllWellFormed(s) && WellFormed(n)
    ensures Sorted(Added(s, n)) <==> !InteriorGap(s, n) || (|s| >= 2 && s[|s| - 2].start <= n.end)
  {
    if InteriorGap(s, n) {
      var k := GapSplit(s, n);
      ScanGapShape(s, n, k);
      var r := Added(s, n);
      assert r == s[..k] + Spread(s[k..], n);
      if s[|s| - 2].start <= n.end {
        assert k == |s| - 1;
        assert Spread(s[k..], n) == [n, s[k]] by {
          assert s[k..][1..] == [];
        }
        assert s[k..] == [s[k]];
        assert r == s[..k] + [n] + s[k..];
        SortedInsert(s, n, k);
      } else {
        assert k <= |s| - 2;
        SpreadTwice(s[k..], n);
        assert r[k] == n && r[k + 2] == n;
      }
    } else if s == [] || n.end < s[0].start {
      PrependSorted(s, n);
    } else if n.start > s[|s| - 1].end {
      AppendSorted(s, n);
    } else {
      var p := FirstMeet(s, n);
      ScanMergeShape(s, n, p);
      MergedStartsSorted(s, n, p);
      ConsolidatedSorted(s[..p] + [Merge(s[p], n)] + s[p + 1..]);
    }
  }

  /** The ranges [1,2], [10,11], [20,21] and the new range [5,6]: the scan
      inserts [5,6] twice and the list is left unsorted. */
  lemma GapInsertionDuplicates()
    ensures Added([Interval(1, 2), Interval(10, 11), Interval(20, 21)], Interval(5, 6))
         == [Interval(1, 2), Interval(5, 6), Interval(10, 11), Interval(5, 6), Interval(20, 21)]
    ensures !Sorted(Added([Interval(1, 2), Interval(10, 11), Interval(20, 21)], Interval(5, 6)))
  {
    var s := [Interval(1, 2), Interval(10, 11), Interval(20, 21)];
    var n := Interval(5, 6);
    assert s[1..] == [Interval(10, 11), Interval(20, 21)];
    assert s[1..][1..] == [Interval(20, 21)];
    assert s[1..][1..][1..] == [];
    var r := Added(s, n);
    assert r[1].end >= r[3].start;
  }

  /** Adding [4,7] after [1,3]: the ranges only touch, so they stay apart. */
  lemma AdjacentRangesStayApart()
    ensures Added([Interval(1, 3)], Interval(4, 7)) == [Interval(1, 3), Interval(4, 7)]
  {
  }

  // ---------------------------------------------------------------------
  // The corrected insertion keeps the list sorted and covers the union.

  lemma {:induction false} ScanFixedCovers(s: seq<Interval>, n: Interval, v: int)
    ensures Covers(ScanFixed(s, n).list, v) ==> Covers(s, v) || InInterval(v, n)
    ensures Covers(s, v) ==> Covers(ScanFixed(s, n).list, v)
    ensures Reaches(s, n) && InInterval(v, n) ==> Covers(ScanFixed(s, n).list, v)
    decreases |s|
  {
    if s == [] {
    } else if Intersects(s[0], n) {
      MergeCovers(s[0], n, v);
      CoversCons(Merge(s[0], n), s[1..], v);
      CoversHead(s, v);
    } else if s[0].start > n.end {
      CoversCons(n, s, v);
    } else {
      var tail := ScanFixed(s[1..], n);
      ScanFixedCovers(s[1..], n, v);
      CoversHead(s, v);
      CoversCons(s[0], tail.list, v);
      if Reaches(s, n) {
        var k :| 0 <= k < |s| && (Intersects(s[k], n) || s[k].start > n.end);
        assert k > 0;
        assert s[1..][k - 1] == s[k];
      }
    }
  }

  /** The intended insertion: a sorted list of well-formed ranges stays
      sorted and covers exactly the old values plus [start, end]. */
  lemma AddedFixedSorted(s: seq<Interval>, n: Interval)
    requires Sorted(s) && AllWellFormed(s) && WellFormed(n)
    ensures Sorted(AddedFixed(s, n)) && AllWellFormed(AddedFixed(s, n))
    ensures forall v :: Covers(AddedFixed(s, n), v) <==> Covers(s, v) || InInterval(v, n)
  {
    var r := AddedFixed(s, n);
    if s == [] || n.end < s[0].start {
      PrependSorted(s, n);
      forall v ensures Covers(r, v) <==> Covers(s, v) || InInterval(v, n) {
        CoversCons(n, s, v);
      }
    } else if n.start > s[|s| - 1].end {
      AppendSorted(s, n);
      forall v ensures Covers(r, v) <==> Covers(s, v) || InInterval(v, n) {
        CoversConcat(s, [n], v);
        CoversCons(n, [], v);
        assert [n] + [] == [n];
      }
    } else {
      LastReaches(s, n);
      var o := ScanFixed(s, n);
      if exists k :: 0 <= k < |s| && Intersects(s[k], n) {
        var p := FirstMeet(s, n);
        ScanMergeShape(s, n, p);
        MergedStartsSorted(s, n, p);
        ConsolidatedSorted(o.list);
      } else {
        var k := GapSplit(s, n);
        ScanFixedGapShape(s, n, k);
        SortedInsert(s, n, k);
      }
      forall v ensures Covers(r, v) <==> Covers(s, v) || InInterval(v, n) {
        ScanFixedCovers(s, n, v);
        if o.merged {
          ConsolidatedCovers(o.list, v);
        }
      }
    }
  }

  // ---------------------------------------------------------------------
  // Adding the same range twice, and adding two ranges in either order.

  /** As written, adding a range a second time covers nothing new. */
  lemma AddedIdempotentCovers(s: seq<Interval>, n: Interval, v: int)
    requires AllWellFormed(s) && WellFormed(n)
    ensures Covers(Added(Added(s, n), n), v) <==> Covers(Added(s, n), v)
  {
    AddedCovers(s, n, v);
    AddedCovers(Added(s, n), n, v);
  }

  /** As written, the values covered after adding two ranges do not depend
      on their order. */
  lemma AddedCommuteCovers(s: seq<Interval>, a: Interval, b: Interval, v: int)
    requires AllWellFormed(s) && WellFormed(a) && WellFormed(b)
    ensures Covers(Added(Added(s, a), b), v) <==> Covers(Added(Added(s, b), a), v)
  {
    AddedCovers(s, a, v);
    AddedCovers(Added(s, a), b, v);
    AddedCovers(s, b, v);
    AddedCovers(Added(s, b), a, v);
  }

  /** Two well-formed ranges added to an empty set give the same list in
      either order, with the written scan and with the intended one: the
      second range lands before, after or on the first. */
  lemma AddedCommuteFromEmpty(a: Interval, b: Interval)
    requires WellFormed(a) && WellFormed(b)
    ensures Added(Added([], a), b) == Added(Added([], b), a)
    ensures AddedFixed(AddedFixed([], a), b) == AddedFixed(AddedFixed([], b), a)
    ensures AddedFixed(AddedFixed([], a), b) == Added(Added([], a), b)
  {
    if !(b.end < a.start) && !(b.start > a.end) {
      assert Intersects(a, b) && Intersects(b, a);
      assert Merge(a, b) == Merge(b, a);
    }
  }

  /** From a non-empty set the order does matter as written: [5,6] added
      before [30,31] is inserted twice, added after it is inserted in front
      of each of [10,11], [20,21] and [30,31]. The intended insertion gives
      one sorted list either way. */
  lemma AddOrderMatters()
    ensures var s := [Interval(1, 2), Interval(10, 11), Interval(20, 21)];
      && Added(Added(s, Interval(5, 6)), Interval(30, 31)) != Added(Added(s, Interval(30, 31)), Interval(5, 6))
      && AddedFixed(AddedFixed(s, Interval(5, 6)), Interval(30, 31))
         == AddedFixed(AddedFixed(s, Interval(30, 31)), Interval(5, 6))
  {
    GapFirstThenAfter();
    AfterFirstThenGap();
    FixedEitherOrder();
  }

  lemma GapFirstThenAfter()
    ensures |Added(Added([Interval(1, 2), Interval(10, 11), Interval(20, 21)], Interval(5, 6)), Interval(30, 31))| == 6
  {
    GapInsertionDuplicates();
  }

  lemma AfterFirstThenGap()
    ensures |Added(Added([Interval(1, 2), Interval(10, 11), Interval(20, 21)], Interval(30, 31)), Interval(5, 6))| == 7
  {
    var t := [Interval(1, 2), Interval(10, 11), Interval(20, 21), Interval(30, 31)];
    assert Added([Interval(1, 2), Interval(10, 11), Interval(20, 21)], Interval(30, 31)) == t;
    ScanGapShape(t, Interval(5, 6), 1);
  }

  lemma FixedEitherOrder()
    ensures var s := [Interval(1, 2), Interval(10, 11), Interval(20, 21)];
      && AddedFixed(AddedFixed(s, Interval(5, 6)), Interval(30, 31))
         == [Interval(1, 2), Interval(5, 6), Interval(10, 11), Interval(20, 21), Interval(30, 31)]
      && AddedFixed(AddedFixed(s, Interval(30, 31)), Interval(5, 6))
         == [Interval(1, 2), Interval(5, 6), Interval(10, 11), Interval(20, 21), Interval(30, 31)]
  {
    var s := [Interval(1, 2), Interval(10, 11), Interval(20, 21)];
    var t := s + [Interval(30, 31)];
    ScanFixedGapShape(s, Interval(5, 6), 1);
    ScanFixedGapShape(t, Interval(5, 6), 1);
    assert s[..1] == t[..1] == [Interval(1, 2)];
    assert s[1..] == [Interval(10, 11), Interval(20, 21)];
    assert t[1..] == [Interval(10, 11), Interval(20, 21), Interval(30, 31)];
  }

  /** n lies inside the range r. */
  predicate Within(n: Interval, r: Interval) {
    r.start <= n.start && n.end <= r.end
  }

  /** The merge pass keeps a range that holds n, possibly widened. k names
      that range: -1 for cur, otherwise its index in rest. */
  lemma {:induction false} MergeRunHolds(cur: Interval, rest: seq<Interval>, n: Interval, k: int)
    returns (j: nat)
    requires -1 <= k < |rest|
    requires k == -1 ==> Within(n, cur)
    requires k >= 0 ==> Within(n, rest[k])
    ensures j < |MergeRun(cur, rest)| && Within(n, MergeRun(cur, rest)[j])
    decreases |rest|
  {
    if rest == [] {
      j := 0;
    } else if Intersects(cur, rest[0]) {
      if k > 0 {
        assert rest[1..][k - 1] == rest[k];
      }
      j := MergeRunHolds(Merge(cur, rest[0]), rest[1..], n, if k <= 0 then -1 else k - 1);
    } else if k == -1 {
      j := 0;
    } else {
      if k > 0 {
        assert rest[1..][k - 1] == rest[k];
      }
      var j' := MergeRunHolds(rest[0], rest[1..], n, k - 1);
      j := j' + 1;
    }
  }

  /** Consolidating a list one of whose ranges holds n keeps a range that holds n. */
  lemma MergedHolds(l: seq<Interval>, n: Interval, p: nat) returns (q: nat)
    requires p < |l| && Within(n, l[p])
    ensures q < |Consolidated(l)| && Within(n, Consolidated(l)[q])
  {
    if |l| < 2 {
      q := p;
    } else {
      if p > 0 {
        assert l[1..][p - 1] == l[p];
      }
      q := MergeRunHolds(l[0], l[1..], n, p as int - 1);
    }
  }

  /** After the intended insertion some stored range holds all of n. */
  lemma AddedFixedHolds(s: seq<Interval>, n: Interval) returns (q: nat)
    requires Sorted(s) && AllWellFormed(s) && WellFormed(n)
    ensures q < |AddedFixed(s, n)| && Within(n, AddedFixed(s, n)[q])
  {
    if s == [] || n.end < s[0].start {
      q := 0;
    } else if n.start > s[|s| - 1].end {
      q := |s|;
    } else if exists k :: 0 <= k < |s| && Intersects(s[k], n) {
      var p := FirstMeet(s, n);
      ScanMergeShape(s, n, p);
      q := MergedHolds(s[..p] + [Merge(s[p], n)] + s[p + 1..], n, p);
    } else {
      LastReaches(s, n);
      var k := GapSplit(s, n);
      ScanFixedGapShape(s, n, k);
      q := k;
    }
  }

  /** The merge pass leaves a sorted list of well-formed ranges as it is. */
  lemma {:induction false} MergeRunSeparated(t: seq<Interval>)
    requires |t| >= 1 && Sorted(t) && AllWellFormed(t)
    ensures MergeRun(t[0], t[1..]) == t
    decreases |t|
  {
    if |t| > 1 {
      assert !Intersects(t[0], t[1]);
      MergeRunSeparated(t[1..]);
      assert t[1..][0] == t[1] && t[1..][1..] == t[2..];
      assert t == [t[0]] + t[1..];
    } else {
      assert t == [t[0]];
    }
  }

  /** consolidate changes nothing on a sorted list, so consolidating twice
      is consolidating once. */
  lemma ConsolidateIdempotent(s: seq<Interval>)
    requires AllWellFormed(s) && StartsSorted(s)
    ensures Consolidated(Consolidated(s)) == Consolidated(s)
  {
    ConsolidatedSorted(s);
    ConsolidatedSeparated(Consolidated(s));
  }

  /** Adding a range that a stored range already holds leaves a sorted list
      unchanged under the intended insertion. */
  lemma ReAddHeld(t: seq<Interval>, n: Interval, q: nat)
    requires Sorted(t) && AllWellFormed(t) && WellFormed(n)
    requires q < |t| && Within(n, t[q])
    ensures AddedFixed(t, n) == t
  {
    HeldInside(t, n, q);
    HeldScan(t, n, q);
    ConsolidatedSeparated(t);
  }

  /** A held range takes neither fast path. */
  lemma HeldInside(t: seq<Interval>, n: Interval, q: nat)
    requires Sorted(t) && AllWellFormed(t) && WellFormed(n)
    requires q < |t| && Within(n, t[q])
    ensures t[0].start <= n.end && n.start <= t[|t| - 1].end
  {
    if q > 0 {
      assert t[0].end < t[q].start;
    }
    if q < |t| - 1 {
      assert t[q].end < t[|t| - 1].start;
    }
  }

  /** The scan merges a held range into its holder, which does not change. */
  lemma HeldScan(t: seq<Interval>, n: Interval, q: nat)
    requires Sorted(t) && AllWellFormed(t) && WellFormed(n)
    requires q < |t| && Within(n, t[q])
    ensures ScanFixed(t, n) == ScanOutcome(t, true)
  {
    BeforeHolder(t, n, q);
    ScanMergeShape(t, n, q);
    assert Merge(t[q], n) == t[q];
    SplitAround(t, q);
  }

  /** Every range before the holder of n ends before n starts. */
  lemma BeforeHolder(t: seq<Interval>, n: Interval, q: nat)
    requires Sorted(t) && AllWellFormed(t) && WellFormed(n)
    requires q < |t| && Within(n, t[q])
    ensures forall i :: 0 <= i < q ==> !Intersects(t[i], n) && t[i].start <= n.end
  {
    forall i | 0 <= i < q
      ensures !Intersects(t[i], n) && t[i].start <= n.end
    {
      assert t[i].end < t[q].start;
    }
  }

  lemma SplitAround<T>(s: seq<T>, q: nat)
    requires q < |s|
    ensures s[..q] + [s[q]] + s[q + 1..] == s
  {
  }

  /** consolidate leaves a sorted list of well-formed ranges as it is. */
  lemma ConsolidatedSeparated(t: seq<Interval>)
    requires Sorted(t) && AllWellFormed(t)
    ensures Consolidated(t) == t
  {
    if |t| >= 2 {
      MergeRunSeparated(t);
    }
  }

  /** The intended addInterval is idempotent: adding the same range a second
      time leaves the list as the first addition left it. */
  lemma AddedFixedIdempotent(s: seq<Interval>, n: Interval)
    requires Sorted(s) && AllWellFormed(s) && WellFormed(n)
    ensures AddedFixed(AddedFixed(s, n), n) == AddedFixed(s, n)
  {
    var q := AddedFixedHolds(s, n);
    AddedFixedSorted(s, n);
    ReAddHeld(AddedFixed(s, n), n, q);
  }

  // ---------------------------------------------------------------------
  // popValue.

  lemma PopBelow(s: seq<Interval>, v: ULong)
    requires Sorted(s) && AllWellFormed(s) && s != [] && v < s[0].start
    ensures forall x :: Covers(s, x) ==> x > v
  {
    forall x | Covers(s, x) ensures x > v {
      var k :| 0 <= k < |s| && InInterval(x, s[k]);
      if k > 0 {
        assert s[0].end < s[k].start;
      }
    }
  }

  lemma PopFrontCovers(s: seq<Interval>, v: ULong)
    requires Sorted(s) && AllWellFormed(s) && s != [] && InInterval(v, s[0]) && v < ULONG_MAX
    ensures Popped(s, v).found && Covers(s, v)
    ensures forall x :: Covers(Popped(s, v).rest, x) <==> Covers(s, x) && x > v
  {
    var o := Popped(s, v);
    var front := Interval(v + 1, s[0].end);
    assert Succ(v) == v + 1;
    assert o.rest == if front.end < front.start then s[1..] else [front] + s[1..];
    CoversHead(s, v);
    forall x ensures Covers(o.rest, x) <==> Covers(s, x) && x > v {
      CoversHead(s, x);
      if front.end >= front.start {
        CoversCons(front, s[1..], x);
      }
      if Covers(s[1..], x) {
        var k :| 0 <= k < |s[1..]| && InInterval(x, s[1..][k]);
        assert s[0].end < s[k + 1].start;
      }
    }
  }

  lemma PopFrontSorted(s: seq<Interval>, v: ULong)
    requires Sorted(s) && AllWellFormed(s) && s != [] && InInterval(v, s[0]) && v < ULONG_MAX
    ensures Sorted(Popped(s, v).rest) && AllWellFormed(Popped(s, v).rest)
  {
    var front := Interval(v + 1, s[0].end);
    assert Succ(v) == v + 1;
    if front.end >= front.start {
      var r := [front] + s[1..];
      assert Popped(s, v).rest == r;
      forall i, j | 0 <= i < j < |r| ensures r[i].end < r[j].start {
        if i == 0 {
          assert r[j] == s[j];
        } else {
          assert r[i] == s[i] && r[j] == s[j];
        }
      }
      forall i | 0 <= i < |r| ensures WellFormed(r[i]) {
        if i > 0 {
          assert r[i] == s[i];
        }
      }
    } else {
      assert Popped(s, v).rest == s[1..];
    }
  }

  /** popValue consumes the set up to v: it reports whether v was covered,
      and afterwards exactly the old values above v are covered. Holds for
      sorted lists and v below the 64-bit maximum (see PopMaxWraps). */
  lemma {:induction false} PopConsumes(s: seq<Interval>, v: ULong)
    requires Sorted(s) && AllWellFormed(s) && v < ULONG_MAX
    ensures Popped(s, v).found == Covers(s, v)
    ensures Sorted(Popped(s, v).rest) && AllWellFormed(Popped(s, v).rest)
    ensures forall x :: Covers(Popped(s, v).rest, x) <==> Covers(s, x) && x > v
    decreases |s|
  {
    if s == [] {
    } else if v < s[0].start {
      PopBelow(s, v);
    } else if InInterval(v, s[0]) {
      PopFrontCovers(s, v);
      PopFrontSorted(s, v);
    } else {
      PopConsumes(s[1..], v);
      CoversHead(s, v);
      forall x ensures Covers(Popped(s, v).rest, x) <==> Covers(s, x) && x > v {
        CoversHead(s, x);
      }
    }
  }

  /** Popping 2^64-1 from a range that ends there wraps its start to 0, so
      the range then covers every value. */
  lemma PopMaxWraps()
    ensures Popped([Interval(5, ULONG_MAX)], ULONG_MAX) == PopOutcome(true, [Interval(0, ULONG_MAX)])
  {
  }

  /** popValue as evidently intended: popping the 64-bit maximum removes the
      range holding it instead of wrapping that range's new start to 0. */
  function PoppedFixed(s: seq<Interval>, v: ULong): PopOutcome
    decreases |s|
  {
    if s == [] || v < s[0].start then PopOutcome(false, s)
    else if InInterval(v, s[0]) then
      PopOutcome(true, if v == ULONG_MAX || s[0].end == v then s[1..] else [Interval(v + 1, s[0].end)] + s[1..])
    else PoppedFixed(s[1..], v)
  }

  /** Below the maximum the corrected pop is the written one. */
  lemma {:induction false} PopFixedBelowMax(s: seq<Interval>, v: ULong)
    requires v < ULONG_MAX
    ensures PoppedFixed(s, v) == Popped(s, v)
    decreases |s|
  {
    if s != [] && v >= s[0].start {
      if InInterval(v, s[0]) {
        assert Succ(v) == v + 1;
      } else {
        PopFixedBelowMax(s[1..], v);
      }
    }
  }

  /** Popping the maximum from a sorted list empties it, and reports whether
      the maximum was covered. */
  lemma {:induction false} PopMaxFixed(s: seq<Interval>)
    requires Sorted(s) && AllWellFormed(s)
    ensures PoppedFixed(s, ULONG_MAX).found == Covers(s, ULONG_MAX)
    ensures PoppedFixed(s, ULONG_MAX).rest == []
    decreases |s|
  {
    if s != [] {
      CoversHead(s, ULONG_MAX);
      if InInterval(ULONG_MAX, s[0]) {
        assert |s| == 1 || s[0].end < s[1].start;
      } else {
        PopMaxFixed(s[1..]);
      }
    }
  }

  /** The corrected pop consumes the set up to v for every 64-bit v. */
  lemma PopConsumesFixed(s: seq<Interval>, v: ULong)
    requires Sorted(s) && AllWellFormed(s)
    ensures PoppedFixed(s, v).found == Covers(s, v)
    ensures Sorted(PoppedFixed(s, v).rest) && AllWellFormed(PoppedFixed(s, v).rest)
    ensures forall x :: Covers(PoppedFixed(s, v).rest, x) <==> Covers(s, x) && x > v
  {
    if v < ULONG_MAX {
      PopFixedBelowMax(s, v);
      PopConsumes(s, v);
    } else {
      PopMaxFixed(s);
      forall x | Covers(s, x) ensures x <= v {
        var k :| 0 <= k < |s| && InInterval(x, s[k]);
      }
    }
  }
}
