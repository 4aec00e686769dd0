/** The 8-hour windows of one tag and the samples each chart shows
    (main.py: min/max, floor/ceil to '8H', period_range, and the
    inclusive filter inside the window loop). */
module Windows {
  import opened Results
  import opened Ticks
  import opened Samples

  // ---------------------------------------------------------------------
  // Observed range
  // ---------------------------------------------------------------------

  /** Earliest instant in the table; missing stamps are skipped, and a table
      with no instant at all has none. */
  function Earliest(s: seq<Sample>): (r: Option<int>)
    ensures r.None? <==> forall i :: 0 <= i < |s| ==> s[i].stamp.Missing?
    ensures r.Some? ==> exists i :: 0 <= i < |s| && s[i].stamp == At(r.value)
    ensures r.Some? ==> forall i :: 0 <= i < |s| && s[i].stamp.At? ==> r.value <= s[i].stamp.ticks
  {
    if |s| == 0 then None
    else
      var rest := Earliest(s[1..]);
      assert forall i :: 1 <= i < |s| ==> s[i] == s[1..][i - 1];
      match s[0].stamp
      case Missing => rest
      case At(t) => if rest.Some? && rest.value < t then rest else Some(t)
  }

  /** Latest instant in the table, with the same treatment of missing stamps. */
  function Latest(s: seq<Sample>): (r: Option<int>)
    ensures r.None? <==> forall i :: 0 <= i < |s| ==> s[i].stamp.Missing?
    ensures r.Some? ==> exists i :: 0 <= i < |s| && s[i].stamp == At(r.value)
    ensures r.Some? ==> forall i :: 0 <= i < |s| && s[i].stamp.At? ==> s[i].stamp.ticks <= r.value
  {
    if |s| == 0 then None
    else
      var rest := Latest(s[1..]);
      assert forall i :: 1 <= i < |s| ==> s[i] == s[1..][i - 1];
      match s[0].stamp
      case Missing => rest
      case At(t) => if rest.Some? && rest.value > t then rest else Some(t)
  }

  /** Earliest and latest agree on whether the table has any instant. */
  lemma RangeDefinedTogether(s: seq<Sample>)
    ensures Earliest(s).Some? <==> Latest(s).Some?
    ensures Earliest(s).Some? ==> Earliest(s).value <= Latest(s).value
  {
    if Earliest(s).Some? {
      var i :| 0 <= i < |s| && s[i].stamp == At(Earliest(s).value);
      assert s[i].stamp.ticks <= Latest(s).value;
    }
  }

  /** After sorting, the earliest instant is the first row's. */
  lemma SortedEarliestIsFirst(s: seq<Sample>)
    requires Sorted(s) && |s| > 0 && s[0].stamp.At?
    ensures Earliest(s) == Some(s[0].stamp.ticks)
  {
    var e := Earliest(s).value;
    var i :| 0 <= i < |s| && s[i].stamp == At(e);
    if i > 0 {
      assert StampLe(s[0].stamp, s[i].stamp);
    }
  }

  lemma EarliestBelow(s: seq<Sample>, x: Sample)
    requires x in s && x.stamp.At?
    ensures Earliest(s).Some? && Earliest(s).value <= x.stamp.ticks
  {
    var k :| 0 <= k < |s| && s[k] == x;
  }

  lemma LatestAbove(s: seq<Sample>, x: Sample)
    requires x in s && x.stamp.At?
    ensures Latest(s).Some? && x.stamp.ticks <= Latest(s).value
  {
    var k :| 0 <= k < |s| && s[k] == x;
  }

  lemma EarliestNotAbove(a: seq<Sample>, b: seq<Sample>)
    requires multiset(a) == multiset(b) && Earliest(b).Some?
    ensures Earliest(a).Some? && Earliest(a).value <= Earliest(b).value
  {
    var j :| 0 <= j < |b| && b[j].stamp == At(Earliest(b).value);
    assert b[j] in multiset(a);
    EarliestBelow(a, b[j]);
  }

  lemma LatestNotBelow(a: seq<Sample>, b: seq<Sample>)
    requires multiset(a) == multiset(b) && Latest(b).Some?
    ensures Latest(a).Some? && Latest(b).value <= Latest(a).value
  {
    var j :| 0 <= j < |b| && b[j].stamp == At(Latest(b).value);
    assert b[j] in multiset(a);
    LatestAbove(a, b[j]);
  }

  /** Sorting does not change the observed range: it depends only on which
      rows the table holds. */
  lemma RangeIgnoresOrder(a: seq<Sample>, b: seq<Sample>)
    requires multiset(a) == multiset(b)
    ensures Earliest(a) == Earliest(b) && Latest(a) == Latest(b)
  {
    if Earliest(a).Some? {
      EarliestNotAbove(b, a);
      EarliestNotAbove(a, b);
    } else if Earliest(b).Some? {
      EarliestNotAbove(a, b);
    }
    if Latest(a).Some? {
      LatestNotBelow(b, a);
      LatestNotBelow(a, b);
    } else if Latest(b).Some? {
      LatestNotBelow(a, b);
    }
  }

  // ---------------------------------------------------------------------
  // Windows
  // ---------------------------------------------------------------------

  /** One chart's time span; both ends belong to it. */
  datatype Window = Window(start: int, stop: int)

  lemma AlignedGap(a: int, b: int)
    requires Aligned(a) && Aligned(b) && a <= b
    ensures b - a == ((b - a) / WindowTicks) * WindowTicks
  {
    var qa, qb := a / WindowTicks, b / WindowTicks;
    assert a == qa * WindowTicks && b == qb * WindowTicks;
    assert b - a == (qb - qa) * WindowTicks;
  }

  /** period_range(lower, upper, freq='8H') for a lower bound on the grid
      (main.py only passes the floored minimum): the grid points from lower
      up to upper. */
  function Boundaries(lower: int, upper: int): (r: seq<int>)
    requires Aligned(lower) && lower <= upper
    ensures |r| > 0 && r[0] == lower && r[|r| - 1] <= upper < r[|r| - 1] + WindowTicks
    ensures forall i :: 0 < i < |r| ==> r[i] == r[i - 1] + WindowTicks
    ensures forall i :: 0 <= i < |r| ==> Aligned(r[i])
    ensures Aligned(upper) ==> r[|r| - 1] == upper
  {
    var r := seq((upper - lower) / WindowTicks + 1, i => lower + i * WindowTicks);
    GridPoints(lower, upper, r);
    r
  }

  lemma GridPoints(lower: int, upper: int, r: seq<int>)
    requires Aligned(lower) && lower <= upper
    requires r == seq((upper - lower) / WindowTicks + 1, i => lower + i * WindowTicks)
    ensures r[|r| - 1] <= upper < r[|r| - 1] + WindowTicks
    ensures forall i :: 0 <= i < |r| ==> Aligned(r[i])
    ensures Aligned(upper) ==> r[|r| - 1] == upper
  {
    forall i | 0 <= i < |r| ensures Aligned(r[i]) {
      AlignedShift(lower, i);
    }
    if Aligned(upper) {
      AlignedGap(lower, upper);
    }
  }

  /** The windows between consecutive grid points from the floored earliest
      to the ceiled latest instant (range(len(idx) - 1) in the loop). */
  function Partition(earliest: int, latest: int): (r: seq<Window>)
    requires earliest <= latest
    ensures |r| * WindowTicks == CeilWindow(latest) - FloorWindow(earliest)
    ensures forall i :: 0 <= i < |r| ==> Aligned(r[i].start) && r[i].stop == r[i].start + WindowTicks
    ensures |r| > 0 ==> r[0].start == FloorWindow(earliest) && r[|r| - 1].stop == CeilWindow(latest)
    ensures forall i :: 0 < i < |r| ==> r[i - 1].stop == r[i].start
    ensures |r| == 0 <==> earliest == latest && Aligned(earliest)
    ensures forall i :: 0 <= i < |r| ==> FloorWindow(earliest) <= r[i].start && r[i].stop <= CeilWindow(latest)
  {
    var lower, upper := FloorWindow(earliest), CeilWindow(latest);
    var r := seq((upper - lower) / WindowTicks,
                 i => Window(lower + i * WindowTicks, lower + (i + 1) * WindowTicks));
    GridWindows(earliest, latest, r);
    r
  }

  /** The windows are exactly the pairs of consecutive grid points that
      period_range yields between the floor and the ceiling. */
  lemma PartitionFollowsBoundaries(earliest: int, latest: int)
    requires earliest <= latest
    ensures var idx := Boundaries(FloorWindow(earliest), CeilWindow(latest));
            |Partition(earliest, latest)| == |idx| - 1
            && forall i :: 0 <= i < |idx| - 1 ==> Partition(earliest, latest)[i] == Window(idx[i], idx[i + 1])
  {
  }

  lemma GridWindows(earliest: int, latest: int, r: seq<Window>)
    requires earliest <= latest
    requires |r| == (CeilWindow(latest) - FloorWindow(earliest)) / WindowTicks
    requires forall i :: 0 <= i < |r| ==>
               r[i] == Window(FloorWindow(earliest) + i * WindowTicks, FloorWindow(earliest) + (i + 1) * WindowTicks)
    ensures |r| * WindowTicks == CeilWindow(latest) - FloorWindow(earliest)
    ensures forall i :: 0 <= i < |r| ==> Aligned(r[i].start) && r[i].stop == r[i].start + WindowTicks
    ensures |r| > 0 ==> r[0].start == FloorWindow(earliest) && r[|r| - 1].stop == CeilWindow(latest)
    ensures forall i :: 0 < i < |r| ==> r[i - 1].stop == r[i].start
    ensures |r| == 0 <==> earliest == latest && Aligned(earliest)
    ensures forall i :: 0 <= i < |r| ==> FloorWindow(earliest) <= r[i].start && r[i].stop <= CeilWindow(latest)
  {
    var lower, upper := FloorWindow(earliest), CeilWindow(latest);
    AlignedGap(lower, upper);
    GridAligned(lower, r);
    GridWithin(lower, upper, r);
    if |r| == 0 {
      assert upper == lower;
    }
  }

  lemma GridAligned(lower: int, r: seq<Window>)
    requires Aligned(lower)
    requires forall i :: 0 <= i < |r| ==> r[i] == Window(lower + i * WindowTicks, lower + (i + 1) * WindowTicks)
    ensures forall i :: 0 <= i < |r| ==> Aligned(r[i].start) && r[i].stop == r[i].start + WindowTicks
    ensures forall i :: 0 < i < |r| ==> r[i - 1].stop == r[i].start
  {
    forall i | 0 <= i < |r|
      ensures Aligned(r[i].start)
    {
      AlignedShift(lower, i);
    }
  }

  lemma GridWithin(lower: int, upper: int, r: seq<Window>)
    requires upper - lower == |r| * WindowTicks
    requires forall i :: 0 <= i < |r| ==> r[i] == Window(lower + i * WindowTicks, lower + (i + 1) * WindowTicks)
    ensures forall i :: 0 <= i < |r| ==> lower <= r[i].start && r[i].stop <= upper
    ensures |r| > 0 ==> r[|r| - 1].stop == upper
  {
  }

  /** Window i starts i windows after the floored earliest instant. */
  lemma PartitionStart(earliest: int, latest: int, i: nat)
    requires earliest <= latest && i < |Partition(earliest, latest)|
    ensures Partition(earliest, latest)[i].start == FloorWindow(earliest) + i * WindowTicks
  {
    var r := Partition(earliest, latest);
    if i > 0 {
      PartitionStart(earliest, latest, i - 1);
      assert r[i - 1].stop == r[i].start;
    }
  }

  /** An instant alone, off the grid, still gets one window. */
  lemma SingleInstantOffGrid(t: int)
    requires !Aligned(t)
    ensures |Partition(t, t)| == 1
  {
    var r := Partition(t, t);
    assert CeilWindow(t) - FloorWindow(t) < 2 * WindowTicks;
  }

  /** Every instant between the rounded bounds lies in some window, as long
      as there is a window at all. */
  lemma PartitionCovers(earliest: int, latest: int, t: int)
    requires earliest <= latest && |Partition(earliest, latest)| > 0
    requires FloorWindow(earliest) <= t <= CeilWindow(latest)
    ensures exists i :: 0 <= i < |Partition(earliest, latest)|
              && Partition(earliest, latest)[i].start <= t <= Partition(earliest, latest)[i].stop
  {
    var r := Partition(earliest, latest);
    var lower := FloorWindow(earliest);
    var k := (t - lower) / WindowTicks;
    var i := if k < |r| then k else |r| - 1;
    PartitionStart(earliest, latest, i);
    assert r[i].start <= t <= r[i].stop;
  }

  /** Two windows share an instant only when they are neighbours and the
      instant is their common boundary. */
  lemma PartitionOverlap(earliest: int, latest: int, i: nat, j: nat, t: int)
    requires earliest <= latest && i < j < |Partition(earliest, latest)|
    requires Partition(earliest, latest)[i].start <= t <= Partition(earliest, latest)[i].stop
    requires Partition(earliest, latest)[j].start <= t <= Partition(earliest, latest)[j].stop
    ensures j == i + 1 && t == Partition(earliest, latest)[i].stop
  {
    PartitionStart(earliest, latest, i);
    PartitionStart(earliest, latest, j);
  }

  // ---------------------------------------------------------------------
  // Filtering
  // ---------------------------------------------------------------------

  /** start <= ts <= stop; a missing stamp fails every comparison. */
  predicate InWindow(w: Window, s: Stamp) {
    s.At? && w.start <= s.ticks <= w.stop
  }

  /** The rows of the table that one chart plots, in table order. */
  function Filter(s: seq<Sample>, w: Window): (r: seq<Sample>)
    ensures forall x :: multiset(r)[x] == if InWindow(w, x.stamp) then multiset(s)[x] else 0
    ensures forall x :: x in r <==> x in s && InWindow(w, x.stamp)
  {
    if |s| == 0 then []
    else
      assert s == [s[0]] + s[1..];
      if InWindow(w, s[0].stamp) then [s[0]] + Filter(s[1..], w) else Filter(s[1..], w)
  }

  /** A chart of a sorted table plots its rows in time order. */
  lemma {:induction false} FilterKeepsOrder(s: seq<Sample>, w: Window)
    requires Sorted(s)
    ensures Sorted(Filter(s, w))
  {
    if |s| > 0 {
      var rest := Filter(s[1..], w);
      FilterKeepsOrder(s[1..], w);
      if InWindow(w, s[0].stamp) {
        forall y | y in rest ensures StampLe(s[0].stamp, y.stamp) {
          var k :| 0 <= k < |s[1..]| && s[1..][k] == y;
          assert s[k + 1] == y;
        }
        SortedCons(s[0], rest);
      }
    }
  }

  /** Every order of the same rows gives a chart with the same rows. */
  lemma FilterIgnoresOrder(a: seq<Sample>, b: seq<Sample>, w: Window)
    requires multiset(a) == multiset(b)
    ensures multiset(Filter(a, w)) == multiset(Filter(b, w))
  {
    assert forall x :: multiset(Filter(a, w))[x] == multiset(Filter(b, w))[x];
  }

  /** A sample exactly on the boundary between windows i and i + 1 is
      plotted in both charts. */
  lemma BoundarySampleInBoth(s: seq<Sample>, earliest: int, latest: int, i: nat, x: Sample)
    requires earliest <= latest && i + 1 < |Partition(earliest, latest)|
    requires x in s && x.stamp == At(Partition(earliest, latest)[i].stop)
    ensures x in Filter(s, Partition(earliest, latest)[i])
    ensures x in Filter(s, Partition(earliest, latest)[i + 1])
  {
    var r := Partition(earliest, latest);
    assert r[i].stop == r[i + 1].start;
  }

  /** When there is at least one window, every sample with an instant is
      plotted in some chart. */
  lemma EverySampleCharted(s: seq<Sample>, x: Sample)
    requires x in s && x.stamp.At?
    requires Earliest(s).Some? && Latest(s).Some?
    requires Earliest(s).value <= Latest(s).value
    requires |Partition(Earliest(s).value, Latest(s).value)| > 0
    ensures exists i :: 0 <= i < |Partition(Earliest(s).value, Latest(s).value)|
              && x in Filter(s, Partition(Earliest(s).value, Latest(s).value)[i])
  {
    var e, l := Earliest(s).value, Latest(s).value;
    var r := Partition(e, l);
    var k :| 0 <= k < |s| && s[k] == x;
    PartitionCovers(e, l, x.stamp.ticks);
    var i :| 0 <= i < |r| && r[i].start <= x.stamp.ticks <= r[i].stop;
    assert x in Filter(s, r[i]);
  }
}
