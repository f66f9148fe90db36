/**
 The numbers behind the latency-over-time charts: the parsed table is split
 by CPU, and each CPU's latency series is smoothed by the chosen method over
 a window of one percent of the group's rows before it is plotted against
 the group's ticks.
 */
module Timeseries {
  import opened LogParser
  import opened Rolling
  import opened Sums
  import opened Seqs

  /** The condition selecting the rows of one CPU. */
  function OnCpu(cpu: nat): Sample -> bool
  {
    (x: Sample) => x.cpu == cpu
  }

  /** The rows of one CPU, in file order: one group of `df.groupby('CPU')`. */
  function Group(rows: seq<Sample>, cpu: nat): (g: seq<Sample>)
    ensures |g| <= |rows|
    ensures forall x :: x in g <==> x in rows && x.cpu == cpu
  {
    Filter(OnCpu(cpu), rows)
  }

  /** Grouping keeps file order: the group of a concatenation is the
      concatenation of the groups. */
  lemma GroupAppend(a: seq<Sample>, b: seq<Sample>, cpu: nat)
    ensures Group(a + b, cpu) == Group(a, cpu) + Group(b, cpu)
  {
    FilterAppend(OnCpu(cpu), a, b);
  }

  /** Grouping partitions the rows: every occurrence of a row lands in the
      group of its own CPU, and in no other group. */
  lemma GroupPartitions(rows: seq<Sample>, cpu: nat, x: Sample)
    ensures multiset(Group(rows, cpu))[x] == if x.cpu == cpu then multiset(rows)[x] else 0
  {
    FilterMultiplicity(OnCpu(cpu), rows, x);
  }

  /** The CPU numbers that occur in the table: the keys of the grouping. */
  function Cpus(rows: seq<Sample>): set<nat>
  {
    set x | x in rows :: x.cpu
  }

  /** The Latency column of a group. */
  function Latencies(g: seq<Sample>): (ls: seq<int>)
    ensures |ls| == |g|
    ensures forall i :: 0 <= i < |g| ==> ls[i] == g[i].latency
  {
    seq(|g|, i requires 0 <= i < |g| => g[i].latency)
  }

  /** One smoothed latency series, by name: "max" and "mean" use the
      rolling window of `WindowSize(|ls|)` positions; any other name, such
      as "none", leaves the series as it is. One value comes out per row;
      `SeriesMax` states what a "max" value is. */
  function Smooth(smoothing: string, ls: seq<int>): (r: seq<real>)
    ensures |r| == |ls|
    ensures smoothing != "max" && smoothing != "mean" ==> forall i :: 0 <= i < |ls| ==> r[i] == ls[i] as real
    ensures smoothing == "max" ==> forall i :: 0 <= i < |ls| ==> r[i] == RollingMax(ls, WindowSize(|ls|))[i] as real
  {
    var w := WindowSize(|ls|);
    if smoothing == "max" then
      var m := RollingMax(ls, w);
      seq(|ls|, i requires 0 <= i < |ls| => m[i] as real)
    else if smoothing == "mean" then RollingMean(ls, w)
    else seq(|ls|, i requires 0 <= i < |ls| => ls[i] as real)
  }

  /** A group of fewer than 200 rows gets a window of one row, so every
      smoothing plots its latencies unchanged. */
  lemma SmallGroupUnsmoothed(smoothing: string, ls: seq<int>)
    requires |ls| < 200
    ensures forall i :: 0 <= i < |ls| ==> Smooth(smoothing, ls)[i] == ls[i] as real
  {
    if smoothing == "mean" {
      forall i | 0 <= i < |ls|
        ensures Smooth(smoothing, ls)[i] == ls[i] as real
      {
        assert WindowStart(i, 1) == i;
        assert ls[i..i + 1] == [ls[i]];
        SumSingleton(ls[i]);
        assert WindowSum(ls, i, 1) == ls[i];
        assert RollingMean(ls, 1)[i] == (ls[i] as real) / 1.0;
      }
    } else if smoothing == "max" {
      RollingMaxWindowOne(ls);
    }
  }

  /** Every smoothing leaves a constant series as it is. */
  lemma ConstantUnsmoothed(smoothing: string, ls: seq<int>, c: int)
    requires forall k :: 0 <= k < |ls| ==> ls[k] == c
    ensures forall i :: 0 <= i < |ls| ==> Smooth(smoothing, ls)[i] == c as real
  {
    if smoothing == "mean" {
      RollingMeanConstant(ls, c, WindowSize(|ls|));
    } else if smoothing == "max" {
      RollingMaxConstant(ls, c, WindowSize(|ls|));
    }
  }

  /** A plotted point: the x value is the tick, the y value the smoothed latency. */
  datatype Point = Point(tick: nat, value: real)

  /** The line plotted for one CPU: its group's ticks against the smoothed
      latencies of the group. */
  function CpuSeries(rows: seq<Sample>, cpu: nat, smoothing: string): (s: seq<Point>)
    ensures |s| == |Group(rows, cpu)|
    ensures forall i :: 0 <= i < |s| ==> s[i].tick == Group(rows, cpu)[i].tick
    ensures forall i :: 0 <= i < |s| ==> s[i].value == Smooth(smoothing, Latencies(Group(rows, cpu)))[i]
  {
    var g := Group(rows, cpu);
    var values := Smooth(smoothing, Latencies(g));
    seq(|g|, i requires 0 <= i < |g| => Point(g[i].tick, values[i]))
  }

  /** All lines of a chart, one per CPU that occurs in the table. */
  function Chart(rows: seq<Sample>, smoothing: string): (m: map<nat, seq<Point>>)
    ensures m.Keys == Cpus(rows)
    ensures forall c :: c in m ==> |m[c]| == |Group(rows, c)| > 0
  {
    map c | c in Cpus(rows) :: CpuSeries(rows, c, smoothing)
  }

  /** With the smoothing "none", each CPU's line is its rows' (Tick, Latency)
      pairs in file order. */
  lemma ChartRaw(rows: seq<Sample>, c: nat)
    requires c in Cpus(rows)
    ensures var g := Group(rows, c);
      forall i :: 0 <= i < |g| ==> Chart(rows, "none")[c][i] == Point(g[i].tick, g[i].latency as real)
  {
  }

  /** With the smoothing "max", value `i` of a CPU group's smoothed series
      is the largest latency of the trailing window of `WindowSize` rows that
      ends at row `i`: it lies on or above every latency in that window and
      is one of them. */
  lemma SeriesMax(g: seq<Sample>, i: nat)
    requires i < |g|
    ensures var v := Smooth("max", Latencies(g))[i];
      && (forall k :: WindowStart(i, WindowSize(|g|)) <= k <= i ==> g[k].latency as real <= v)
      && exists k :: WindowStart(i, WindowSize(|g|)) <= k <= i && v == g[k].latency as real
  {
    var ls := Latencies(g);
    var w := WindowSize(|ls|);
    forall k | WindowStart(i, w) <= k <= i
      ensures g[k].latency as real <= Smooth("max", ls)[i]
    {
      assert ls[k] == g[k].latency;
    }
    var k :| WindowStart(i, w) <= k <= i && RollingMax(ls, w)[i] == ls[k];
    assert ls[k] == g[k].latency;
  }

  /** The rolling-max properties hold of the plotted chart: point `i` of a
      CPU's "max" line is the largest latency among the CPU's rows in the
      trailing window that ends at row `i`. */
  lemma ChartMax(rows: seq<Sample>, c: nat, i: nat)
    requires c in Cpus(rows) && i < |Group(rows, c)|
    ensures var g := Group(rows, c);
      var p := Chart(rows, "max")[c][i];
      && (forall k :: WindowStart(i, WindowSize(|g|)) <= k <= i ==> g[k].latency as real <= p.value)
      && exists k :: WindowStart(i, WindowSize(|g|)) <= k <= i && p.value == g[k].latency as real
  {
    var g := Group(rows, c);
    var line := CpuSeries(rows, c, "max");
    assert Chart(rows, "max")[c] == line;
    SeriesMax(g, i);
  }

  /** An empty table, or one where no line matched, gives a chart with no lines. */
  lemma EmptyTableEmptyChart(smoothing: string)
    ensures Chart([], smoothing) == map[]
  {
  }
}
