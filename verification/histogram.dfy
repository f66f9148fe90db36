/**
 The numbers behind the histogram charts: the decoded summary file maps each
 thread id to its histogram (bucket text to sample count) and its min, max,
 avg and cycles figures. The histograms are flattened into
 (Thread, Latency, Count) rows, the rows are grouped by thread, and each
 thread's label reports the total number of samples in its buckets and the
 overflows, the cycles that fell in no bucket.
 */
module Histogram {
  import opened Wrappers
  import opened Lexer
  import opened Sums
  import opened Seqs

  /** The decoded record of one thread. JSON objects are kept as lists of
      key/value pairs in document order, the order `dict.items()` yields. */
  datatype ThreadData = ThreadData(
    histogram: seq<(string, int)>, min: int, max: int, avg: real, cycles: int)

  /** The keys of a decoded JSON object are distinct. */
  predicate DistinctKeys<V>(kvs: seq<(string, V)>) {
    forall i, j :: 0 <= i < j < |kvs| ==> kvs[i].0 != kvs[j].0
  }

  /** One row of the flattened histogram table. */
  datatype Row = Row(thread: string, latency: int, count: int)

  /** Why no summary can be produced: a bucket key that `int()` rejects, or
      an empty table, which has no `Thread` column to group by. */
  datatype HistError = BadBucket(thread: string, key: string) | NoRows

  /** The counts of a histogram, in document order. */
  function HistCounts(h: seq<(string, int)>): (cs: seq<int>)
    ensures |cs| == |h|
  {
    seq(|h|, k requires 0 <= k < |h| => h[k].1)
  }

  /** The Count column of some rows. */
  function Counts(rows: seq<Row>): (cs: seq<int>)
    ensures |cs| == |rows|
  {
    seq(|rows|, k requires 0 <= k < |rows| => rows[k].count)
  }

  /** No thread of the decoded file has a histogram entry. */
  predicate AllEmpty(threads: seq<(string, ThreadData)>) {
    forall j :: 0 <= j < |threads| ==> threads[j].1.histogram == []
  }

  /** `tid` is the key of a thread with at least one histogram entry. */
  predicate Owns(threads: seq<(string, ThreadData)>, tid: string) {
    exists j :: 0 <= j < |threads| && threads[j].0 == tid && threads[j].1.histogram != []
  }

  /** Every bucket key of a histogram is accepted by `int()`. */
  predicate BucketsConvert(h: seq<(string, int)>) {
    forall k :: 0 <= k < |h| ==> ParseInt(h[k].0).Some?
  }

  /** The rows of one thread's histogram, one per entry in document order,
      with the bucket key converted by `int()`; the first key that does not
      convert stops the conversion. */
  function FlattenThread(tid: string, h: seq<(string, int)>): (r: Result<seq<Row>, HistError>)
    ensures r.Success? <==> BucketsConvert(h)
    ensures r.Success? ==> |r.value| == |h|
    ensures r.Success? ==> forall k :: 0 <= k < |h| ==>
      r.value[k] == Row(tid, ParseInt(h[k].0).value, h[k].1)
    ensures r.Failure? ==> exists k :: 0 <= k < |h| && ParseInt(h[k].0) == None && r.error == BadBucket(tid, h[k].0)
  {
    if h == [] then Success([])
    else
      var later := h[1..];
      assert forall k :: 0 <= k < |later| ==> later[k] == h[k + 1];
      match ParseInt(h[0].0)
      case None => Failure(BadBucket(tid, h[0].0))
      case Some(bucket) =>
        match FlattenThread(tid, later)
        case Failure(e) => Failure(e)
        case Success(rest) =>
          var rows := [Row(tid, bucket, h[0].1)] + rest;
          assert forall k :: 0 <= k < |rest| ==> rows[k + 1] == rest[k];
          Success(rows)
  }

  /** The flattened table of all threads, thread by thread in document order. */
  function Flatten(threads: seq<(string, ThreadData)>): (r: Result<seq<Row>, HistError>)
    ensures r.Success? <==> forall j :: 0 <= j < |threads| ==> BucketsConvert(threads[j].1.histogram)
  {
    if threads == [] then Success([])
    else
      assert forall j :: 1 <= j < |threads| ==> threads[j] == threads[1..][j - 1];
      match FlattenThread(threads[0].0, threads[0].1.histogram)
      case Failure(e) => Failure(e)
      case Success(head) =>
        match Flatten(threads[1..])
        case Failure(e) => Failure(e)
        case Success(tail) => Success(head + tail)
  }

  /** The condition selecting the rows of one thread. */
  function OfThread(tid: string): Row -> bool
  {
    (x: Row) => x.thread == tid
  }

  /** The rows of one thread, in table order: one group of `groupby('Thread')`. */
  function RowsOfThread(rows: seq<Row>, tid: string): (g: seq<Row>)
    ensures forall x :: x in g <==> x in rows && x.thread == tid
  {
    Filter(OfThread(tid), rows)
  }

  /** The flattened table starts with the rows of the first thread. */
  lemma FlattenCons(threads: seq<(string, ThreadData)>)
    requires threads != [] && Flatten(threads).Success?
    ensures FlattenThread(threads[0].0, threads[0].1.histogram).Success?
    ensures Flatten(threads[1..]).Success?
    ensures Flatten(threads).value
         == FlattenThread(threads[0].0, threads[0].1.histogram).value + Flatten(threads[1..]).value
  {
  }

  /** A thread id that is not a key of the decoded file has no rows. */
  lemma {:induction false} FlattenGroupAbsent(threads: seq<(string, ThreadData)>, tid: string)
    requires Flatten(threads).Success?
    requires forall j :: 0 <= j < |threads| ==> threads[j].0 != tid
    ensures RowsOfThread(Flatten(threads).value, tid) == []
  {
    if threads != [] {
      var rest := threads[1..];
      FlattenCons(threads);
      assert forall j :: 0 <= j < |rest| ==> rest[j] == threads[j + 1];
      FlattenGroupAbsent(rest, tid);
      var head := FlattenThread(threads[0].0, threads[0].1.histogram).value;
      FilterAppend(OfThread(tid), head, Flatten(rest).value);
      FilterUniform(OfThread(tid), head);
    }
  }

  /** The rows of one thread's histogram all carry that thread's id. */
  lemma FlattenThreadOwner(owner: string, h: seq<(string, int)>, tid: string)
    requires FlattenThread(owner, h).Success?
    ensures RowsOfThread(FlattenThread(owner, h).value, tid)
         == if owner == tid then FlattenThread(owner, h).value else []
  {
    var rows := FlattenThread(owner, h).value;
    assert forall k :: 0 <= k < |rows| ==> rows[k].thread == owner;
    if owner == tid {
      assert forall k :: 0 <= k < |rows| ==> OfThread(tid)(rows[k]);
    } else {
      assert forall k :: 0 <= k < |rows| ==> !OfThread(tid)(rows[k]);
    }
    FilterUniform(OfThread(tid), rows);
  }

  /** Within the flattened table, the group of a thread is exactly the
      flattening of that thread's own histogram. */
  lemma {:induction false} FlattenGroup(threads: seq<(string, ThreadData)>, j: nat)
    requires DistinctKeys(threads)
    requires Flatten(threads).Success?
    requires j < |threads|
    ensures RowsOfThread(Flatten(threads).value, threads[j].0)
         == FlattenThread(threads[j].0, threads[j].1.histogram).value
  {
    var tid := threads[j].0;
    var rest := threads[1..];
    FlattenCons(threads);
    var head := FlattenThread(threads[0].0, threads[0].1.histogram).value;
    FilterAppend(OfThread(tid), head, Flatten(rest).value);
    FlattenThreadOwner(threads[0].0, threads[0].1.histogram, tid);
    if j == 0 {
      assert forall i :: 0 <= i < |rest| ==> rest[i].0 == threads[i + 1].0 != tid;
      FlattenGroupAbsent(rest, tid);
      assert head + [] == head;
    } else {
      assert threads[0].0 != tid;
      assert DistinctKeys(rest) by {
        assert forall i :: 0 <= i < |rest| ==> rest[i] == threads[i + 1];
      }
      assert rest[j - 1] == threads[j];
      FlattenGroup(rest, j - 1);
      assert [] + RowsOfThread(Flatten(rest).value, tid) == RowsOfThread(Flatten(rest).value, tid);
    }
  }

  /** The thread ids that occur in some rows: the keys of the grouping. */
  function ThreadsOf(rows: seq<Row>): set<string>
  {
    set x | x in rows :: x.thread
  }

  /** Every row of the flattened table belongs to a thread that is a key of
      the decoded file. */
  lemma {:induction false} FlattenThreadsAreKeys(threads: seq<(string, ThreadData)>)
    requires Flatten(threads).Success?
    ensures forall x :: x in Flatten(threads).value ==> Owns(threads, x.thread)
  {
    if threads != [] {
      var rest := threads[1..];
      assert forall j :: 1 <= j < |threads| ==> threads[j] == rest[j - 1];
      FlattenThreadsAreKeys(rest);
      var head := FlattenThread(threads[0].0, threads[0].1.histogram).value;
      forall x | x in Flatten(threads).value
        ensures exists j :: 0 <= j < |threads| && threads[j].0 == x.thread && threads[j].1.histogram != []
      {
        if x in head {
          var k :| 0 <= k < |head| && head[k] == x;
        } else {
          assert x in Flatten(rest).value;
          var j :| 0 <= j < |rest| && rest[j].0 == x.thread && rest[j].1.histogram != [];
          assert threads[j + 1] == rest[j];
        }
      }
    }
  }

  /** The record stored under a key of the decoded file. */
  function Lookup(threads: seq<(string, ThreadData)>, tid: string): (d: ThreadData)
    requires exists j :: 0 <= j < |threads| && threads[j].0 == tid
    ensures DistinctKeys(threads) ==>
      forall j :: 0 <= j < |threads| && threads[j].0 == tid ==> d == threads[j].1
  {
    if threads[0].0 == tid then threads[0].1
    else
      var j :| 0 <= j < |threads| && threads[j].0 == tid;
      assert threads[1..][j - 1] == threads[j];
      Lookup(threads[1..], tid)
  }

  /** The figures printed on a thread's chart and in its legend label. */
  datatype Summary = Summary(total: int, min: int, avg: real, max: int, overflows: int)

  /** The summary of every thread that has at least one histogram row:
      `total_samples = sum(group['Count'])` and
      `overflows = cycles - total_samples`, with min, avg and max copied from
      the thread's record. */
  function Summarize(threads: seq<(string, ThreadData)>): (r: Result<map<string, Summary>, HistError>)
    ensures r == Failure(NoRows) <==> Flatten(threads).Success? && AllEmpty(threads)
    ensures r.Failure? && r.error.BadBucket? <==> Flatten(threads).Failure?
    ensures r.Success? ==> forall tid :: tid in r.value ==>
      Owns(threads, tid) && r.value[tid].total + r.value[tid].overflows == Lookup(threads, tid).cycles
  {
    match Flatten(threads)
    case Failure(e) =>
      FlattenFailsOnBucket(threads);
      Failure(e)
    case Success(rows) =>
      FlattenThreadsAreKeys(threads);
      FlattenEmpty(threads);
      if rows == [] then Failure(NoRows)
      else
        Success(map tid | tid in ThreadsOf(rows) ::
          var d := Lookup(threads, tid);
          var total := Sum(Counts(RowsOfThread(rows, tid)));
          Summary(total, d.min, d.avg, d.max, d.cycles - total))
  }

  /** Flattening only ever fails on a bucket key. */
  lemma {:induction false} FlattenFailsOnBucket(threads: seq<(string, ThreadData)>)
    requires Flatten(threads).Failure?
    ensures Flatten(threads).error.BadBucket?
  {
    if threads != [] && FlattenThread(threads[0].0, threads[0].1.histogram).Success? {
      FlattenFailsOnBucket(threads[1..]);
    }
  }

  /** The flattened table is empty exactly when every histogram is. */
  lemma {:induction false} FlattenEmpty(threads: seq<(string, ThreadData)>)
    requires Flatten(threads).Success?
    ensures Flatten(threads).value == [] <==> AllEmpty(threads)
  {
    if threads != [] {
      var rest := threads[1..];
      assert forall j :: 1 <= j < |threads| ==> threads[j] == rest[j - 1];
      FlattenEmpty(rest);
    }
  }

  /** The summarised threads are exactly those with a non-empty histogram: a
      thread without buckets gets no group, hence no chart and no label. */
  lemma SummarizeKeys(threads: seq<(string, ThreadData)>, j: nat)
    requires DistinctKeys(threads)
    requires Summarize(threads).Success?
    requires j < |threads|
    ensures threads[j].0 in Summarize(threads).value <==> threads[j].1.histogram != []
  {
    var (tid, d) := threads[j];
    var rows := Flatten(threads).value;
    FlattenGroup(threads, j);
    if d.histogram != [] {
      var own := FlattenThread(tid, d.histogram).value;
      assert own[0] in RowsOfThread(rows, tid);
    }
  }

  /** A thread's total is the sum of the counts in its own histogram, its
      overflows are its cycles less that total, and min, avg and max are
      copied from its record. */
  lemma SummarizeTotals(threads: seq<(string, ThreadData)>, j: nat)
    requires DistinctKeys(threads)
    requires Summarize(threads).Success?
    requires j < |threads| && threads[j].1.histogram != []
    ensures threads[j].0 in Summarize(threads).value
    ensures var (tid, d) := threads[j];
      var s := Summarize(threads).value[tid];
      && s.total == Sum(HistCounts(d.histogram))
      && s.overflows == d.cycles - Sum(HistCounts(d.histogram))
      && s.min == d.min && s.avg == d.avg && s.max == d.max
  {
    var (tid, d) := threads[j];
    var rows := Flatten(threads).value;
    SummarizeKeys(threads, j);
    FlattenGroup(threads, j);
    var own := FlattenThread(tid, d.histogram).value;
    assert RowsOfThread(rows, tid) == own;
    assert Counts(own) == HistCounts(d.histogram);
  }

  /** The bucket keys of the worked example convert to their numbers. */
  lemma ExampleBuckets()
    ensures ParseInt("10") == Some(10) && ParseInt("20") == Some(20)
  {
    ParseIntShowInt(10, [], []);
    assert [] + ShowInt(10) + [] == "10";
    ParseIntShowInt(20, [], []);
    assert [] + ShowInt(20) + [] == "20";
  }

  /** A one-thread file whose two bucket keys convert flattens to one row per
      bucket. */
  lemma TwoBucketFlatten(tid: string, d: ThreadData, b0: int, b1: int)
    requires |d.histogram| == 2
    requires ParseInt(d.histogram[0].0) == Some(b0) && ParseInt(d.histogram[1].0) == Some(b1)
    ensures Flatten([(tid, d)]) == Success([Row(tid, b0, d.histogram[0].1), Row(tid, b1, d.histogram[1].1)])
  {
    var rows := [Row(tid, b0, d.histogram[0].1), Row(tid, b1, d.histogram[1].1)];
    var own := FlattenThread(tid, d.histogram);
    assert BucketsConvert(d.histogram) by {
      forall k | 0 <= k < |d.histogram|
        ensures ParseInt(d.histogram[k].0).Some?
      {
        if k != 0 {
          assert k == 1;
        }
      }
    }
    assert own.value[0] == rows[0] && own.value[1] == rows[1];
    assert own.value == rows;
    assert [(tid, d)][1..] == [];
    assert rows + [] == rows;
  }

  /** A one-thread file with two convertible buckets: the thread's total is
      the sum of the two counts. */
  lemma TwoBucketSummary(tid: string, d: ThreadData, b0: int, b1: int)
    requires |d.histogram| == 2
    requires ParseInt(d.histogram[0].0) == Some(b0) && ParseInt(d.histogram[1].0) == Some(b1)
    ensures Summarize([(tid, d)]).Success?
    ensures tid in Summarize([(tid, d)]).value
    ensures Summarize([(tid, d)]).value[tid].total == d.histogram[0].1 + d.histogram[1].1
    ensures Summarize([(tid, d)]).value[tid].overflows == d.cycles - d.histogram[0].1 - d.histogram[1].1
  {
    var counts := HistCounts(d.histogram);
    TwoBucketFlatten(tid, d, b0, b1);
    SummarizeTotals([(tid, d)], 0);
    assert counts == [d.histogram[0].1, d.histogram[1].1];
    assert Sum(counts) == counts[0] + counts[1] by {
      assert counts[1..] == [counts[1]];
      SumSingleton(counts[1]);
    }
  }

  /** A worked example: buckets 10 and 20 hold 5 and 3 samples of 9 cycles,
      so the thread's total is 8 and one sample overflowed. */
  lemma SummarizeExample(d: ThreadData)
    requires d == ThreadData([("10", 5), ("20", 3)], 8, 22, 14.0, 9)
    ensures Summarize([("1", d)]).Success?
    ensures "1" in Summarize([("1", d)]).value
    ensures Summarize([("1", d)]).value["1"].total == 8
    ensures Summarize([("1", d)]).value["1"].overflows == 1
  {
    ExampleBuckets();
    TwoBucketSummary("1", d, 10, 20);
  }
}
