/**
  `MetricsDashboardServlet` (MetricsDashboardServlet.java:57-95): it parses
  the logs once in `init`, and on every GET scores each record against the minimum and
  maximum total pipeline time and memory delta over ALL records, deployments
  and rollbacks alike, into a `LinkedHashMap` in record order.
*/
module MetricsDashboard {
  import opened MetricRecords
  import opened EfficiencyIndex
  import opened Statistics
  import opened LinkedMaps
  import MetricsParser

  /** The total pipeline time of every snapshot, in order. */
  function TotalTimes(ss: seq<(MetricRecord, Rec)>): (xs: seq<real>)
    ensures |xs| == |ss|
    ensures forall k :: 0 <= k < |ss| ==> xs[k] == ss[k].1.totalPipelineTime
  {
    seq(|ss|, k requires 0 <= k < |ss| => ss[k].1.totalPipelineTime)
  }

  /** The memory delta (after minus before) of every snapshot, in order. */
  function MemoryDeltas(ss: seq<(MetricRecord, Rec)>): (xs: seq<real>)
    ensures |xs| == |ss|
    ensures forall k :: 0 <= k < |ss| ==> xs[k] == ss[k].1.MemoryDelta()
  {
    seq(|ss|, k requires 0 <= k < |ss| => ss[k].1.MemoryDelta())
  }

  /** The entry `doGet` puts for one record, given the two non-empty summaries. */
  function DashboardEntry(p: (MetricRecord, Rec), ts: Summary, ms: Summary): Entry<MetricRecord, Double>
    requires ts.Range? && ms.Range?
  {
    Entry(p.0, ComputeIndex(p.1.totalPipelineTime, ts.lo, ts.hi, p.1.MemoryDelta(), ms.lo, ms.hi))
  }

  /** The entries `doGet` puts, in record order. */
  function DashboardEntries(ss: seq<(MetricRecord, Rec)>): (es: seq<Entry<MetricRecord, Double>>)
    ensures |es| == |ss|
    ensures ss != [] ==> forall k :: 0 <= k < |ss| ==>
      es[k] == DashboardEntry(ss[k], SummaryOf(TotalTimes(ss)), SummaryOf(MemoryDeltas(ss)))
  {
    if ss == [] then []
    else
      var ts, ms := SummaryOf(TotalTimes(ss)), SummaryOf(MemoryDeltas(ss));
      seq(|ss|, k requires 0 <= k < |ss| => DashboardEntry(ss[k], ts, ms))
  }

  class MetricsDashboardServlet {
    var records: seq<MetricRecord>

    /** The records are the distinct objects `init` created: no record appears twice. */
    ghost predicate Valid()
      reads this
    {
      Distinct(records)
    }

    constructor ()
      ensures Valid() && records == []
    {
      records := [];
    }

    /** `init`: parse every log once and keep the records. */
    method Init(files: seq<MetricsParser.LogFile>)
      modifies this
      ensures Valid()
      ensures Values(records) == MetricsParser.ParsedLogs(files)
      ensures forall r :: r in records ==> fresh(r)
    {
      records := MetricsParser.ParseAllLogs(files);
    }

    /** `doGet`: the index map handed to the page, one `put` per record in order, none overwriting another. */
    method DoGet() returns (idxMap: LinkedMap<MetricRecord, Double>)
      requires Valid()
      ensures fresh(idxMap) && idxMap.Valid()
      ensures idxMap.entries == DashboardEntries(Snapshots(records))
      ensures Keys(idxMap.entries) == records
    {
      ghost var ss := Snapshots(records);
      var ts := SummaryOf(TotalTimes(Snapshots(records)));
      var ms := SummaryOf(MemoryDeltas(Snapshots(records)));
      ghost var es := DashboardEntries(ss);
      idxMap := new LinkedMap();
      SnapshotsUnchanged(records);
      var i := 0;
      while i < |records|
        invariant i <= |records|
        invariant unchanged(records)
        invariant idxMap.Valid()
        invariant idxMap.entries == PutAll([], es[..i])
      {
        var rec := records[i];
        SnapshotsUnchanged(records);
        SnapshotsAt(records, i);
        var memDelta := rec.GetMemoryAfterUsed() - rec.GetMemoryBeforeUsed();
        // The loop body runs only when there are records, so neither summary is empty.
        var idx := ComputeIndex(rec.GetTotalPipelineTime(), ts.lo, ts.hi, memDelta, ms.lo, ms.hi);
        assert ss[i] == (rec, rec.Value());
        assert rec == ss[i].0 && rec.GetTotalPipelineTime() == ss[i].1.totalPipelineTime;
        assert memDelta == ss[i].1.MemoryDelta();
        assert es[i] == Entry(rec, idx);
        idxMap.Put(rec, idx);
        PutAllPrefix([], es, i);
        i := i + 1;
      }
      assert es[..i] == es;
      SnapshotsUnchanged(records);
      DistinctSnapshots(records);
      DashboardOneEntryPerRecord(ss);
      ObjectsOfSnapshots(records);
    }
  }

  /** Distinct records give one entry each, in record order: no `put` overwrites another. */
  lemma DashboardOneEntryPerRecord(ss: seq<(MetricRecord, Rec)>)
    requires DistinctObjects(ss)
    ensures var es := DashboardEntries(ss);
      PutAll([], es) == es && Keys(es) == Objects(ss) && UniqueKeys(es)
  {
    var es := DashboardEntries(ss);
    assert Keys(es) == Objects(ss);
    forall i, j | 0 <= i < j < |es|
      ensures es[i].key != es[j].key
    {
      assert es[i].key == ss[i].0 && es[j].key == ss[j].0;
    }
    PutAllFreshKeys([], es);
  }

  /** With at least one record both summaries are ranges, and every record lies within both. */
  lemma DashboardBounds(ss: seq<(MetricRecord, Rec)>, k: nat)
    requires k < |ss|
    ensures var ts, ms := SummaryOf(TotalTimes(ss)), SummaryOf(MemoryDeltas(ss));
      ts.Range? && ms.Range?
      && ts.lo <= ss[k].1.totalPipelineTime <= ts.hi
      && ms.lo <= ss[k].1.MemoryDelta() <= ms.hi
  {
    SummaryBounds(TotalTimes(ss));
    SummaryBounds(MemoryDeltas(ss));
    assert TotalTimes(ss)[k] in TotalTimes(ss);
    assert MemoryDeltas(ss)[k] in MemoryDeltas(ss);
  }

  /**
    When time and memory both vary across the records, every index is a
    number in [0, 1]; otherwise no index is a number.
  */
  lemma DashboardIndexRange(ss: seq<(MetricRecord, Rec)>, k: nat)
    requires k < |ss|
    ensures var ts, ms := SummaryOf(TotalTimes(ss)), SummaryOf(MemoryDeltas(ss));
      var r := DashboardEntries(ss)[k].value;
      (r.Finite? <==> ts.lo < ts.hi && ms.lo < ms.hi)
      && (r.Finite? ==> 0.0 <= r.v <= 1.0)
  {
    DashboardBounds(ss, k);
    var ts, ms := SummaryOf(TotalTimes(ss)), SummaryOf(MemoryDeltas(ss));
    var p := ss[k];
    if ts.lo < ts.hi && ms.lo < ms.hi {
      IndexInUnitInterval(p.1.totalPipelineTime, ts.lo, ts.hi, p.1.MemoryDelta(), ms.lo, ms.hi);
    }
  }

  /** When every record took the same total time, every index is NaN (0/0 in the time term). */
  lemma DashboardFlatTimeIsNaN(ss: seq<(MetricRecord, Rec)>, k: nat)
    requires k < |ss|
    requires forall j :: 0 <= j < |ss| ==> ss[j].1.totalPipelineTime == ss[0].1.totalPipelineTime
    ensures DashboardEntries(ss)[k].value == NaN
  {
    DashboardBounds(ss, k);
    var ts := SummaryOf(TotalTimes(ss));
    SummaryBounds(TotalTimes(ss));
    assert ts.lo == ts.hi == ss[k].1.totalPipelineTime;
    var ms := SummaryOf(MemoryDeltas(ss));
    IndexNaNWhenFlat(ts.lo, ss[k].1.MemoryDelta(), ms.lo, ms.hi);
  }

  /** A record that is both the fastest and the leanest scores exactly 1. */
  lemma DashboardBestScoresOne(ss: seq<(MetricRecord, Rec)>, k: nat)
    requires k < |ss|
    requires var ts, ms := SummaryOf(TotalTimes(ss)), SummaryOf(MemoryDeltas(ss));
      ts.Range? && ms.Range? && ts.lo < ts.hi && ms.lo < ms.hi
      && ss[k].1.totalPipelineTime == ts.lo && ss[k].1.MemoryDelta() == ms.lo
    ensures DashboardEntries(ss)[k].value == Finite(1.0)
  {
    var ts, ms := SummaryOf(TotalTimes(ss)), SummaryOf(MemoryDeltas(ss));
    IndexOfBest(ts.lo, ts.hi, ms.lo, ms.hi);
  }

  /** A record that is both the slowest and the heaviest scores exactly 0. */
  lemma DashboardWorstScoresZero(ss: seq<(MetricRecord, Rec)>, k: nat)
    requires k < |ss|
    requires var ts, ms := SummaryOf(TotalTimes(ss)), SummaryOf(MemoryDeltas(ss));
      ts.Range? && ms.Range? && ts.lo < ts.hi && ms.lo < ms.hi
      && ss[k].1.totalPipelineTime == ts.hi && ss[k].1.MemoryDelta() == ms.hi
    ensures DashboardEntries(ss)[k].value == Finite(0.0)
  {
    var ts, ms := SummaryOf(TotalTimes(ss)), SummaryOf(MemoryDeltas(ss));
    IndexOfWorst(ts.lo, ts.hi, ms.lo, ms.hi);
  }

  /** A record no slower and no heavier than another, and strictly better in one, ranks strictly higher. */
  lemma DashboardRanksDominating(ss: seq<(MetricRecord, Rec)>, a: nat, b: nat)
    requires a < |ss| && b < |ss|
    requires var ts, ms := SummaryOf(TotalTimes(ss)), SummaryOf(MemoryDeltas(ss));
      ts.Range? && ms.Range? && ts.lo < ts.hi && ms.lo < ms.hi
    requires ss[a].1.totalPipelineTime <= ss[b].1.totalPipelineTime
    requires ss[a].1.MemoryDelta() <= ss[b].1.MemoryDelta()
    requires ss[a].1.totalPipelineTime < ss[b].1.totalPipelineTime || ss[a].1.MemoryDelta() < ss[b].1.MemoryDelta()
    ensures var es := DashboardEntries(ss);
      es[a].value.Finite? && es[b].value.Finite? && es[b].value.v < es[a].value.v
  {
    var ts, ms := SummaryOf(TotalTimes(ss)), SummaryOf(MemoryDeltas(ss));
    DashboardIndexRange(ss, a);
    DashboardIndexRange(ss, b);
    IndexStrictlyDecreasing(ss[a].1.totalPipelineTime, ss[b].1.totalPipelineTime, ts.lo, ts.hi,
                            ss[a].1.MemoryDelta(), ss[b].1.MemoryDelta(), ms.lo, ms.hi);
  }
}
