/**
  The CSV export (ExportMetricsCSVServlet.java). Deployments and rollbacks are
  scored as two cohorts, each against its own minimum and maximum; the index
  map holds the deployment entries first, then the rollback entries, and one
  CSV row is written per entry after a fixed header.

  The two scoring functions the servlet calls, `computeDeploymentIndex` and
  `computeRollbackIndex`, are not defined anywhere in the repository; they are
  parameters here, of the argument and result types of the calls.
*/
module ExportMetricsCsv {
  import opened MetricRecords
  import opened EfficiencyIndex
  import opened Statistics
  import opened LinkedMaps
  import MetricsParser

  /** `computeDeploymentIndex(time, memDelta, tMin, tMax, mMin, mMax)`. */
  type DeploymentIndexFn = (real, real, Double, Double, Double, Double) -> Double

  /** `computeRollbackIndex(rollbackTime, min, max)`. */
  type RollbackIndexFn = (real, Double, Double) -> Double

  /** `filterRecords` seen on snapshots: the pairs whose rollback flag is `isRollback`, in order. */
  function Cohort(ss: seq<(MetricRecord, Rec)>, isRollback: bool): seq<(MetricRecord, Rec)> {
    if ss == [] then []
    else
      (if ss[0].1.IsRollback() == isRollback then [ss[0]] else [])
      + Cohort(ss[1..], isRollback)
  }

  lemma {:induction false} SnapshotsAppend(a: seq<MetricRecord>, b: seq<MetricRecord>)
    ensures Snapshots(a + b) == Snapshots(a) + Snapshots(b)
  {
    if a != [] {
      SnapshotsAppend(a[1..], b);
      assert (a + b)[1..] == a[1..] + b;
    } else {
      assert a + b == b;
    }
  }

  /**
    `filterRecords`: the records whose rollback flag is `isRollback`, in list
    order. Filtering the objects and then taking snapshots is taking snapshots
    and then filtering, so the cohort lemmas below describe its result.
  */
  function FilterRecords(records: seq<MetricRecord>, isRollback: bool): (rs: seq<MetricRecord>)
    reads records
    ensures Snapshots(rs) == Cohort(Snapshots(records), isRollback)
    decreases |records|
  {
    if records == [] then []
    else
      var head := if records[0].IsRollback() == isRollback then [records[0]] else [];
      var rest := FilterRecords(records[1..], isRollback);
      SnapshotsAppend(head, rest);
      assert Snapshots(records)[1..] == Snapshots(records[1..]);
      head + rest
  }

  /** Only records of the requested kind are kept. */
  lemma {:induction false} CohortSound(ss: seq<(MetricRecord, Rec)>, isRollback: bool)
    ensures forall p :: p in Cohort(ss, isRollback) ==> p in ss && p.1.IsRollback() == isRollback
  {
    if ss != [] {
      CohortSound(ss[1..], isRollback);
    }
  }

  /** Nothing of the requested kind is dropped. */
  lemma {:induction false} CohortComplete(ss: seq<(MetricRecord, Rec)>, isRollback: bool)
    ensures forall p :: p in ss && p.1.IsRollback() == isRollback ==> p in Cohort(ss, isRollback)
  {
    if ss != [] {
      CohortComplete(ss[1..], isRollback);
      assert ss == [ss[0]] + ss[1..];
    }
  }

  /** Filtering keeps list order: it distributes over concatenation. */
  lemma {:induction false} CohortAppend(a: seq<(MetricRecord, Rec)>, b: seq<(MetricRecord, Rec)>, isRollback: bool)
    ensures Cohort(a + b, isRollback) == Cohort(a, isRollback) + Cohort(b, isRollback)
  {
    if a != [] {
      CohortAppend(a[1..], b, isRollback);
      assert (a + b)[1..] == a[1..] + b;
    } else {
      assert a + b == b;
    }
  }

  /** The two cohorts split the records: each is in exactly one of them, once per occurrence. */
  lemma {:induction false} CohortPartition(ss: seq<(MetricRecord, Rec)>)
    ensures multiset(Cohort(ss, false)) + multiset(Cohort(ss, true)) == multiset(ss)
    ensures |Cohort(ss, false)| + |Cohort(ss, true)| == |ss|
  {
    if ss != [] {
      CohortPartition(ss[1..]);
      assert ss == [ss[0]] + ss[1..];
    }
  }

  lemma {:induction false} CohortDistinct(ss: seq<(MetricRecord, Rec)>, isRollback: bool)
    requires DistinctObjects(ss)
    ensures DistinctObjects(Cohort(ss, isRollback))
  {
    if ss != [] {
      var rest := Cohort(ss[1..], isRollback);
      assert DistinctObjects(ss[1..]);
      CohortDistinct(ss[1..], isRollback);
      CohortSound(ss[1..], isRollback);
      if ss[0].1.IsRollback() == isRollback {
        forall j | 0 <= j < |rest|
          ensures ss[0].0 != rest[j].0
        {
          assert rest[j] in ss[1..];
          var k :| 0 <= k < |ss[1..]| && ss[1..][k] == rest[j];
          assert ss[k + 1] == rest[j];
        }
      }
    }
  }

  lemma DistinctObjectsAppend(a: seq<(MetricRecord, Rec)>, b: seq<(MetricRecord, Rec)>)
    requires DistinctObjects(a) && DistinctObjects(b)
    requires forall p, q :: p in a && q in b ==> p.0 != q.0
    ensures DistinctObjects(a + b)
  {
    forall i, j | 0 <= i < j < |a + b|
      ensures (a + b)[i].0 != (a + b)[j].0
    {
      if j < |a| {
        assert (a + b)[i] == a[i] && (a + b)[j] == a[j];
      } else if i < |a| {
        assert (a + b)[i] == a[i] && a[i] in a;
        assert (a + b)[j] == b[j - |a|] && b[j - |a|] in b;
      } else {
        assert (a + b)[i] == b[i - |a|] && (a + b)[j] == b[j - |a|];
      }
    }
  }

  /** Distinct records give two cohorts that together are distinct. */
  lemma CohortsDistinct(ss: seq<(MetricRecord, Rec)>)
    requires DistinctObjects(ss)
    ensures DistinctObjects(Cohort(ss, false) + Cohort(ss, true))
  {
    CohortDistinct(ss, false);
    CohortDistinct(ss, true);
    CohortSound(ss, false);
    CohortSound(ss, true);
    forall p, q | p in Cohort(ss, false) && q in Cohort(ss, true)
      ensures p.0 != q.0
    {
      if p.0 == q.0 {
        SameObjectSamePair(ss, p, q);
      }
    }
    DistinctObjectsAppend(Cohort(ss, false), Cohort(ss, true));
  }

  /** The time a record is measured by: its rollback time for a rollback, else its pipeline time. */
  function TimeOf(r: Rec): real {
    if r.IsRollback() then r.rollbackTime else r.totalPipelineTime
  }

  /** The value `getStats` summarises: "time" selects the time, any other kind the memory growth. */
  function Metric(r: Rec, kind: string): real {
    if kind == "time" then TimeOf(r) else r.MemoryDelta()
  }

  function Metrics(ss: seq<(MetricRecord, Rec)>, kind: string): (xs: seq<real>)
    ensures |xs| == |ss|
    ensures forall k :: 0 <= k < |ss| ==> xs[k] == Metric(ss[k].1, kind)
  {
    seq(|ss|, k requires 0 <= k < |ss| => Metric(ss[k].1, kind))
  }

  /** The summary of one metric over snapshots. */
  function Stats(ss: seq<(MetricRecord, Rec)>, kind: string): (s: Summary)
    ensures s.Empty? <==> ss == []
  {
    SummaryOf(Metrics(ss, kind))
  }

  /**
    `getStats`: the summary of one metric over a cohort. It is empty only for
    an empty cohort; otherwise its ends are the metric of some member and
    enclose the metric of every member.
  */
  function GetStats(records: seq<MetricRecord>, kind: string): (s: Summary)
    reads records
    ensures s.Empty? <==> records == []
    ensures records != [] ==>
      (forall k :: 0 <= k < |records| ==> s.lo <= Metric(records[k].Value(), kind) <= s.hi)
      && (exists k :: 0 <= k < |records| && Metric(records[k].Value(), kind) == s.lo)
      && (exists k :: 0 <= k < |records| && Metric(records[k].Value(), kind) == s.hi)
  {
    SnapshotValues(records);
    if records != [] then StatsBoundsAll(Snapshots(records), kind); Stats(Snapshots(records), kind)
    else Stats(Snapshots(records), kind)
  }

  /** The summary of a non-empty cohort, stated for every member at once. */
  lemma StatsBoundsAll(ss: seq<(MetricRecord, Rec)>, kind: string)
    requires ss != []
    ensures var s := Stats(ss, kind);
      s.Range?
      && (forall k :: 0 <= k < |ss| ==> s.lo <= Metric(ss[k].1, kind) <= s.hi)
      && (exists k :: 0 <= k < |ss| && Metric(ss[k].1, kind) == s.lo)
      && (exists k :: 0 <= k < |ss| && Metric(ss[k].1, kind) == s.hi)
  {
    var xs := Metrics(ss, kind);
    SummaryBounds(xs);
    forall k | 0 <= k < |ss|
      ensures Stats(ss, kind).lo <= Metric(ss[k].1, kind) <= Stats(ss, kind).hi
    {
      assert xs[k] in xs;
    }
  }

  /** Every member lies within the summary's range, whose ends are values of members. */
  lemma StatsBounds(ss: seq<(MetricRecord, Rec)>, kind: string, k: nat)
    requires k < |ss|
    ensures var s := Stats(ss, kind);
      s.Range? && s.lo <= Metric(ss[k].1, kind) <= s.hi
      && (exists a :: a in ss && Metric(a.1, kind) == s.lo)
      && (exists b :: b in ss && Metric(b.1, kind) == s.hi)
  {
    var xs := Metrics(ss, kind);
    SummaryBounds(xs);
    var s := SummaryOf(xs);
    assert xs[k] in xs;
    var i :| 0 <= i < |xs| && xs[i] == s.lo;
    assert ss[i] in ss;
    var j :| 0 <= j < |xs| && xs[j] == s.hi;
    assert ss[j] in ss;
  }

  /** The map entry `addDeploymentIndices` puts for one record. */
  function DeploymentEntry(p: (MetricRecord, Rec), timeStats: Summary, memStats: Summary,
                           deploymentIndex: DeploymentIndexFn): Entry<MetricRecord, Double>
  {
    Entry(p.0, deploymentIndex(p.1.totalPipelineTime, p.1.MemoryDelta(),
                               timeStats.GetMin(), timeStats.GetMax(), memStats.GetMin(), memStats.GetMax()))
  }

  function DeploymentEntries(ss: seq<(MetricRecord, Rec)>, timeStats: Summary, memStats: Summary,
                             deploymentIndex: DeploymentIndexFn): (es: seq<Entry<MetricRecord, Double>>)
    ensures |es| == |ss|
    ensures forall k :: 0 <= k < |ss| ==> es[k] == DeploymentEntry(ss[k], timeStats, memStats, deploymentIndex)
  {
    seq(|ss|, k requires 0 <= k < |ss| => DeploymentEntry(ss[k], timeStats, memStats, deploymentIndex))
  }

  /** The map entry `addRollbackIndices` puts for one record. */
  function RollbackEntry(p: (MetricRecord, Rec), stats: Summary, rollbackIndex: RollbackIndexFn)
    : Entry<MetricRecord, Double>
  {
    Entry(p.0, rollbackIndex(p.1.rollbackTime, stats.GetMin(), stats.GetMax()))
  }

  function RollbackEntries(ss: seq<(MetricRecord, Rec)>, stats: Summary, rollbackIndex: RollbackIndexFn)
    : (es: seq<Entry<MetricRecord, Double>>)
    ensures |es| == |ss|
    ensures forall k :: 0 <= k < |ss| ==> es[k] == RollbackEntry(ss[k], stats, rollbackIndex)
  {
    seq(|ss|, k requires 0 <= k < |ss| => RollbackEntry(ss[k], stats, rollbackIndex))
  }

  /** `addDeploymentIndices`: one `put` per record, in list order. */
  method AddDeploymentIndices(indices: LinkedMap<MetricRecord, Double>, records: seq<MetricRecord>,
                              timeStats: Summary, memStats: Summary, deploymentIndex: DeploymentIndexFn)
    requires indices.Valid()
    modifies indices
    ensures indices.Valid()
    ensures indices.entries
      == PutAll(old(indices.entries), DeploymentEntries(Snapshots(records), timeStats, memStats, deploymentIndex))
  {
    ghost var ss := Snapshots(records);
    ghost var es := DeploymentEntries(ss, timeStats, memStats, deploymentIndex);
    var i := 0;
    while i < |records|
      invariant i <= |records|
      invariant unchanged(records)
      invariant indices.Valid()
      invariant indices.entries == PutAll(old(indices.entries), es[..i])
    {
      var rec := records[i];
      SnapshotsUnchanged(records);
      SnapshotsAt(records, i);
      var memDelta := rec.GetMemoryAfterUsed() - rec.GetMemoryBeforeUsed();
      var idx := deploymentIndex(rec.GetTotalPipelineTime(), memDelta,
                                 timeStats.GetMin(), timeStats.GetMax(), memStats.GetMin(), memStats.GetMax());
      assert es[i] == Entry(rec, idx);
      indices.Put(rec, idx);
      PutAllPrefix(old(indices.entries), es, i);
      i := i + 1;
    }
    assert es[..i] == es;
    SnapshotsUnchanged(records);
  }

  /** `addRollbackIndices`: one `put` per record, in list order. */
  method AddRollbackIndices(indices: LinkedMap<MetricRecord, Double>, records: seq<MetricRecord>,
                            stats: Summary, rollbackIndex: RollbackIndexFn)
    requires indices.Valid()
    modifies indices
    ensures indices.Valid()
    ensures indices.entries == PutAll(old(indices.entries), RollbackEntries(Snapshots(records), stats, rollbackIndex))
  {
    ghost var ss := Snapshots(records);
    ghost var es := RollbackEntries(ss, stats, rollbackIndex);
    var i := 0;
    while i < |records|
      invariant i <= |records|
      invariant unchanged(records)
      invariant indices.Valid()
      invariant indices.entries == PutAll(old(indices.entries), es[..i])
    {
      var rec := records[i];
      SnapshotsUnchanged(records);
      SnapshotsAt(records, i);
      var idx := rollbackIndex(rec.GetRollbackTime(), stats.GetMin(), stats.GetMax());
      assert es[i] == Entry(rec, idx);
      indices.Put(rec, idx);
      PutAllPrefix(old(indices.entries), es, i);
      i := i + 1;
    }
    assert es[..i] == es;
    SnapshotsUnchanged(records);
  }

  /** The entries of both cohorts, deployments first, each scored against its own cohort's summary. */
  function ScoredEntries(ss: seq<(MetricRecord, Rec)>, deploymentIndex: DeploymentIndexFn, rollbackIndex: RollbackIndexFn)
    : seq<Entry<MetricRecord, Double>>
  {
    var deployments := Cohort(ss, false);
    var rollbacks := Cohort(ss, true);
    DeploymentEntries(deployments, Stats(deployments, "time"), Stats(deployments, "memory"), deploymentIndex)
      + RollbackEntries(rollbacks, Stats(rollbacks, "time"), rollbackIndex)
  }

  /** Lines 30-33 of `doGet`: a fresh map, the deployment puts, then the rollback puts. */
  method FillIndices(deployments: seq<MetricRecord>, rollbacks: seq<MetricRecord>,
                     deployTimeStats: Summary, deployMemStats: Summary, rollbackStats: Summary,
                     deploymentIndex: DeploymentIndexFn, rollbackIndex: RollbackIndexFn)
    returns (indices: LinkedMap<MetricRecord, Double>)
    ensures fresh(indices) && indices.Valid()
    ensures indices.entries
      == PutAll([], DeploymentEntries(Snapshots(deployments), deployTimeStats, deployMemStats, deploymentIndex)
                    + RollbackEntries(Snapshots(rollbacks), rollbackStats, rollbackIndex))
  {
    ghost var deployEntries := DeploymentEntries(Snapshots(deployments), deployTimeStats, deployMemStats, deploymentIndex);
    ghost var rollbackEntries := RollbackEntries(Snapshots(rollbacks), rollbackStats, rollbackIndex);
    indices := new LinkedMap();
    AddDeploymentIndices(indices, deployments, deployTimeStats, deployMemStats, deploymentIndex);
    SnapshotsUnchanged(deployments);
    AddRollbackIndices(indices, rollbacks, rollbackStats, rollbackIndex);
    SnapshotsUnchanged(rollbacks);
    SnapshotsUnchanged(deployments);
    PutAllAppend([], deployEntries, rollbackEntries);
  }

  /** Lines 25-35 of `doGet`: split, summarise, and fill a fresh index map. */
  method ComputeIndices(records: seq<MetricRecord>, deploymentIndex: DeploymentIndexFn, rollbackIndex: RollbackIndexFn)
    returns (indices: LinkedMap<MetricRecord, Double>)
    ensures fresh(indices) && indices.Valid()
    ensures indices.entries == PutAll([], ScoredEntries(Snapshots(records), deploymentIndex, rollbackIndex))
  {
    ghost var ss := Snapshots(records);
    var deployments := FilterRecords(records, false);
    var rollbacks := FilterRecords(records, true);
    var deployTimeStats := GetStats(deployments, "time");
    var deployMemStats := GetStats(deployments, "memory");
    var rollbackStats := GetStats(rollbacks, "time");
    assert deployTimeStats == Stats(Cohort(ss, false), "time");
    assert deployMemStats == Stats(Cohort(ss, false), "memory");
    assert rollbackStats == Stats(Cohort(ss, true), "time");
    indices := FillIndices(deployments, rollbacks, deployTimeStats, deployMemStats, rollbackStats,
                           deploymentIndex, rollbackIndex);
    SnapshotsUnchanged(deployments);
    SnapshotsUnchanged(rollbacks);
    SnapshotsUnchanged(records);
  }

  /**
    The k-th entry is the k-th deployment, scored with the finite minimum and
    maximum over the deployments alone, which enclose its own time and memory.
  */
  lemma DeploymentScoredWithinCohort(ss: seq<(MetricRecord, Rec)>, deploymentIndex: DeploymentIndexFn,
                                     rollbackIndex: RollbackIndexFn, k: nat)
    requires k < |Cohort(ss, false)|
    ensures var d := Cohort(ss, false);
      var ts, ms := Stats(d, "time"), Stats(d, "memory");
      && d[k] in ss && !d[k].1.IsRollback()
      && ts.Range? && ts.lo <= d[k].1.totalPipelineTime <= ts.hi
      && ms.Range? && ms.lo <= d[k].1.MemoryDelta() <= ms.hi
      && ScoredEntries(ss, deploymentIndex, rollbackIndex)[k]
         == Entry(d[k].0, deploymentIndex(d[k].1.totalPipelineTime, d[k].1.MemoryDelta(),
                                          Finite(ts.lo), Finite(ts.hi), Finite(ms.lo), Finite(ms.hi)))
  {
    var d := Cohort(ss, false);
    assert d[k] in d;
    CohortSound(ss, false);
    StatsBounds(d, "time", k);
    StatsBounds(d, "memory", k);
  }

  /**
    The rollbacks follow the deployments; each is scored by its rollback time
    with the finite minimum and maximum over the rollbacks alone, which
    enclose it.
  */
  lemma RollbackScoredWithinCohort(ss: seq<(MetricRecord, Rec)>, deploymentIndex: DeploymentIndexFn,
                                   rollbackIndex: RollbackIndexFn, k: nat)
    requires k < |Cohort(ss, true)|
    ensures var r := Cohort(ss, true);
      var s := Stats(r, "time");
      && r[k] in ss && r[k].1.IsRollback()
      && s.Range? && s.lo <= r[k].1.rollbackTime <= s.hi
      && ScoredEntries(ss, deploymentIndex, rollbackIndex)[|Cohort(ss, false)| + k]
         == Entry(r[k].0, rollbackIndex(r[k].1.rollbackTime, Finite(s.lo), Finite(s.hi)))
  {
    var r := Cohort(ss, true);
    assert r[k] in r;
    CohortSound(ss, true);
    StatsBounds(r, "time", k);
  }

  /** The keys are the deployments' objects, then the rollbacks' objects. */
  lemma KeysOfScoredEntries(ss: seq<(MetricRecord, Rec)>, deploymentIndex: DeploymentIndexFn, rollbackIndex: RollbackIndexFn)
    ensures Keys(ScoredEntries(ss, deploymentIndex, rollbackIndex)) == Objects(Cohort(ss, false) + Cohort(ss, true))
  {
    var d: seq<(MetricRecord, Rec)>, r: seq<(MetricRecord, Rec)> := Cohort(ss, false), Cohort(ss, true);
    var es := ScoredEntries(ss, deploymentIndex, rollbackIndex);
    forall k | 0 <= k < |es|
      ensures Keys(es)[k] == Objects(d + r)[k]
    {
      if k < |d| {
        assert (d + r)[k] == d[k];
      } else {
        assert (d + r)[k] == r[k - |d|];
      }
    }
  }

  /**
    For records with distinct objects (what the parser returns) every record
    gets exactly one entry: no `put` overwrites, so the map is the scored
    entries themselves, one per record.
  */
  lemma ExportOneEntryPerRecord(ss: seq<(MetricRecord, Rec)>, deploymentIndex: DeploymentIndexFn, rollbackIndex: RollbackIndexFn)
    requires DistinctObjects(ss)
    ensures var es := ScoredEntries(ss, deploymentIndex, rollbackIndex);
      PutAll([], es) == es
      && |es| == |ss|
      && UniqueKeys(es)
      && forall p :: p in ss ==> p.0 in Keys(es)
  {
    var es := ScoredEntries(ss, deploymentIndex, rollbackIndex);
    var d: seq<(MetricRecord, Rec)>, r: seq<(MetricRecord, Rec)> := Cohort(ss, false), Cohort(ss, true);
    KeysOfScoredEntries(ss, deploymentIndex, rollbackIndex);
    CohortsDistinct(ss);
    CohortPartition(ss);
    assert UniqueKeys(es) by {
      forall i, j | 0 <= i < j < |es|
        ensures es[i].key != es[j].key
      {
        assert es[i].key == (d + r)[i].0 && es[j].key == (d + r)[j].0;
      }
    }
    PutAllFreshKeys([], es);
    CohortComplete(ss, false);
    CohortComplete(ss, true);
    forall p | p in ss
      ensures p.0 in Keys(es)
    {
      assert p in d + r;
      var k :| 0 <= k < |d + r| && (d + r)[k] == p;
      assert Keys(es)[k] == p.0;
    }
  }

  /** One CSV line, before number formatting: tool, time, memory growth, index. */
  datatype Row = Row(tool: string, time: real, memory: real, index: Double)

  const Header: string := "tool,time,memory,index\n"

  function RowOf(e: Entry<MetricRecord, Double>): Row
    reads e.key
  {
    var r := e.key.Value();
    Row(r.toolName, TimeOf(r), r.MemoryDelta(), e.value)
  }

  function Rows(es: seq<Entry<MetricRecord, Double>>): (rows: seq<Row>)
    reads Keys(es)
    ensures |rows| == |es|
    ensures forall k :: 0 <= k < |es| ==> rows[k] == RowOf(es[k])
  {
    seq(|es|, k requires 0 <= k < |es| reads Keys(es) => RowOf(es[k]))
  }

  /** Lines 41-51 of `doGet`: the header, then one row per map entry in iteration order. */
  method WriteCsv(indices: LinkedMap<MetricRecord, Double>) returns (header: string, rows: seq<Row>)
    ensures header == Header
    ensures rows == Rows(indices.entries)
  {
    header := Header;
    rows := [];
    var entries := indices.entries;
    var i := 0;
    while i < |entries|
      invariant i <= |entries|
      invariant rows == Rows(entries[..i])
    {
      var rec := entries[i].key;
      var time := if rec.IsRollback() then rec.GetRollbackTime() else rec.GetTotalPipelineTime();
      var memoryDelta := rec.GetMemoryAfterUsed() - rec.GetMemoryBeforeUsed();
      var index := entries[i].value;
      rows := rows + [Row(rec.GetToolName(), time, memoryDelta, index)];
      assert entries[..i + 1] == entries[..i] + [entries[i]];
      i := i + 1;
    }
    assert entries[..i] == entries;
  }

  /** `doGet`: parse the logs, score both cohorts, write one row per record after the header. */
  method DoGet(files: seq<MetricsParser.LogFile>, deploymentIndex: DeploymentIndexFn, rollbackIndex: RollbackIndexFn)
    returns (records: seq<MetricRecord>, header: string, rows: seq<Row>)
    ensures Values(records) == MetricsParser.ParsedLogs(files)
    ensures header == Header
    ensures rows == Rows(ScoredEntries(Snapshots(records), deploymentIndex, rollbackIndex))
    ensures |rows| == |records|
  {
    records := MetricsParser.ParseAllLogs(files);
    label parsed:
    var indices := ComputeIndices(records, deploymentIndex, rollbackIndex);
    label computed:
    DistinctSnapshots(records);
    ExportOneEntryPerRecord(Snapshots(records), deploymentIndex, rollbackIndex);
    header, rows := WriteCsv(indices);
    SnapshotsUnchanged@computed(records);
    ValuesUnchanged@parsed(records);
  }
}
