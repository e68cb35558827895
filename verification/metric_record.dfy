/**
  One pipeline run's extracted facts. `MetricRecord` is the mutable record
  the parser fills through its setters; `Rec` is the value of all its fields
  at one moment, which the specification functions work on.
*/
module MetricRecords {
  import opened Strings

  /** The only way a rollback run is encoded: a tool name with this suffix. */
  const RollbackSuffix: string := "-rollback"

  datatype Rec = Rec(
    toolName: string,
    totalPipelineTime: real,
    deploymentTime: real,
    leadTime: real,
    rollbackTime: real,
    memoryBeforeUsed: real,
    memoryAfterUsed: real,
    duration: real,
    cost: real)
  {
    predicate IsRollback() {
      EndsWith(toolName, RollbackSuffix)
    }

    /** Memory growth between the two samples, as both servlets compute it. */
    function MemoryDelta(): real {
      memoryAfterUsed - memoryBeforeUsed
    }
  }

  /** A record as the constructor leaves it: the tool name and Java's default 0 everywhere else. */
  function Blank(toolName: string): Rec {
    Rec(toolName, 0.0, 0.0, 0.0, 0.0, 0.0, 0.0, 0.0, 0.0)
  }

  class MetricRecord {
    var toolName: string
    var totalPipelineTime: real
    var deploymentTime: real
    var leadTime: real
    var rollbackTime: real
    var memoryBeforeUsed: real
    var memoryAfterUsed: real
    var duration: real
    var cost: real

    function Value(): Rec
      reads this
    {
      Rec(toolName, totalPipelineTime, deploymentTime, leadTime, rollbackTime,
          memoryBeforeUsed, memoryAfterUsed, duration, cost)
    }

    /** Stores the tool name; every numeric field keeps Java's default 0 (the -1 "not applicable" is never set). */
    constructor (toolName: string)
      ensures Value() == Blank(toolName)
      ensures rollbackTime == 0.0
    {
      this.toolName := toolName;
      totalPipelineTime, deploymentTime, leadTime, rollbackTime := 0.0, 0.0, 0.0, 0.0;
      memoryBeforeUsed, memoryAfterUsed, duration, cost := 0.0, 0.0, 0.0, 0.0;
    }

    /** A rollback run is one whose tool name is some stem followed by the rollback suffix. */
    predicate IsRollback()
      reads this
      ensures IsRollback() <==> exists stem :: toolName == stem + RollbackSuffix
    {
      EndsWithIff(toolName, RollbackSuffix);
      Value().IsRollback()
    }

    function GetDuration(): real reads this { duration }
    function GetCost(): real reads this { cost }
    function GetTotalPipelineTime(): real reads this { totalPipelineTime }
    function GetDeploymentTime(): real reads this { deploymentTime }
    function GetLeadTime(): real reads this { leadTime }
    function GetMemoryBeforeUsed(): real reads this { memoryBeforeUsed }
    function GetMemoryAfterUsed(): real reads this { memoryAfterUsed }
    function GetRollbackTime(): real reads this { rollbackTime }
    function GetToolName(): string reads this { toolName }

    method SetDuration(duration: real)
      modifies this
      ensures Value() == old(Value()).(duration := duration)
      ensures GetDuration() == duration
    {
      this.duration := duration;
    }

    method SetCost(cost: real)
      modifies this
      ensures Value() == old(Value()).(cost := cost)
      ensures GetCost() == cost
    {
      this.cost := cost;
    }

    method SetTotalPipelineTime(totalPipelineTime: real)
      modifies this
      ensures Value() == old(Value()).(totalPipelineTime := totalPipelineTime)
      ensures GetTotalPipelineTime() == totalPipelineTime
    {
      this.totalPipelineTime := totalPipelineTime;
    }

    method SetDeploymentTime(deploymentTime: real)
      modifies this
      ensures Value() == old(Value()).(deploymentTime := deploymentTime)
      ensures GetDeploymentTime() == deploymentTime
    {
      this.deploymentTime := deploymentTime;
    }

    method SetLeadTime(leadTime: real)
      modifies this
      ensures Value() == old(Value()).(leadTime := leadTime)
      ensures GetLeadTime() == leadTime
    {
      this.leadTime := leadTime;
    }

    method SetMemoryBeforeUsed(memoryBeforeUsed: real)
      modifies this
      ensures Value() == old(Value()).(memoryBeforeUsed := memoryBeforeUsed)
      ensures GetMemoryBeforeUsed() == memoryBeforeUsed
    {
      this.memoryBeforeUsed := memoryBeforeUsed;
    }

    method SetMemoryAfterUsed(memoryAfterUsed: real)
      modifies this
      ensures Value() == old(Value()).(memoryAfterUsed := memoryAfterUsed)
      ensures GetMemoryAfterUsed() == memoryAfterUsed
    {
      this.memoryAfterUsed := memoryAfterUsed;
    }

    method SetRollbackTime(rollbackTime: real)
      modifies this
      ensures Value() == old(Value()).(rollbackTime := rollbackTime)
      ensures GetRollbackTime() == rollbackTime
    {
      this.rollbackTime := rollbackTime;
    }

    method SetToolName(toolName: string)
      modifies this
      ensures Value() == old(Value()).(toolName := toolName)
      ensures GetToolName() == toolName
    {
      this.toolName := toolName;
    }
  }

  /** The field values of a sequence of records, in order. */
  function Values(records: seq<MetricRecord>): (vs: seq<Rec>)
    reads records
    ensures |vs| == |records|
    ensures forall k :: 0 <= k < |records| ==> vs[k] == records[k].Value()
  {
    seq(|records|, k requires 0 <= k < |records| reads records => records[k].Value())
  }

  /** Each record object paired with the values of its fields, in order. */
  function Snapshots(records: seq<MetricRecord>): (ss: seq<(MetricRecord, Rec)>)
    reads records
    ensures |ss| == |records|
    decreases |records|
  {
    if records == [] then [] else [(records[0], records[0].Value())] + Snapshots(records[1..])
  }

  /** The value half of each snapshot is the record's current value. */
  lemma SnapshotValues(records: seq<MetricRecord>)
    ensures forall k :: 0 <= k < |records| ==> Snapshots(records)[k].1 == records[k].Value()
  {
    forall k | 0 <= k < |records|
      ensures Snapshots(records)[k].1 == records[k].Value()
    {
      SnapshotsAt(records, k);
    }
  }

  lemma {:induction false} SnapshotsAt(records: seq<MetricRecord>, k: nat)
    requires k < |records|
    ensures Snapshots(records)[k] == (records[k], records[k].Value())
  {
    if k > 0 {
      SnapshotsAt(records[1..], k - 1);
    }
  }

  /** Records whose fields did not change have the same snapshots as before. */
  twostate lemma {:induction false} SnapshotsUnchanged(records: seq<MetricRecord>)
    requires unchanged(records)
    ensures Snapshots(records) == old(Snapshots(records))
  {
    if records != [] {
      SnapshotsUnchanged(records[1..]);
    }
  }

  /** The objects of a sequence of snapshots. */
  function Objects(ss: seq<(MetricRecord, Rec)>): (rs: seq<MetricRecord>)
    ensures |rs| == |ss|
    ensures forall k :: 0 <= k < |ss| ==> rs[k] == ss[k].0
  {
    seq(|ss|, k requires 0 <= k < |ss| => ss[k].0)
  }

  /** Taking snapshots keeps the objects themselves, in order. */
  lemma ObjectsOfSnapshots(records: seq<MetricRecord>)
    ensures Objects(Snapshots(records)) == records
  {
    forall k | 0 <= k < |records|
      ensures Objects(Snapshots(records))[k] == records[k]
    {
      SnapshotsAt(records, k);
    }
  }

  lemma ValuesAppend(a: seq<MetricRecord>, b: seq<MetricRecord>)
    ensures Values(a + b) == Values(a) + Values(b)
  {
    assert |Values(a + b)| == |Values(a) + Values(b)|;
  }

  twostate lemma ValuesUnchanged(records: seq<MetricRecord>)
    requires unchanged(records)
    ensures Values(records) == old(Values(records))
  {
  }

  predicate Distinct(records: seq<MetricRecord>) {
    forall i, j :: 0 <= i < j < |records| ==> records[i] != records[j]
  }

  lemma DistinctAppend(a: seq<MetricRecord>, b: seq<MetricRecord>)
    requires Distinct(a) && |b| <= 1
    requires forall r :: r in b ==> r !in a
    ensures Distinct(a + b)
  {
    forall i, j | 0 <= i < j < |a + b|
      ensures (a + b)[i] != (a + b)[j]
    {
      if j >= |a| {
        assert (a + b)[j] == b[0] && (a + b)[i] == a[i];
        assert b[0] in b && a[i] in a;
      }
    }
  }

  /** No object occurs twice. */
  predicate DistinctObjects(ss: seq<(MetricRecord, Rec)>) {
    forall i, j :: 0 <= i < j < |ss| ==> ss[i].0 != ss[j].0
  }

  lemma DistinctSnapshots(records: seq<MetricRecord>)
    requires Distinct(records)
    ensures DistinctObjects(Snapshots(records))
  {
    ObjectsOfSnapshots(records);
    var ss := Snapshots(records);
    forall i, j | 0 <= i < j < |ss|
      ensures ss[i].0 != ss[j].0
    {
      assert Objects(ss)[i] == records[i] && Objects(ss)[j] == records[j];
    }
  }

  /** With distinct objects, a pair of the sequence is determined by its object. */
  lemma SameObjectSamePair(ss: seq<(MetricRecord, Rec)>, p: (MetricRecord, Rec), q: (MetricRecord, Rec))
    requires DistinctObjects(ss) && p in ss && q in ss && p.0 == q.0
    ensures p == q
  {
    var i :| 0 <= i < |ss| && ss[i] == p;
    var j :| 0 <= j < |ss| && ss[j] == q;
    assert i == j;
  }
}
