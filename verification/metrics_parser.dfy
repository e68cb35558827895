/**
  The log parser (MetricsParser.java:127-245): the tool name comes from the
  file name; four ordered passes then fill one MetricRecord from the file
  text. Each pass is specified by a function on record values and carried out
  by a method that updates the record through its setters, as the source does.
*/
module MetricsParser {
  import opened Optional
  import opened Strings
  import opened MetricRecords
  import opened Patterns

  // ---------------------------------------------------------------------------
  // Tool name

  const ToolNames: set<string> := {
    "jenkins", "jenkins-rollback", "gha", "gha-rollback",
    "codebuild", "codebuild-rollback", "unknown"
  }

  /** The tool named in a file name: the first of jenkins, gha, codebuild it contains, ignoring case. */
  function ExtractToolName(fileName: string): (r: string)
    ensures r in ToolNames
  {
    var fn := Lower(fileName);
    if Contains(fn, "jenkins") then (if Contains(fn, "rollback") then "jenkins-rollback" else "jenkins")
    else if Contains(fn, "gha") then (if Contains(fn, "rollback") then "gha-rollback" else "gha")
    else if Contains(fn, "codebuild") then (if Contains(fn, "rollback") then "codebuild-rollback" else "codebuild")
    else "unknown"
  }

  /** `t` occurs somewhere in the lower-cased name. */
  ghost predicate Mentions(fileName: string, t: string) {
    exists i :: OccursAt(Lower(fileName), t, i)
  }

  /**
    The classification stated by occurrences rather than by the search: the
    suffix `-rollback` is present exactly when the name mentions "rollback"
    and some known tool.
  */
  lemma ToolNameRollback(fileName: string)
    ensures EndsWith(ExtractToolName(fileName), RollbackSuffix)
        <==> Mentions(fileName, "rollback")
             && (Mentions(fileName, "jenkins") || Mentions(fileName, "gha") || Mentions(fileName, "codebuild"))
  {
    var fn := Lower(fileName);
    ContainsIffOccurs(fn, "jenkins");
    ContainsIffOccurs(fn, "gha");
    ContainsIffOccurs(fn, "codebuild");
    ContainsIffOccurs(fn, "rollback");
    RollbackToolNames(ExtractToolName(fileName));
  }

  /** Of the seven names, exactly the three built with "-rollback" end with it. */
  lemma RollbackToolNames(t: string)
    requires t in ToolNames
    ensures EndsWith(t, RollbackSuffix) <==> t in {"jenkins-rollback", "gha-rollback", "codebuild-rollback"}
  {
    assert !EndsWith("jenkins", RollbackSuffix) && !EndsWith("gha", RollbackSuffix);
    assert !EndsWith("codebuild", RollbackSuffix) && !EndsWith("unknown", RollbackSuffix);
  }

  /** The tool part is the first known tool, in priority order jenkins, gha, codebuild, that the name mentions. */
  lemma ToolNamePriority(fileName: string)
    ensures Mentions(fileName, "jenkins") ==> ExtractToolName(fileName) in {"jenkins", "jenkins-rollback"}
    ensures !Mentions(fileName, "jenkins") && Mentions(fileName, "gha")
        ==> ExtractToolName(fileName) in {"gha", "gha-rollback"}
    ensures !Mentions(fileName, "jenkins") && !Mentions(fileName, "gha") && Mentions(fileName, "codebuild")
        ==> ExtractToolName(fileName) in {"codebuild", "codebuild-rollback"}
    ensures ExtractToolName(fileName) == "unknown"
        <==> !Mentions(fileName, "jenkins") && !Mentions(fileName, "gha") && !Mentions(fileName, "codebuild")
  {
    var fn := Lower(fileName);
    ContainsIffOccurs(fn, "jenkins");
    ContainsIffOccurs(fn, "gha");
    ContainsIffOccurs(fn, "codebuild");
  }

  /** Case does not matter: the lower-cased name is classified the same way. */
  lemma ToolNameIgnoresCase(fileName: string)
    ensures ExtractToolName(Lower(fileName)) == ExtractToolName(fileName)
  {
    LowerIdempotent(fileName);
  }

  /** The last component of a path (`Path.getFileName`), '/' being the separator. */
  function FileName(path: string): (r: string)
    ensures '/' !in r
    ensures EndsWith(path, r)
    ensures r == path || path[|path| - |r| - 1] == '/'
  {
    if path == [] || path[|path| - 1] == '/' then []
    else FileName(path[..|path| - 1]) + [path[|path| - 1]]
  }

  /** The directories a log file sits in play no part in its tool name. */
  lemma {:induction false} FileNameOfNested(dir: string, name: string)
    requires '/' !in name
    ensures FileName(dir + "/" + name) == name
  {
    if name != [] {
      var p := dir + "/" + name;
      assert p[..|p| - 1] == dir + "/" + name[..|name| - 1];
      FileNameOfNested(dir, name[..|name| - 1]);
    }
  }

  lemma ToolIgnoresDirectories(dir: string, name: string)
    requires '/' !in name
    ensures ExtractToolName(FileName(dir + "/" + name)) == ExtractToolName(name)
  {
    FileNameOfNested(dir, name);
  }

  // ---------------------------------------------------------------------------
  // Pass 1: key/value table rows

  /** The record fields the table rows can set. */
  datatype TimeField = TotalPipelineTime | DeploymentTime | LeadTime | RollbackTime

  /** The labels the table pass knows, synonyms included, and the field each one sets. */
  const Labels: map<string, TimeField> := map[
    "total pipeline time" := TotalPipelineTime,
    "deployment time" := DeploymentTime,
    "deployment duration" := DeploymentTime,
    "lead time for changes" := LeadTime,
    "rollback time" := RollbackTime,
    "rollback deployment time" := RollbackTime]

  /** The `switch` of parseTimeMetrics: the field a trimmed, lower-cased label sets, if any. */
  function LabelField(key: string): (f: Option<TimeField>)
    ensures f.Some? <==> key in Labels
    ensures f.Some? ==> f.value == Labels[key]
  {
    if key == "total pipeline time" then Some(TotalPipelineTime)
    else if key == "deployment time" || key == "deployment duration" then Some(DeploymentTime)
    else if key == "lead time for changes" then Some(LeadTime)
    else if key == "rollback time" || key == "rollback deployment time" then Some(RollbackTime)
    else None
  }

  /** The field a table row sets, if its label is one the parser knows. */
  function RowField(e: Event): Option<TimeField> {
    if e.KvRow? then LabelField(Lower(Trim(e.name))) else None
  }

  function Get(r: Rec, f: TimeField): real {
    match f
    case TotalPipelineTime => r.totalPipelineTime
    case DeploymentTime => r.deploymentTime
    case LeadTime => r.leadTime
    case RollbackTime => r.rollbackTime
  }

  function Set(r: Rec, f: TimeField, v: real): Rec {
    match f
    case TotalPipelineTime => r.(totalPipelineTime := v)
    case DeploymentTime => r.(deploymentTime := v)
    case LeadTime => r.(leadTime := v)
    case RollbackTime => r.(rollbackTime := v)
  }

  /**
    The row folds below take the row-to-field classification as a parameter
    `fieldOf`; the parser's own is RowField. Their lemmas hold for any
    classification.
  */
  function ApplyRow(fieldOf: Event -> Option<TimeField>, r: Rec, e: Event): Rec {
    if e.KvRow? && fieldOf(e).Some? then Set(r, fieldOf(e).value, e.value) else r
  }

  /** parseTimeMetrics: every row in document order, each setting its field. */
  function TimeMetrics(fieldOf: Event -> Option<TimeField>, r: Rec, rows: seq<Event>): Rec
    decreases |rows|
  {
    if rows == [] then r else TimeMetrics(fieldOf, ApplyRow(fieldOf, r, rows[0]), rows[1..])
  }

  /** The value of the last row that sets f, looking from the end of the document. */
  function LastRowValue(fieldOf: Event -> Option<TimeField>, rows: seq<Event>, f: TimeField): Option<real> {
    if rows == [] then None
    else if rows[|rows| - 1].KvRow? && fieldOf(rows[|rows| - 1]) == Some(f) then Some(rows[|rows| - 1].value)
    else LastRowValue(fieldOf, rows[..|rows| - 1], f)
  }

  lemma {:induction false} TimeMetricsSnoc(fieldOf: Event -> Option<TimeField>, r: Rec, rows: seq<Event>, e: Event)
    ensures TimeMetrics(fieldOf, r, rows + [e]) == ApplyRow(fieldOf, TimeMetrics(fieldOf, r, rows), e)
    decreases |rows|
  {
    if rows != [] {
      assert (rows + [e])[1..] == rows[1..] + [e];
      TimeMetricsSnoc(fieldOf, ApplyRow(fieldOf, r, rows[0]), rows[1..], e);
    }
  }

  /**
    Last row wins: each time field ends up with the value of the last row
    whose label maps to it, or keeps its value when there is none; rows with
    other labels change nothing, and no other field is touched.
  */
  lemma {:induction false} TimeMetricsLastWins(fieldOf: Event -> Option<TimeField>, r: Rec, rows: seq<Event>, f: TimeField)
    ensures Get(TimeMetrics(fieldOf, r, rows), f)
         == (match LastRowValue(fieldOf, rows, f) case Some(v) => v case None => Get(r, f))
    ensures var t := TimeMetrics(fieldOf, r, rows);
      t.toolName == r.toolName && t.memoryBeforeUsed == r.memoryBeforeUsed
      && t.memoryAfterUsed == r.memoryAfterUsed && t.duration == r.duration && t.cost == r.cost
    decreases |rows|
  {
    if rows != [] {
      var init, last := rows[..|rows| - 1], rows[|rows| - 1];
      assert rows == init + [last];
      TimeMetricsSnoc(fieldOf, r, init, last);
      TimeMetricsLastWins(fieldOf, r, init, f);
    }
  }

  lemma TimeMetricsCons(fieldOf: Event -> Option<TimeField>, r: Rec, e: Event, rows: seq<Event>)
    ensures TimeMetrics(fieldOf, r, [e] + rows) == TimeMetrics(fieldOf, ApplyRow(fieldOf, r, e), rows)
  {
    assert ([e] + rows)[1..] == rows;
  }

  /** One step of a `find()` loop: the events from `from` are the found match's event, then those after it. */
  lemma FindStep(p: Pattern, s: string, from: nat)
    requires from <= |s|
    ensures Find(p, s, from).None? ==> EventsFrom(p, s, from) == []
    ensures Find(p, s, from).Some? ==> var h := Find(p, s, from).value;
      from < h.end <= |s| && EventsFrom(p, s, from) == [h.event] + EventsFrom(p, s, h.end)
  {
  }

  /** The body of the parseTimeMetrics loop: the `switch` on the trimmed, lower-cased label. */
  method SetByLabel(rec: MetricRecord, key: string, v: real)
    modifies rec
    ensures rec.Value() == match LabelField(key) case Some(f) => Set(old(rec.Value()), f, v) case None => old(rec.Value())
  {
    if key == "total pipeline time" {
      rec.SetTotalPipelineTime(v);
    } else if key == "deployment time" || key == "deployment duration" {
      rec.SetDeploymentTime(v);
    } else if key == "lead time for changes" {
      rec.SetLeadTime(v);
    } else if key == "rollback time" || key == "rollback deployment time" {
      rec.SetRollbackTime(v);
    }
  }

  method ParseTimeMetrics(content: string, rec: MetricRecord)
    modifies rec
    ensures rec.Value() == TimeMetrics(RowField, old(rec.Value()), Events(KvSec, content))
  {
    var pos := 0;
    while true
      invariant pos <= |content|
      invariant TimeMetrics(RowField, rec.Value(), EventsFrom(KvSec, content, pos))
             == TimeMetrics(RowField, old(rec.Value()), Events(KvSec, content))
      decreases |content| - pos
    {
      var found := Find(KvSec, content, pos);
      FindStep(KvSec, content, pos);
      if found.None? {
        break;
      }
      var hit := found.value;
      ghost var before := rec.Value();
      SetByLabel(rec, Lower(Trim(hit.event.name)), hit.event.value);
      assert rec.Value() == ApplyRow(RowField, before, hit.event);
      TimeMetricsCons(RowField, before, hit.event, EventsFrom(KvSec, content, hit.end));
      pos := hit.end;
    }
  }

  // ---------------------------------------------------------------------------
  // Pass 2: "Rollback completed in N seconds."

  /** The first sentence, if any, overrides the rollback time. */
  function RollbackTimePass(r: Rec, content: string): Rec {
    match Find(JenkinsRollbackSentence, content, 0)
    case Some(h) => r.(rollbackTime := h.event.seconds)
    case None => r
  }

  method ParseRollbackTime(content: string, rec: MetricRecord)
    modifies rec
    ensures rec.Value() == RollbackTimePass(old(rec.Value()), content)
  {
    var found := Find(JenkinsRollbackSentence, content, 0);
    if found.Some? {
      rec.SetRollbackTime(found.value.event.seconds);
    }
  }

  // ---------------------------------------------------------------------------
  // Pass 3: "| Cost (USD) | v |"

  /** The first cost row, if any, sets the cost. */
  function CostPass(r: Rec, content: string): Rec {
    match Find(CostPattern, content, 0)
    case Some(h) => r.(cost := h.event.usd)
    case None => r
  }

  method ParseCost(content: string, rec: MetricRecord)
    modifies rec
    ensures rec.Value() == CostPass(old(rec.Value()), content)
  {
    var found := Find(CostPattern, content, 0);
    if found.Some? {
      rec.SetCost(found.value.event.usd);
    }
  }

  // ---------------------------------------------------------------------------
  // Pass 4: memory lines

  /** Memory in MiB: a `Gi` figure is scaled by 1024, `Mi` and `MB` figures are taken as they are. */
  function Normalise(amount: real, unit: MemUnit): (mib: real)
    ensures unit == Gi ==> mib / 1024.0 == amount
    ensures unit != Gi ==> mib == amount
    ensures amount >= 0.0 ==> amount <= mib
  {
    if unit == Gi then amount * 1024.0 else amount
  }

  /** The normalised memory figures of the matches, in document order. */
  function Readings(es: seq<Event>): seq<real> {
    if es == [] then []
    else (if es[0].MemMatch? then [Normalise(es[0].amount, es[0].unit)] else []) + Readings(es[1..])
  }

  /** Rollback records keep their memory; otherwise the first two readings become before and after. */
  function MemoryPass(r: Rec, content: string): Rec {
    if r.IsRollback() then r
    else
      var mem := Readings(Events(MemUsed, content));
      if |mem| >= 2 then r.(memoryBeforeUsed := mem[0], memoryAfterUsed := mem[1]) else r
  }

  /** One step of the memory loop: a match contributes its normalised figure, ahead of those after it. */
  lemma ReadingsStep(content: string, pos: nat)
    requires pos <= |content|
    ensures Find(MemUsed, content, pos).None? ==> Readings(EventsFrom(MemUsed, content, pos)) == []
    ensures Find(MemUsed, content, pos).Some? ==> var h := Find(MemUsed, content, pos).value;
      && pos < h.end <= |content| && h.event.MemMatch?
      && Readings(EventsFrom(MemUsed, content, pos))
         == [Normalise(h.event.amount, h.event.unit)] + Readings(EventsFrom(MemUsed, content, h.end))
  {
    FindStep(MemUsed, content, pos);
    if Find(MemUsed, content, pos).Some? {
      var h := Find(MemUsed, content, pos).value;
      var rest := EventsFrom(MemUsed, content, h.end);
      assert ([h.event] + rest)[1..] == rest;
    }
  }

  /** The `while (m.find())` loop of parseMemory: every memory match, normalised, in document order. */
  method CollectMemory(content: string) returns (mem: seq<real>)
    ensures mem == Readings(Events(MemUsed, content))
  {
    mem := [];
    var pos := 0;
    while true
      invariant pos <= |content|
      invariant mem + Readings(EventsFrom(MemUsed, content, pos)) == Readings(Events(MemUsed, content))
      decreases |content| - pos
    {
      var found := Find(MemUsed, content, pos);
      ReadingsStep(content, pos);
      if found.None? {
        break;
      }
      var hit := found.value;
      // Both alternatives add their figure; only a `Gi` figure of the `free -h` alternative is scaled.
      mem := mem + [Normalise(hit.event.amount, hit.event.unit)];
      pos := hit.end;
    }
  }

  method ParseMemory(content: string, rec: MetricRecord)
    modifies rec
    ensures rec.Value() == MemoryPass(old(rec.Value()), content)
  {
    if rec.IsRollback() {
      return;
    }
    var mem := CollectMemory(content);
    if |mem| >= 2 {
      rec.SetMemoryBeforeUsed(mem[0]);
      rec.SetMemoryAfterUsed(mem[1]);
    }
  }

  // ---------------------------------------------------------------------------
  // One file

  /** The record parseLog returns for a file at `path` with text `content`. */
  function ParsedLog(path: string, content: string): Rec {
    var r0 := Blank(ExtractToolName(FileName(path)));
    MemoryPass(CostPass(RollbackTimePass(TimeMetrics(RowField, r0, Events(KvSec, content)), content), content), content)
  }

  method ParseLog(path: string, content: string) returns (rec: MetricRecord)
    ensures fresh(rec)
    ensures rec.Value() == ParsedLog(path, content)
  {
    var fileName := FileName(path);
    rec := new MetricRecord(ExtractToolName(fileName));
    ParseTimeMetrics(content, rec);
    ParseRollbackTime(content, rec);
    ParseCost(content, rec);
    ParseMemory(content, rec);
  }

  function LastRowOr(content: string, f: TimeField, default: real): real {
    match LastRowValue(RowField, Events(KvSec, content), f)
    case Some(v) => v
    case None => default
  }

  /** The rollback, cost and memory passes leave the tool name, the three time fields and the duration alone. */
  lemma LaterPassesKeepTimes(r: Rec, content: string)
    ensures var r' := MemoryPass(CostPass(RollbackTimePass(r, content), content), content);
      && r'.toolName == r.toolName
      && r'.totalPipelineTime == r.totalPipelineTime
      && r'.deploymentTime == r.deploymentTime
      && r'.leadTime == r.leadTime
      && r'.duration == r.duration
  {
  }

  /**
    What the passes leave in the time fields: the tool name from the file
    name, each time field from the last table row that names it, and the
    duration never set.
  */
  lemma ParsedLogTimes(path: string, content: string)
    ensures var r := ParsedLog(path, content);
      && r.toolName == ExtractToolName(FileName(path))
      && r.totalPipelineTime == LastRowOr(content, TotalPipelineTime, 0.0)
      && r.deploymentTime == LastRowOr(content, DeploymentTime, 0.0)
      && r.leadTime == LastRowOr(content, LeadTime, 0.0)
      && r.duration == 0.0
  {
    var r0 := Blank(ExtractToolName(FileName(path)));
    var rows := Events(KvSec, content);
    var r1 := TimeMetrics(RowField, r0, rows);
    LaterPassesKeepTimes(r1, content);
    TimeMetricsLastWins(RowField, r0, rows, TotalPipelineTime);
    TimeMetricsLastWins(RowField, r0, rows, DeploymentTime);
    TimeMetricsLastWins(RowField, r0, rows, LeadTime);
  }

  /**
    The rollback time comes from the first rollback sentence when there is
    one, whatever the table said, and otherwise from the last rollback row;
    the cost from the first cost row.
  */
  lemma ParsedLogRollbackAndCost(path: string, content: string)
    ensures var r := ParsedLog(path, content);
      && r.rollbackTime == (match Find(JenkinsRollbackSentence, content, 0)
                            case Some(h) => h.event.seconds
                            case None => LastRowOr(content, RollbackTime, 0.0))
      && r.cost == (match Find(CostPattern, content, 0) case Some(h) => h.event.usd case None => 0.0)
  {
    var r0 := Blank(ExtractToolName(FileName(path)));
    TimeMetricsLastWins(RowField, r0, Events(KvSec, content), RollbackTime);
  }

  /** The memory fields hold the first two readings, unless the record is a rollback or there are fewer than two. */
  lemma ParsedLogMemory(path: string, content: string)
    ensures var r := ParsedLog(path, content);
      var mem := Readings(Events(MemUsed, content));
      if r.IsRollback() || |mem| < 2 then r.memoryBeforeUsed == 0.0 && r.memoryAfterUsed == 0.0
      else r.memoryBeforeUsed == mem[0] && r.memoryAfterUsed == mem[1]
  {
    var r0 := Blank(ExtractToolName(FileName(path)));
    TimeMetricsLastWins(RowField, r0, Events(KvSec, content), RollbackTime);
  }

  // ---------------------------------------------------------------------------
  // The directory scan

  /** One path of the directory walk and the outcome of reading it: None when reading threw an IOException. */
  datatype LogFile = LogFile(path: string, content: Option<string>)

  /** The walk's filter: the path ends in ".log", in any mix of case; only its last four characters matter. */
  predicate IsLogPath(path: string)
    ensures IsLogPath(path) <==> |path| >= 4 && Lower(path[|path| - 4..]) == ".log"
  {
    assert |path| >= 4 ==> Lower(path)[|path| - 4..] == Lower(path[|path| - 4..]);
    EndsWith(Lower(path), ".log")
  }

  /** The paths the scan parses, with their text: every readable `.log` path, in walk order. */
  function ReadableLogs(files: seq<LogFile>): seq<(string, string)> {
    if files == [] then []
    else
      var f := files[0];
      (if IsLogPath(f.path) && f.content.Some? then [(f.path, f.content.value)] else [])
      + ReadableLogs(files[1..])
  }

  /** `parse` applied to each (path, text) pair, in order. */
  function MapLogs(parse: (string, string) -> Rec, logs: seq<(string, string)>): (rs: seq<Rec>)
    ensures |rs| == |logs|
  {
    seq(|logs|, k requires 0 <= k < |logs| => parse(logs[k].0, logs[k].1))
  }

  lemma MapLogsAt(parse: (string, string) -> Rec, logs: seq<(string, string)>, k: nat)
    requires k < |logs|
    ensures MapLogs(parse, logs)[k] == parse(logs[k].0, logs[k].1)
  {
  }

  lemma MapLogsOne(parse: (string, string) -> Rec, path: string, content: string)
    ensures MapLogs(parse, [(path, content)]) == [parse(path, content)]
  {
  }

  lemma MapLogsAppend(parse: (string, string) -> Rec, a: seq<(string, string)>, b: seq<(string, string)>)
    ensures MapLogs(parse, a + b) == MapLogs(parse, a) + MapLogs(parse, b)
  {
  }

  /** The records parseAllLogs returns: the parse of each readable `.log` file, in walk order. */
  function ParsedLogs(files: seq<LogFile>): (rs: seq<Rec>)
    ensures |rs| == |ReadableLogs(files)|
  {
    MapLogs(ParsedLog, ReadableLogs(files))
  }

  lemma {:induction false} ReadableLogsAppend(a: seq<LogFile>, b: seq<LogFile>)
    ensures ReadableLogs(a + b) == ReadableLogs(a) + ReadableLogs(b)
    decreases |a|
  {
    if a == [] {
      assert a + b == b;
    } else {
      assert (a + b)[0] == a[0];
      assert (a + b)[1..] == a[1..] + b;
      ReadableLogsAppend(a[1..], b);
    }
  }

  /** A single path contributes itself exactly when it is a readable `.log` file. */
  lemma ReadableLogsOne(f: LogFile)
    ensures ReadableLogs([f]) == if IsLogPath(f.path) && f.content.Some? then [(f.path, f.content.value)] else []
  {
    assert [f][1..] == [];
  }

  /** The walk one path further: a readable `.log` file adds itself, any other path adds nothing. */
  lemma ReadableLogsSnoc(files: seq<LogFile>, i: nat)
    requires i < |files|
    ensures var f := files[i];
      ReadableLogs(files[..i + 1])
      == ReadableLogs(files[..i]) + (if IsLogPath(f.path) && f.content.Some? then [(f.path, f.content.value)] else [])
  {
    var f := files[i];
    assert files[..i + 1] == files[..i] + [f];
    ReadableLogsAppend(files[..i], [f]);
    assert [f][1..] == [];
  }

  /** The records of the walk one path further. */
  lemma ParsedLogsSnoc(files: seq<LogFile>, i: nat)
    requires i < |files|
    ensures var f := files[i];
      ParsedLogs(files[..i + 1])
      == ParsedLogs(files[..i]) + (if IsLogPath(f.path) && f.content.Some? then [ParsedLog(f.path, f.content.value)] else [])
  {
    var f := files[i];
    ReadableLogsSnoc(files, i);
    var tail := if IsLogPath(f.path) && f.content.Some? then [(f.path, f.content.value)] else [];
    MapLogsAppend(ParsedLog, ReadableLogs(files[..i]), tail);
    if tail != [] {
      MapLogsOne(ParsedLog, f.path, f.content.value);
    }
  }

  /** A path that is not a `.log` file, or whose read failed, is skipped and the others are still parsed. */
  lemma SkippedFileChangesNothing(before: seq<LogFile>, f: LogFile, after: seq<LogFile>)
    requires !IsLogPath(f.path) || f.content.None?
    ensures ParsedLogs(before + [f] + after) == ParsedLogs(before + after)
  {
    ReadableLogsAppend(before + [f], after);
    ReadableLogsAppend(before, [f]);
    ReadableLogsAppend(before, after);
    assert [f][1..] == [];
    assert ReadableLogs(before + [f] + after) == ReadableLogs(before + after);
  }

  /** When every path is a readable `.log` file, each yields its record, in order. */
  lemma {:induction false} ParsedLogsAllReadable(files: seq<LogFile>)
    requires forall k :: 0 <= k < |files| ==> IsLogPath(files[k].path) && files[k].content.Some?
    ensures ReadableLogs(files) == seq(|files|, k requires 0 <= k < |files| => (files[k].path, files[k].content.value))
  {
    if files != [] {
      var f, rest := files[0], files[1..];
      ParsedLogsAllReadable(rest);
      assert IsLogPath(f.path) && f.content.Some?;
      assert ReadableLogs(files) == [(f.path, f.content.value)] + ReadableLogs(rest);
    }
  }

  /** Parsing never sets the duration. */
  lemma ParsedLogsNoDuration(files: seq<LogFile>)
    ensures forall r :: r in ParsedLogs(files) ==> r.duration == 0.0
  {
    var logs := ReadableLogs(files);
    forall k | 0 <= k < |logs|
      ensures ParsedLogs(files)[k].duration == 0.0
    {
      MapLogsAt(ParsedLog, logs, k);
      ParsedLogTimes(logs[k].0, logs[k].1);
    }
  }

  /** The body of the walk for one path: a fresh record when it is a readable `.log` file, none otherwise. */
  method ParseEntry(f: LogFile) returns (found: seq<MetricRecord>)
    ensures Values(found) == ParsedLogs([f])
    ensures |found| <= 1
    ensures |found| == 1 ==> fresh(found[0])
  {
    ReadableLogsOne(f);
    found := [];
    if IsLogPath(f.path) && f.content.Some? {
      var rec := ParseLog(f.path, f.content.value);
      found := [rec];
      MapLogsOne(ParsedLog, f.path, f.content.value);
      assert Values(found) == [rec.Value()];
    }
  }

  method ParseAllLogs(files: seq<LogFile>) returns (records: seq<MetricRecord>)
    ensures Values(records) == ParsedLogs(files)
    ensures Distinct(records)
    ensures forall r :: r in records ==> fresh(r)
  {
    records := [];
    var i := 0;
    while i < |files|
      invariant i <= |files|
      invariant Values(records) == ParsedLogs(files[..i])
      invariant Distinct(records)
      invariant forall r :: r in records ==> fresh(r)
    {
      var found := ParseEntry(files[i]);
      assert files[..i + 1] == files[..i] + [files[i]];
      ReadableLogsAppend(files[..i], [files[i]]);
      MapLogsAppend(ParsedLog, ReadableLogs(files[..i]), ReadableLogs([files[i]]));
      ValuesAppend(records, found);
      DistinctAppend(records, found);
      records := records + found;
      i := i + 1;
    }
    assert files[..i] == files;
  }
}
