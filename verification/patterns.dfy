/**
  Hand-built recognisers for the four regular expressions of the log parser
  (MetricsParser.java:140-153), with the semantics of Java's `Matcher.find`:
  a search tries each start position from left to right, returns the first
  match, and the next search resumes where that match ended.

  Each pattern is written out as the deterministic procedure its backtracking
  comes down to. Greedy runs of `\s`, `\d` and `\S` that are followed by
  something their own class excludes can only be taken whole, so they are
  taken whole; the one real search is the lazy label group of KV_SEC, which
  is spelled out with its backtracking order and specified declaratively.
*/
module Patterns {
  import opened Optional
  import opened Strings

  datatype Pattern = KvSec | JenkinsRollbackSentence | MemUsed | CostPattern

  /** The unit suffix of a memory match: `Gi`/`Mi` from a `Mem:` line, `MB` from a `used memory` line. */
  datatype MemUnit = Gi | Mi | MB

  /** What one match of a pattern reports. */
  datatype Event =
    | KvRow(name: string, value: real)
    | RollbackSentence(seconds: real)
    | CostRow(usd: real)
    | MemMatch(amount: real, unit: MemUnit)

  /** A match: its event and the span [start, end) of the text it consumed. */
  datatype Hit = Hit(event: Event, start: nat, end: nat)

  predicate Produces(p: Pattern, e: Event) {
    match p
    case KvSec => e.KvRow?
    case JenkinsRollbackSentence => e.RollbackSentence?
    case MemUsed => e.MemMatch?
    case CostPattern => e.CostRow?
  }

  /** Every number an event carries is non-negative (the patterns admit no sign). */
  predicate NonNegative(e: Event) {
    match e
    case KvRow(_, v) => v >= 0.0
    case RollbackSentence(v) => v >= 0.0
    case CostRow(v) => v >= 0.0
    case MemMatch(v, _) => v >= 0.0
  }

  function SpaceEnd(s: string, i: nat): nat
    requires i <= |s|
  {
    RunEnd(s, i, IsSpace)
  }

  function DigitEnd(s: string, i: nat): nat
    requires i <= |s|
  {
    RunEnd(s, i, IsDigit)
  }

  datatype Number = Number(value: real, end: nat)

  /**
    `\d+\.?\d*` at i, parsed by `Double.parseDouble`. What follows a number in
    every pattern is neither a digit nor a dot, so only the longest span can
    be part of a match.
  */
  function NumberAt(s: string, i: nat): (r: Option<Number>)
    requires i <= |s|
    ensures r.None? <==> i == |s| || !IsDigit(s[i])
    ensures r.Some? ==> i < r.value.end <= |s| && r.value.value >= 0.0
    ensures r.Some? ==> r.value.end == |s| || !IsDigit(s[r.value.end])
  {
    var j := DigitEnd(s, i);
    if j == i then None
    else
      RunEndAll(s, i, IsDigit);
      assert AllDigits(s[i..j]);
      if j < |s| && s[j] == '.' then
        var k := DigitEnd(s, j + 1);
        RunEndAll(s, j + 1, IsDigit);
        assert AllDigits(s[j + 1..k]);
        Some(Number(Decimal(s[i..j], s[j + 1..k]), k))
      else
        Some(Number(Decimal(s[i..j], ""), j))
  }

  /** `\d+` at i, parsed by `Double.parseDouble`; only the longest run can be followed by the rest of the pattern. */
  function WholeAt(s: string, i: nat): (r: Option<Number>)
    requires i <= |s|
    ensures r.None? <==> i == |s| || !IsDigit(s[i])
    ensures r.Some? ==> i < r.value.end <= |s| && r.value.value >= 0.0
    ensures r.Some? ==> r.value.end == |s| || !IsDigit(s[r.value.end])
  {
    var j := DigitEnd(s, i);
    if j == i then None
    else
      RunEndAll(s, i, IsDigit);
      assert AllDigits(s[i..j]);
      Some(Number(DigitsValue(s[i..j]) as real, j))
  }

  // ---------------------------------------------------------------------------
  // KV_SEC:  \|\s*([^|\(]+?)\s*(?:\(sec\))?\s*\|\s*(\d+\.?\d*)\s*\|   (case-insensitive)

  predicate IsNotBar(c: char) {
    c != '|'
  }

  /** The text after the label group matches `\s*(?:\(sec\))?\s*` in full. */
  predicate SecTail(t: string) {
    var a := SpaceEnd(t, 0);
    a == |t| || (StartsWithCaseless(t, a, "(sec)") && SpaceEnd(t, a + 5) == |t|)
  }

  /** No character of cell[w..e] is excluded by `[^|\(]`. */
  predicate Plain(cell: string, w: nat, e: nat)
    requires w <= e <= |cell|
  {
    forall k :: w <= k < e ==> cell[k] != '|' && cell[k] != '('
  }

  /**
    The label cell splits as: w characters of leading `\s*`, the label
    cell[w..e] (non-empty, matching `[^|\(]+`), and a tail matching
    `\s*(?:\(sec\))?\s*`.
  */
  predicate ValidSplit(cell: string, w: nat, e: nat) {
    w < e <= |cell|
    && (forall k :: 0 <= k < w ==> IsSpace(cell[k]))
    && Plain(cell, w, e)
    && SecTail(cell[e..])
  }

  /** No valid split has its label starting at w. */
  ghost predicate NoSplitFrom(cell: string, w: nat) {
    forall e': nat :: !ValidSplit(cell, w, e')
  }

  /** The lazy `+?`: the label is grown one character at a time; e is the end tried now. */
  function LazyLabelEnd(cell: string, e: nat): (r: Option<nat>)
    requires 0 < e <= |cell|
    ensures r.Some? ==> e <= r.value <= |cell|
    decreases |cell| - e
  {
    if cell[e - 1] == '|' || cell[e - 1] == '(' then None
    else if SecTail(cell[e..]) then Some(e)
    else if e == |cell| then None
    else LazyLabelEnd(cell, e + 1)
  }

  /** The lazy search from a label start w ends at the shortest label that a valid tail follows. */
  lemma {:induction false} LazyLabelEndSpec(cell: string, w: nat, e: nat)
    requires w < e <= |cell|
    requires Plain(cell, w, e - 1)
    ensures var r := LazyLabelEnd(cell, e);
      && (r.Some? ==> Plain(cell, w, r.value) && SecTail(cell[r.value..]))
      && (r.Some? ==> forall e' :: e <= e' < r.value ==> !SecTail(cell[e'..]))
      && (r.None? ==> forall e' :: e <= e' <= |cell| && Plain(cell, w, e') ==> !SecTail(cell[e'..]))
    decreases |cell| - e
  {
    if cell[e - 1] == '|' || cell[e - 1] == '(' {
      forall e' | e <= e' <= |cell|
        ensures !Plain(cell, w, e')
      {
        assert w <= e - 1 < e';
      }
    } else if SecTail(cell[e..]) {
      assert LazyLabelEnd(cell, e) == Some(e);
    } else if e < |cell| {
      assert LazyLabelEnd(cell, e) == LazyLabelEnd(cell, e + 1);
      LazyLabelEndSpec(cell, w, e + 1);
    }
  }

  /** When the lazy search from w succeeds, its end gives the shortest valid split starting at w. */
  lemma LabelFrom(cell: string, w: nat)
    requires w < |cell|
    requires forall k :: 0 <= k < w ==> IsSpace(cell[k])
    requires LazyLabelEnd(cell, w + 1).Some?
    ensures var e := LazyLabelEnd(cell, w + 1).value;
      ValidSplit(cell, w, e) && forall e' :: w < e' < e ==> !ValidSplit(cell, w, e')
  {
    LazyLabelEndSpec(cell, w, w + 1);
  }

  /** No label starts at w when the lazy search from w finds none. */
  lemma NoLabelFrom(cell: string, w: nat)
    requires w <= |cell|
    requires w == |cell| || LazyLabelEnd(cell, w + 1).None?
    ensures NoSplitFrom(cell, w)
  {
    if w < |cell| {
      LazyLabelEndSpec(cell, w, w + 1);
    }
  }

  datatype Split = Split(start: nat, end: nat)

  /**
    The greedy leading `\s*`: tried with w characters first, then one fewer,
    down to none; for each, the lazy label search.
  */
  function LabelSearch(cell: string, w: nat): (r: Option<Split>)
    requires w <= |cell|
    ensures r.Some? ==> r.value.start < r.value.end <= |cell|
    decreases w
  {
    var e := if w < |cell| then LazyLabelEnd(cell, w + 1) else None;
    if e.Some? then Some(Split(w, e.value))
    else if w == 0 then None
    else LabelSearch(cell, w - 1)
  }

  /** A split the search finds is valid, starts within the blank run, and has the shortest label from its start. */
  lemma {:induction false} LabelSearchFound(cell: string, w: nat)
    requires w <= |cell|
    requires forall k :: 0 <= k < w ==> IsSpace(cell[k])
    ensures var r := LabelSearch(cell, w);
      r.Some? ==> && r.value.start <= w && ValidSplit(cell, r.value.start, r.value.end)
                  && forall e' :: r.value.start < e' < r.value.end ==> !ValidSplit(cell, r.value.start, e')
    decreases w
  {
    var e := if w < |cell| then LazyLabelEnd(cell, w + 1) else None;
    if e.Some? {
      LabelFrom(cell, w);
      assert LabelSearch(cell, w) == Some(Split(w, e.value));
    } else if w > 0 {
      assert LabelSearch(cell, w) == LabelSearch(cell, w - 1);
      LabelSearchFound(cell, w - 1);
    }
  }

  /**
    The greedy order of the search: no label starts after the split it
    finds, within the blank run; and when it finds none, no label starts
    anywhere in the run.
  */
  lemma {:induction false} LabelSearchGreedy(cell: string, w: nat)
    requires w <= |cell|
    ensures var r := LabelSearch(cell, w);
      && (r.Some? ==> forall w': nat :: r.value.start < w' <= w ==> NoSplitFrom(cell, w'))
      && (r.None? ==> forall w': nat :: w' <= w ==> NoSplitFrom(cell, w'))
    decreases w
  {
    var e := if w < |cell| then LazyLabelEnd(cell, w + 1) else None;
    if e.None? {
      NoLabelFrom(cell, w);
      if w > 0 {
        var r := LabelSearch(cell, w - 1);
        assert LabelSearch(cell, w) == r;
        LabelSearchGreedy(cell, w - 1);
        var last := if r.Some? then r.value.start else 0;
        forall w': nat | last < w' <= w
          ensures NoSplitFrom(cell, w')
        {
        }
      } else {
        assert LabelSearch(cell, w).None?;
      }
    } else {
      assert LabelSearch(cell, w) == Some(Split(w, e.value));
    }
  }

  /** Group 1 of KV_SEC within the text between the two bars. */
  function CellLabel(cell: string): Option<string> {
    var w := SpaceEnd(cell, 0);
    match LabelSearch(cell, w)
    case Some(sp) => Some(cell[sp.start..sp.end])
    case None => None
  }

  /**
    The label group is found exactly when the cell splits validly, and it is
    the split the backtracking prefers: the most leading blanks, then the
    shortest label.
  */
  lemma CellLabelSpec(cell: string)
    ensures CellLabel(cell).Some? <==> exists w, e :: ValidSplit(cell, w, e)
    ensures CellLabel(cell).Some? ==> exists w: nat, e: nat ::
      && ValidSplit(cell, w, e) && CellLabel(cell).value == cell[w..e]
      && (forall w': nat, e': nat :: w < w' ==> !ValidSplit(cell, w', e'))
      && (forall e' :: w < e' < e ==> !ValidSplit(cell, w, e'))
  {
    var w := SpaceEnd(cell, 0);
    RunEndAll(cell, 0, IsSpace);
    LabelSearchFound(cell, w);
    LabelSearchGreedy(cell, w);
    forall w': nat, e': nat | ValidSplit(cell, w', e')
      ensures w' <= w && !NoSplitFrom(cell, w')
    {
    }
  }

  /**
    KV_SEC at i. The second bar of the pattern is necessarily the first bar
    after i, because nothing between the two may be a bar; the value cell
    after it is deterministic.
  */
  function KvSecAt(s: string, i: nat): (r: Option<Hit>)
    requires i <= |s|
    ensures r.Some? ==> r.value.start == i < r.value.end <= |s| && r.value.event.KvRow?
    ensures r.Some? ==> s[i] == '|' && s[r.value.end - 1] == '|'
  {
    if i == |s| || s[i] != '|' then None
    else
      var q := RunEnd(s, i + 1, IsNotBar);
      if q == |s| then None
      else
        match CellLabel(s[i + 1..q])
        case None => None
        case Some(name) =>
          match NumberAt(s, SpaceEnd(s, q + 1))
          case None => None
          case Some(n) =>
            var e := SpaceEnd(s, n.end);
            if e < |s| && s[e] == '|' then Some(Hit(KvRow(name, n.value), i, e + 1)) else None
  }

  // ---------------------------------------------------------------------------
  // JENKINS_ROLLBACK_SENTENCE:  Rollback completed in\s+(\d+)\s+seconds\.   (case-insensitive)

  const SentenceLead: string := "rollback completed in"
  const SentenceTail: string := "seconds."

  function RollbackSentenceAt(s: string, i: nat): (r: Option<Hit>)
    requires i <= |s|
    ensures r.Some? ==> r.value.start == i < r.value.end <= |s| && r.value.event.RollbackSentence?
  {
    if !StartsWithCaseless(s, i, SentenceLead) then None
    else
      var a := i + |SentenceLead|;
      var b := SpaceEnd(s, a);
      if b == a then None
      else
        match WholeAt(s, b)
        case None => None
        case Some(n) =>
          var d := SpaceEnd(s, n.end);
          if d == n.end || !StartsWithCaseless(s, d, SentenceTail) then None
          else Some(Hit(RollbackSentence(n.value), i, d + |SentenceTail|))
  }

  // ---------------------------------------------------------------------------
  // COST_PATTERN:  \|\s*Cost \(USD\)\s*\|\s*(\d+\.?\d*)\s*\|   (case-sensitive)

  const CostLabel: string := "Cost (USD)"

  function CostAt(s: string, i: nat): (r: Option<Hit>)
    requires i <= |s|
    ensures r.Some? ==> r.value.start == i < r.value.end <= |s| && r.value.event.CostRow?
  {
    if i == |s| || s[i] != '|' then None
    else
      var a := SpaceEnd(s, i + 1);
      if !StartsWithExact(s, a, CostLabel) then None
      else
        var b := SpaceEnd(s, a + |CostLabel|);
        if b == |s| || s[b] != '|' then None
        else
          match NumberAt(s, SpaceEnd(s, b + 1))
          case None => None
          case Some(n) =>
            var e := SpaceEnd(s, n.end);
            if e < |s| && s[e] == '|' then Some(Hit(CostRow(n.value), i, e + 1)) else None
  }

  // ---------------------------------------------------------------------------
  // MEM_USED:  (Mem:\s+\S+\s+(\d+\.?\d*)(Gi|Mi))|(used memory\s+:\s+(\d+\.?\d*)\s+MB)
  //            (case-insensitive)

  /** First alternative: a `free -h` line; the value after the total column, with its unit. */
  function MemLineAt(s: string, i: nat): (r: Option<Hit>)
    requires i <= |s|
    ensures r.Some? ==> r.value.start == i < r.value.end <= |s|
    ensures r.Some? ==> r.value.event.MemMatch? && r.value.event.unit != MB
  {
    if !StartsWithCaseless(s, i, "mem:") then None
    else
      var a := i + 4;
      var b := SpaceEnd(s, a);
      var c := RunEnd(s, b, IsNotSpace);
      var d := SpaceEnd(s, c);
      if b == a || c == b || d == c then None
      else
        match NumberAt(s, d)
        case None => None
        case Some(n) =>
          if StartsWithCaseless(s, n.end, "gi") then Some(Hit(MemMatch(n.value, Gi), i, n.end + 2))
          else if StartsWithCaseless(s, n.end, "mi") then Some(Hit(MemMatch(n.value, Mi), i, n.end + 2))
          else None
  }

  /** Second alternative: a `used memory : N MB` line. */
  function UsedMemoryAt(s: string, i: nat): (r: Option<Hit>)
    requires i <= |s|
    ensures r.Some? ==> r.value.start == i < r.value.end <= |s|
    ensures r.Some? ==> r.value.event.MemMatch? && r.value.event.unit == MB
  {
    if !StartsWithCaseless(s, i, "used memory") then None
    else
      var a := i + 11;
      var b := SpaceEnd(s, a);
      if b == a || b == |s| || s[b] != ':' then None
      else
        var c := SpaceEnd(s, b + 1);
        if c == b + 1 then None
        else
          match NumberAt(s, c)
          case None => None
          case Some(n) =>
            var e := SpaceEnd(s, n.end);
            if e > n.end && StartsWithCaseless(s, e, "mb") then Some(Hit(MemMatch(n.value, MB), i, e + 2))
            else None
  }

  function MemUsedAt(s: string, i: nat): (r: Option<Hit>)
    requires i <= |s|
    ensures r.Some? ==> r.value.start == i < r.value.end <= |s| && r.value.event.MemMatch?
  {
    var first := MemLineAt(s, i);
    if first.Some? then first else UsedMemoryAt(s, i)
  }

  // ---------------------------------------------------------------------------
  // Matching and searching

  /** A match of p that starts exactly at i. */
  function MatchAt(p: Pattern, s: string, i: nat): (r: Option<Hit>)
    requires i <= |s|
    ensures r.Some? ==> r.value.start == i < r.value.end <= |s|
    ensures r.Some? ==> Produces(p, r.value.event) && NonNegative(r.value.event)
  {
    match p
    case KvSec => KvSecAt(s, i)
    case JenkinsRollbackSentence => RollbackSentenceAt(s, i)
    case MemUsed => MemUsedAt(s, i)
    case CostPattern => CostAt(s, i)
  }

  /** `Matcher.find()` from position `from`: the match with the leftmost start. */
  function Find(p: Pattern, s: string, from: nat): (r: Option<Hit>)
    requires from <= |s|
    ensures r.Some? ==> from <= r.value.start < r.value.end <= |s|
    ensures r.Some? ==> Produces(p, r.value.event) && NonNegative(r.value.event)
    decreases |s| - from
  {
    var m := MatchAt(p, s, from);
    if m.Some? then m
    else if from == |s| then None
    else Find(p, s, from + 1)
  }

  /** Find reports a match of p, and no match of p starts between `from` and it; none at all when it reports none. */
  lemma {:induction false} FindIsLeftmost(p: Pattern, s: string, from: nat)
    requires from <= |s|
    ensures var r := Find(p, s, from);
      && (r.Some? ==> MatchAt(p, s, r.value.start) == r)
      && (r.Some? ==> forall j :: from <= j < r.value.start ==> MatchAt(p, s, j).None?)
      && (r.None? ==> forall j :: from <= j <= |s| ==> MatchAt(p, s, j).None?)
    decreases |s| - from
  {
    var m := MatchAt(p, s, from);
    if m.Some? {
      assert Find(p, s, from) == m;
    } else if from == |s| {
      assert Find(p, s, from).None?;
    } else {
      var r := Find(p, s, from + 1);
      assert Find(p, s, from) == r;
      FindIsLeftmost(p, s, from + 1);
      var last := if r.Some? then r.value.start else |s| + 1;
      forall j | from <= j < last
        ensures MatchAt(p, s, j).None?
      {
        if j == from {
          assert MatchAt(p, s, j) == m;
        }
      }
    }
  }

  /** The events of every match a `while (m.find())` loop visits, from `from` on, in document order. */
  function EventsFrom(p: Pattern, s: string, from: nat): (es: seq<Event>)
    requires from <= |s|
    ensures forall k :: 0 <= k < |es| ==> Produces(p, es[k]) && NonNegative(es[k])
    decreases |s| - from
  {
    match Find(p, s, from)
    case None => []
    case Some(h) => [h.event] + EventsFrom(p, s, h.end)
  }

  function Events(p: Pattern, s: string): seq<Event> {
    EventsFrom(p, s, 0)
  }
}
