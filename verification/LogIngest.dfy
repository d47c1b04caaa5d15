/**
 * Access-log ingestion, `parse_access_log`: a periodic task that reads a growing
 * file from a cached offset, and a unique event id that makes reading a line
 * again harmless.
 *
 * The file is its bytes, one per char. The log-line regex, the address validator
 * and SHA-256 are parameters; a hash is never blank.
 */
module LogIngest {
  import opened Wrappers
  import opened Text
  import opened Decimals

  const MAX_SMALLINT: nat := 32767

  /** The groups of the log-line regex the record keeps. */
  datatype Groups = Groups(ip: string, timestamp: string, verb: string, path: string, status: nat, agent: string)

  datatype Parser = Parser(groups: string -> Option<Groups>, validIp: string -> bool, hash: string -> string)

  datatype Record = Record(eventId: string, groups: Groups)

  /***** Lines *****/

  /** The length of the first line, its terminator included: a text file's lines
      end in a newline, a carriage return or both. */
  function FirstLine(s: string): (n: nat)
    requires s != ""
    ensures 0 < n <= |s|
  {
    if s[0] == '\n' || |s| == 1 then 1
    else if s[0] == '\r' then (if s[1] == '\n' then 2 else 1)
    else 1 + FirstLine(s[1..])
  }

  function Head(s: string): string
    requires s != ""
  {
    s[..FirstLine(s)]
  }

  function Tail(s: string): (r: string)
    requires s != ""
    ensures |r| < |s|
  {
    s[FirstLine(s)..]
  }

  function Lines(s: string): seq<string> {
    if s == "" then [] else [Head(s)] + Lines(Tail(s))
  }

  predicate WholeLines(s: string) { s == "" || s[|s| - 1] == '\n' }

  lemma {:induction false} FirstLineOfWhole(a: string, b: string)
    requires a != "" && WholeLines(a)
    ensures FirstLine(a + b) == FirstLine(a)
  {
    if |a| > 1 && a[0] != '\n' && a[0] != '\r' {
      FirstLineOfWhole(a[1..], b);
      assert (a + b)[1..] == a[1..] + b;
    }
  }

  lemma HeadOfWhole(a: string, b: string)
    requires a != "" && WholeLines(a)
    ensures Head(a + b) == Head(a) && Tail(a + b) == Tail(a) + b && WholeLines(Tail(a))
  {
    FirstLineOfWhole(a, b);
  }

  /** Appending to whole lines appends to the lines. */
  lemma {:induction false} LinesConcat(a: string, b: string)
    requires WholeLines(a)
    ensures Lines(a + b) == Lines(a) + Lines(b)
    decreases |a|
  {
    if a == "" {
      assert a + b == b;
    } else {
      HeadOfWhole(a, b);
      LinesConcat(Tail(a), b);
      Regroup([Head(a)], Lines(Tail(a)), Lines(b));
    }
  }

  /***** Records *****/

  function Cut(s: string, n: nat): string {
    if |s| <= n then s else s[..n]
  }

  /** `_build_source_event_id`. */
  function EventId(g: Groups, p: Parser): string {
    Cut(p.hash(g.ip + "|" + g.timestamp + "|" + g.verb + "|" + g.path + "|" + Print(g.status)), 64)
  }

  /** What a line gives, or None for a skipped one. */
  function RecordOf(line: string, p: Parser): Option<Record> {
    var found := p.groups(Strip(line));
    if found.None? then None
    else
      var g := found.value.(verb := Cut(found.value.verb, 16), path := Cut(found.value.path, 2048),
                            agent := Cut(found.value.agent, 1024));
      if !p.validIp(g.ip) || g.status > MAX_SMALLINT then None
      else Some(Record(EventId(g, p), g))
  }

  function Kept(line: string, p: Parser): seq<Record> {
    var record := RecordOf(line, p);
    if record.Some? then [record.value] else []
  }

  function RecordsOf(lines: seq<string>, p: Parser): seq<Record> {
    if lines == [] then []
    else RecordsOf(lines[..|lines| - 1], p) + Kept(lines[|lines| - 1], p)
  }

  predicate Stored(rows: seq<Record>, id: string) {
    exists r | r in rows :: r.eventId == id
  }

  /** `bulk_create(…, ignore_conflicts=True)` under the partial unique constraint,
      which leaves blank ids alone. */
  function Inserted(rows: seq<Record>, records: seq<Record>): seq<Record> {
    if records == [] then rows
    else
      var n := |records| - 1;
      var before := Inserted(rows, records[..n]);
      if records[n].eventId != "" && Stored(before, records[n].eventId) then before else before + [records[n]]
  }

  /** Where reading starts: from the cached offset, from the top when it is gone or
      the file is shorter than it. */
  function Start(file: string, offset: Option<nat>): (n: nat)
    ensures n <= |file|
  {
    if offset.None? || |file| < offset.value then 0 else offset.value
  }

  /***** The code *****/

  class Ingester {
    var offset: Option<nat>
    var rows: seq<Record>

    constructor ()
      ensures offset == None && rows == []
    {
      offset, rows := None, [];
    }

    /** One run of `parse_access_log` over an existing file. */
    method ParseAccessLog(file: string, p: Parser) returns (parsed: nat, created: nat, skipped: nat)
      modifies this
      ensures rows == Inserted(old(rows), RecordsOf(Lines(file[Start(file, old(offset))..]), p))
      ensures offset == Some(|file|)
      ensures parsed == created + skipped == |Lines(file[Start(file, old(offset))..])|
      ensures created == |RecordsOf(Lines(file[Start(file, old(offset))..]), p)|
    {
      var at := if offset.None? then 0 else offset.value;
      if |file| < at {
        at := 0;
      }
      var records;
      parsed, skipped, records := ReadLines(file[at..], p);
      rows := Inserted(rows, records);
      created := |records|;
      offset := Some(|file|);
    }
  }

  /** The loop over the open file, from its position to its end. */
  method ReadLines(text: string, p: Parser) returns (parsed: nat, skipped: nat, records: seq<Record>)
    ensures records == RecordsOf(Lines(text), p)
    ensures parsed == |Lines(text)| == |records| + skipped
  {
    var rest := text;
    parsed, skipped, records := 0, 0, [];
    ghost var done: seq<string> := [];
    while rest != ""
      invariant Lines(text) == done + Lines(rest)
      invariant records == RecordsOf(done, p)
      invariant parsed == |done| == |records| + skipped
      decreases |rest|
    {
      var kept := Kept(Head(rest), p);
      Regroup(done, [Head(rest)], Lines(Tail(rest)));
      RecordsOfMore(done, Head(rest), p);
      done, rest := done + [Head(rest)], Tail(rest);
      parsed := parsed + 1;
      if kept == [] {
        skipped := skipped + 1;
      }
      records := records + kept;
    }
    assert done + [] == done;
  }

  lemma RecordsOfMore(lines: seq<string>, line: string, p: Parser)
    ensures RecordsOf(lines + [line], p) == RecordsOf(lines, p) + Kept(line, p) && |Kept(line, p)| <= 1
  {
    var more := lines + [line];
    assert more[..|more| - 1] == lines;
  }

  /***** Runs *****/

  /** `rotated` records that the file was replaced since the offset was set. */
  datatype State = State(file: string, offset: Option<nat>, rotated: bool, rows: seq<Record>)

  datatype Step =
    | Append(text: string)
    | RunTask
    | Evict
    | Rotate(text: string)

  function Next(s: State, step: Step, p: Parser): State {
    match step
    case Append(text) => s.(file := s.file + text)
    case RunTask =>
      var records := RecordsOf(Lines(s.file[Start(s.file, s.offset)..]), p);
      State(s.file, Some(|s.file|), false, Inserted(s.rows, records))
    case Evict => s.(offset := None, rotated := false)
    case Rotate(text) => s.(file := text, rotated := true)
  }

  /** Writers write whole lines. */
  predicate WritesLines(step: Step) {
    (step.Append? || step.Rotate?) ==> WholeLines(step.text)
  }

  /** A rotation shows: at the next run the file is still shorter than the
      offset. */
  predicate Shows(s: State, step: Step) {
    step.RunTask? && s.rotated && s.offset.Some? ==> |s.file| < s.offset.value
  }

  ghost predicate IsRun(t: seq<State>, steps: seq<Step>, p: Parser) {
    && |t| == |steps| + 1
    && t[0] == State("", None, false, [])
    && (forall i :: 0 <= i < |steps| ==> WritesLines(steps[i]))
    && (forall i :: 0 <= i < |steps| ==> t[i + 1] == Next(t[i], steps[i], p))
  }

  /** The id of a well-formed line of the text. */
  predicate Named(text: string, id: string, p: Parser) {
    exists line | line in Lines(text) :: RecordOf(line, p).Some? && RecordOf(line, p).value.eventId == id
  }

  predicate EachOnce(rows: seq<Record>) {
    forall i, j :: 0 <= i < j < |rows| ==> rows[i].eventId != rows[j].eventId
  }

  ghost predicate HashIsNotBlank(p: Parser) {
    forall s :: p.hash(s) != ""
  }

  lemma {:induction false} RecordsAreNamed(lines: seq<string>, p: Parser, id: string)
    ensures Stored(RecordsOf(lines, p), id)
            <==> exists line | line in lines :: RecordOf(line, p).Some? && RecordOf(line, p).value.eventId == id
  {
    if lines != [] {
      var n := |lines| - 1;
      RecordsAreNamed(lines[..n], p, id);
      assert lines == lines[..n] + [lines[n]];
      assert forall l :: l in lines <==> (l in lines[..n] || l == lines[n]);
      var last := RecordOf(lines[n], p);
      if last.Some? {
        assert forall r :: r in RecordsOf(lines, p) <==> (r in RecordsOf(lines[..n], p) || r == last.value);
      }
    }
  }

  lemma {:induction false} RecordsHaveIds(lines: seq<string>, p: Parser)
    requires HashIsNotBlank(p)
    ensures forall r :: r in RecordsOf(lines, p) ==> r.eventId != ""
  {
    if lines != [] {
      RecordsHaveIds(lines[..|lines| - 1], p);
    }
  }

  /** Inserting adds exactly the records' ids and repeats none. */
  lemma {:induction false} InsertedIds(rows: seq<Record>, records: seq<Record>)
    requires EachOnce(rows) && forall r :: r in records ==> r.eventId != ""
    ensures EachOnce(Inserted(rows, records))
    ensures forall id :: Stored(Inserted(rows, records), id) <==> (Stored(rows, id) || Stored(records, id))
  {
    if records != [] {
      var n := |records| - 1;
      var last, before := records[n], Inserted(rows, records[..n]);
      InsertedIds(rows, records[..n]);
      assert forall r :: r in records <==> (r in records[..n] || r == last);
      var after := Inserted(rows, records);
      if !Stored(before, last.eventId) {
        assert after == before + [last];
        assert forall r :: r in after <==> (r in before || r == last);
        assert forall i :: 0 <= i < |before| ==> before[i] in before;
      }
      forall id ensures Stored(after, id) <==> (Stored(rows, id) || Stored(records, id)) {
        assert Stored(before, id) <==> (Stored(rows, id) || Stored(records[..n], id));
        assert Stored(records, id) <==> (Stored(records[..n], id) || last.eventId == id);
      }
    }
  }

  /** What has been read stays stored, and what is left to read begins a line. */
  ghost predicate Inv(s: State, p: Parser) {
    && WholeLines(s.file)
    && EachOnce(s.rows)
    && (s.offset.Some? && !s.rotated ==>
          && s.offset.value <= |s.file|
          && WholeLines(s.file[..s.offset.value])
          && forall id :: Named(s.file[..s.offset.value], id, p) ==> Stored(s.rows, id))
  }

  lemma NamedConcat(a: string, b: string, p: Parser)
    requires WholeLines(a)
    ensures forall id :: Named(a + b, id, p) <==> (Named(a, id, p) || Named(b, id, p))
  {
    LinesConcat(a, b);
    assert forall l :: l in Lines(a + b) <==> (l in Lines(a) || l in Lines(b));
  }

  lemma RunTaskStores(s: State, p: Parser)
    requires Inv(s, p) && HashIsNotBlank(p) && Shows(s, RunTask)
    ensures var after := Next(s, RunTask, p);
            Inv(after, p) && forall id :: Stored(after.rows, id) <==> (Stored(s.rows, id) || Named(s.file, id, p))
  {
    var n := Start(s.file, s.offset);
    var lines := Lines(s.file[n..]);
    var after := Next(s, RunTask, p);
    RecordsHaveIds(lines, p);
    InsertedIds(s.rows, RecordsOf(lines, p));
    forall id ensures Stored(RecordsOf(lines, p), id) <==> Named(s.file[n..], id, p) {
      RecordsAreNamed(lines, p, id);
    }
    assert s.file == s.file[..n] + s.file[n..];
    NamedConcat(s.file[..n], s.file[n..], p);
    assert s.file[..|s.file|] == s.file;
  }

  lemma StepKeepsInv(s: State, step: Step, p: Parser)
    requires Inv(s, p) && HashIsNotBlank(p) && WritesLines(step) && Shows(s, step)
    ensures Inv(Next(s, step, p), p)
  {
    match step
    case RunTask => RunTaskStores(s, p);
    case Append(text) =>
      if s.offset.Some? && !s.rotated {
        assert (s.file + text)[..s.offset.value] == s.file[..s.offset.value];
      }
    case Evict =>
    case Rotate(text) =>
  }

  lemma {:induction false} RunKeepsInv(t: seq<State>, steps: seq<Step>, p: Parser, i: nat)
    requires IsRun(t, steps, p) && HashIsNotBlank(p) && i <= |steps|
    requires forall j :: 0 <= j < i ==> Shows(t[j], steps[j])
    ensures Inv(t[i], p)
  {
    if i > 0 {
      RunKeepsInv(t, steps, p, i - 1);
      StepKeepsInv(t[i - 1], steps[i - 1], p);
    }
  }

  ghost predicate ReadAt(t: seq<State>, steps: seq<Step>, p: Parser, id: string, j: nat) {
    j < |steps| < |t| && steps[j].RunTask? && Named(t[j].file, id, p)
  }

  /**
   * Ingestion: at every moment the stored ids are exactly those of the well-formed
   * lines of the file as some run found it, each stored once,
   * whatever was appended, evicted or rotated in between.
   */
  lemma {:induction false} IngestedExactly(t: seq<State>, steps: seq<Step>, p: Parser, i: nat, id: string)
    requires IsRun(t, steps, p) && HashIsNotBlank(p) && i <= |steps|
    requires forall j :: 0 <= j < i ==> Shows(t[j], steps[j])
    ensures EachOnce(t[i].rows)
    ensures Stored(t[i].rows, id) <==> exists j: nat | j < i :: ReadAt(t, steps, p, id, j)
  {
    RunKeepsInv(t, steps, p, i);
    if i > 0 {
      IngestedExactly(t, steps, p, i - 1, id);
      RunKeepsInv(t, steps, p, i - 1);
      StepStores(t[i - 1], steps[i - 1], p, id);
      assert t[i] == Next(t[i - 1], steps[i - 1], p);
      assert ReadAt(t, steps, p, id, i - 1) <==> steps[i - 1].RunTask? && Named(t[i - 1].file, id, p);
    }
  }

  lemma StepStores(s: State, step: Step, p: Parser, id: string)
    requires Inv(s, p) && HashIsNotBlank(p) && Shows(s, step)
    ensures Stored(Next(s, step, p).rows, id)
            <==> (Stored(s.rows, id) || (step.RunTask? && Named(s.file, id, p)))
  {
    if step.RunTask? {
      RunTaskStores(s, p);
    }
  }

  lemma {:induction false} FileOnlyGrows(t: seq<State>, steps: seq<Step>, p: Parser, i: nat, j: nat, id: string)
    requires IsRun(t, steps, p) && HashIsNotBlank(p) && i <= j <= |steps|
    requires forall k :: 0 <= k < |steps| ==> !steps[k].Rotate?
    ensures !t[j].rotated
    ensures Named(t[i].file, id, p) ==> Named(t[j].file, id, p)
  {
    if i < j {
      FileOnlyGrows(t, steps, p, i, j - 1, id);
      assert t[j] == Next(t[j - 1], steps[j - 1], p);
      NeverRotated(t, steps, p, j);
      RunKeepsInv(t, steps, p, j - 1);
      if steps[j - 1].Append? {
        NamedConcat(t[j - 1].file, steps[j - 1].text, p);
      }
    } else {
      NeverRotated(t, steps, p, j);
    }
  }

  lemma {:induction false} NeverRotated(t: seq<State>, steps: seq<Step>, p: Parser, i: nat)
    requires IsRun(t, steps, p) && i <= |steps|
    requires forall k :: 0 <= k < |steps| ==> !steps[k].Rotate?
    ensures !t[i].rotated
    ensures forall j :: 0 <= j < i ==> Shows(t[j], steps[j])
  {
    if i > 0 {
      NeverRotated(t, steps, p, i - 1);
      assert t[i] == Next(t[i - 1], steps[i - 1], p);
    }
  }

  /** On an append-only log, after each run the stored ids are exactly those of the
      well-formed lines in the file, each once, however often the offset was lost. */
  lemma AppendOnlyIsExact(t: seq<State>, steps: seq<Step>, p: Parser, i: nat, id: string)
    requires IsRun(t, steps, p) && HashIsNotBlank(p)
    requires forall k :: 0 <= k < |steps| ==> !steps[k].Rotate?
    requires i < |steps| && steps[i].RunTask?
    ensures EachOnce(t[i + 1].rows)
    ensures Stored(t[i + 1].rows, id) <==> Named(t[i + 1].file, id, p)
  {
    NeverRotated(t, steps, p, |steps|);
    IngestedExactly(t, steps, p, i + 1, id);
    assert t[i + 1] == Next(t[i], steps[i], p);
    if Named(t[i].file, id, p) {
      assert ReadAt(t, steps, p, id, i);
    }
    if j: nat :| j < i + 1 && ReadAt(t, steps, p, id, j) {
      FileOnlyGrows(t, steps, p, j, i, id);
    }
  }

  /***** What a line becomes *****/

  /** Which lines are stored, and as what: those the log format matches, whose
      address is one and whose status fits the column; with method, path and agent
      cut to the columns' lengths and the rest as logged. */
  lemma LineIsStoredAs(line: string, p: Parser)
    ensures var g := p.groups(Strip(line));
            && (RecordOf(line, p).Some? <==> g.Some? && p.validIp(g.value.ip) && g.value.status <= 32767)
            && (RecordOf(line, p).Some? ==>
                  var r := RecordOf(line, p).value.groups;
                  && r.ip == g.value.ip && r.timestamp == g.value.timestamp && r.status == g.value.status
                  && r.verb == (if |g.value.verb| <= 16 then g.value.verb else g.value.verb[..16])
                  && r.path == (if |g.value.path| <= 2048 then g.value.path else g.value.path[..2048])
                  && r.agent == (if |g.value.agent| <= 1024 then g.value.agent else g.value.agent[..1024]))
  {
  }

  /** The hash is one to one and no longer than the column. */
  ghost predicate IsDigest(p: Parser) {
    (forall a, b :: p.hash(a) == p.hash(b) ==> a == b) && (forall a :: |p.hash(a)| <= 64)
  }

  lemma FirstBar(a: string, x: string, b: string, y: string)
    requires Without(a, '|') && Without(b, '|') && a + "|" + x == b + "|" + y
    ensures a == b && x == y
  {
    var s := a + "|" + x;
    assert s[|a|] == '|' && s[|b|] == '|';
    assert |a| == |b|;
    assert a == s[..|a|] && x == s[|a| + 1..];
  }

  lemma LastBar(a: string, x: string, b: string, y: string)
    requires Without(x, '|') && Without(y, '|') && a + "|" + x == b + "|" + y
    ensures a == b && x == y
  {
    SplitLastCuts(a, x, '|');
    SplitLastCuts(b, y, '|');
    assert [a, x][0] == [b, y][0] && [a, x][1] == [b, y][1];
  }

  /** The text that is hashed, fields joined by bars. */
  function Identity(g: Groups): string {
    g.ip + "|" + (g.timestamp + "|" + (g.verb + "|" + (g.path + "|" + Print(g.status))))
  }

  lemma EventIdIs(g: Groups, p: Parser)
    requires IsDigest(p)
    ensures EventId(g, p) == p.hash(Identity(g))
  {
    var tail := Print(g.status);
    assert g.ip + "|" + g.timestamp + "|" + g.verb + "|" + g.path + "|" + tail == Identity(g);
  }

  /**
   * Which events are the same. If address, timestamp and method hold no bar, two
   * events have one id exactly when address, timestamp, method, path and status
   * all agree; the path may hold bars, and the agent does not count.
   */
  lemma SameEventIff(g: Groups, g': Groups, p: Parser)
    requires IsDigest(p)
    requires Without(g.ip, '|') && Without(g.timestamp, '|') && Without(g.verb, '|')
    requires Without(g'.ip, '|') && Without(g'.timestamp, '|') && Without(g'.verb, '|')
    ensures EventId(g, p) == EventId(g', p)
            <==> g.ip == g'.ip && g.timestamp == g'.timestamp && g.verb == g'.verb && g.path == g'.path && g.status == g'.status
  {
    EventIdIs(g, p);
    EventIdIs(g', p);
    if EventId(g, p) == EventId(g', p) {
      var (a, b) := (g.path + "|" + Print(g.status), g'.path + "|" + Print(g'.status));
      FirstBar(g.ip, g.timestamp + "|" + (g.verb + "|" + a), g'.ip, g'.timestamp + "|" + (g'.verb + "|" + b));
      FirstBar(g.timestamp, g.verb + "|" + a, g'.timestamp, g'.verb + "|" + b);
      FirstBar(g.verb, a, g'.verb, b);
      PrintedHasNoBar(g.status);
      PrintedHasNoBar(g'.status);
      LastBar(g.path, Print(g.status), g'.path, Print(g'.status));
      ParsesPrinted(g.status);
      ParsesPrinted(g'.status);
    }
  }

  /** With a bar in the timestamp or the method two different events can have one
      id, whatever the hash, and the second is never stored. */
  lemma BarsConfuseEvents(g: Groups, x: string, y: string, p: Parser)
    ensures EventId(g.(timestamp := g.timestamp + "|" + x, verb := y), p) == EventId(g.(verb := x + "|" + y), p)
    ensures x != "" ==> g.timestamp + "|" + x != g.timestamp
  {
    assert g.timestamp + "|" + x + "|" + y == g.timestamp + "|" + (x + "|" + y);
    var tail := g.path + "|" + Print(g.status);
    assert g.ip + "|" + (g.timestamp + "|" + x) + "|" + y + "|" + g.path + "|" + Print(g.status)
        == g.ip + "|" + g.timestamp + "|" + (x + "|" + y) + "|" + g.path + "|" + Print(g.status);
  }

  /***** Rotations that do not show *****/

  /** What a run reads: the file from where it starts. */
  function ReadBy(s: State): string { s.file[Start(s.file, s.offset)..] }

  /** What any run stores, whatever file its offset was of: the ids of the lines it
      reads, and no others. */
  lemma RunStoresWhatItReads(s: State, p: Parser, id: string)
    requires EachOnce(s.rows) && HashIsNotBlank(p)
    ensures EachOnce(Next(s, RunTask, p).rows)
    ensures Stored(Next(s, RunTask, p).rows, id) <==> (Stored(s.rows, id) || Named(ReadBy(s), id, p))
  {
    var lines := Lines(ReadBy(s));
    RecordsHaveIds(lines, p);
    InsertedIds(s.rows, RecordsOf(lines, p));
    RecordsAreNamed(lines, p, id);
  }

  ghost predicate ReadIn(t: seq<State>, steps: seq<Step>, p: Parser, id: string, j: nat) {
    j < |steps| < |t| && steps[j].RunTask? && Named(ReadBy(t[j]), id, p)
  }

  /** In every run, hidden rotations or not: the stored ids are exactly those of the
      lines some run read, each once. */
  lemma {:induction false} StoredIsRead(t: seq<State>, steps: seq<Step>, p: Parser, i: nat, id: string)
    requires IsRun(t, steps, p) && HashIsNotBlank(p) && i <= |steps|
    ensures EachOnce(t[i].rows)
    ensures Stored(t[i].rows, id) <==> EverRead(t, steps, p, id, i)
    decreases i
  {
    if i > 0 {
      StoredIsRead(t, steps, p, i - 1, id);
      OneStepRead(t, steps, p, i - 1, id);
    }
  }

  lemma OneStepRead(t: seq<State>, steps: seq<Step>, p: Parser, i: nat, id: string)
    requires IsRun(t, steps, p) && HashIsNotBlank(p) && i < |steps| && EachOnce(t[i].rows)
    ensures EachOnce(t[i + 1].rows)
    ensures (Stored(t[i].rows, id) <==> EverRead(t, steps, p, id, i)) ==>
              (Stored(t[i + 1].rows, id) <==> EverRead(t, steps, p, id, i + 1))
  {
    StepStoresWhatItReads(t[i], t[i + 1], steps[i], p, id);
    ReadLater(t, steps, p, id, i);
  }

  ghost predicate EverRead(t: seq<State>, steps: seq<Step>, p: Parser, id: string, i: nat) {
    exists j: nat | j < i :: ReadIn(t, steps, p, id, j)
  }

  lemma ReadLater(t: seq<State>, steps: seq<Step>, p: Parser, id: string, i: nat)
    requires i < |steps| < |t|
    ensures EverRead(t, steps, p, id, i + 1)
            <==> (EverRead(t, steps, p, id, i) || (steps[i].RunTask? && Named(ReadBy(t[i]), id, p)))
  {
    assert ReadIn(t, steps, p, id, i) <==> steps[i].RunTask? && Named(ReadBy(t[i]), id, p);
  }

  lemma StepStoresWhatItReads(s: State, s': State, step: Step, p: Parser, id: string)
    requires EachOnce(s.rows) && HashIsNotBlank(p) && s' == Next(s, step, p)
    ensures EachOnce(s'.rows)
    ensures Stored(s'.rows, id) <==> (Stored(s.rows, id) || (step.RunTask? && Named(ReadBy(s), id, p)))
  {
    if step.RunTask? {
      RunStoresWhatItReads(s, p, id);
    }
  }

  /**
   * Exactly when a run does what it should to a file it reads from the middle.
   * It leaves the file ingested if and only if every well-formed line of the file
   * was stored already or stands among the lines read; and it stores nothing that
   * is not in the file if and only if every well-formed line read is in the file
   * or was stored already. LinesFromMiddle says what is read.
   */
  lemma HiddenRotationIsHarmlessIff(s: State, p: Parser)
    requires EachOnce(s.rows) && HashIsNotBlank(p)
    ensures (forall id :: Named(s.file, id, p) ==> Stored(Next(s, RunTask, p).rows, id))
            <==> (forall id :: Named(s.file, id, p) ==> Stored(s.rows, id) || Named(ReadBy(s), id, p))
    ensures (forall id :: Stored(Next(s, RunTask, p).rows, id) ==> Stored(s.rows, id) || Named(s.file, id, p))
            <==> (forall id :: Named(ReadBy(s), id, p) ==> Stored(s.rows, id) || Named(s.file, id, p))
  {
    forall id
      ensures Stored(Next(s, RunTask, p).rows, id) <==> (Stored(s.rows, id) || Named(ReadBy(s), id, p))
    {
      RunStoresWhatItReads(s, p, id);
    }
  }

  /** The lines that end at or before position n, */
  function LinesBefore(s: string, n: nat): seq<string>
    requires n <= |s|
    decreases |s|
  {
    if s == "" || n < FirstLine(s) then [] else [Head(s)] + LinesBefore(Tail(s), n - FirstLine(s))
  }

  /** the text from the start of the line n is in, */
  function FromLine(s: string, n: nat): (r: string)
    requires n <= |s|
    ensures s != "" && n < |s| ==> r != ""
    decreases |s|
  {
    if s == "" || n < FirstLine(s) then s else FromLine(Tail(s), n - FirstLine(s))
  }

  /** and where in that line n is. */
  function WithinLine(s: string, n: nat): nat
    requires n <= |s|
    decreases |s|
  {
    if s == "" || n < FirstLine(s) then n else WithinLine(Tail(s), n - FirstLine(s))
  }

  /** Starting inside a line reads the rest of it as a line, then the lines after. */
  lemma {:induction false} CutFirstLine(s: string, k: nat)
    requires s != "" && k < FirstLine(s)
    ensures FirstLine(s[k..]) == FirstLine(s) - k
  {
    if k > 0 {
      CutFirstLine(s[1..], k - 1);
      assert s[1..][k - 1..] == s[k..];
    } else {
      assert s[0..] == s;
    }
  }

  /**
   * What is read from position n of a file. The file's lines are those before, the
   * line n is in and those after; what is read is the lines after, preceded by
   * that line if n is its start and by the fragment from n on if it is not.
   */
  lemma {:induction false} LinesFromMiddle(s: string, n: nat)
    requires n < |s|
    ensures var rest, k := FromLine(s, n), WithinLine(s, n);
            && rest != "" && k < |Head(rest)|
            && Lines(s) == LinesBefore(s, n) + ([Head(rest)] + Lines(Tail(rest)))
            && Lines(s[n..]) == [Head(rest)[k..]] + Lines(Tail(rest))
    decreases |s|
  {
    var m := FirstLine(s);
    if n < m {
      CutFirstLine(s, n);
      assert Head(s[n..]) == Head(s)[n..] && Tail(s[n..]) == Tail(s);
    } else {
      LinesFromMiddle(Tail(s), n - m);
      assert Tail(s)[n - m..] == s[n..];
      var rest := FromLine(Tail(s), n - m);
      Regroup([Head(s)], LinesBefore(Tail(s), n - m), [Head(rest)] + Lines(Tail(rest)));
    }
  }

  /** The rest of the line from n on, as it is read. */
  function Fragment(s: string, n: nat): string
    requires n < |s|
  {
    LinesFromMiddle(s, n);
    Head(FromLine(s, n))[WithinLine(s, n)..]
  }

  /** So a run that starts inside a line invents at most one id, that of the
      fragment; and one that starts at a line's beginning, or at the end, none. */
  lemma OnlyTheFragmentIsInvented(s: string, n: nat, p: Parser, id: string)
    requires n <= |s| && Named(s[n..], id, p) && !Named(s, id, p)
    ensures n < |s| && WithinLine(s, n) > 0
    ensures RecordOf(Fragment(s, n), p).Some? && RecordOf(Fragment(s, n), p).value.eventId == id
  {
    assert s[|s|..] == "";
    LinesFromMiddle(s, n);
    var rest, k := FromLine(s, n), WithinLine(s, n);
    var line :| line in Lines(s[n..]) && RecordOf(line, p).Some? && RecordOf(line, p).value.eventId == id;
    assert Head(rest) in Lines(s) && Head(rest)[0..] == Head(rest);
    assert forall l :: l in Lines(Tail(rest)) ==> l in Lines(s);
  }

  /** And what it loses stood before it: in a line that ended there, or in the one it
      started inside. */
  lemma OnlyEarlierLinesAreLost(s: string, n: nat, p: Parser, id: string)
    requires n < |s| && Named(s, id, p) && !Named(s[n..], id, p)
    ensures exists line | line in LinesBefore(s, n) || (WithinLine(s, n) > 0 && line == Head(FromLine(s, n))) ::
              RecordOf(line, p).Some? && RecordOf(line, p).value.eventId == id
  {
    LinesFromMiddle(s, n);
    var rest, k := FromLine(s, n), WithinLine(s, n);
    var line :| line in Lines(s) && RecordOf(line, p).Some? && RecordOf(line, p).value.eventId == id;
    assert Head(rest)[0..] == Head(rest);
    assert forall l :: l in Lines(Tail(rest)) ==> l in Lines(s[n..]);
    assert Head(rest)[k..] in Lines(s[n..]);
  }

  /** What the run append, task, rotate to a file no shorter, task stores: the first
      file's ids and those read from the second past the first one's length. */
  lemma RotatedRun(one: string, other: string, id: string, p: Parser) returns (t: seq<State>, steps: seq<Step>)
    requires HashIsNotBlank(p) && WholeLines(one) && WholeLines(other) && |one| <= |other|
    ensures steps == [Append(one), RunTask, Rotate(other), RunTask] && IsRun(t, steps, p)
    ensures t[1].file == one && t[3].file == other
    ensures Stored(t[4].rows, id) <==> (Named(one, id, p) || Named(other[|one|..], id, p))
  {
    steps := [Append(one), RunTask, Rotate(other), RunTask];
    t := RunExists(steps, p);
    FirstRun(t, steps, one, id, p);
    LastTwo(t, steps, other, p);
    RunAfterRotation(t[2], other, id, p);
  }

  lemma LastTwo(t: seq<State>, steps: seq<Step>, other: string, p: Parser)
    requires IsRun(t, steps, p) && |steps| == 4 && steps[2] == Rotate(other) && steps[3] == RunTask
    ensures t[3].file == other && t[4] == Next(Next(t[2], Rotate(other), p), RunTask, p)
  {
    assert t[3] == Next(t[2], steps[2], p) && t[4] == Next(t[3], steps[3], p);
  }

  lemma RunAfterRotation(s: State, other: string, id: string, p: Parser)
    requires EachOnce(s.rows) && HashIsNotBlank(p) && s.offset.Some? && s.offset.value <= |other|
    ensures Stored(Next(Next(s, Rotate(other), p), RunTask, p).rows, id)
            <==> (Stored(s.rows, id) || Named(other[s.offset.value..], id, p))
  {
    RunStoresWhatItReads(Next(s, Rotate(other), p), p, id);
  }

  lemma FirstRun(t: seq<State>, steps: seq<Step>, one: string, id: string, p: Parser)
    requires IsRun(t, steps, p) && HashIsNotBlank(p) && |steps| >= 2 && steps[0] == Append(one) && steps[1] == RunTask
    ensures t[1].file == one && EachOnce(t[2].rows) && t[2].offset == Some(|one|)
    ensures Stored(t[2].rows, id) <==> Named(one, id, p)
  {
    assert t[1] == Next(t[0], steps[0], p) && t[2] == Next(t[1], steps[1], p);
    assert t[1].file == one && t[1].rows == [] && t[1].offset == None && one[0..] == one;
    RunStoresWhatItReads(t[1], p, id);
  }

  /** Lines are lost: any well-formed line of the second file that neither the first
      has nor stands whole after the first one's length is in the file when the
      second run looks, and is never stored. */
  lemma HiddenRotationLoses(one: string, other: string, id: string, p: Parser) returns (t: seq<State>, steps: seq<Step>)
    requires HashIsNotBlank(p) && WholeLines(one) && WholeLines(other) && |one| <= |other|
    requires Named(other, id, p) && !Named(one, id, p) && !Named(other[|one|..], id, p)
    ensures steps == [Append(one), RunTask, Rotate(other), RunTask] && IsRun(t, steps, p)
    ensures ReadAt(t, steps, p, id, 3) && !Stored(t[4].rows, id)
  {
    t, steps := RotatedRun(one, other, id, p);
  }

  /** And events are invented: a fragment that reads as a line, of an id neither file
      has, is stored although no run ever found such a line in the file. */
  lemma HiddenRotationInvents(one: string, other: string, id: string, p: Parser) returns (t: seq<State>, steps: seq<Step>)
    requires HashIsNotBlank(p) && WholeLines(one) && WholeLines(other) && |one| <= |other|
    requires Named(other[|one|..], id, p) && !Named(one, id, p) && !Named(other, id, p)
    ensures steps == [Append(one), RunTask, Rotate(other), RunTask] && IsRun(t, steps, p)
    ensures Stored(t[4].rows, id) && forall j: nat :: !ReadAt(t, steps, p, id, j)
  {
    t, steps := RotatedRun(one, other, id, p);
    forall j: nat ensures !ReadAt(t, steps, p, id, j) {
      assert j < 4 && steps[j].RunTask? ==> j == 1 || j == 3;
    }
  }

  /** Every sequence of steps can be taken. */
  lemma RunExists(steps: seq<Step>, p: Parser) returns (t: seq<State>)
    requires forall i :: 0 <= i < |steps| ==> WritesLines(steps[i])
    ensures IsRun(t, steps, p)
  {
    var next := (s, step) => Next(s, step, p);
    t := Replay(next, State("", None, false, []), steps);
    forall i | 0 <= i < |steps| ensures t[i + 1] == Next(t[i], steps[i], p) {
      assert t[i + 1] == next(t[i], steps[i]);
    }
  }

  lemma {:induction false} Replay(next: (State, Step) -> State, start: State, steps: seq<Step>) returns (t: seq<State>)
    ensures |t| == |steps| + 1 && t[0] == start
    ensures forall i :: 0 <= i < |steps| ==> t[i + 1] == next(t[i], steps[i])
  {
    t := [start];
    if steps != [] {
      var n := |steps| - 1;
      var before := Replay(next, start, steps[..n]);
      t := before + [next(before[n], steps[n])];
    }
  }
}
