/** The `sg` output collector of packages/ast-grep-mcp/src/sg-runner.ts: byte chunks in, JSON records out,
    under a match limit and two size limits.  Decoding and JSON parsing of one line are a parameter. */
module Collector {
  import opened Text

  const MAX_JSON_RECORD_BYTES := 0x10_0000
  const MAX_MCP_PAYLOAD_BYTES := 0x40_0000

  datatype Record<+J> = Record(value: J, size: nat)

  /** What UTF-8 decoding and `JSON.parse` make of a line; `size` is its serialised length in bytes. */
  datatype Parsed<+J> = BadEncoding | NotAnObject | Object(record: Record<J>)

  datatype Config<+J> = Config(classify: Bytes -> Parsed<J>, maxMatches: nat)

  datatype Fatal = EncodingError | OutputTooLarge
  datatype Stop = Abort | Limit | Timeout
  datatype Truncation = MatchLimit | OutputCap | SgOutputTruncated

  datatype State<+J> = State(
    records: seq<Record<J>>,
    serializedBytes: nat,
    pending: Bytes,
    malformed: bool,
    fatal: Option<Fatal>,
    stop: Option<Stop>,
    truncation: Option<Truncation>,
    errorDiagnostic: bool)

  datatype Failure = Aborted | TimedOut | Unreadable(cause: Fatal) | SgFailed | NothingParseable

  datatype Summary<+J> = Summary(
    records: seq<Record<J>>, truncated: bool, reason: Option<Truncation>, salvagedRecords: nat, atLeastMatches: nat)

  /** Stdout data, the abort signal, the timer, and an error diagnostic seen on stderr. */
  datatype Event = Data(chunk: Bytes) | AbortSignal | TimerFired | Diagnostic

  function Initial<J>(): State<J> { State([], 2, [], false, None, None, None, false) }

  // ----- one line

  function WithoutCr(line: Bytes): Bytes {
    if line != [] && line[|line| - 1] == CR then line[..|line| - 1] else line
  }

  predicate Blank(line: Bytes) { WithoutCr(line) == [] }

  function Stopped<J>(s: State<J>, why: Stop): State<J> { if s.stop.None? then s.(stop := Some(why)) else s }

  function Failed<J>(s: State<J>, why: Fatal): State<J> {
    Stopped(if s.fatal.None? then s.(fatal := Some(why)) else s, Limit)
  }

  /** `parseLine`: the new state, and whether to go on. */
  function ParseLine<J>(c: Config<J>, s: State<J>, line: Bytes): (State<J>, bool) {
    var value := WithoutCr(line);
    if value == [] then (s, true)
    else if |value| > MAX_JSON_RECORD_BYTES then (Failed(s, OutputTooLarge), false)
    else match c.classify(value)
      case BadEncoding => (Failed(s, EncodingError), false)
      case NotAnObject => (s.(malformed := true), true)
      case Object(record) =>
        var bytes := s.serializedBytes + record.size + (if |s.records| > 0 then 1 else 0);
        if bytes > MAX_MCP_PAYLOAD_BYTES then (Stopped(s.(truncation := Some(OutputCap)), Limit), false)
        else
          var added := s.(records := s.records + [record], serializedBytes := bytes);
          if |added.records| > c.maxMatches
          then (Stopped(added.(records := added.records[..c.maxMatches], truncation := Some(MatchLimit)), Limit), false)
          else (added, true)
  }

  // ----- events

  /** Parses the complete lines in `pending`. */
  function DrainLines<J>(c: Config<J>, s: State<J>): State<J>
    decreases |s.pending|
  {
    var i := IndexOf(s.pending, LF);
    if i == |s.pending| then
      if |s.pending| > MAX_JSON_RECORD_BYTES then Failed(s, OutputTooLarge) else s
    else
      var (next, more) := ParseLine(c, s.(pending := s.pending[i + 1..]), s.pending[..i]);
      if more then DrainLines(c, next) else next
  }

  function OnData<J>(c: Config<J>, s: State<J>, chunk: Bytes): State<J> {
    if s.stop == Some(Limit) then s else DrainLines(c, s.(pending := s.pending + chunk))
  }

  function Step<J>(c: Config<J>, s: State<J>, e: Event): State<J> {
    match e
    case Data(chunk) => OnData(c, s, chunk)
    case AbortSignal => Stopped(s, Abort)
    case TimerFired => Stopped(s, Timeout)
    case Diagnostic => s.(errorDiagnostic := true)
  }

  function Run<J>(c: Config<J>, events: seq<Event>): State<J> {
    if events == [] then Initial() else Step(c, Run(c, events[..|events| - 1]), events[|events| - 1])
  }

  /** The "close" handler. */
  function OnClose<J>(c: Config<J>, s: State<J>, exitCode: Option<int>): Result<Summary<J>, Failure> {
    if s.stop == Some(Abort) then Err(Aborted)
    else if s.stop == Some(Timeout) then Err(TimedOut)
    else if s.fatal.Some? then Err(Unreadable(s.fatal.value))
    else Settle(if s.stop != Some(Limit) && s.pending != [] then ParseLine(c, s, s.pending).0 else s, exitCode)
  }

  function Settle<J>(s: State<J>, exitCode: Option<int>): Result<Summary<J>, Failure> {
    if s.fatal.Some? then Err(Unreadable(s.fatal.value))
    else
      var failedExit := exitCode != Some(0) && exitCode != Some(1);
      if s.stop.None? && (failedExit || (exitCode == Some(1) && s.errorDiagnostic)) then Err(SgFailed)
      else if s.malformed && s.records == [] then Err(NothingParseable)
      else
        var limited := s.stop == Some(Limit) && s.truncation.Some?;
        var salvaged := s.malformed && s.records != [];
        Ok(Summary(s.records, limited || salvaged,
                   if limited then s.truncation else if salvaged then Some(SgOutputTruncated) else None,
                   if salvaged then |s.records| else 0,
                   if limited then |s.records| + 1 else |s.records|))
  }

  // ----- what the whole output holds

  function Stdout(events: seq<Event>): Bytes {
    if events == [] then []
    else
      var last := events[|events| - 1];
      Stdout(events[..|events| - 1]) + (if last.Data? then last.chunk else [])
  }

  /** The record a line stands for, if it is a JSON object. */
  function RecordOf<J>(c: Config<J>, line: Bytes): Option<Record<J>> {
    if Blank(line) then None
    else match c.classify(WithoutCr(line))
      case Object(record) => Some(record)
      case _ => None
  }

  function RecordsOf<J>(c: Config<J>, lines: seq<Bytes>): seq<Record<J>> {
    if lines == [] then []
    else
      var front, last := lines[..|lines| - 1], lines[|lines| - 1];
      match RecordOf(c, last)
      case Some(record) => RecordsOf(c, front) + [record]
      case None => RecordsOf(c, front)
  }

  /** Length of the JSON array text of some records. */
  function ArrayBytes<J>(records: seq<Record<J>>): nat {
    if records == [] then 2
    else ArrayBytes(records[..|records| - 1]) + records[|records| - 1].size + (if |records| > 1 then 1 else 0)
  }

  /** A non-blank line that is no JSON object. */
  predicate Malformed<J>(c: Config<J>, line: Bytes) { !Blank(line) && RecordOf(c, line).None? }

  predicate SomeMalformed<J>(c: Config<J>, lines: seq<Bytes>) {
    exists i :: 0 <= i < |lines| && Malformed(c, lines[i])
  }

  lemma {:induction false} MalformedSnoc<J>(c: Config<J>, lines: seq<Bytes>, line: Bytes)
    ensures SomeMalformed(c, lines + [line]) <==> SomeMalformed(c, lines) || Malformed(c, line)
  {
    hide Malformed;
    var all := lines + [line];
    assert all[|lines|] == line && forall i :: 0 <= i < |lines| ==> all[i] == lines[i];
  }

  // ----- the invariant

  /** The run can only end in a failure. */
  predicate Doomed<J>(s: State<J>) {
    s.fatal.Some? || s.stop == Some(Abort) || s.stop == Some(Timeout)
  }

  /** Exactly `lines` have been read, and nothing was cut. */
  ghost predicate Tracks<J>(c: Config<J>, s: State<J>, lines: seq<Bytes>) {
    && s.fatal.None? && s.stop.None? && s.truncation.None?
    && s.records == RecordsOf(c, lines) && |s.records| <= c.maxMatches
    && s.serializedBytes == ArrayBytes(s.records) <= MAX_MCP_PAYLOAD_BYTES
    && (s.malformed <==> SomeMalformed(c, lines))
  }

  /** A limit was met while reading the last of `lines`: at least one more record exists. */
  ghost predicate CutAt<J>(c: Config<J>, s: State<J>, lines: seq<Bytes>) {
    && s.fatal.None? && s.stop == Some(Limit) && (s.truncation == Some(MatchLimit) || s.truncation == Some(OutputCap))
    && s.records < RecordsOf(c, lines) && |s.records| <= c.maxMatches
    && ArrayBytes(s.records) <= MAX_MCP_PAYLOAD_BYTES
  }

  /** Everything read so far is complete lines of `stdout`. */
  ghost predicate Inv<J>(c: Config<J>, s: State<J>, stdout: Bytes) {
    || Doomed(s)
    || (exists lines :: Split(stdout, LF) == lines + [s.pending] && LF !in s.pending && Tracks(c, s, lines))
    || (exists lines, rest :: Split(stdout, LF) == lines + rest && rest != [] && CutAt(c, s, lines))
  }

  lemma {:induction false} RecordsSnoc<J>(c: Config<J>, lines: seq<Bytes>, line: Bytes)
    ensures RecordsOf(c, lines + [line]) ==
            match RecordOf(c, line)
            case Some(record) => RecordsOf(c, lines) + [record]
            case None => RecordsOf(c, lines)
  {
    assert (lines + [line])[..|lines|] == lines;
  }

  lemma {:induction false} ArraySnoc<J>(records: seq<Record<J>>, r: Record<J>)
    ensures ArrayBytes(records + [r]) == ArrayBytes(records) + r.size + (if |records| > 0 then 1 else 0)
  {
    assert (records + [r])[..|records|] == records;
  }

  /** Reading one more line keeps track of it, meets a limit, or dooms the run. */
  lemma {:induction false} ParseKeeps<J>(c: Config<J>, s: State<J>, lines: seq<Bytes>, line: Bytes)
    requires Tracks(c, s, lines)
    ensures var (next, more) := ParseLine(c, s, line);
            && next.pending == s.pending
            && (more ==> Tracks(c, next, lines + [line]))
            && (!more ==> next.fatal.Some? || CutAt(c, next, lines + [line]))
  {
    hide RecordsOf, ArrayBytes, SomeMalformed;
    RecordsSnoc(c, lines, line);
    MalformedSnoc(c, lines, line);
    var value := WithoutCr(line);
    if value != [] && |value| <= MAX_JSON_RECORD_BYTES && c.classify(value).Object? {
      var r := c.classify(value).record;
      ArraySnoc(s.records, r);
      assert RecordOf(c, line) == Some(r);
      assert (s.records + [r])[..|s.records|] == s.records;
      assert s.records < s.records + [r];
    } else {
      assert |value| <= MAX_JSON_RECORD_BYTES ==> RecordOf(c, line).None?;
    }
  }

  lemma {:induction false} ParsePending<J>(c: Config<J>, s: State<J>, line: Bytes)
    ensures ParseLine(c, s, line).0.pending == s.pending
    ensures Doomed(s) ==> Doomed(ParseLine(c, s, line).0)
  {
  }

  lemma {:induction false} DoomedStays<J>(c: Config<J>, s: State<J>)
    requires Doomed(s)
    ensures Doomed(DrainLines(c, s))
    decreases |s.pending|
  {
    hide ParseLine, Doomed;
    var i := IndexOf(s.pending, LF);
    if i == |s.pending| {
      FailedIsDoomed(s);
    } else {
      var t := s.(pending := s.pending[i + 1..]);
      SamePendingDoom(s, t);
      ParsePending(c, t, s.pending[..i]);
      var (next, more) := ParseLine(c, t, s.pending[..i]);
      if more { DoomedStays(c, next); }
    }
  }

  lemma FailedIsDoomed<J>(s: State<J>)
    ensures Doomed(Failed(s, OutputTooLarge))
  {
  }

  lemma FatalIsDoomed<J>(s: State<J>)
    ensures s.fatal.Some? ==> Doomed(s)
  {
  }

  lemma SamePendingDoom<J>(s: State<J>, t: State<J>)
    requires t == s.(pending := t.pending)
    ensures Doomed(s) <==> Doomed(t)
  {
  }

  /** Draining after new bytes keeps the invariant; `done` are the lines read before. */
  lemma {:induction false} DrainKeeps<J>(c: Config<J>, s: State<J>, stdout: Bytes, done: seq<Bytes>)
    requires Tracks(c, s, done) && Split(stdout, LF) == done + Split(s.pending, LF)
    ensures Inv(c, DrainLines(c, s), stdout)
    decreases |s.pending|
  {
    hide ParseLine, Tracks, CutAt, Doomed, Split;
    var i := IndexOf(s.pending, LF);
    SplitUnfold(s.pending, LF);
    if i == |s.pending| {
      FailedIsDoomed(s);
    } else {
      var t, line := s.(pending := s.pending[i + 1..]), s.pending[..i];
      TracksIgnoresPending(c, s, t, done);
      ParseKeeps(c, t, done, line);
      var (next, more) := ParseLine(c, t, line);
      assert Split(stdout, LF) == (done + [line]) + Split(t.pending, LF);
      if more {
        DrainKeeps(c, next, stdout, done + [line]);
      } else {
        assert DrainLines(c, s) == next;
        FatalIsDoomed(next);
        assert Split(t.pending, LF) != [];
      }
    }
  }

  lemma TracksIgnoresPending<J>(c: Config<J>, s: State<J>, t: State<J>, lines: seq<Bytes>)
    requires Tracks(c, s, lines) && t == s.(pending := t.pending)
    ensures Tracks(c, t, lines)
  {
  }

  lemma {:induction false} CutStays(stdout: Bytes, lines: seq<Bytes>, rest: seq<Bytes>, more: Bytes)
    returns (rest': seq<Bytes>)
    requires Split(stdout, LF) == lines + rest && rest != []
    ensures Split(stdout + more, LF) == lines + rest' && rest' != []
  {
    hide Split;
    SplitAppend(stdout, more, LF);
    var l, r := lines + rest, Split(more, LF);
    rest' := rest[..|rest| - 1] + [rest[|rest| - 1] + r[0]] + r[1..];
    assert l[..|l| - 1] == lines + rest[..|rest| - 1];
  }

  lemma {:induction false} DataKeeps<J>(c: Config<J>, s: State<J>, stdout: Bytes, chunk: Bytes)
    requires Inv(c, s, stdout)
    ensures Inv(c, OnData(c, s, chunk), stdout + chunk)
  {
    hide Split, Tracks, CutAt, DrainLines;
    var t := s.(pending := s.pending + chunk);
    if Doomed(s) {
      SamePendingDoom(s, t);
      if s.stop != Some(Limit) { DoomedStays(c, t); }
    } else if lines :| Split(stdout, LF) == lines + [s.pending] && LF !in s.pending && Tracks(c, s, lines) {
      TracksRuns(c, s, lines);
      SplitContinues(stdout, lines, s.pending, chunk, LF);
      TracksIgnoresPending(c, s, t, lines);
      DrainKeeps(c, t, stdout + chunk, lines);
    } else {
      var lines, rest :| Split(stdout, LF) == lines + rest && rest != [] && CutAt(c, s, lines);
      CutIsLimit(c, s, lines);
      var rest' := CutStays(stdout, lines, rest, chunk);
    }
  }

  lemma TracksRuns<J>(c: Config<J>, s: State<J>, lines: seq<Bytes>)
    requires Tracks(c, s, lines)
    ensures s.stop.None?
  {
  }

  lemma CutIsLimit<J>(c: Config<J>, s: State<J>, lines: seq<Bytes>)
    requires CutAt(c, s, lines)
    ensures s.stop == Some(Limit)
  {
  }

  lemma {:induction false} RunKeeps<J>(c: Config<J>, events: seq<Event>)
    ensures Inv(c, Run(c, events), Stdout(events))
  {
    hide Inv, OnData, Split;
    if events == [] {
      InitialInv(c);
    } else {
      var front, e := events[..|events| - 1], events[|events| - 1];
      RunKeeps(c, front);
      var s, stdout := Run(c, front), Stdout(front);
      if e.Data? {
        DataKeeps(c, s, stdout, e.chunk);
      } else {
        OtherKeeps(c, s, stdout, e);
        assert stdout + [] == stdout;
      }
    }
  }

  lemma {:induction false} InitialInv<J>(c: Config<J>)
    ensures Inv(c, Initial(), [])
  {
    SplitWithout<Byte>([], LF);
    assert Split([], LF) == [] + [[]];
    assert Tracks(c, Initial(), []);
  }

  lemma {:induction false} OtherKeeps<J>(c: Config<J>, s: State<J>, stdout: Bytes, e: Event)
    requires Inv(c, s, stdout) && !e.Data?
    ensures Inv(c, Step(c, s, e), stdout)
  {
    hide Split, RecordsOf, ArrayBytes;
    var t := Step(c, s, e);
    if Doomed(s) {
    } else if lines :| Split(stdout, LF) == lines + [s.pending] && LF !in s.pending && Tracks(c, s, lines) {
      if e.Diagnostic? { assert Tracks(c, t, lines); }
    } else {
      var lines, rest :| Split(stdout, LF) == lines + rest && rest != [] && CutAt(c, s, lines);
      assert CutAt(c, t, lines);
    }
  }

  // ----- honesty

  lemma {:induction false} RecordsPrefix<J>(c: Config<J>, a: seq<Bytes>, b: seq<Bytes>)
    ensures RecordsOf(c, a) <= RecordsOf(c, a + b)
  {
    hide RecordsOf, RecordOf;
    if b == [] {
      assert a + b == a;
    } else {
      var front, last := b[..|b| - 1], b[|b| - 1];
      RecordsPrefix(c, a, front);
      assert a + b == (a + front) + [last];
      RecordsSnoc(c, a + front, last);
    }
  }

  /** What a summary may claim about the lines of the whole output. */
  ghost predicate Honest<J>(c: Config<J>, r: Summary<J>, lines: seq<Bytes>) {
    var all := RecordsOf(c, lines);
    && r.records <= all
    && |r.records| <= c.maxMatches
    && ArrayBytes(r.records) <= MAX_MCP_PAYLOAD_BYTES
    && |r.records| <= r.atLeastMatches <= |all|
    && (!r.truncated ==> r.records == all && !SomeMalformed(c, lines))
    && (r.truncated <==> r.reason.Some?)
    && (r.reason == Some(MatchLimit) || r.reason == Some(OutputCap) ==> |r.records| < |all|)
    && (r.reason == Some(SgOutputTruncated) ==>
          r.records == all && r.salvagedRecords == |all| && SomeMalformed(c, lines))
  }

  lemma {:induction false} TrackedIsHonest<J>(c: Config<J>, s: State<J>, lines: seq<Bytes>, exitCode: Option<int>)
    requires Tracks(c, s, lines) && Settle(s, exitCode).Ok?
    ensures Honest(c, Settle(s, exitCode).value, lines)
  {
    hide RecordsOf, ArrayBytes, SomeMalformed;
  }

  lemma {:induction false} CutIsHonest<J>(c: Config<J>, s: State<J>, lines: seq<Bytes>, rest: seq<Bytes>,
                                          exitCode: Option<int>)
    requires CutAt(c, s, lines) && Settle(s, exitCode).Ok?
    ensures Honest(c, Settle(s, exitCode).value, lines + rest)
  {
    hide RecordsOf, ArrayBytes, RecordOf;
    RecordsPrefix(c, lines, rest);
  }

  lemma {:induction false} BlankLastLine<J>(c: Config<J>, s: State<J>, lines: seq<Bytes>)
    requires Tracks(c, s, lines)
    ensures Tracks(c, s, lines + [[]])
  {
    hide RecordsOf, ArrayBytes, SomeMalformed;
    RecordsSnoc(c, lines, []);
    MalformedSnoc(c, lines, []);
  }

  lemma FatalFails<J>(s: State<J>, exitCode: Option<int>)
    requires s.fatal.Some?
    ensures Settle(s, exitCode).Err?
  {
  }

  /** Over every event sequence: a resolved result's records are an in-order prefix of the object lines
      of stdout within both limits, its match count is a true lower bound, and "not truncated" means
      every non-blank line is there. */
  lemma {:induction false} CollectorIsHonest<J>(c: Config<J>, events: seq<Event>, exitCode: Option<int>)
    requires OnClose(c, Run(c, events), exitCode).Ok?
    ensures Honest(c, OnClose(c, Run(c, events), exitCode).value, Split(Stdout(events), LF))
  {
    hide Split, Tracks, CutAt, Settle, Honest, ParseLine, Run, Stdout;
    var s, stdout := Run(c, events), Stdout(events);
    RunKeeps(c, events);
    if lines :| Split(stdout, LF) == lines + [s.pending] && LF !in s.pending && Tracks(c, s, lines) {
      TracksRuns(c, s, lines);
      if s.pending == [] {
        BlankLastLine(c, s, lines);
        TrackedIsHonest(c, s, lines + [s.pending], exitCode);
      } else {
        ParseKeeps(c, s, lines, s.pending);
        var (t, more) := ParseLine(c, s, s.pending);
        if more {
          TrackedIsHonest(c, t, lines + [s.pending], exitCode);
        } else if t.fatal.Some? {
          FatalFails(t, exitCode);
        } else {
          CutIsHonest(c, t, lines + [s.pending], [], exitCode);
          assert (lines + [s.pending]) + [] == lines + [s.pending];
        }
      }
    } else {
      var lines, rest :| Split(stdout, LF) == lines + rest && rest != [] && CutAt(c, s, lines);
      CutIsLimit(c, s, lines);
      CutIsHonest(c, s, lines, rest, exitCode);
    }
  }

  // ----- the event handlers as they stand in the source

  /** The variables of one `spawnSgRunner` call and the handlers that change them. */
  class SgCollector<J> {
    const config: Config<J>
    var records: seq<Record<J>>
    var serializedBytes: nat
    var pending: Bytes
    var malformed: bool
    var fatal: Option<Fatal>
    var stop: Option<Stop>
    var truncation: Option<Truncation>
    var errorDiagnostic: bool

    function View(): State<J>
      reads this
    {
      State(records, serializedBytes, pending, malformed, fatal, stop, truncation, errorDiagnostic)
    }

    constructor (config: Config<J>)
      ensures this.config == config && View() == Initial()
    {
      this.config := config;
      records, serializedBytes, pending, malformed := [], 2, [], false;
      fatal, stop, truncation, errorDiagnostic := None, None, None, false;
    }

    method StopWith(why: Stop)
      modifies this
      ensures View() == Stopped(old(View()), why)
    {
      if stop.None? { stop := Some(why); }
    }

    method FailOutput(why: Fatal)
      modifies this
      ensures View() == Failed(old(View()), why)
    {
      if fatal.None? { fatal := Some(why); }
      StopWith(Limit);
    }

    method ReadLine(line: Bytes) returns (more: bool)
      modifies this
      ensures (View(), more) == ParseLine(config, old(View()), line)
    {
      var value := if line != [] && line[|line| - 1] == CR then line[..|line| - 1] else line;
      if value == [] { return true; }
      if |value| > MAX_JSON_RECORD_BYTES {
        FailOutput(OutputTooLarge);
        return false;
      }
      match config.classify(value) {
        case BadEncoding =>
          FailOutput(EncodingError);
          return false;
        case NotAnObject =>
          malformed := true;
        case Object(record) =>
          var bytes := serializedBytes + record.size + (if |records| > 0 then 1 else 0);
          if bytes > MAX_MCP_PAYLOAD_BYTES {
            truncation := Some(OutputCap);
            StopWith(Limit);
            return false;
          }
          records := records + [record];
          serializedBytes := bytes;
          if |records| > config.maxMatches {
            records := records[..config.maxMatches];
            truncation := Some(MatchLimit);
            StopWith(Limit);
            return false;
          }
      }
      return true;
    }

    /** The stdout "data" handler. */
    method HandleData(chunk: Bytes)
      modifies this
      ensures View() == OnData(config, old(View()), chunk)
    {
      hide ParseLine;
      if stop == Some(Limit) { return; }
      pending := pending + chunk;
      ghost var goal := DrainLines(config, View());
      var newline := IndexOf(pending, LF);
      while newline < |pending|
        invariant newline == IndexOf(pending, LF)
        invariant DrainLines(config, View()) == goal
        decreases |pending|
      {
        var line := pending[..newline];
        pending := pending[newline + 1..];
        ParsePending(config, View(), line);
        var more := ReadLine(line);
        if !more { return; }
        newline := IndexOf(pending, LF);
      }
      if |pending| > MAX_JSON_RECORD_BYTES { FailOutput(OutputTooLarge); }
    }

    /** The "close" handler. */
    method HandleClose(exitCode: Option<int>) returns (r: Result<Summary<J>, Failure>)
      modifies this
      ensures r == OnClose(config, old(View()), exitCode)
    {
      if stop == Some(Abort) { return Err(Aborted); }
      if stop == Some(Timeout) { return Err(TimedOut); }
      if fatal.Some? { return Err(Unreadable(fatal.value)); }
      if stop != Some(Limit) && |pending| > 0 { var _ := ReadLine(pending); }
      if fatal.Some? { return Err(Unreadable(fatal.value)); }
      var failedExit := exitCode != Some(0) && exitCode != Some(1);
      var diagnosedExitOne := exitCode == Some(1) && errorDiagnostic;
      if stop.None? && (failedExit || diagnosedExitOne) { return Err(SgFailed); }
      if malformed && |records| == 0 { return Err(NothingParseable); }
      var limited := stop == Some(Limit) && truncation.Some?;
      var salvaged := malformed && |records| > 0;
      return Ok(Summary(records, limited || salvaged,
                        if limited then truncation else if salvaged then Some(SgOutputTruncated) else None,
                        if salvaged then |records| else 0,
                        if limited then |records| + 1 else |records|));
    }
  }
}
