/** Line edits with resolved line numbers: the splicing primitives of
    packages/hashline-core/src/edit-operation-primitives.ts, the loop that applies them one by one,
    and the single pass over the original file that the loop is equal to. */
module EditOps {
  import opened Text
  import opened EditText

  datatype Op =
    | SetLine(line: nat, text: seq<string>)
    | ReplaceRange(start: nat, end: nat, text: seq<string>)
    | InsertAfter(line: nat, text: seq<string>)
    | InsertBefore(line: nat, text: seq<string>)
    | AppendFile(text: seq<string>)
    | PrependFile(text: seq<string>)

  datatype ApplyError = InvertedRange | EmptyInsert | MissingAnchor

  /** `autocorrectReplacementLines(originalLines, replacementLines)`. */
  type Autocorrect = (seq<string>, seq<string>) -> seq<string>

  predicate Anchored(op: Op) { !op.AppendFile? && !op.PrependFile? }
  predicate Replaces(op: Op) { op.SetLine? || op.ReplaceRange? }

  function First(op: Op): nat
    requires Anchored(op)
  {
    if op.ReplaceRange? then op.start else op.line
  }

  function Last(op: Op): nat
    requires Anchored(op)
  {
    if op.ReplaceRange? then op.end else op.line
  }

  // ----- one edit

  function LineAt(lines: seq<string>, i: int): Option<string> {
    if 0 <= i < |lines| then Some(lines[i]) else None
  }

  function Clamp(i: int, n: nat): (r: nat)
    ensures r <= n && (0 <= i <= n ==> r == i)
  {
    if i < 0 then 0 else if i > n then n else i
  }

  function Slice(lines: seq<string>, from: nat, to: nat): seq<string>
    requires from <= to
  {
    lines[Clamp(from, |lines|)..Clamp(to, |lines|)]
  }

  /** `lines.splice(at, drop, ...text)` on a copy. */
  function Splice(lines: seq<string>, at: nat, drop: nat, text: seq<string>): seq<string> {
    lines[..Clamp(at, |lines|)] + text + lines[Clamp(at + drop, |lines|)..]
  }

  function RestoreFirst(template: string, text: seq<string>): seq<string> {
    if text == [] then [] else [RestoreLeadingIndent(template, text[0])] + text[1..]
  }

  function OrEmpty(line: Option<string>): string {
    match line
    case Some(s) => s
    case None => ""
  }

  function RangeText(ac: Autocorrect, before: Option<string>, original: seq<string>, after: Option<string>,
                     count: nat, text: seq<string>): seq<string>
  {
    RestoreFirst(OrEmpty(LineAt(original, 0)), ac(original, StripRangeEcho(before, after, count, text)))
  }

  function InsertAfterText(anchor: string, text: seq<string>): seq<string> { StripInsertAnchorEcho(anchor, text) }
  function InsertBeforeText(anchor: string, text: seq<string>): seq<string> { StripInsertBeforeEcho(anchor, text) }

  function ApplyOp(ac: Autocorrect, lines: seq<string>, op: Op): Result<seq<string>, ApplyError>
    requires Anchored(op) ==> First(op) >= 1 && Last(op) >= 1
  {
    match op
    case SetLine(l, text) =>
      var original := OrEmpty(LineAt(lines, l - 1));
      Ok(Splice(lines, l - 1, 1, RestoreFirst(original, ac([original], text))))
    case ReplaceRange(s, e, text) =>
      if s > e then Err(InvertedRange)
      else Ok(Splice(lines, s - 1, e - s + 1,
             RangeText(ac, LineAt(lines, s - 2), Slice(lines, s - 1, e), LineAt(lines, e), e - s + 1, text)))
    case InsertAfter(l, text) =>
      if text == [] then Err(EmptyInsert)
      else (match LineAt(lines, l - 1)
            case None => Err(MissingAnchor)
            case Some(anchor) =>
              var block := InsertAfterText(anchor, text);
              if block == [] then Err(EmptyInsert) else Ok(Splice(lines, l, 0, block)))
    case InsertBefore(l, text) =>
      if text == [] then Err(EmptyInsert)
      else if |text| == 1 then Ok(Splice(lines, l - 1, 0, text))
      else (match LineAt(lines, l - 1)
            case None => Err(MissingAnchor)
            case Some(anchor) => Ok(Splice(lines, l - 1, 0, InsertBeforeText(anchor, text))))
    case AppendFile(text) =>
      if text == [] then Err(EmptyInsert) else Ok(if lines == [""] then text else lines + text)
    case PrependFile(text) =>
      if text == [] then Err(EmptyInsert) else Ok(if lines == [""] then text else text + lines)
  }

  predicate Positive(op: Op) { Anchored(op) ==> First(op) >= 1 && Last(op) >= 1 }

  datatype Progress = Progress(lines: seq<string>, noops: nat)

  /** The apply loop: edit after edit, counting those that change nothing. */
  function RunOps(ac: Autocorrect, lines: seq<string>, ops: seq<Op>): Result<Progress, ApplyError>
    requires forall op :: op in ops ==> Positive(op)
  {
    if ops == [] then Ok(Progress(lines, 0))
    else
      match RunOps(ac, lines, ops[..|ops| - 1])
      case Err(e) => Err(e)
      case Ok(p) => Step(ac, p, ops[|ops| - 1])
  }

  function Step(ac: Autocorrect, p: Progress, op: Op): Result<Progress, ApplyError>
    requires Positive(op)
  {
    match ApplyOp(ac, p.lines, op)
    case Err(e) => Err(e)
    case Ok(next) => Ok(if next == p.lines then p.(noops := p.noops + 1) else p.(lines := next))
  }

  /** The same loop, started in the middle. */
  function RunFrom(ac: Autocorrect, p: Progress, ops: seq<Op>): Result<Progress, ApplyError>
    requires forall op :: op in ops ==> Positive(op)
  {
    if ops == [] then Ok(p)
    else
      match RunFrom(ac, p, ops[..|ops| - 1])
      case Err(e) => Err(e)
      case Ok(q) => Step(ac, q, ops[|ops| - 1])
  }

  lemma {:induction false} RunAppend(ac: Autocorrect, lines: seq<string>, a: seq<Op>, b: seq<Op>)
    requires (forall op :: op in a ==> Positive(op)) && (forall op :: op in b ==> Positive(op))
    ensures RunOps(ac, lines, a + b) ==
            match RunOps(ac, lines, a)
            case Err(e) => Err(e)
            case Ok(p) => RunFrom(ac, p, b)
  {
    hide Step, Positive;
    if b == [] {
      assert a + b == a;
    } else {
      var front, all := b[..|b| - 1], a + b;
      assert all[..|all| - 1] == a + front && all[|all| - 1] == b[|b| - 1];
      RunAppend(ac, lines, a, front);
    }
  }

  // ----- one pass over the original lines

  predicate InFile(op: Op, n: nat) {
    Anchored(op) && 1 <= First(op) <= Last(op) <= n
  }

  /** Line intervals that do not meet; an insertion after and one before the same line may share it. */
  predicate Disjoint(a: Op, b: Op)
    requires Anchored(a) && Anchored(b)
  {
    || Last(a) < First(b)
    || Last(b) < First(a)
    || (a.InsertAfter? && b.InsertBefore? && a.line == b.line)
    || (a.InsertBefore? && b.InsertAfter? && a.line == b.line)
  }

  ghost predicate DisjointSet(ops: set<Op>, n: nat) {
    && (forall op :: op in ops ==> InFile(op, n))
    && (forall a, b :: a in ops && b in ops && a != b ==> Disjoint(a, b))
  }

  predicate ReplacesFrom(op: Op, n: nat, i: nat) { InFile(op, n) && Replaces(op) && First(op) == i }

  ghost function ReplacerAt(ops: set<Op>, n: nat, i: nat): (r: Option<Op>)
    ensures r.Some? ==> r.value in ops && ReplacesFrom(r.value, n, i)
    ensures r.None? ==> forall op :: op in ops ==> !ReplacesFrom(op, n, i)
  {
    if exists op :: op in ops && ReplacesFrom(op, n, i) then
      var op :| op in ops && ReplacesFrom(op, n, i);
      Some(op)
    else None
  }

  ghost function InserterBefore(ops: set<Op>, i: nat): (r: Option<Op>)
    ensures r.Some? ==> r.value in ops && r.value.InsertBefore? && r.value.line == i
    ensures r.None? ==> forall op :: op in ops && op.InsertBefore? ==> op.line != i
  {
    if exists op :: op in ops && op.InsertBefore? && op.line == i then
      var op :| op in ops && op.InsertBefore? && op.line == i;
      Some(op)
    else None
  }

  ghost function InserterAfter(ops: set<Op>, i: nat): (r: Option<Op>)
    ensures r.Some? ==> r.value in ops && r.value.InsertAfter? && r.value.line == i
    ensures r.None? ==> forall op :: op in ops && op.InsertAfter? ==> op.line != i
  {
    if exists op :: op in ops && op.InsertAfter? && op.line == i then
      var op :| op in ops && op.InsertAfter? && op.line == i;
      Some(op)
    else None
  }

  ghost function BeforeBlock(lines: seq<string>, ops: set<Op>, i: nat): seq<string>
    requires 1 <= i <= |lines|
  {
    match InserterBefore(ops, i)
    case Some(op) => InsertBeforeText(lines[i - 1], op.text)
    case None => []
  }

  ghost function AfterBlock(lines: seq<string>, ops: set<Op>, i: nat): seq<string>
    requires 1 <= i <= |lines|
  {
    match InserterAfter(ops, i)
    case Some(op) => InsertAfterText(lines[i - 1], op.text)
    case None => []
  }

  /** What an interval becomes.  A range looks at the original line above it and at the first line
      of the already edited text below it. */
  function Block(ac: Autocorrect, lines: seq<string>, op: Op, tail: seq<string>): seq<string>
    requires InFile(op, |lines|) && Replaces(op)
  {
    match op
    case SetLine(l, text) => RestoreFirst(lines[l - 1], ac([lines[l - 1]], text))
    case ReplaceRange(s, e, text) =>
      RangeText(ac, LineAt(lines, s - 2), lines[s - 1..e], LineAt(tail, 0), e - s + 1, text)
  }

  /** The edited text of the original lines from `i` on. */
  ghost function Tail(ac: Autocorrect, lines: seq<string>, ops: set<Op>, i: nat): seq<string>
    requires 1 <= i <= |lines| + 1
    decreases |lines| + 1 - i
  {
    if i == |lines| + 1 then []
    else
      match ReplacerAt(ops, |lines|, i)
      case Some(op) =>
        var tail := Tail(ac, lines, ops, Last(op) + 1);
        Block(ac, lines, op, tail) + tail
      case None =>
        BeforeBlock(lines, ops, i) + [lines[i - 1]] + AfterBlock(lines, ops, i) + Tail(ac, lines, ops, i + 1)
  }

  /** The simultaneous edit. */
  ghost function Merge(ac: Autocorrect, lines: seq<string>, ops: set<Op>): seq<string> {
    Tail(ac, lines, ops, 1)
  }

  // ----- unique choices

  lemma {:induction false} TheReplacer(ops: set<Op>, n: nat, op: Op)
    requires DisjointSet(ops, n) && op in ops && Replaces(op)
    ensures ReplacerAt(ops, n, First(op)) == Some(op)
  {
    hide ReplacerAt;
    var r := ReplacerAt(ops, n, First(op));
    assert ReplacesFrom(op, n, First(op));
    assert r.Some? && (r.value == op || Disjoint(r.value, op));
  }

  lemma {:induction false} TheInserters(ops: set<Op>, n: nat, op: Op)
    requires DisjointSet(ops, n) && op in ops
    ensures op.InsertBefore? ==> InserterBefore(ops, op.line) == Some(op)
    ensures op.InsertAfter? ==> InserterAfter(ops, op.line) == Some(op)
    ensures !Replaces(op) ==> ReplacerAt(ops, n, op.line).None?
  {
    hide ReplacerAt, InserterBefore, InserterAfter;
    if op.InsertBefore? {
      var r := InserterBefore(ops, op.line);
      assert r.Some? && (r.value == op || Disjoint(r.value, op));
    }
    if op.InsertAfter? {
      var r := InserterAfter(ops, op.line);
      assert r.Some? && (r.value == op || Disjoint(r.value, op));
    }
    if !Replaces(op) {
      var r := ReplacerAt(ops, n, op.line);
      assert r.Some? ==> r.value == op || Disjoint(r.value, op);
    }
  }

  lemma {:induction false} TailAtReplacer(ac: Autocorrect, lines: seq<string>, ops: set<Op>, op: Op)
    requires InFile(op, |lines|) && Replaces(op) && ReplacerAt(ops, |lines|, First(op)) == Some(op)
    ensures Tail(ac, lines, ops, First(op))
         == Block(ac, lines, op, Tail(ac, lines, ops, Last(op) + 1)) + Tail(ac, lines, ops, Last(op) + 1)
  {
    hide Block, ReplacerAt;
  }

  lemma {:induction false} TailAtKeptLine(ac: Autocorrect, lines: seq<string>, ops: set<Op>, i: nat)
    requires 1 <= i <= |lines| && ReplacerAt(ops, |lines|, i).None?
    ensures Tail(ac, lines, ops, i) ==
            BeforeBlock(lines, ops, i) + [lines[i - 1]] + AfterBlock(lines, ops, i) + Tail(ac, lines, ops, i + 1)
  {
    hide ReplacerAt, BeforeBlock, AfterBlock;
  }

  // ----- lines above all edits stay, lines below an edit do not see it

  lemma {:induction false} NothingAt(lines: seq<string>, ops: set<Op>, i: nat)
    requires 1 <= i <= |lines| && forall op :: op in ops ==> InFile(op, |lines|) && First(op) > i
    ensures ReplacerAt(ops, |lines|, i).None? && BeforeBlock(lines, ops, i) == [] && AfterBlock(lines, ops, i) == []
  {
    hide ReplacerAt, InserterBefore, InserterAfter;
  }

  lemma {:induction false} UntouchedPrefix(ac: Autocorrect, lines: seq<string>, ops: set<Op>, i: nat, e: nat)
    requires 1 <= i <= e + 1 <= |lines| + 1
    requires forall op :: op in ops ==> InFile(op, |lines|) && First(op) > e
    ensures Tail(ac, lines, ops, i) == lines[i - 1..e] + Tail(ac, lines, ops, e + 1)
    decreases e + 1 - i
  {
    hide Tail, ReplacerAt, BeforeBlock, AfterBlock;
    if i <= e {
      UntouchedPrefix(ac, lines, ops, i + 1, e);
      NothingAt(lines, ops, i);
      TailAtKeptLine(ac, lines, ops, i);
      assert lines[i - 1..e] == [lines[i - 1]] + lines[i..e];
    } else {
      assert lines[i - 1..e] == [];
    }
  }

  lemma {:induction false} SameChoices(ops: set<Op>, op: Op, n: nat, i: nat)
    requires DisjointSet(ops + {op}, n) && i > Last(op)
    ensures ReplacerAt(ops + {op}, n, i) == ReplacerAt(ops, n, i)
    ensures InserterBefore(ops + {op}, i) == InserterBefore(ops, i)
    ensures InserterAfter(ops + {op}, i) == InserterAfter(ops, i)
  {
    hide ReplacerAt, InserterBefore, InserterAfter;
    var all := ops + {op};
    var a, b := ReplacerAt(all, n, i), ReplacerAt(ops, n, i);
    if a.Some? { TheReplacer(ops, n, a.value); } else { assert b.None?; }
    var c, d := InserterBefore(all, i), InserterBefore(ops, i);
    if c.Some? { TheInserters(ops, n, c.value); } else { assert d.None?; }
    var f, g := InserterAfter(all, i), InserterAfter(ops, i);
    if f.Some? { TheInserters(ops, n, f.value); } else { assert g.None?; }
  }

  lemma {:induction false} TailUnaware(ac: Autocorrect, lines: seq<string>, ops: set<Op>, op: Op, i: nat)
    requires DisjointSet(ops + {op}, |lines|) && Anchored(op) && Last(op) < i <= |lines| + 1
    ensures Tail(ac, lines, ops + {op}, i) == Tail(ac, lines, ops, i)
    decreases |lines| + 1 - i
  {
    hide ReplacerAt, InserterBefore, InserterAfter, Block, Tail, DisjointSet;
    var all := ops + {op};
    if i <= |lines| {
      SameChoices(ops, op, |lines|, i);
      var r := ReplacerAt(ops, |lines|, i);
      if r.Some? {
        TailUnaware(ac, lines, ops, op, Last(r.value) + 1);
        TailAtReplacer(ac, lines, ops, r.value);
        TailAtReplacer(ac, lines, all, r.value);
      } else {
        TailUnaware(ac, lines, ops, op, i + 1);
        TailAtKeptLine(ac, lines, ops, i);
        TailAtKeptLine(ac, lines, all, i);
      }
    } else {
      TailAtEnd(ac, lines, ops);
      TailAtEnd(ac, lines, all);
    }
  }

  // ----- one splice on top of what is already edited

  lemma {:induction false} SpliceInPrefix(lines: seq<string>, tail: seq<string>, s: nat, e: nat, text: seq<string>)
    requires s <= e <= |lines|
    ensures Splice(lines[..e] + tail, s, e - s, text) == lines[..s] + text + tail
  {
    var cur := lines[..e] + tail;
    assert cur[..s] == lines[..s] && cur[e..] == tail;
  }

  /** The new edit lies above every edit done so far. */
  ghost predicate AboveAll(op: Op, ops: set<Op>) {
    && Anchored(op)
    && forall q :: q in ops ==>
         Anchored(q) && (Last(op) < First(q) || (op.InsertBefore? && q.InsertAfter? && op.line == q.line))
  }

  ghost predicate Extends(lines: seq<string>, ops: set<Op>, op: Op) {
    DisjointSet(ops + {op}, |lines|) && op !in ops && AboveAll(op, ops)
  }

  /** An insertion whose text is gone once the echoed anchor line is stripped. */
  predicate Vanishes(lines: seq<string>, op: Op)
    requires InFile(op, |lines|)
  {
    || (op.InsertAfter? && InsertAfterText(lines[op.line - 1], op.text) == [])
    || (op.InsertBefore? && op.text == [])
  }

  lemma {:induction false} ReplaceShapes(ac: Autocorrect, lines: seq<string>, ops: set<Op>, op: Op)
    requires Extends(lines, ops, op) && Replaces(op)
    ensures var tail := Tail(ac, lines, ops, Last(op) + 1);
            && Merge(ac, lines, ops) == lines[..Last(op)] + tail
            && Merge(ac, lines, ops + {op}) == lines[..First(op) - 1] + Block(ac, lines, op, tail) + tail
            && Tail(ac, lines, ops + {op}, Last(op) + 1) == tail
  {
    hide Tail, Block;
    var all, s, e := ops + {op}, First(op), Last(op);
    assert op in all;
    UntouchedPrefix(ac, lines, ops, 1, e);
    assert lines[0..e] == lines[..e];
    forall q | q in all ensures First(q) > s - 1 { if q != op { assert q in ops; } }
    UntouchedPrefix(ac, lines, all, 1, s - 1);
    assert lines[0..s - 1] == lines[..s - 1];
    TailUnaware(ac, lines, ops, op, e + 1);
    TheReplacer(all, |lines|, op);
    TailAtReplacer(ac, lines, all, op);
  }

  lemma {:induction false} ApplyReplace(ac: Autocorrect, lines: seq<string>, op: Op, tail: seq<string>)
    requires InFile(op, |lines|) && Replaces(op)
    ensures ApplyOp(ac, lines[..Last(op)] + tail, op) ==
            Ok(lines[..First(op) - 1] + Block(ac, lines, op, tail) + tail)
  {
    hide RestoreFirst, RangeText, Splice;
    var cur, s: int, e := lines[..Last(op)] + tail, First(op), Last(op);
    var block := Block(ac, lines, op, tail);
    SpliceInPrefix(lines, tail, s - 1, e, block);
    if op.ReplaceRange? {
      assert Slice(cur, s - 1, e) == lines[s - 1..e];
      assert LineAt(cur, s - 2) == LineAt(lines, s - 2);
      assert LineAt(cur, e) == LineAt(tail, 0);
    } else {
      assert cur[s - 1] == lines[s - 1];
    }
  }

  lemma {:induction false} StepReplace(ac: Autocorrect, lines: seq<string>, ops: set<Op>, op: Op)
    requires Extends(lines, ops, op) && Replaces(op)
    ensures ApplyOp(ac, Merge(ac, lines, ops), op) == Ok(Merge(ac, lines, ops + {op}))
  {
    hide Merge, Tail, Block, ApplyOp;
    ReplaceShapes(ac, lines, ops, op);
    ApplyReplace(ac, lines, op, Tail(ac, lines, ops, Last(op) + 1));
  }

  lemma {:induction false} StepInsertAfter(ac: Autocorrect, lines: seq<string>, ops: set<Op>, op: Op)
    requires Extends(lines, ops, op) && op.InsertAfter? && !Vanishes(lines, op)
    ensures ApplyOp(ac, Merge(ac, lines, ops), op) == Ok(Merge(ac, lines, ops + {op}))
    ensures |Merge(ac, lines, ops + {op})| > |Merge(ac, lines, ops)|
    ensures InFile(op, |lines|) && op.text != []
    ensures var l, tail := op.line, Tail(ac, lines, ops, op.line + 1);
            var echo := if RemoveSpaces(op.text[0]) == RemoveSpaces(lines[l - 1]) then 1 else 0;
            && Merge(ac, lines, ops) == lines[..l] + tail
            && Merge(ac, lines, ops + {op}) == lines[..l] + op.text[echo..] + tail
  {
    hide Tail, ReplacerAt, InserterBefore, InserterAfter, InsertAfterText, RemoveSpaces, StripInsertAnchorEcho;
    AfterTextIs(lines[op.line - 1], op.text);
    var all, l := ops + {op}, op.line;
    assert op in all;
    var tail := Tail(ac, lines, ops, l + 1);
    UntouchedPrefix(ac, lines, ops, 1, l);
    assert lines[0..l] == lines[..l];
    var cur := lines[..l] + tail;
    assert cur[l - 1] == lines[l - 1];
    forall q | q in all ensures First(q) > l - 1 { if q != op { assert q in ops; } }
    UntouchedPrefix(ac, lines, all, 1, l - 1);
    TheInserters(all, |lines|, op);
    TailAtKeptLine(ac, lines, all, l);
    assert BeforeBlock(lines, all, l) == [];
    TailUnaware(ac, lines, ops, op, l + 1);
    var block := InsertAfterText(lines[l - 1], op.text);
    SpliceInPrefix(lines, tail, l, l, block);
    assert op.text != [] by { NoTextNoBlock(lines[l - 1]); }
    assert lines[..l] == lines[..l - 1] + [lines[l - 1]];
    assert lines[0..l - 1] == lines[..l - 1];
    assert Merge(ac, lines, all) == lines[..l] + block + tail;
  }

  lemma AfterTextIs(anchor: string, text: seq<string>)
    ensures InsertAfterText(anchor, text)
         == text[if text != [] && RemoveSpaces(text[0]) == RemoveSpaces(anchor) then 1 else 0..]
  {
    hide StripInsertAnchorEcho, RemoveSpaces;
    InsertEchoIsExact(anchor, text);
  }

  lemma BeforeTextIs(anchor: string, text: seq<string>)
    ensures InsertBeforeText(anchor, text)
         == text[..if |text| > 1 && RemoveSpaces(text[|text| - 1]) == RemoveSpaces(anchor) then |text| - 1 else |text|]
  {
    hide StripInsertBeforeEcho, RemoveSpaces;
    InsertEchoIsExact(anchor, text);
  }

  lemma NoTextNoBlock(anchor: string)
    ensures InsertAfterText(anchor, []) == []
  {
  }

  lemma {:induction false} SameAfter(ops: set<Op>, op: Op, n: nat)
    requires DisjointSet(ops + {op}, n) && op.InsertBefore?
    ensures InserterAfter(ops + {op}, op.line) == InserterAfter(ops, op.line)
  {
    hide InserterAfter;
    var a, b := InserterAfter(ops + {op}, op.line), InserterAfter(ops, op.line);
    if a.Some? { TheInserters(ops, n, a.value); } else { assert b.None?; }
  }

  lemma {:induction false} BeforeShapes(ac: Autocorrect, lines: seq<string>, ops: set<Op>, op: Op)
    requires Extends(lines, ops, op) && op.InsertBefore?
    ensures InFile(op, |lines|)
    ensures var l, tail := op.line, Tail(ac, lines, ops, op.line);
            && Merge(ac, lines, ops) == lines[..l - 1] + tail
            && Merge(ac, lines, ops + {op}) == lines[..l - 1] + InsertBeforeText(lines[l - 1], op.text) + tail
            && tail != [] && tail[0] == lines[l - 1]
  {
    hide Tail, ReplacerAt, InserterBefore, InserterAfter, InsertBeforeText, InsertAfterText;
    var all, l, n := ops + {op}, op.line, |lines|;
    assert op in all;
    var tail := Tail(ac, lines, ops, l);
    UntouchedPrefix(ac, lines, ops, 1, l - 1);
    assert lines[0..l - 1] == lines[..l - 1];
    forall q | q in all ensures First(q) > l - 1 { if q != op { assert q in ops; } }
    UntouchedPrefix(ac, lines, all, 1, l - 1);
    TheInserters(all, n, op);
    TailAtKeptLine(ac, lines, all, l);
    assert ReplacerAt(ops, n, l).None?;
    TailAtKeptLine(ac, lines, ops, l);
    assert BeforeBlock(lines, ops, l) == [];
    SameAfter(ops, op, n);
    TailUnaware(ac, lines, ops, op, l + 1);
    var block := InsertBeforeText(lines[l - 1], op.text);
    assert tail == [lines[l - 1]] + (AfterBlock(lines, ops, l) + Tail(ac, lines, ops, l + 1));
    assert Tail(ac, lines, all, l) == block + tail;
  }

  lemma {:induction false} StepInsertBefore(ac: Autocorrect, lines: seq<string>, ops: set<Op>, op: Op)
    requires Extends(lines, ops, op) && op.InsertBefore? && !Vanishes(lines, op)
    ensures ApplyOp(ac, Merge(ac, lines, ops), op) == Ok(Merge(ac, lines, ops + {op}))
    ensures |Merge(ac, lines, ops + {op})| > |Merge(ac, lines, ops)|
    ensures InFile(op, |lines|)
    ensures var l, n, tail := op.line, |op.text|, Tail(ac, lines, ops, op.line);
            var kept := if n > 1 && RemoveSpaces(op.text[n - 1]) == RemoveSpaces(lines[l - 1]) then n - 1 else n;
            && Merge(ac, lines, ops) == lines[..l - 1] + tail
            && Merge(ac, lines, ops + {op}) == lines[..l - 1] + op.text[..kept] + tail
  {
    hide Tail, Merge, Extends, InsertBeforeText, InsertAfterText, RemoveSpaces;
    BeforeShapes(ac, lines, ops, op);
    var l, tail := op.line, Tail(ac, lines, ops, op.line);
    BeforeTextIs(lines[l - 1], op.text);
    assert (lines[..l - 1] + tail)[l - 1] == lines[l - 1];
    SpliceInPrefix(lines, tail, l - 1, l - 1, InsertBeforeText(lines[l - 1], op.text));
    BeforeTextStays(lines[l - 1], op.text);
  }

  lemma BeforeTextStays(anchor: string, text: seq<string>)
    requires text != []
    ensures InsertBeforeText(anchor, text) != [] && (|text| == 1 ==> InsertBeforeText(anchor, text) == text)
  {
  }

  // ----- the whole loop

  /** Bottom-up order: every edit lies above all edits before it. */
  ghost predicate BottomUp(ops: seq<Op>, n: nat) {
    && (forall i :: 0 <= i < |ops| ==> InFile(ops[i], n))
    && (forall i, j :: 0 <= i < j < |ops| ==> Disjoint(ops[i], ops[j]) && ops[i] != ops[j])
    && (forall i, j :: 0 <= i < j < |ops| ==> Follows(ops[i], ops[j]))
  }

  /** `b` may be applied after `a` without meeting shifted lines. */
  predicate Follows(a: Op, b: Op)
    requires Anchored(a) && Anchored(b)
  {
    Last(b) < First(a) || (b.InsertBefore? && a.InsertAfter? && a.line == b.line)
  }

  ghost function SetOf(ops: seq<Op>): set<Op> { set op | op in ops }

  /** A replacement that gives back exactly the original lines of its interval. */
  ghost predicate ChangesNothing(ac: Autocorrect, lines: seq<string>, ops: set<Op>, op: Op)
    requires InFile(op, |lines|)
  {
    Replaces(op) && Block(ac, lines, op, Tail(ac, lines, ops, Last(op) + 1)) == lines[First(op) - 1..Last(op)]
  }

  ghost function NoopOps(ac: Autocorrect, lines: seq<string>, ops: set<Op>): set<Op> {
    set op | op in ops && InFile(op, |lines|) && ChangesNothing(ac, lines, ops, op)
  }

  lemma {:induction false} SameMiddle(a: seq<string>, x: seq<string>, y: seq<string>, c: seq<string>)
    ensures a + x + c == a + y + c <==> x == y
  {
    var l, r := a + x + c, a + y + c;
    if l == r {
      assert |x| == |y|;
      assert x == l[|a|..|a| + |x|] && y == r[|a|..|a| + |y|];
    }
  }

  lemma {:induction false} BottomUpIsDisjoint(ops: seq<Op>, n: nat)
    requires BottomUp(ops, n)
    ensures DisjointSet(SetOf(ops), n)
  {
    forall a, b | a in SetOf(ops) && b in SetOf(ops) && a != b
      ensures InFile(a, n) && InFile(b, n) && Disjoint(a, b)
    {
      var i :| 0 <= i < |ops| && ops[i] == a;
      var j :| 0 <= j < |ops| && ops[j] == b;
      assert i < j || j < i;
    }
    forall a | a in SetOf(ops) ensures InFile(a, n) {
      var i :| 0 <= i < |ops| && ops[i] == a;
    }
  }

  lemma {:induction false} ExtendsPrefix(ops: seq<Op>, lines: seq<string>)
    requires BottomUp(ops, |lines|) && ops != []
    ensures var front, last := ops[..|ops| - 1], ops[|ops| - 1];
            BottomUp(front, |lines|) && Extends(lines, SetOf(front), last) && SetOf(ops) == SetOf(front) + {last}
  {
    hide DisjointSet;
    var front, last := ops[..|ops| - 1], ops[|ops| - 1];
    assert ops == front + [last];
    BottomUpIsDisjoint(ops, |lines|);
    assert SetOf(ops) == SetOf(front) + {last};
    forall q | q in SetOf(front) ensures q != last && Anchored(q) && Follows(q, last) {
      var i :| 0 <= i < |front| && front[i] == q;
      assert ops[i] == q;
    }
  }

  lemma {:induction false} NoopsKept(ac: Autocorrect, lines: seq<string>, ops: set<Op>, op: Op, q: Op)
    requires Extends(lines, ops, op) && q in ops
    ensures q in NoopOps(ac, lines, ops + {op}) <==> q in NoopOps(ac, lines, ops)
  {
    hide Tail, Block;
    assert q in ops + {op} && InFile(q, |lines|);
    TailUnaware(ac, lines, ops, op, Last(q) + 1);
  }

  lemma {:induction false} NoopsAre(ac: Autocorrect, lines: seq<string>, ops: set<Op>, op: Op)
    requires InFile(op, |lines|)
    ensures op in NoopOps(ac, lines, ops) <==> op in ops && ChangesNothing(ac, lines, ops, op)
    ensures NoopOps(ac, lines, ops) <= ops
  {
    hide ChangesNothing;
  }

  /** The set of no-ops grows by exactly the new edit, when that edit is one. */
  lemma {:induction false} NoopsExtend(ac: Autocorrect, lines: seq<string>, ops: set<Op>, op: Op)
    requires Extends(lines, ops, op) && InFile(op, |lines|)
    ensures |NoopOps(ac, lines, ops + {op})|
         == |NoopOps(ac, lines, ops)| + (if ChangesNothing(ac, lines, ops + {op}, op) then 1 else 0)
  {
    hide NoopOps, ChangesNothing;
    var all := ops + {op};
    var was, now := NoopOps(ac, lines, ops), NoopOps(ac, lines, all);
    assert op !in ops;
    forall q | q in ops ensures q in now <==> q in was { NoopsKept(ac, lines, ops, op, q); }
    NoopsAre(ac, lines, all, op);
    NoopsAre(ac, lines, ops, op);
    assert now == was + (if ChangesNothing(ac, lines, all, op) then {op} else {});
  }

  lemma {:induction false} ReplaceIsNoop(ac: Autocorrect, lines: seq<string>, ops: set<Op>, op: Op)
    requires Extends(lines, ops, op) && InFile(op, |lines|) && Replaces(op)
    ensures Merge(ac, lines, ops + {op}) == Merge(ac, lines, ops) <==> ChangesNothing(ac, lines, ops + {op}, op)
  {
    hide Merge, Tail, Block, Extends;
    ReplaceShapes(ac, lines, ops, op);
    var s, e, tail := First(op), Last(op), Tail(ac, lines, ops, Last(op) + 1);
    assert lines[..e] == lines[..s - 1] + lines[s - 1..e];
    SameMiddle(lines[..s - 1], lines[s - 1..e], Block(ac, lines, op, tail), tail);
  }

  lemma {:induction false} StepMerge(ac: Autocorrect, lines: seq<string>, ops: set<Op>, op: Op)
    requires Extends(lines, ops, op) && InFile(op, |lines|) && !Vanishes(lines, op)
    ensures Step(ac, Progress(Merge(ac, lines, ops), |NoopOps(ac, lines, ops)|), op)
         == Ok(Progress(Merge(ac, lines, ops + {op}), |NoopOps(ac, lines, ops + {op})|))
  {
    hide Merge, ApplyOp, NoopOps, Tail, Block, Vanishes, Extends;
    NoopsExtend(ac, lines, ops, op);
    var all := ops + {op};
    if Replaces(op) {
      StepReplace(ac, lines, ops, op);
      ReplaceIsNoop(ac, lines, ops, op);
    } else {
      assert !ChangesNothing(ac, lines, all, op);
      if op.InsertAfter? {
        StepInsertAfter(ac, lines, ops, op);
      } else {
        StepInsertBefore(ac, lines, ops, op);
      }
    }
  }

  /** Splicing bottom-up is the simultaneous edit, and the no-op counter counts exactly the
      replacements that give their lines back unchanged. */
  lemma {:induction false} LoopIsMerge(ac: Autocorrect, lines: seq<string>, ops: seq<Op>)
    requires BottomUp(ops, |lines|) && forall i :: 0 <= i < |ops| ==> !Vanishes(lines, ops[i])
    requires forall op :: op in ops ==> Positive(op)
    ensures RunOps(ac, lines, ops) == Ok(Progress(Merge(ac, lines, SetOf(ops)), |NoopOps(ac, lines, SetOf(ops))|))
  {
    hide Merge, Step, NoopOps, Vanishes, BottomUp, SetOf;
    if ops == [] {
      NoEdits(ac, lines);
    } else {
      var front, last := ops[..|ops| - 1], ops[|ops| - 1];
      ExtendsPrefix(ops, lines);
      assert forall op :: op in front ==> op in ops;
      LastInFile(lines, SetOf(front), last);
      LoopIsMerge(ac, lines, front);
      StepMerge(ac, lines, SetOf(front), last);
    }
  }

  lemma LastInFile(lines: seq<string>, ops: set<Op>, op: Op)
    requires Extends(lines, ops, op)
    ensures InFile(op, |lines|)
  {
    assert op in ops + {op};
  }

  lemma {:induction false} NoEdits(ac: Autocorrect, lines: seq<string>)
    ensures SetOf([]) == {} && Merge(ac, lines, {}) == lines && NoopOps(ac, lines, {}) == {}
  {
    hide Tail;
    UntouchedPrefix(ac, lines, {}, 1, |lines|);
    TailAtEnd(ac, lines, {});
    assert lines[0..|lines|] == lines;
  }

  lemma TailAtEnd(ac: Autocorrect, lines: seq<string>, ops: set<Op>)
    ensures Tail(ac, lines, ops, |lines| + 1) == []
  {
  }

  // ----- failing batches

  lemma {:induction false} RunStopsAt(ac: Autocorrect, lines: seq<string>, ops: seq<Op>, k: nat, e: ApplyError)
    requires k <= |ops| && (forall op :: op in ops ==> Positive(op)) && (forall op :: op in ops[..k] ==> Positive(op))
    requires RunOps(ac, lines, ops[..k]) == Err(e)
    ensures RunOps(ac, lines, ops) == Err(e)
    decreases |ops|
  {
    hide Step, Positive;
    if k < |ops| {
      var front := ops[..|ops| - 1];
      assert front[..k] == ops[..k];
      assert forall op :: op in front ==> op in ops;
      RunStopsAt(ac, lines, front, k, e);
    } else {
      assert ops[..k] == ops;
    }
  }

  lemma {:induction false} VanishedStepFails(ac: Autocorrect, lines: seq<string>, ops: set<Op>, op: Op)
    requires Extends(lines, ops, op) && InFile(op, |lines|) && Vanishes(lines, op)
    ensures ApplyOp(ac, Merge(ac, lines, ops), op) == Err(EmptyInsert)
  {
    hide Tail, InsertAfterText, InsertBeforeText, ReplacerAt, InserterAfter, InserterBefore;
    if op.InsertAfter? && op.text != [] {
      var l := op.line;
      UntouchedPrefix(ac, lines, ops, 1, l);
      var tail := Tail(ac, lines, ops, l + 1);
      assert (lines[0..l] + tail)[l - 1] == lines[l - 1];
    }
  }

  /** A batch with an insertion that strips to nothing is refused, whatever else it holds. */
  lemma {:induction false} VanishedInsertFails(ac: Autocorrect, lines: seq<string>, ops: seq<Op>)
    requires BottomUp(ops, |lines|) && (forall op :: op in ops ==> Positive(op))
    requires exists i :: 0 <= i < |ops| && Vanishes(lines, ops[i])
    ensures RunOps(ac, lines, ops).Err?
  {
    hide Merge, Vanishes, SetOf, NoopOps, ApplyOp;
    var front, last := ops[..|ops| - 1], ops[|ops| - 1];
    ExtendsPrefix(ops, lines);
    assert forall op :: op in front ==> op in ops;
    if i :| 0 <= i < |front| && Vanishes(lines, front[i]) {
      VanishedInsertFails(ac, lines, front);
    } else {
      assert forall k :: 0 <= k < |front| ==> front[k] == ops[k];
      assert Vanishes(lines, last);
      LastInFile(lines, SetOf(front), last);
      LoopIsMerge(ac, lines, front);
      VanishedStepFails(ac, lines, SetOf(front), last);
    }
  }

  /** A batch with an inverted range is refused. */
  lemma {:induction false} InvertedRangeFails(ac: Autocorrect, lines: seq<string>, ops: seq<Op>, k: nat)
    requires k < |ops| && (forall op :: op in ops ==> Positive(op))
    requires ops[k].ReplaceRange? && ops[k].start > ops[k].end
    ensures RunOps(ac, lines, ops).Err?
  {
    var front := ops[..k + 1];
    assert forall op :: op in front ==> op in ops;
    assert front[..k] == ops[..k] && front[|front| - 1] == ops[k];
    assert RunOps(ac, lines, front).Err?;
    RunStopsAt(ac, lines, ops, k + 1, RunOps(ac, lines, front).error);
  }

  // ----- what the simultaneous edit keeps

  ghost predicate Covered(ops: set<Op>, i: nat) {
    exists op :: op in ops && Anchored(op) && Replaces(op) && First(op) <= i <= Last(op)
  }

  /** No replaced interval starts above line `i` and ends at or below it. */
  ghost predicate Cut(ops: set<Op>, i: nat) {
    forall op :: op in ops && Anchored(op) && Replaces(op) ==> First(op) >= i || Last(op) < i
  }

  /** At a cut, the edited text of the lines below is a suffix of the whole result. */
  lemma {:induction false} TailIsSuffix(ac: Autocorrect, lines: seq<string>, ops: set<Op>, i: nat, j: nat)
    returns (front: seq<string>)
    requires DisjointSet(ops, |lines|) && 1 <= i <= j <= |lines| + 1 && Cut(ops, j)
    ensures Tail(ac, lines, ops, i) == front + Tail(ac, lines, ops, j)
    decreases j - i
  {
    hide Tail, Block, ReplacerAt, BeforeBlock, AfterBlock, DisjointSet;
    if i == j {
      front := [];
    } else {
      var r := ReplacerAt(ops, |lines|, i);
      if r.Some? {
        var op := r.value;
        var rest := TailIsSuffix(ac, lines, ops, Last(op) + 1, j);
        TailAtReplacer(ac, lines, ops, op);
        front := Block(ac, lines, op, Tail(ac, lines, ops, Last(op) + 1)) + rest;
      } else {
        var rest := TailIsSuffix(ac, lines, ops, i + 1, j);
        TailAtKeptLine(ac, lines, ops, i);
        front := BeforeBlock(lines, ops, i) + [lines[i - 1]] + AfterBlock(lines, ops, i) + rest;
      }
    }
  }

  /** Where a kept line ends up. */
  ghost function NewIndex(ac: Autocorrect, lines: seq<string>, ops: set<Op>, i: nat): int
    requires 1 <= i <= |lines|
  {
    |Merge(ac, lines, ops)| - |Tail(ac, lines, ops, i)| + |BeforeBlock(lines, ops, i)|
  }

  lemma {:induction false} UncoveredIsCut(ops: set<Op>, n: nat, i: nat)
    requires DisjointSet(ops, n) && !Covered(ops, i)
    ensures Cut(ops, i) && Cut(ops, i + 1) && ReplacerAt(ops, n, i).None?
  {
    hide ReplacerAt;
    forall op | op in ops && Anchored(op) && Replaces(op)
      ensures (First(op) >= i || Last(op) < i) && (First(op) >= i + 1 || Last(op) < i + 1) && !ReplacesFrom(op, n, i)
    {
      assert !(First(op) <= i <= Last(op));
    }
  }

  /** Every uncovered line survives, and the kept lines keep their order. */
  lemma {:induction false} UncoveredLinesSurvive(ac: Autocorrect, lines: seq<string>, ops: set<Op>, i: nat, j: nat)
    requires DisjointSet(ops, |lines|) && 1 <= i <= j <= |lines| && !Covered(ops, i) && !Covered(ops, j)
    ensures 0 <= NewIndex(ac, lines, ops, i) < |Merge(ac, lines, ops)|
    ensures Merge(ac, lines, ops)[NewIndex(ac, lines, ops, i)] == lines[i - 1]
    ensures i < j ==> NewIndex(ac, lines, ops, i) < NewIndex(ac, lines, ops, j)
  {
    hide Tail, ReplacerAt, BeforeBlock, AfterBlock, DisjointSet, Covered, Cut;
    UncoveredIsCut(ops, |lines|, i);
    UncoveredIsCut(ops, |lines|, j);
    var front := TailIsSuffix(ac, lines, ops, 1, i);
    TailAtKeptLine(ac, lines, ops, i);
    if i < j {
      var middle := TailIsSuffix(ac, lines, ops, i + 1, j);
    }
  }

  /** Every replaced interval becomes exactly its block, in place. */
  lemma {:induction false} IntervalBecomesBlock(ac: Autocorrect, lines: seq<string>, ops: set<Op>, op: Op)
    returns (front: seq<string>)
    requires DisjointSet(ops, |lines|) && op in ops && Replaces(op)
    ensures var tail := Tail(ac, lines, ops, Last(op) + 1);
            Merge(ac, lines, ops) == front + Block(ac, lines, op, tail) + tail
  {
    hide Tail, ReplacerAt, Block;
    assert Cut(ops, First(op)) by {
      forall q | q in ops && Anchored(q) && Replaces(q) ensures First(q) >= First(op) || Last(q) < First(op) {
        assert q == op || Disjoint(q, op);
      }
    }
    front := TailIsSuffix(ac, lines, ops, 1, First(op));
    TheReplacer(ops, |lines|, op);
    TailAtReplacer(ac, lines, ops, op);
  }

  // ----- whole-file appends and prepends

  /** A file that is more than nothing or one blank line. */
  predicate Substantial(lines: seq<string>) { lines != [] && lines != [""] }

  /** The texts from the first that is not a blank line on. */
  function FromSubstance(texts: seq<seq<string>>): (r: seq<seq<string>>)
    ensures |r| <= |texts|
  {
    if texts == [] then []
    else
      var front, last := FromSubstance(texts[..|texts| - 1]), texts[|texts| - 1];
      if front == [] && last == [""] then [] else front + [last]
  }

  /** The texts up to the last that is not a blank line. */
  function ToSubstance(texts: seq<seq<string>>): (r: seq<seq<string>>)
    ensures |r| <= |texts|
  {
    if texts == [] then []
    else
      var rest := ToSubstance(texts[1..]);
      if rest == [] && texts[0] == [""] then [] else [texts[0]] + rest
  }

  /** Blank texts give way to the first real one when the file has nothing but a blank line itself. */
  function OrBlank(lines: seq<string>, texts: seq<seq<string>>, kept: seq<seq<string>>): seq<string> {
    if kept != [] then Flatten(kept) else if texts == [] then lines else [""]
  }

  /** `lines` with `texts` appended one after the other. */
  function WithBelow(lines: seq<string>, texts: seq<seq<string>>): seq<string> {
    if Substantial(lines) then lines + Flatten(texts) else OrBlank(lines, texts, FromSubstance(texts))
  }

  /** `lines` with `texts`, the topmost first, prepended from the last to the first. */
  function WithAbove(lines: seq<string>, texts: seq<seq<string>>): seq<string> {
    if Substantial(lines) then Flatten(texts) + lines else OrBlank(lines, texts, ToSubstance(texts))
  }

  /** The blank texts put on a file that already is one blank line. */
  function BlankSteps(lines: seq<string>, given: nat, kept: nat): nat
    requires kept <= given
  {
    if Substantial(lines) || given == kept then 0 else given - kept - (if lines == [] then 1 else 0)
  }

  function AppendOps(texts: seq<seq<string>>): (r: seq<Op>)
    ensures |r| == |texts| && forall i :: 0 <= i < |texts| ==> r[i] == AppendFile(texts[i])
  {
    seq(|texts|, i requires 0 <= i < |texts| => AppendFile(texts[i]))
  }

  function PrependOps(texts: seq<seq<string>>): (r: seq<Op>)
    ensures |r| == |texts| && forall i :: 0 <= i < |texts| ==> r[i] == PrependFile(texts[|texts| - 1 - i])
  {
    seq(|texts|, i requires 0 <= i < |texts| => PrependFile(texts[|texts| - 1 - i]))
  }

  predicate AllTexts(texts: seq<seq<string>>) { forall i :: 0 <= i < |texts| ==> texts[i] != [] }

  lemma {:induction false} FromSubstanceStarts(texts: seq<seq<string>>)
    requires AllTexts(texts) && FromSubstance(texts) != []
    ensures Substantial(Flatten(FromSubstance(texts)))
  {
    hide Flatten;
    var front, last := FromSubstance(texts[..|texts| - 1]), texts[|texts| - 1];
    FlattenAppend(front, [last]);
    FlattenOne(last);
    if front != [] {
      FromSubstanceStarts(texts[..|texts| - 1]);
    } else {
      assert front + [last] == [last];
    }
  }

  lemma {:induction false} ToSubstanceEnds(texts: seq<seq<string>>)
    requires AllTexts(texts) && ToSubstance(texts) != []
    ensures Substantial(Flatten(ToSubstance(texts)))
  {
    hide Flatten;
    var first, rest := texts[0], ToSubstance(texts[1..]);
    FlattenAppend([first], rest);
    FlattenOne(first);
    if rest != [] {
      ToSubstanceEnds(texts[1..]);
    } else {
      assert [first] + rest == [first];
    }
  }

  lemma {:induction false} BelowSnoc(lines: seq<string>, front: seq<seq<string>>, t: seq<string>)
    requires AllTexts(front) && t != []
    ensures var cur := WithBelow(lines, front);
            && WithBelow(lines, front + [t]) == (if cur == [""] then t else cur + t)
            && BlankSteps(lines, |front| + 1, |FromSubstance(front + [t])|)
                 == BlankSteps(lines, |front|, |FromSubstance(front)|) + (if cur == [""] && t == [""] then 1 else 0)
  {
    hide Flatten;
    assert (front + [t])[..|front|] == front;
    FlattenAppend(front, [t]);
    FlattenAppend(FromSubstance(front), [t]);
    FlattenOne(t);
    if FromSubstance(front) != [] {
      FromSubstanceStarts(front);
    } else {
      assert FromSubstance(front) + [t] == [t];
    }
    FlattenNone(front);
  }

  lemma {:induction false} AboveCons(lines: seq<string>, t: seq<string>, rest: seq<seq<string>>)
    requires AllTexts(rest) && t != []
    ensures var cur := WithAbove(lines, rest);
            && WithAbove(lines, [t] + rest) == (if cur == [""] then t else t + cur)
            && BlankSteps(lines, |rest| + 1, |ToSubstance([t] + rest)|)
                 == BlankSteps(lines, |rest|, |ToSubstance(rest)|) + (if cur == [""] && t == [""] then 1 else 0)
  {
    hide Flatten;
    assert ([t] + rest)[1..] == rest;
    FlattenAppend([t], rest);
    FlattenAppend([t], ToSubstance(rest));
    FlattenOne(t);
    if ToSubstance(rest) != [] {
      ToSubstanceEnds(rest);
    } else {
      assert [t] + ToSubstance(rest) == [t];
    }
    FlattenNone(rest);
  }

  lemma WholeFileStep(ac: Autocorrect, p: Progress, t: seq<string>)
    requires t != []
    ensures var noops := p.noops + if p.lines == [""] && t == [""] then 1 else 0;
            && Step(ac, p, AppendFile(t)) == Ok(Progress(if p.lines == [""] then t else p.lines + t, noops))
            && Step(ac, p, PrependFile(t)) == Ok(Progress(if p.lines == [""] then t else t + p.lines, noops))
  {
  }

  lemma {:induction false} RunFromSnoc(ac: Autocorrect, p: Progress, front: seq<Op>, op: Op)
    requires (forall q :: q in front ==> Positive(q)) && Positive(op)
    ensures RunFrom(ac, p, front + [op]) ==
            match RunFrom(ac, p, front)
            case Err(e) => Err(e)
            case Ok(q) => Step(ac, q, op)
  {
    hide Step, Positive;
    assert (front + [op])[..|front|] == front;
  }

  /** A run of whole-file appends, in closed form. */
  lemma {:induction false} AppendsRun(ac: Autocorrect, p: Progress, texts: seq<seq<string>>)
    requires AllTexts(texts)
    ensures RunFrom(ac, p, AppendOps(texts)) ==
            Ok(Progress(WithBelow(p.lines, texts), p.noops + BlankSteps(p.lines, |texts|, |FromSubstance(texts)|)))
  {
    hide WithBelow, BlankSteps, FromSubstance, Step, RunFrom;
    if texts == [] {
      NothingAdded(p.lines);
      NothingRunFrom(ac, p);
    } else {
      var front, t := texts[..|texts| - 1], texts[|texts| - 1];
      AppendsRun(ac, p, front);
      BelowSnoc(p.lines, front, t);
      assert texts == front + [t];
      assert AppendOps(texts) == AppendOps(front) + [AppendFile(t)];
      RunFromSnoc(ac, p, AppendOps(front), AppendFile(t));
      WholeFileStep(ac, RunFrom(ac, p, AppendOps(front)).value, t);
    }
  }

  lemma NothingRunFrom(ac: Autocorrect, p: Progress)
    ensures RunFrom(ac, p, []) == Ok(p)
  {
  }

  lemma NothingAdded(lines: seq<string>)
    ensures WithBelow(lines, []) == lines && WithAbove(lines, []) == lines
    ensures FromSubstance([]) == [] && ToSubstance([]) == [] && BlankSteps(lines, 0, 0) == 0
  {
  }

  /** A run of whole-file prepends, in closed form. */
  lemma {:induction false} PrependsRun(ac: Autocorrect, p: Progress, texts: seq<seq<string>>)
    requires AllTexts(texts)
    ensures RunFrom(ac, p, PrependOps(texts)) ==
            Ok(Progress(WithAbove(p.lines, texts), p.noops + BlankSteps(p.lines, |texts|, |ToSubstance(texts)|)))
  {
    hide WithAbove, BlankSteps, ToSubstance, Step, RunFrom;
    if texts == [] {
      NothingAdded(p.lines);
      NothingRunFrom(ac, p);
    } else {
      var t, rest := texts[0], texts[1..];
      PrependsRun(ac, p, rest);
      AboveCons(p.lines, t, rest);
      assert texts == [t] + rest;
      assert PrependOps(texts) == PrependOps(rest) + [PrependFile(t)];
      RunFromSnoc(ac, p, PrependOps(rest), PrependFile(t));
      WholeFileStep(ac, RunFrom(ac, p, PrependOps(rest)).value, t);
    }
  }

  lemma {:induction false} RunFromAppend(ac: Autocorrect, p: Progress, a: seq<Op>, b: seq<Op>)
    requires (forall op :: op in a ==> Positive(op)) && (forall op :: op in b ==> Positive(op))
    ensures RunFrom(ac, p, a + b) ==
            match RunFrom(ac, p, a)
            case Err(e) => Err(e)
            case Ok(q) => RunFrom(ac, q, b)
  {
    hide Step, Positive;
    if b == [] {
      assert a + b == a;
    } else {
      var front, all := b[..|b| - 1], a + b;
      assert all[..|all| - 1] == a + front && all[|all| - 1] == b[|b| - 1];
      RunFromAppend(ac, p, a, front);
    }
  }

  /** A whole-file edit without text makes the loop fail. */
  lemma {:induction false} NoTextFails(ac: Autocorrect, p: Progress, ops: seq<Op>, k: nat)
    requires k < |ops| && !Anchored(ops[k]) && ops[k].text == [] && forall op :: op in ops ==> Positive(op)
    ensures RunFrom(ac, p, ops).Err?
  {
    hide Positive;
    var front, last := ops[..|ops| - 1], ops[|ops| - 1];
    assert forall op :: op in front ==> op in ops;
    assert last in ops;
    if k < |front| { NoTextFails(ac, p, front, k); }
  }
}
