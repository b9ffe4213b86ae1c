/** Markdown plan checklists: packages/boulder-state/src/plan-checklist.ts. */
module Plan {
  import opened Text
  import opened Anchors

  datatype Fence = Fence(marker: char, length: nat)
  datatype Section = Other | Todo | FinalWave
  datatype TaskRef = TaskRef(key: string, section: Section, caption: string, title: string)
  datatype Checkbox = Checkbox(checked: bool, caption: string, task: Option<TaskRef>)
  datatype Checklist = Checklist(completed: int, remaining: nat, total: nat, nextTaskLabel: Option<string>)

  /** `markdown.split(/\r?\n/)`. */
  function PlanLines(markdown: string): seq<string> {
    var pieces := Split(markdown, '\n');
    seq(|pieces|, i requires 0 <= i < |pieces| =>
      var p := pieces[i];
      if i < |pieces| - 1 && p != "" && p[|p| - 1] == '\r' then p[..|p| - 1] else p)
  }

  // ----- line classifiers

  predicate IsBlank(c: char) { c == ' ' || c == '\t' }

  function DropBlanks(s: string): (r: string)
    ensures |r| <= |s| && s[|s| - |r|..] == r
    ensures forall i :: 0 <= i < |s| - |r| ==> IsBlank(s[i])
    ensures r != "" ==> !IsBlank(r[0])
  {
    if s != "" && IsBlank(s[0]) then DropBlanks(s[1..]) else s
  }

  predicate OneLine(s: string) { forall c :: c in s ==> !IsLineTerminator(c) }

  function RunLength(s: string, c: char): (n: nat)
    ensures n <= |s| && (forall i :: 0 <= i < n ==> s[i] == c) && (n < |s| ==> s[n] != c)
  {
    if s != "" && s[0] == c then 1 + RunLength(s[1..], c) else 0
  }

  /** The fence run that starts a line after at most three blanks, and what follows it. */
  function FenceRun(line: string): Option<(Fence, string)> {
    var s := DropBlanks(line);
    if |line| - |s| > 3 || s == "" || (s[0] != '`' && s[0] != '~') then None
    else
      var n := RunLength(s, s[0]);
      if n < 3 then None else Some((Fence(s[0], n), s[n..]))
  }

  function ParseOpeningFence(line: string): Option<Fence> {
    match FenceRun(line)
    case None => None
    case Some((fence, info)) =>
      if !OneLine(info) || (fence.marker == '`' && '`' in info) then None else Some(fence)
  }

  predicate IsClosingFence(line: string, fence: Fence) {
    match FenceRun(line)
    case None => false
    case Some((run, rest)) => DropBlanks(rest) == "" && run.marker == fence.marker && run.length >= fence.length
  }

  function LowerChar(c: char): char { if 'A' <= c <= 'Z' then ((c as int) + 32) as char else c }

  function LowerText(s: string): (r: string)
    ensures |r| == |s|
  {
    seq(|s|, i requires 0 <= i < |s| => LowerChar(s[i]))
  }

  /** `/^##[ \t]+NAME(?:[ \t]+#+)?[ \t]*$/i` with the name in lower case. */
  predicate IsHeading(line: string, name: string) {
    |line| > 2 && line[..2] == "##" && IsBlank(line[2]) &&
    var s := DropBlanks(line[2..]);
    |s| >= |name| && LowerText(s[..|name|]) == name &&
    var t := DropBlanks(s[|name|..]);
    t == "" || (t != s[|name|..] && t[0] == '#' && DropBlanks(t[RunLength(t, '#')..]) == "")
  }

  function SectionOf(line: string): Section {
    if IsHeading(line, "todos") then Todo
    else if IsHeading(line, "final verification wave") then FinalWave
    else Other
  }

  /** `/^#{1,2}(?:[ \t]+|$)/`. */
  predicate IsSectionBoundary(line: string) {
    var n := RunLength(line, '#');
    1 <= n <= 2 && (n == |line| || IsBlank(line[n]))
  }

  /** `/^([1-9]\d*)\. (.+)$/`. */
  function Numbered(s: string): Option<(string, string)> {
    var d := DigitRun(s);
    if d >= 1 && s[0] != '0' && d + 2 < |s| && s[d] == '.' && s[d + 1] == ' ' && OneLine(s[d + 2..])
    then Some((s[..d], s[d + 2..])) else None
  }

  function StructuredLabel(line: string): Option<(bool, string)> {
    if |line| > 6 && line[..3] == "- [" && (line[3] == ' ' || line[3] == 'x' || line[3] == 'X') && line[4..6] == "] "
    then Some((line[3] != ' ', line[6..])) else None
  }

  function BuildTaskRef(section: Section, caption: string): Option<TaskRef> {
    match section
    case Other => None
    case Todo =>
      (match Numbered(caption)
       case None => None
       case Some((number, title)) => Some(TaskRef("todo:" + number, Todo, number, title)))
    case FinalWave =>
      if caption == "" || (caption[0] != 'F' && caption[0] != 'f') then None
      else (match Numbered(caption[1..])
            case None => None
            case Some((number, title)) =>
              Some(TaskRef("final-wave:f" + number, FinalWave, [caption[0]] + number, title)))
  }

  function ParseStructuredCheckbox(line: string, section: Section): Option<Checkbox> {
    match StructuredLabel(line)
    case None => None
    case Some((checked, caption)) =>
      match BuildTaskRef(section, caption)
      case None => None
      case Some(task) => Some(Checkbox(checked, caption, Some(task)))
  }

  /** `[ \t]+(.+)$`: greedy blanks give one back when nothing else is left. */
  function SimpleLabel(rest: string): Option<string> {
    var caption := DropBlanks(rest);
    if caption == rest then None
    else if caption != "" then (if OneLine(caption) then Some(caption) else None)
    else if |rest| >= 2 then Some(rest[|rest| - 1..])
    else None
  }

  /** The text from the opening bracket on. */
  function FromBracket(line: string): string {
    if line != "" && (line[0] == '-' || line[0] == '*') then DropBlanks(line[1..]) else ""
  }

  function ParseSimpleCheckbox(line: string): Option<Checkbox> {
    var s := FromBracket(line);
    if s == "" || s[0] != '[' then None
    else
      var inside := DropBlanks(s[1..]);
      var checked := inside != "" && (inside[0] == 'x' || inside[0] == 'X');
      var close := DropBlanks(if checked then inside[1..] else inside);
      if close == "" || close[0] != ']' then None
      else match SimpleLabel(close[1..])
        case None => None
        case Some(caption) => Some(Checkbox(checked, caption, None))
  }

  // ----- scanning

  datatype Mode = Simple | Structured

  datatype Context = Context(fence: Option<Fence>, section: Section)

  /** How one line changes what the scan is inside of. */
  function NextContext(mode: Mode, ctx: Context, line: string): Context {
    match ctx.fence
    case Some(f) => if IsClosingFence(line, f) then ctx.(fence := None) else ctx
    case None =>
      match ParseOpeningFence(line)
      case Some(f) => ctx.(fence := Some(f))
      case None => if mode.Structured? && IsSectionBoundary(line) then ctx.(section := SectionOf(line)) else ctx
  }

  /** The checkbox a line counts as, where it stands. */
  function ItemIn(mode: Mode, ctx: Context, line: string): Option<Checkbox> {
    if ctx.fence.Some? || ParseOpeningFence(line).Some? then None
    else if mode.Simple? then ParseSimpleCheckbox(line)
    else if IsSectionBoundary(line) || ctx.section.Other? then None
    else ParseStructuredCheckbox(line, ctx.section)
  }

  const START := Context(None, Other)

  function ContextAfter(mode: Mode, lines: seq<string>): Context {
    if lines == [] then START
    else NextContext(mode, ContextAfter(mode, lines[..|lines| - 1]), lines[|lines| - 1])
  }

  /** The counted checkboxes, in order. */
  function Items(mode: Mode, lines: seq<string>): seq<Checkbox> {
    if lines == [] then []
    else
      var front, last := lines[..|lines| - 1], lines[|lines| - 1];
      Items(mode, front) + (match ItemIn(mode, ContextAfter(mode, front), last)
                            case Some(item) => [item]
                            case None => [])
  }

  /** `hasStructuredSection`, the whole scan. */
  predicate HasStructuredSection(lines: seq<string>) {
    lines != [] &&
    var front, last := lines[..|lines| - 1], lines[|lines| - 1];
    HasStructuredSection(front) || OpensSection(ContextAfter(Simple, front), last)
  }

  predicate OpensSection(ctx: Context, line: string) {
    ctx.fence.None? && ParseOpeningFence(line).None? && !SectionOf(line).Other?
  }

  function ModeOf(lines: seq<string>): Mode { if HasStructuredSection(lines) then Structured else Simple }

  function Unchecked(items: seq<Checkbox>): nat {
    if items == [] then 0 else Unchecked(items[..|items| - 1]) + if items[|items| - 1].checked then 0 else 1
  }

  function FirstUnchecked(items: seq<Checkbox>): Option<Checkbox> {
    if items == [] then None
    else match FirstUnchecked(items[..|items| - 1])
      case Some(item) => Some(item)
      case None => if items[|items| - 1].checked then None else Some(items[|items| - 1])
  }

  function Summary(items: seq<Checkbox>): Checklist {
    Checklist(|items| - Unchecked(items), Unchecked(items), |items|,
              match FirstUnchecked(items) case Some(item) => Some(item.caption) case None => None)
  }

  /** `parsePlanChecklist` on lines. */
  function ChecklistOf(lines: seq<string>): Checklist { Summary(Items(ModeOf(lines), lines)) }

  /** `parseCurrentTopLevelTask` on lines. */
  function CurrentTask(lines: seq<string>): Option<TaskRef> {
    if ModeOf(lines).Simple? then None
    else match FirstUnchecked(Items(Structured, lines))
      case Some(item) => item.task
      case None => None
  }

  /** The scan loops, with the counters of the source. */
  method ScanPlan(mode: Mode, lines: seq<string>) returns (r: Checklist, task: Option<TaskRef>)
    ensures r == Summary(Items(mode, lines))
    ensures task == match FirstUnchecked(Items(mode, lines)) case Some(item) => item.task case None => None
  {
    hide ParseOpeningFence, IsClosingFence, IsSectionBoundary, SectionOf, ParseSimpleCheckbox, ParseStructuredCheckbox;
    var remaining, total := 0, 0;
    var caption: Option<string> := None;
    task := None;
    var section, fence := Other, None;
    ghost var next: Option<Checkbox> := None;
    var i := 0;
    while i < |lines|
      invariant 0 <= i <= |lines|
      invariant ContextAfter(mode, lines[..i]) == Context(fence, section)
      invariant var items := Items(mode, lines[..i]);
                total == |items| && remaining == Unchecked(items) && next == FirstUnchecked(items)
      invariant caption == match next case Some(item) => Some(item.caption) case None => None
      invariant task == match next case Some(item) => item.task case None => None
    {
      ghost var ctx, items := Context(fence, section), Items(mode, lines[..i]);
      ScanSnoc(mode, lines, i);
      assert items + [] == items;
      var line := lines[i];
      i := i + 1;
      if fence.Some? {
        if IsClosingFence(line, fence.value) { fence := None; }
        continue;
      }
      var opening := ParseOpeningFence(line);
      if opening.Some? {
        fence := opening;
        continue;
      }
      if mode.Structured? && IsSectionBoundary(line) {
        section := SectionOf(line);
        continue;
      }
      if mode.Structured? && section.Other? { continue; }
      var checkbox := if mode.Simple? then ParseSimpleCheckbox(line) else ParseStructuredCheckbox(line, section);
      if checkbox.None? { continue; }
      UncheckedSnoc(items, checkbox.value);
      total := total + 1;
      if checkbox.value.checked { continue; }
      remaining := remaining + 1;
      if next.None? { next := checkbox; }
      if caption.None? {
        caption := Some(checkbox.value.caption);
        task := checkbox.value.task;
      }
    }
    assert lines[..i] == lines;
    r := Checklist(total - remaining, remaining, total, caption);
  }

  lemma {:induction false} ScanSnoc(mode: Mode, lines: seq<string>, i: nat)
    requires i < |lines|
    ensures ContextAfter(mode, lines[..i + 1]) == NextContext(mode, ContextAfter(mode, lines[..i]), lines[i])
    ensures Items(mode, lines[..i + 1]) == Items(mode, lines[..i]) +
            (match ItemIn(mode, ContextAfter(mode, lines[..i]), lines[i]) case Some(item) => [item] case None => [])
    ensures HasStructuredSection(lines[..i + 1]) <==>
            HasStructuredSection(lines[..i]) || OpensSection(ContextAfter(Simple, lines[..i]), lines[i])
  {
    hide NextContext, ItemIn, OpensSection;
    assert lines[..i + 1][..i] == lines[..i];
  }

  lemma {:induction false} UncheckedSnoc(items: seq<Checkbox>, item: Checkbox)
    ensures Unchecked(items + [item]) == Unchecked(items) + if item.checked then 0 else 1
    ensures FirstUnchecked(items + [item]) ==
            if FirstUnchecked(items).Some? then FirstUnchecked(items) else if item.checked then None else Some(item)
  {
    assert (items + [item])[..|items|] == items;
  }

  // ----- counting

  /** Completed plus remaining is total, and there is a next task exactly while something remains. */
  lemma {:induction false} CountsAgree(items: seq<Checkbox>)
    ensures Unchecked(items) <= |items|
    ensures FirstUnchecked(items).Some? <==> Unchecked(items) > 0
    ensures FirstUnchecked(items).Some? ==> FirstUnchecked(items).value in items && !FirstUnchecked(items).value.checked
  {
    if items != [] { CountsAgree(items[..|items| - 1]); }
  }

  lemma {:induction false} ChecklistAddsUp(lines: seq<string>)
    ensures var c := ChecklistOf(lines);
            c.completed >= 0 && c.completed + c.remaining == c.total && (c.nextTaskLabel.Some? <==> c.remaining > 0)
  {
    hide Items, ModeOf;
    CountsAgree(Items(ModeOf(lines), lines));
  }

  /** In a structured plan the checklist's next label is the current task's number and title. */
  lemma {:induction false} ViewsAgree(lines: seq<string>)
    requires ModeOf(lines).Structured?
    ensures CurrentTask(lines).Some? <==> ChecklistOf(lines).nextTaskLabel.Some?
    ensures CurrentTask(lines).Some? ==>
              var task := CurrentTask(lines).value;
              ChecklistOf(lines).nextTaskLabel == Some(task.caption + ". " + task.title)
  {
    hide Items, ModeOf;
    var items := Items(Structured, lines);
    CountsAgree(items);
    if FirstUnchecked(items).Some? {
      ItemsHaveTasks(lines, FirstUnchecked(items).value);
    }
  }

  lemma {:induction false} ItemsHaveTasks(lines: seq<string>, item: Checkbox)
    requires item in Items(Structured, lines)
    ensures item.task.Some? && item.caption == item.task.value.caption + ". " + item.task.value.title
  {
    hide ParseStructuredCheckbox, ParseOpeningFence, IsSectionBoundary, ContextAfter;
    var front, last := lines[..|lines| - 1], lines[|lines| - 1];
    if item in Items(Structured, front) {
      ItemsHaveTasks(front, item);
    } else {
      var ctx := ContextAfter(Structured, front);
      assert ItemIn(Structured, ctx, last) == Some(item);
      TaskNamesItem(last, ctx.section);
    }
  }

  lemma {:induction false} TaskNamesItem(line: string, section: Section)
    ensures var p := ParseStructuredCheckbox(line, section);
            p.Some? ==>
              p.value.task.Some? && p.value.caption == p.value.task.value.caption + ". " + p.value.task.value.title
  {
    hide Numbered;
    match StructuredLabel(line)
    case None =>
    case Some((checked, caption)) =>
      NumberedParts(caption);
      if caption != "" {
        NumberedParts(caption[1..]);
        assert caption == [caption[0]] + caption[1..];
      }
  }

  lemma {:induction false} NumberedParts(s: string)
    ensures Numbered(s).Some? ==> s == Numbered(s).value.0 + ". " + Numbered(s).value.1
  {
    var d := DigitRun(s);
    if Numbered(s).Some? {
      assert s == s[..d] + [s[d], s[d + 1]] + s[d + 2..];
    }
  }

  // ----- fenced blocks are invisible

  /** An opening fence, lines that do not close it, and a line that does. */
  ghost predicate ClosedFence(block: seq<string>) {
    && |block| >= 2
    && ParseOpeningFence(block[0]).Some?
    && IsClosingFence(block[|block| - 1], ParseOpeningFence(block[0]).value)
    && forall i :: 1 <= i < |block| - 1 ==> !IsClosingFence(block[i], ParseOpeningFence(block[0]).value)
  }

  /** What a scan does with more lines depends on the context it starts in only. */
  function ContextFrom(mode: Mode, ctx: Context, lines: seq<string>): Context {
    if lines == [] then ctx else NextContext(mode, ContextFrom(mode, ctx, lines[..|lines| - 1]), lines[|lines| - 1])
  }

  function ItemsFrom(mode: Mode, ctx: Context, lines: seq<string>): seq<Checkbox> {
    if lines == [] then []
    else
      var front, last := lines[..|lines| - 1], lines[|lines| - 1];
      ItemsFrom(mode, ctx, front) + (match ItemIn(mode, ContextFrom(mode, ctx, front), last)
                                     case Some(item) => [item]
                                     case None => [])
  }

  predicate OpensSectionFrom(ctx: Context, lines: seq<string>) {
    lines != [] &&
    var front, last := lines[..|lines| - 1], lines[|lines| - 1];
    OpensSectionFrom(ctx, front) || OpensSection(ContextFrom(Simple, ctx, front), last)
  }

  lemma {:induction false} ScanAppend(mode: Mode, a: seq<string>, b: seq<string>)
    ensures ContextAfter(mode, a + b) == ContextFrom(mode, ContextAfter(mode, a), b)
    ensures Items(mode, a + b) == Items(mode, a) + ItemsFrom(mode, ContextAfter(mode, a), b)
    ensures HasStructuredSection(a + b) <==> HasStructuredSection(a) || OpensSectionFrom(ContextAfter(Simple, a), b)
  {
    hide NextContext, ItemIn, OpensSection;
    if b == [] {
      assert a + b == a;
    } else {
      var front, last := b[..|b| - 1], b[|b| - 1];
      ScanAppend(mode, a, front);
      ScanAppendSimple(a, front);
      var all := a + b;
      assert all[..|all| - 1] == a + front && all[|all| - 1] == last;
    }
  }

  lemma {:induction false} ScanAppendSimple(a: seq<string>, b: seq<string>)
    ensures ContextAfter(Simple, a + b) == ContextFrom(Simple, ContextAfter(Simple, a), b)
  {
    hide NextContext;
    if b == [] {
      assert a + b == a;
    } else {
      var front, last, all := b[..|b| - 1], b[|b| - 1], a + b;
      ScanAppendSimple(a, front);
      assert all[..|all| - 1] == a + front && all[|all| - 1] == last;
      assert ContextAfter(Simple, all) == NextContext(Simple, ContextAfter(Simple, a + front), last);
    }
  }

  /** Inside an unfinished prefix of a closed fence the scan is inside that fence. */
  lemma {:induction false} InsideFence(mode: Mode, ctx: Context, block: seq<string>, n: nat)
    requires ClosedFence(block) && ctx.fence.None? && 1 <= n < |block|
    ensures ContextFrom(mode, ctx, block[..n]) == ctx.(fence := ParseOpeningFence(block[0]))
    ensures ItemsFrom(mode, ctx, block[..n]) == [] && !OpensSectionFrom(ctx, block[..n])
    decreases n
  {
    hide IsClosingFence, ParseOpeningFence, IsSectionBoundary, SectionOf;
    assert block[..n][..n - 1] == block[..n - 1];
    if n == 1 {
      assert block[..0] == [];
    } else {
      InsideFence(mode, ctx, block, n - 1);
      InsideFence(Simple, ctx, block, n - 1);
    }
  }

  lemma {:induction false} FenceIsTransparent(mode: Mode, ctx: Context, block: seq<string>)
    requires ClosedFence(block) && ctx.fence.None?
    ensures ContextFrom(mode, ctx, block) == ctx
    ensures ItemsFrom(mode, ctx, block) == [] && !OpensSectionFrom(ctx, block)
  {
    hide IsClosingFence, ParseOpeningFence, IsSectionBoundary, SectionOf;
    InsideFence(mode, ctx, block, |block| - 1);
    InsideFence(Simple, ctx, block, |block| - 1);
  }

  lemma {:induction false} FenceContextSame(a: seq<string>, mode: Mode)
    ensures ContextAfter(mode, a).fence == ContextAfter(Simple, a).fence
  {
    hide ParseOpeningFence, IsClosingFence, IsSectionBoundary, SectionOf;
    if a != [] { FenceContextSame(a[..|a| - 1], mode); }
  }

  lemma {:induction false} FenceInsertion(mode: Mode, a: seq<string>, block: seq<string>, b: seq<string>)
    requires ClosedFence(block) && ContextAfter(Simple, a).fence.None?
    ensures Items(mode, a + block + b) == Items(mode, a + b)
    ensures HasStructuredSection(a + block + b) <==> HasStructuredSection(a + b)
  {
    hide ClosedFence, Items, ContextAfter, HasStructuredSection, ItemsFrom, ContextFrom, OpensSectionFrom;
    FenceContextSame(a, mode);
    FenceIsTransparent(mode, ContextAfter(mode, a), block);
    FenceIsTransparent(Simple, ContextAfter(Simple, a), block);
    ScanAppend(mode, a, block);
    ScanAppend(Simple, a, block);
    ScanAppend(mode, a + block, b);
    ScanAppend(mode, a, b);
  }

  /** Inserting a closed fenced block at any line boundary outside a fence changes neither view. */
  lemma {:induction false} FencedBlocksAreInvisible(a: seq<string>, block: seq<string>, b: seq<string>)
    requires ClosedFence(block) && ContextAfter(Simple, a).fence.None?
    ensures ChecklistOf(a + block + b) == ChecklistOf(a + b)
    ensures CurrentTask(a + block + b) == CurrentTask(a + b)
  {
    hide ClosedFence, Items, HasStructuredSection, ContextAfter;
    FenceInsertion(Simple, a, block, b);
    FenceInsertion(Structured, a, block, b);
  }

  // ----- the same on markdown text

  /** Text made of whole lines, each with its line end. */
  predicate WholeLines(text: string) { text == "" || text[|text| - 1] == '\n' }

  function LinesIn(text: string): seq<string> {
    var lines := PlanLines(text);
    lines[..|lines| - 1]
  }

  lemma {:induction false} SplitWholeLines(text: string)
    requires WholeLines(text)
    ensures Split(text, '\n')[|Split(text, '\n')| - 1] == ""
  {
    hide Split;
    if text == "" {
      SplitWithout("", '\n');
    } else {
      var front := text[..|text| - 1];
      assert text == front + ['\n'];
      SplitAppend(front, ['\n'], '\n');
      SplitFirst("", "", '\n');
      SplitWithout("", '\n');
      assert "" + ['\n'] + "" == ['\n'];
    }
  }

  /** Whole lines split on their own, whatever follows them. */
  lemma {:induction false} PlanLinesAppend(a: string, b: string)
    requires WholeLines(a)
    ensures PlanLines(a + b) == LinesIn(a) + PlanLines(b)
  {
    hide Split;
    SplitWholeLines(a);
    SplitAppend(a, b, '\n');
    var l, r := Split(a, '\n'), Split(b, '\n');
    assert "" + r[0] == r[0];
    assert Split(a + b, '\n') == l[..|l| - 1] + r;
  }

  /** Inserting the text of a closed fenced block between two lines outside a fence changes neither view
      of the plan, with either kind of line end. */
  lemma {:induction false} FencedTextIsInvisible(a: string, block: string, b: string)
    requires WholeLines(a) && WholeLines(block)
    requires ClosedFence(LinesIn(block)) && ContextAfter(Simple, LinesIn(a)).fence.None?
    ensures ChecklistOf(PlanLines(a + block + b)) == ChecklistOf(PlanLines(a + b))
    ensures CurrentTask(PlanLines(a + block + b)) == CurrentTask(PlanLines(a + b))
  {
    hide ClosedFence, ContextAfter, PlanLines, LinesIn, ChecklistOf, CurrentTask;
    PlanLinesAppend(a, block + b);
    PlanLinesAppend(block, b);
    PlanLinesAppend(a, b);
    assert a + block + b == a + (block + b);
    assert LinesIn(a) + LinesIn(block) + PlanLines(b) == LinesIn(a) + (LinesIn(block) + PlanLines(b));
    FencedBlocksAreInvisible(LinesIn(a), LinesIn(block), PlanLines(b));
  }

  // ----- ticking boxes

  /** Puts an "x" between the brackets. */
  function Tick(line: string): string {
    var s := FromBracket(line);
    if s == "" then line else line[..|line| - |s| + 1] + "x" + DropBlanks(s[1..])
  }

  lemma {:induction false} BlanksDropped(blanks: string, rest: string)
    requires (forall i :: 0 <= i < |blanks| ==> IsBlank(blanks[i])) && (rest != "" ==> !IsBlank(rest[0]))
    ensures DropBlanks(blanks + rest) == rest
  {
    if blanks == "" {
      assert blanks + rest == rest;
    } else {
      assert (blanks + rest)[1..] == blanks[1..] + rest;
      BlanksDropped(blanks[1..], rest);
    }
  }

  lemma {:induction false} NothingDropped(rest: string)
    requires rest != "" && !IsBlank(rest[0])
    ensures DropBlanks(rest) == rest
  {
  }

  /** A bullet, blanks, and the rest. */
  lemma {:induction false} BulletParts(line: string) returns (blanks: string)
    requires FromBracket(line) != ""
    ensures line != "" && (line[0] == '-' || line[0] == '*')
    ensures line == [line[0]] + blanks + FromBracket(line)
    ensures forall i :: 0 <= i < |blanks| ==> IsBlank(blanks[i])
  {
    hide DropBlanks, IsBlank;
    var tail, s := line[1..], FromBracket(line);
    assert s == DropBlanks(tail);
    blanks := tail[..|tail| - |s|];
    assert tail == blanks + s;
    assert line == [line[0]] + tail;
  }

  lemma {:induction false} BracketAfter(bullet: char, blanks: string, s: string)
    requires bullet == '-' || bullet == '*'
    requires (forall i :: 0 <= i < |blanks| ==> IsBlank(blanks[i])) && s != "" && s[0] == '['
    ensures FromBracket([bullet] + blanks + s) == s
  {
    hide DropBlanks;
    var line := [bullet] + blanks + s;
    assert line[1..] == blanks + s;
    BlanksDropped(blanks, s);
  }

  lemma {:induction false} TickedShape(line: string)
    requires FromBracket(line) != "" && FromBracket(line)[0] == '['
    ensures var close := DropBlanks(FromBracket(line)[1..]);
            && FromBracket(Tick(line)) == "[x" + close
            && line != "" && Tick(line) != "" && Tick(line)[0] == line[0]
  {
    hide DropBlanks, FromBracket;
    var s := FromBracket(line);
    var close := DropBlanks(s[1..]);
    var blanks := BulletParts(line);
    var front := [line[0]] + blanks;
    assert line[..|line| - |s| + 1] == front + "[" by { assert line == front + s; }
    assert Tick(line) == front + ("[x" + close);
    BracketAfter(line[0], blanks, "[x" + close);
  }

  /** An open simple box, taken apart. */
  lemma {:induction false} OpenSimpleParts(line: string)
    requires ParseSimpleCheckbox(line).Some? && !ParseSimpleCheckbox(line).value.checked
    ensures var s := FromBracket(line);
            && s != "" && s[0] == '['
            && var close := DropBlanks(s[1..]);
            && close != "" && close[0] == ']'
            && SimpleLabel(close[1..]) == Some(ParseSimpleCheckbox(line).value.caption)
            && ParseSimpleCheckbox(line).value.task.None?
  {
    hide SimpleLabel, FromBracket, DropBlanks;
    InsideTwice(FromBracket(line)[1..]);
  }

  lemma {:induction false} TickedSimpleParses(line: string, close: string)
    requires FromBracket(line) == "[x" + close && close != "" && close[0] == ']' && SimpleLabel(close[1..]).Some?
    ensures ParseSimpleCheckbox(line) == Some(Checkbox(true, SimpleLabel(close[1..]).value, None))
  {
    hide SimpleLabel, FromBracket, DropBlanks;
    var s, inside := "[x" + close, "x" + close;
    assert s[1..] == inside;
    NothingDropped(inside);
    assert inside[1..] == close;
    NothingDropped(close);
  }

  lemma {:induction false} TickSimple(line: string)
    requires ParseSimpleCheckbox(line).Some? && !ParseSimpleCheckbox(line).value.checked
    ensures ParseSimpleCheckbox(Tick(line)) == Some(ParseSimpleCheckbox(line).value.(checked := true))
    ensures Tick(line) != "" && (Tick(line)[0] == '-' || Tick(line)[0] == '*') && line != "" && Tick(line)[0] == line[0]
  {
    hide SimpleLabel, Tick, FromBracket, DropBlanks, ParseSimpleCheckbox;
    BracketStart(line);
    OpenSimpleParts(line);
    TickedShape(line);
    TickedSimpleParses(Tick(line), DropBlanks(FromBracket(line)[1..]));
  }

  lemma BracketStart(line: string)
    requires ParseSimpleCheckbox(line).Some? || FromBracket(line) != ""
    ensures line != "" && (line[0] == '-' || line[0] == '*')
  {
    hide DropBlanks, SimpleLabel;
  }

  lemma {:induction false} InsideTwice(s: string)
    ensures DropBlanks(DropBlanks(s)) == DropBlanks(s)
  {
    hide DropBlanks;
    if DropBlanks(s) != "" { NothingDropped(DropBlanks(s)); }
  }

  lemma {:induction false} OpenBoxShape(line: string)
    requires StructuredLabel(line).Some? && !StructuredLabel(line).value.0
    ensures line == "- [ ] " + StructuredLabel(line).value.1 && StructuredLabel(line).value.1 != ""
  {
    assert line == line[..3] + [line[3]] + line[4..6] + line[6..];
  }

  lemma {:induction false} TickedBoxShape(caption: string)
    requires caption != ""
    ensures StructuredLabel("- [x] " + caption) == Some((true, caption))
  {
    var t := "- [x] " + caption;
    assert t[..3] == "- [" && t[3] == 'x' && t[4..6] == "] " && t[6..] == caption;
  }

  lemma {:induction false} TickBullet(s: string)
    requires s != "" && s[0] == '['
    ensures Tick("- " + s) == "- [" + "x" + DropBlanks(s[1..])
  {
    hide DropBlanks, FromBracket;
    BracketAfter('-', " ", s);
    assert ['-'] + " " + s == "- " + s;
    var line := "- " + s;
    assert line[..3] == "- [" by { assert line[2] == s[0]; }
  }

  lemma {:induction false} TickOpenBox(caption: string)
    ensures Tick("- [ ] " + caption) == "- [x] " + caption
  {
    hide DropBlanks, FromBracket, Tick;
    var s, close := "[ ] " + caption, "] " + caption;
    TickBullet(s);
    assert "- [ ] " + caption == "- " + s;
    assert s[1..] == " " + close;
    BlanksDropped(" ", close);
  }

  lemma {:induction false} TickStructured(line: string, section: Section)
    requires ParseStructuredCheckbox(line, section).Some? && !ParseStructuredCheckbox(line, section).value.checked
    ensures ParseStructuredCheckbox(Tick(line), section) ==
            Some(ParseStructuredCheckbox(line, section).value.(checked := true))
    ensures Tick(line) != "" && Tick(line)[0] == '-' && line != "" && line[0] == '-'
  {
    hide BuildTaskRef, StructuredLabel, Tick;
    var caption := StructuredLabel(line).value.1;
    OpenBoxShape(line);
    TickOpenBox(caption);
    TickedBoxShape(caption);
  }

  /** A line that starts with a list bullet is no fence and no heading. */
  lemma {:induction false} BulletIsPlain(line: string)
    requires line != "" && (line[0] == '-' || line[0] == '*')
    ensures ParseOpeningFence(line).None? && !IsSectionBoundary(line) && SectionOf(line).Other?
  {
    hide DropBlanks, RunLength, LowerText;
    NothingDropped(line);
    assert |line| > 2 ==> line[..2][0] == line[0];
  }

  /** Where a box counts, ticking it is seen as ticking it, and the scan goes on as before. */
  lemma {:induction false} TickInPlace(mode: Mode, ctx: Context, line: string)
    requires ItemIn(mode, ctx, line).Some? && !ItemIn(mode, ctx, line).value.checked
    ensures ItemIn(mode, ctx, Tick(line)) == Some(ItemIn(mode, ctx, line).value.(checked := true))
    ensures NextContext(mode, ctx, Tick(line)) == NextContext(mode, ctx, line)
    ensures !OpensSection(ctx, line) && !OpensSection(ctx, Tick(line)) && ctx.fence.None?
    ensures forall other: Context :: NextContext(Simple, other.(fence := None), Tick(line))
                                  == NextContext(Simple, other.(fence := None), line)
  {
    hide ParseSimpleCheckbox, ParseStructuredCheckbox, ParseOpeningFence, IsSectionBoundary, SectionOf, Tick;
    if mode.Simple? {
      TickSimple(line);
    } else {
      TickStructured(line, ctx.section);
    }
    BulletIsPlain(line);
    BulletIsPlain(Tick(line));
  }

  lemma {:induction false} UncheckedAppend(a: seq<Checkbox>, b: seq<Checkbox>)
    ensures Unchecked(a + b) == Unchecked(a) + Unchecked(b)
  {
    if b == [] {
      assert a + b == a;
    } else {
      var front, last := b[..|b| - 1], b[|b| - 1];
      UncheckedAppend(a, front);
      assert a + b == (a + front) + [last] && b == front + [last];
      UncheckedSnoc(a + front, last);
      UncheckedSnoc(front, last);
    }
  }

  /** The line of the next open box. */
  function NextLine(mode: Mode, lines: seq<string>): (r: Option<nat>)
    ensures r.Some? ==> r.value < |lines|
  {
    if lines == [] then None
    else
      var front, last := lines[..|lines| - 1], lines[|lines| - 1];
      match NextLine(mode, front)
      case Some(i) => Some(i)
      case None =>
        match ItemIn(mode, ContextAfter(mode, front), last)
        case Some(item) => if item.checked then None else Some(|front|)
        case None => None
  }

  /** The line found is the one whose box is reported as next. */
  lemma {:induction false} NextLineIsNext(mode: Mode, lines: seq<string>)
    ensures NextLine(mode, lines).Some? <==> FirstUnchecked(Items(mode, lines)).Some?
    ensures NextLine(mode, lines).Some? ==>
              var i := NextLine(mode, lines).value;
              var item := ItemIn(mode, ContextAfter(mode, lines[..i]), lines[i]);
              item == FirstUnchecked(Items(mode, lines)) && item.Some? && !item.value.checked
  {
    hide ItemIn, ContextAfter;
    if lines != [] {
      var front, last := lines[..|lines| - 1], lines[|lines| - 1];
      NextLineIsNext(mode, front);
      var items, item := Items(mode, front), ItemIn(mode, ContextAfter(mode, front), last);
      if item.Some? { UncheckedSnoc(items, item.value); } else { assert items + [] == items; }
      if NextLine(mode, front).Some? {
        var i := NextLine(mode, front).value;
        assert front[..i] == lines[..i] && front[i] == lines[i];
      }
    }
  }

  lemma {:induction false} OneItem(mode: Mode, ctx: Context, line: string)
    ensures ContextFrom(mode, ctx, [line]) == NextContext(mode, ctx, line)
    ensures ItemsFrom(mode, ctx, [line]) == match ItemIn(mode, ctx, line) case Some(item) => [item] case None => []
    ensures OpensSectionFrom(ctx, [line]) <==> OpensSection(ctx, line)
  {
    hide NextContext, ItemIn, OpensSection;
    assert [line][..0] == [];
    assert ItemsFrom(mode, ctx, []) == [];
  }

  lemma {:induction false} TickLine(mode: Mode, a: seq<string>, line: string, b: seq<string>)
    requires var item := ItemIn(mode, ContextAfter(mode, a), line); item.Some? && !item.value.checked
    ensures Unchecked(Items(mode, a + [Tick(line)] + b)) == Unchecked(Items(mode, a + [line] + b)) - 1
    ensures |Items(mode, a + [Tick(line)] + b)| == |Items(mode, a + [line] + b)|
    ensures HasStructuredSection(a + [Tick(line)] + b) <==> HasStructuredSection(a + [line] + b)
  {
    hide ItemIn, NextContext, OpensSection, Items, ContextAfter, HasStructuredSection, ItemsFrom, ContextFrom,
         OpensSectionFrom, Tick;
    var ctx, simple := ContextAfter(mode, a), ContextAfter(Simple, a);
    TickInPlace(mode, ctx, line);
    FenceContextSame(a, mode);
    SameOpening(simple, ctx, line);
    SameOpening(simple, ctx, Tick(line));
    assert simple == simple.(fence := None);
    OneItem(mode, ctx, line);
    OneItem(mode, ctx, Tick(line));
    OneItem(Simple, simple, line);
    OneItem(Simple, simple, Tick(line));
    ScanAppend(mode, a, [line]);
    ScanAppend(mode, a, [Tick(line)]);
    ScanAppendSimple(a, [line]);
    ScanAppendSimple(a, [Tick(line)]);
    ScanAppend(mode, a + [line], b);
    ScanAppend(mode, a + [Tick(line)], b);
    var item := ItemIn(mode, ctx, line).value;
    var rest := ItemsFrom(mode, NextContext(mode, ctx, line), b);
    UncheckedSnoc(Items(mode, a), item);
    UncheckedSnoc(Items(mode, a), item.(checked := true));
    UncheckedAppend(Items(mode, a) + [item], rest);
    UncheckedAppend(Items(mode, a) + [item.(checked := true)], rest);
  }

  lemma SameOpening(a: Context, b: Context, line: string)
    requires a.fence == b.fence
    ensures OpensSection(a, line) <==> OpensSection(b, line)
  {
  }

  /** Ticks the next open box of a plan. */
  function TickNext(lines: seq<string>): seq<string> {
    match NextLine(ModeOf(lines), lines)
    case Some(i) => lines[i := Tick(lines[i])]
    case None => lines
  }

  /** Ticking the next box lowers what remains by one and keeps the total. */
  lemma {:induction false} TickNextLowers(lines: seq<string>)
    requires ChecklistOf(lines).remaining > 0
    ensures ChecklistOf(TickNext(lines)).remaining == ChecklistOf(lines).remaining - 1
    ensures ChecklistOf(TickNext(lines)).total == ChecklistOf(lines).total
  {
    hide ItemIn, Items, ContextAfter, HasStructuredSection, Tick, NextLine, Unchecked, FirstUnchecked;
    var mode := ModeOf(lines);
    CountsAgree(Items(mode, lines));
    NextLineIsNext(mode, lines);
    var i := NextLine(mode, lines).value;
    var a, line, b := lines[..i], lines[i], lines[i + 1..];
    TickLine(mode, a, line, b);
    assert lines == a + [line] + b;
    assert TickNext(lines) == a + [Tick(line)] + b;
  }

  function TickTimes(lines: seq<string>, n: nat): seq<string>
    decreases n
  {
    if n == 0 then lines else TickTimes(TickNext(lines), n - 1)
  }

  /** Repeating it reaches "no task" in exactly as many steps as boxes remain. */
  lemma {:induction false} TickingFinishes(lines: seq<string>, n: nat)
    requires n <= ChecklistOf(lines).remaining
    ensures ChecklistOf(TickTimes(lines, n)).remaining == ChecklistOf(lines).remaining - n
    ensures ChecklistOf(TickTimes(lines, n)).total == ChecklistOf(lines).total
    ensures ChecklistOf(TickTimes(lines, n)).nextTaskLabel.None? <==> n == ChecklistOf(lines).remaining
    decreases n
  {
    hide ChecklistOf, TickNext;
    if n > 0 {
      TickNextLowers(lines);
      TickingFinishes(TickNext(lines), n - 1);
    }
    ChecklistAddsUp(TickTimes(lines, n));
  }
}
