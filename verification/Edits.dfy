/** The hash-anchored batch edit engine: deduplicate, sort bottom-up, validate, check overlaps, apply
    (packages/hashline-core/src/edit-operations.ts, edit-ordering.ts, edit-deduplication.ts). */
module Edits {
  import opened Text
  import opened Sorting
  import opened Anchors
  import opened EditText
  import opened EditOps

  datatype Edit =
    | Replace(pos: string, end: Option<string>, lines: Payload)
    | Append(at: Option<string>, lines: Payload)
    | Prepend(at: Option<string>, lines: Payload)

  /** JavaScript truthiness of an optional anchor. */
  predicate Given(anchor: Option<string>) { anchor.Some? && anchor.value != "" }

  // ----- resolving

  /** The line edit behind an edit whose references parse. */
  function OpOf(e: Edit): Op {
    var text := ToNewLines(e.lines);
    match e
    case Replace(pos, end, _) =>
      if Given(end) then ReplaceRange(Target(pos).line, Target(end.value).line, text)
      else SetLine(Target(pos).line, text)
    case Append(at, _) => if Given(at) then InsertAfter(Target(at.value).line, text) else AppendFile(text)
    case Prepend(at, _) => if Given(at) then InsertBefore(Target(at.value).line, text) else PrependFile(text)
  }

  /** `collectLineRefs` for one edit. */
  function Refs(e: Edit): seq<string> {
    match e
    case Replace(pos, end, _) => if Given(end) then [pos, end.value] else [pos]
    case Append(at, _) => if Given(at) then [at.value] else []
    case Prepend(at, _) => if Given(at) then [at.value] else []
  }

  function AllRefs(edits: seq<Edit>): seq<string> {
    if edits == [] then [] else AllRefs(edits[..|edits| - 1]) + Refs(edits[|edits| - 1])
  }

  /** The reference `getEditLineNumber` parses, if it parses one. */
  function SortRef(e: Edit): Option<string> {
    match e
    case Replace(pos, end, _) => if end.Some? then end else Some(pos)
    case Append(at, _) => if Given(at) then at else None
    case Prepend(at, _) => if Given(at) then at else None
  }

  predicate Sortable(e: Edit) {
    match SortRef(e)
    case None => true
    case Some(ref) => ParseLineRef(ref).Some?
  }

  /** `getEditLineNumber`, with -1 for minus infinity. */
  function SortLine(e: Edit): int {
    match SortRef(e)
    case None => -1
    case Some(ref) => Target(ref).line
  }

  function Precedence(e: Edit): int { if e.Replace? then 0 else if e.Append? then 1 else 2 }

  predicate GoesBefore(a: Edit, b: Edit) {
    SortLine(a) > SortLine(b) || (SortLine(a) == SortLine(b) && Precedence(a) <= Precedence(b))
  }

  function SortEdits(edits: seq<Edit>): seq<Edit> { SortBy(edits, GoesBefore) }

  // ----- deduplication

  function Canonical(anchor: string): string { if anchor == "" then "" else NormalizeLineRef(anchor) }

  function CanonicalOption(anchor: Option<string>): string { if Given(anchor) then Canonical(anchor.value) else "" }

  function PayloadKey(p: Payload): string { Join(ToNewLines(p), '\n') }

  /** `buildDedupeKey`. */
  function Key(e: Edit): string {
    match e
    case Replace(pos, end, lines) =>
      "replace" + "|" + (Canonical(pos) + "|" + (CanonicalOption(end) + "|" + PayloadKey(lines)))
    case Append(at, lines) => "append" + "|" + (CanonicalOption(at) + "|" + PayloadKey(lines))
    case Prepend(at, lines) => "prepend" + "|" + (CanonicalOption(at) + "|" + PayloadKey(lines))
  }

  function Keys(edits: seq<Edit>): set<string> { set e | e in edits :: Key(e) }

  /** The first edit of every key, in order. */
  function Kept(edits: seq<Edit>): (r: seq<Edit>)
    ensures |r| <= |edits|
  {
    if edits == [] then []
    else
      var front, last := edits[..|edits| - 1], edits[|edits| - 1];
      if Key(last) in Keys(front) then Kept(front) else Kept(front) + [last]
  }

  lemma {:induction false} KeysSnoc(edits: seq<Edit>, e: Edit)
    ensures Keys(edits + [e]) == Keys(edits) + {Key(e)}
  {
    hide Key;
    assert forall x :: x in edits + [e] <==> x in edits || x == e;
    assert forall k :: k in Keys(edits + [e]) <==> exists x :: x in edits + [e] && Key(x) == k;
    assert e in edits + [e];
  }

  /** `dedupeEdits`: kept plus dropped is given. */
  method DedupeEdits(edits: seq<Edit>) returns (kept: seq<Edit>, dropped: nat)
    ensures kept == Kept(edits)
    ensures |kept| + dropped == |edits|
  {
    hide Key, Keys;
    var seen: set<string> := {};
    kept, dropped := [], 0;
    NoKeys();
    var i := 0;
    while i < |edits|
      invariant 0 <= i <= |edits|
      invariant seen == Keys(edits[..i]) && kept == Kept(edits[..i]) && |kept| + dropped == i
    {
      var e := edits[i];
      assert edits[..i + 1] == edits[..i] + [e];
      assert edits[..i + 1][..i] == edits[..i];
      KeysSnoc(edits[..i], e);
      if Key(e) in seen {
        dropped := dropped + 1;
        assert seen + {Key(e)} == seen;
      } else {
        seen := seen + {Key(e)};
        kept := kept + [e];
      }
      i := i + 1;
    }
    assert edits[..i] == edits;
  }

  lemma NoKeys()
    ensures Keys([]) == {}
  {
  }

  /** What is kept: one edit for every key, drawn from the list. */
  lemma {:induction false} KeptIsOnePerKey(edits: seq<Edit>)
    ensures Keys(Kept(edits)) == Keys(edits)
    ensures forall i, j :: 0 <= i < j < |Kept(edits)| ==> Key(Kept(edits)[i]) != Key(Kept(edits)[j])
    ensures forall e :: e in Kept(edits) ==> e in edits
  {
    hide Key, Keys;
    if edits != [] {
      var front, last := edits[..|edits| - 1], edits[|edits| - 1];
      assert edits == front + [last];
      KeptIsOnePerKey(front);
      KeysSnoc(front, last);
      var kept := Kept(front);
      if Key(last) in Keys(front) {
        assert Keys(front) + {Key(last)} == Keys(front);
      } else {
        KeysSnoc(kept, last);
        forall i | 0 <= i < |kept| ensures Key(kept[i]) != Key(last) { KeyOfMember(kept, i); }
      }
    }
  }

  lemma KeyOfMember(edits: seq<Edit>, i: nat)
    requires i < |edits|
    ensures Key(edits[i]) in Keys(edits)
  {
    hide Key;
  }

  lemma {:induction false} KeysAppend(a: seq<Edit>, b: seq<Edit>)
    ensures Keys(a + b) == Keys(a) + Keys(b)
  {
    hide Key;
    assert forall x :: x in a + b <==> x in a || x in b;
  }

  /** A repeat behind the first edit of its key is invisible to what is kept. */
  lemma {:induction false} RepeatIsDropped(a: seq<Edit>, d: Edit, b: seq<Edit>)
    requires Key(d) in Keys(a)
    ensures Kept(a + [d] + b) == Kept(a + b)
  {
    hide Key, Keys;
    var with, without := a + [d] + b, a + b;
    if b == [] {
      assert with[..|with| - 1] == a && with[|with| - 1] == d && without == a;
    } else {
      var front, last := b[..|b| - 1], b[|b| - 1];
      RepeatIsDropped(a, d, front);
      assert with[..|with| - 1] == a + [d] + front && without[..|without| - 1] == a + front;
      KeysAppend(a + [d], front);
      KeysAppend(a, front);
      KeysSnoc(a, d);
      assert Keys(a) + {Key(d)} == Keys(a);
    }
  }

  /** When no key repeats, everything is kept. */
  lemma {:induction false} DistinctKeysKept(edits: seq<Edit>)
    requires forall i, j :: 0 <= i < j < |edits| ==> Key(edits[i]) != Key(edits[j])
    ensures Kept(edits) == edits
  {
    hide Key;
    if edits != [] {
      var front, last := edits[..|edits| - 1], edits[|edits| - 1];
      assert edits == front + [last];
      assert forall i, j :: 0 <= i < j < |front| ==> front[i] == edits[i] && front[j] == edits[j];
      DistinctKeysKept(front);
      assert Key(last) !in Keys(front);
    }
  }

  // ----- overlapping ranges

  datatype Range = Range(start: nat, end: nat, index: nat)

  function Ranges(ops: seq<Op>): (r: seq<Range>)
    ensures forall x :: x in r ==> x.index < |ops| && ops[x.index].ReplaceRange?
                                   && ops[x.index].start == x.start && ops[x.index].end == x.end
    ensures forall i :: 0 <= i < |ops| && ops[i].ReplaceRange? ==> Range(ops[i].start, ops[i].end, i) in r
    ensures forall i, j :: 0 <= i < j < |r| ==> r[i].index < r[j].index
  {
    if ops == [] then []
    else
      var front, last := ops[..|ops| - 1], ops[|ops| - 1];
      var r := Ranges(front);
      assert forall x :: x in r ==> ops[x.index] == front[x.index];
      if last.ReplaceRange? then r + [Range(last.start, last.end, |front|)] else r
  }

  predicate RangeBefore(a: Range, b: Range) { a.start < b.start || (a.start == b.start && a.end <= b.end) }

  predicate Clash(prev: Range, next: Range) { next.start <= prev.end }

  /** The first neighbouring pair, in start order, whose ranges meet. */
  function FirstClash(sorted: seq<Range>): Option<(Range, Range)> {
    if |sorted| < 2 then None
    else match FirstClash(sorted[..|sorted| - 1])
      case Some(c) => Some(c)
      case None =>
        var prev, next := sorted[|sorted| - 2], sorted[|sorted| - 1];
        if Clash(prev, next) then Some((prev, next)) else None
  }

  function Overlap(ops: seq<Op>): Option<(Range, Range)> {
    FirstClash(SortBy(Ranges(ops), RangeBefore))
  }

  lemma {:induction false} RangesSnoc(ops: seq<Op>, i: nat)
    requires i < |ops|
    ensures Ranges(ops[..i + 1]) == Ranges(ops[..i]) +
            (if ops[i].ReplaceRange? then [Range(ops[i].start, ops[i].end, i)] else [])
  {
    assert ops[..i + 1][..i] == ops[..i];
  }

  lemma {:induction false} FirstClashSnoc(sorted: seq<Range>, i: nat)
    requires 1 <= i < |sorted| && FirstClash(sorted[..i]).None?
    ensures FirstClash(sorted[..i + 1]) ==
            if Clash(sorted[i - 1], sorted[i]) then Some((sorted[i - 1], sorted[i])) else None
  {
    assert sorted[..i + 1][..i] == sorted[..i];
  }

  /** `detectOverlappingRanges`. */
  method DetectOverlappingRanges(ops: seq<Op>) returns (r: Option<(Range, Range)>)
    ensures r == Overlap(ops)
  {
    hide SortBy, Ranges, FirstClash, Clash;
    var ranges: seq<Range> := [];
    var i := 0;
    NoRanges();
    while i < |ops|
      invariant 0 <= i <= |ops| && ranges == Ranges(ops[..i])
    {
      RangesSnoc(ops, i);
      if ops[i].ReplaceRange? { ranges := ranges + [Range(ops[i].start, ops[i].end, i)]; }
      i := i + 1;
    }
    assert ops[..i] == ops;
    SortMembers(ranges, RangeBefore);
    var sorted := SortBy(ranges, RangeBefore);
    if |ranges| < 2 {
      FewRanges(sorted);
      return None;
    }
    i := 1;
    FewRanges(sorted[..1]);
    while i < |sorted|
      invariant 1 <= i <= |sorted| && FirstClash(sorted[..i]) == None
    {
      FirstClashSnoc(sorted, i);
      if Clash(sorted[i - 1], sorted[i]) {
        FirstClashStays(sorted, i + 1);
        return Some((sorted[i - 1], sorted[i]));
      }
      i := i + 1;
    }
    assert sorted[..i] == sorted;
    return None;
  }

  lemma NoRanges()
    ensures Ranges([]) == []
  {
  }

  lemma FewRanges(sorted: seq<Range>)
    requires |sorted| < 2
    ensures FirstClash(sorted) == None
  {
  }

  lemma {:induction false} FirstClashStays(sorted: seq<Range>, k: nat)
    requires k <= |sorted| && FirstClash(sorted[..k]).Some?
    ensures FirstClash(sorted) == FirstClash(sorted[..k])
  {
    if k < |sorted| {
      var front := sorted[..|sorted| - 1];
      assert front[..k] == sorted[..k];
      FirstClashStays(front, k);
    } else {
      assert sorted[..k] == sorted;
    }
  }

  lemma {:induction false} NoClashMeansApart(sorted: seq<Range>)
    requires Sorted(sorted, RangeBefore)
    ensures FirstClash(sorted).None? <==> forall i, j :: 0 <= i < j < |sorted| ==> sorted[i].end < sorted[j].start
  {
    if |sorted| >= 2 {
      var n := |sorted|;
      var front := sorted[..n - 1];
      NoClashMeansApart(front);
      assert forall i :: 0 <= i < n - 1 ==> front[i] == sorted[i];
      if FirstClash(front).None? && !Clash(sorted[n - 2], sorted[n - 1]) {
        assert RangeBefore(sorted[n - 2], sorted[n - 1]);
        forall i, j | 0 <= i < j < n ensures sorted[i].end < sorted[j].start {
          if j == n - 1 && i < n - 2 { assert front[i].end < front[n - 2].start; }
          if j < n - 1 { assert front[i].end < front[j].start; }
        }
      } else if FirstClash(front).None? {
        assert !(sorted[n - 2].end < sorted[n - 1].start);
      } else {
        var i, j :| 0 <= i < j < |front| && !(front[i].end < front[j].start);
        assert !(sorted[i].end < sorted[j].start);
      }
    }
  }

  ghost predicate RangesApart(ops: seq<Op>) {
    forall i, j :: 0 <= i < j < |ops| && ops[i].ReplaceRange? && ops[j].ReplaceRange? ==>
      ops[i].end < ops[j].start || ops[j].end < ops[i].start
  }

  lemma RangeOrder()
    ensures Transitive(RangeBefore) && Total(RangeBefore)
  {
  }

  predicate Differ(a: Range, b: Range) { a != b }

  lemma {:induction false} SortedRanges(ops: seq<Op>) returns (sorted: seq<Range>)
    ensures sorted == SortBy(Ranges(ops), RangeBefore) && Sorted(sorted, RangeBefore)
    ensures forall x :: x in sorted <==> x in Ranges(ops)
    ensures forall p, q :: 0 <= p < |sorted| && 0 <= q < |sorted| && p != q ==> sorted[p] != sorted[q]
  {
    hide SortBy, Ranges;
    var ranges := Ranges(ops);
    sorted := SortBy(ranges, RangeBefore);
    RangeOrder();
    SortSorts(ranges, RangeBefore);
    SortMembers(ranges, RangeBefore);
    SortKeeps(ranges, RangeBefore);
    assert forall i, j :: 0 <= i < |ranges| && 0 <= j < |ranges| && i != j ==> Differ(ranges[i], ranges[j]);
    PermutedPairs(ranges, sorted, Differ);
    assert forall p, q :: 0 <= p < |sorted| && 0 <= q < |sorted| && p != q ==> Differ(sorted[p], sorted[q]);
  }

  predicate BothRanges(a: Op, b: Op) { a.ReplaceRange? && b.ReplaceRange? }

  /** `a` stands before `b` in start order. */
  predicate StartsFirst(a: Op, b: Op)
    requires BothRanges(a, b)
  {
    a.start < b.start || (a.start == b.start && a.end <= b.end)
  }

  predicate InStartOrder(a: Op, b: Op) { BothRanges(a, b) && StartsFirst(a, b) }

  /** Every range ends before each range that does not start first begins. */
  ghost predicate RangesClear(ops: seq<Op>) {
    forall i, j :: 0 <= i < |ops| && 0 <= j < |ops| && i != j && InStartOrder(ops[i], ops[j]) ==>
      ops[i].end < ops[j].start
  }

  /** Looking only at neighbours in start order finds an overlap exactly when two ranges meet, inverted
      ranges included; for ranges that are the right way round that is plain disjointness. */
  lemma {:induction false} OverlapIsExact(ops: seq<Op>)
    ensures Overlap(ops).None? <==> RangesClear(ops)
    ensures (forall i :: 0 <= i < |ops| && ops[i].ReplaceRange? ==> ops[i].start <= ops[i].end) ==>
              (Overlap(ops).None? <==> RangesApart(ops))
  {
    hide SortBy, Ranges, FirstClash;
    var sorted := SortedRanges(ops);
    NoClashMeansApart(sorted);
    if Overlap(ops).None? {
      forall i, j | 0 <= i < |ops| && 0 <= j < |ops| && i != j && InStartOrder(ops[i], ops[j])
        ensures ops[i].end < ops[j].start
      {
        var x, y := Range(ops[i].start, ops[i].end, i), Range(ops[j].start, ops[j].end, j);
        assert x in Ranges(ops) && y in Ranges(ops);
        var p :| 0 <= p < |sorted| && sorted[p] == x;
        var q :| 0 <= q < |sorted| && sorted[q] == y;
        assert p < q || (q < p && RangeBefore(y, x));
      }
    }
    if RangesClear(ops) {
      forall p, q | 0 <= p < q < |sorted| ensures sorted[p].end < sorted[q].start {
        var x, y := sorted[p], sorted[q];
        assert x in Ranges(ops) && y in Ranges(ops) && RangeBefore(x, y) && x.index != y.index;
        assert StartsFirst(ops[x.index], ops[y.index]);
      }
    }
    if forall i :: 0 <= i < |ops| && ops[i].ReplaceRange? ==> ops[i].start <= ops[i].end { ClearIsApart(ops); }
  }

  lemma {:induction false} ClearIsApart(ops: seq<Op>)
    requires forall i :: 0 <= i < |ops| && ops[i].ReplaceRange? ==> ops[i].start <= ops[i].end
    ensures RangesClear(ops) <==> RangesApart(ops)
  {
    if RangesClear(ops) {
      forall i, j | 0 <= i < j < |ops| && ops[i].ReplaceRange? && ops[j].ReplaceRange?
        ensures ops[i].end < ops[j].start || ops[j].end < ops[i].start
      {
        assert StartsFirst(ops[i], ops[j]) || StartsFirst(ops[j], ops[i]);
      }
    }
    if RangesApart(ops) {
      forall i, j | 0 <= i < |ops| && 0 <= j < |ops| && i != j && InStartOrder(ops[i], ops[j])
        ensures ops[i].end < ops[j].start
      {
        assert i < j || j < i;
      }
    }
  }

  // ----- the engine

  datatype Report = Report(content: string, noopEdits: nat, deduplicatedEdits: nat)

  datatype EditError =
    | Unsortable
    | Reference(error: RefError)
    | Overlapping(prev: Range, next: Range)
    | Apply(cause: ApplyError)

  function Ops(edits: seq<Edit>): (r: seq<Op>)
    ensures |r| == |edits| && forall i :: 0 <= i < |edits| ==> r[i] == OpOf(edits[i])
  {
    seq(|edits|, i requires 0 <= i < |edits| => OpOf(edits[i]))
  }

  lemma {:induction false} RefsListed(edits: seq<Edit>, ref: string)
    ensures ref in AllRefs(edits) <==> exists i :: 0 <= i < |edits| && ref in Refs(edits[i])
  {
    hide Refs;
    if edits != [] {
      var front, last := edits[..|edits| - 1], edits[|edits| - 1];
      RefsListed(front, ref);
      assert forall i :: 0 <= i < |front| ==> front[i] == edits[i];
      if ref in AllRefs(edits) {
        if ref in AllRefs(front) {
          var i :| 0 <= i < |front| && ref in Refs(front[i]);
          assert ref in Refs(edits[i]);
        } else {
          assert ref in Refs(edits[|edits| - 1]);
        }
      } else {
        assert forall i :: 0 <= i < |front| ==> ref !in Refs(front[i]);
      }
    }
  }

  lemma {:induction false} FreshIsPositive(h: Hashes, lines: seq<string>, e: Edit)
    requires forall ref :: ref in Refs(e) ==> Fresh(h, lines, ref)
    ensures Positive(OpOf(e)) && (Anchored(OpOf(e)) ==> First(OpOf(e)) <= |lines| && Last(OpOf(e)) <= |lines|)
  {
    hide ParseLineRef, ToNewLines;
    forall ref | ref in Refs(e) ensures 1 <= Target(ref).line <= |lines| {
      assert Fresh(h, lines, ref);
    }
    match e
    case Replace(pos, end, _) =>
      assert pos in Refs(e);
      if Given(end) { assert Refs(e)[1] == end.value; }
    case Append(at, _) => if Given(at) { assert at.value in Refs(e); }
    case Prepend(at, _) => if Given(at) { assert at.value in Refs(e); }
  }

  lemma {:induction false} ValidatedArePositive(h: Hashes, lines: seq<string>, edits: seq<Edit>)
    requires Validation(h, lines, AllRefs(edits)).Ok?
    ensures forall op :: op in Ops(edits) ==> Positive(op)
  {
    hide Validation, AllRefs, OpOf, Fresh, Refs, Positive;
    ValidMeansFresh(h, lines, AllRefs(edits));
    forall op | op in Ops(edits) ensures Positive(op) {
      var i :| 0 <= i < |edits| && Ops(edits)[i] == op;
      forall ref | ref in Refs(edits[i]) ensures Fresh(h, lines, ref) { RefsListed(edits, ref); }
      FreshIsPositive(h, lines, edits[i]);
    }
  }

  predicate AllSortable(edits: seq<Edit>) { forall i :: 0 <= i < |edits| ==> Sortable(edits[i]) }

  /** Validation, overlap check and apply loop on edits that are already in order. */
  function ApplySorted(h: Hashes, ac: Autocorrect, lines: seq<string>, sorted: seq<Edit>): Result<Progress, EditError> {
    match Validation(h, lines, AllRefs(sorted))
    case Err(e) => Err(Reference(e))
    case Ok(_) =>
      ValidatedArePositive(h, lines, sorted);
      match Overlap(Ops(sorted))
      case Some((prev, next)) => Err(Overlapping(prev, next))
      case None =>
        match RunOps(ac, lines, Ops(sorted))
        case Err(e) => Err(Apply(e))
        case Ok(p) => Ok(p)
  }

  /** The engine as one expression.  A comparator runs, and can throw, only when two edits are left. */
  function Applied(h: Hashes, ac: Autocorrect, content: string, edits: seq<Edit>): Result<Report, EditError> {
    if edits == [] then Ok(Report(content, 0, 0))
    else
      var kept := Kept(edits);
      if |kept| >= 2 && !AllSortable(kept) then Err(Unsortable)
      else
        match ApplySorted(h, ac, LinesOf(content), SortEdits(kept))
        case Err(e) => Err(e)
        case Ok(p) => Ok(Report(Join(p.lines, '\n'), p.noops, |edits| - |kept|))
  }

  /** `applyHashlineEditsWithReport`. */
  method ApplyHashlineEditsWithReport(h: Hashes, ac: Autocorrect, content: string, edits: seq<Edit>)
    returns (r: Result<Report, EditError>)
    ensures r == Applied(h, ac, content, edits)
  {
    hide Kept, Sortable, SortEdits, Validation, AllRefs, Overlap, LinesOf, ApplyOp, OpOf, RunOps, Positive, Join;
    if edits == [] { return Ok(Report(content, 0, 0)); }
    var kept, dropped := DedupeEdits(edits);
    if |kept| >= 2 && !AllSortable(kept) { return Err(Unsortable); }
    var sorted := SortEdits(kept);
    var original := LinesOf(content);
    var valid := ValidateLineRefs(h, original, AllRefs(sorted));
    if valid.Err? { return Err(Reference(valid.error)); }
    ValidatedArePositive(h, original, sorted);
    var ops := Ops(sorted);
    var overlap := DetectOverlappingRanges(ops);
    if overlap.Some? { return Err(Overlapping(overlap.value.0, overlap.value.1)); }
    var lines, noops := original, 0;
    var i := 0;
    NothingRun(ac, original);
    while i < |ops|
      invariant 0 <= i <= |ops|
      invariant RunOps(ac, original, ops[..i]) == Ok(Progress(lines, noops))
    {
      RunSnoc(ac, original, ops, i);
      var next := ApplyOp(ac, lines, ops[i]);
      if next.Err? {
        RunStopsAt(ac, original, ops, i + 1, next.error);
        return Err(Apply(next.error));
      }
      if next.value == lines {
        noops := noops + 1;
      } else {
        lines := next.value;
      }
      i := i + 1;
    }
    assert ops[..i] == ops;
    r := Ok(Report(Join(lines, '\n'), noops, dropped));
  }

  lemma NothingRun(ac: Autocorrect, lines: seq<string>)
    ensures RunOps(ac, lines, []) == Ok(Progress(lines, 0))
  {
  }

  lemma {:induction false} RunSnoc(ac: Autocorrect, lines: seq<string>, ops: seq<Op>, i: nat)
    requires i < |ops| && (forall op :: op in ops ==> Positive(op)) && RunOps(ac, lines, ops[..i]).Ok?
    ensures (Anchored(ops[i]) ==> First(ops[i]) >= 1 && Last(ops[i]) >= 1) && Positive(ops[i])
    ensures RunOps(ac, lines, ops[..i + 1]) == Step(ac, RunOps(ac, lines, ops[..i]).value, ops[i])
  {
    hide Step;
    assert ops[i] in ops;
    assert ops[..i + 1][..i] == ops[..i];
  }

  // ----- what the engine promises for disjoint batches

  /** A fresh, anchored edit with its range the right way round. */
  predicate Proper(h: Hashes, lines: seq<string>, e: Edit) {
    && (forall ref :: ref in Refs(e) ==> Fresh(h, lines, ref))
    && InFile(OpOf(e), |lines|)
    && (e.Replace? ==> e.end != Some(""))
  }

  predicate Apart(a: Edit, b: Edit) {
    Anchored(OpOf(a)) && Anchored(OpOf(b)) && Disjoint(OpOf(a), OpOf(b))
  }

  /** Fresh anchored edits on pairwise disjoint line intervals. */
  ghost predicate DisjointBatch(h: Hashes, lines: seq<string>, edits: seq<Edit>) {
    && (forall e :: e in edits ==> Proper(h, lines, e))
    && (forall i, j :: 0 <= i < |edits| && 0 <= j < |edits| && i != j ==> Apart(edits[i], edits[j]))
  }

  function OpSet(edits: seq<Edit>): set<Op> { set e | e in edits :: OpOf(e) }

  lemma {:induction false} BarSplits(a: string, x: string, b: string, y: string)
    requires '|' !in a && '|' !in b && a + "|" + x == b + "|" + y
    ensures a == b && x == y
  {
    var s := a + "|" + x;
    assert s[|a|] == '|' && s[|b|] == '|';
    assert forall k :: 0 <= k < |a| ==> s[k] == a[k];
    assert forall k :: 0 <= k < |b| ==> s[k] == b[k];
    assert |a| == |b|;
    assert a == s[..|a|] && b == s[..|b|] && x == s[|a| + 1..] && y == s[|b| + 1..];
  }

  lemma {:induction false} RefHasNoBar(s: string)
    requires IsRef(s)
    ensures '|' !in s
  {
    var d := DigitRun(s);
    HashHasTwo(s[d + 1..d + 3]);
    forall k | 0 <= k < |s| ensures s[k] != '|' {
      if k > d { assert s[k] == s[d + 1..d + 3][k - d - 1]; }
    }
  }

  lemma {:induction false} FreshCanonical(h: Hashes, lines: seq<string>, ref: string)
    requires Fresh(h, lines, ref)
    ensures '|' !in Canonical(ref)
  {
    hide NormalizeLineRef, IsRef;
    if ref != "" {
      assert IsRef(NormalizeLineRef(ref));
      RefHasNoBar(NormalizeLineRef(ref));
    }
  }

  lemma {:induction false} SameCanonical(a: string, b: string)
    requires a != "" && b != "" && Canonical(a) == Canonical(b)
    ensures Target(a) == Target(b)
  {
    hide NormalizeLineRef;
  }

  /** The anchor texts of a proper edit, as they stand in its key. */
  function KeyAnchors(e: Edit): (string, string) {
    match e
    case Replace(pos, end, _) => (Canonical(pos), CanonicalOption(end))
    case Append(at, _) => (CanonicalOption(at), "")
    case Prepend(at, _) => (CanonicalOption(at), "")
  }

  lemma {:induction false} AnchorsHaveNoBar(h: Hashes, lines: seq<string>, e: Edit)
    requires Proper(h, lines, e)
    ensures '|' !in KeyAnchors(e).0 && '|' !in KeyAnchors(e).1
  {
    hide Fresh, Canonical, ToNewLines, Target;
    forall ref | ref in Refs(e) ensures '|' !in Canonical(ref) { FreshCanonical(h, lines, ref); }
    match e
    case Replace(pos, end, _) =>
      assert pos in Refs(e);
      if Given(end) { assert Refs(e)[1] == end.value; }
    case Append(at, _) => assert at.value in Refs(e);
    case Prepend(at, _) => assert at.value in Refs(e);
  }

  lemma {:induction false} KeyShape(e: Edit)
    ensures var name := if e.Replace? then "replace" else if e.Append? then "append" else "prepend";
            Key(e) == name + "|" + (KeyAnchors(e).0 + "|" +
                      (if e.Replace? then KeyAnchors(e).1 + "|" + PayloadKey(e.lines) else PayloadKey(e.lines)))
  {
    hide PayloadKey, Canonical, CanonicalOption;
  }

  lemma {:induction false} EqualKeysEqualAnchors(h: Hashes, lines: seq<string>, a: Edit, b: Edit)
    requires Proper(h, lines, a) && Proper(h, lines, b) && Key(a) == Key(b)
    ensures (a.Replace? <==> b.Replace?) && (a.Append? <==> b.Append?) && KeyAnchors(a) == KeyAnchors(b)
    ensures PayloadKey(a.lines) == PayloadKey(b.lines)
  {
    hide PayloadKey, KeyAnchors, Key, Proper;
    KeyShape(a);
    KeyShape(b);
    AnchorsHaveNoBar(h, lines, a);
    AnchorsHaveNoBar(h, lines, b);
    var na := if a.Replace? then "replace" else if a.Append? then "append" else "prepend";
    var nb := if b.Replace? then "replace" else if b.Append? then "append" else "prepend";
    var ra := if a.Replace? then KeyAnchors(a).1 + "|" + PayloadKey(a.lines) else PayloadKey(a.lines);
    var rb := if b.Replace? then KeyAnchors(b).1 + "|" + PayloadKey(b.lines) else PayloadKey(b.lines);
    BarSplits(na, KeyAnchors(a).0 + "|" + ra, nb, KeyAnchors(b).0 + "|" + rb);
    assert |"replace"| == 7 && |"append"| == 6 && |"prepend"| == 7 && "replace"[0] != "prepend"[0];
    BarSplits(KeyAnchors(a).0, ra, KeyAnchors(b).0, rb);
    if a.Replace? {
      BarSplits(KeyAnchors(a).1, PayloadKey(a.lines), KeyAnchors(b).1, PayloadKey(b.lines));
    } else {
      NoSecondAnchor(a);
      NoSecondAnchor(b);
    }
  }

  lemma NoSecondAnchor(e: Edit)
    requires !e.Replace?
    ensures KeyAnchors(e).1 == ""
  {
  }

  lemma {:induction false} FreshIsGiven(h: Hashes, lines: seq<string>, ref: string)
    requires Fresh(h, lines, ref)
    ensures ref != "" && Canonical(ref) != ""
  {
    hide NormalizeLineRef, IsRef;
    assert IsRef(NormalizeLineRef(ref));
    RefIsNotEmpty(NormalizeLineRef(ref));
    if ref == "" { NothingIsNoRef(); }
  }

  lemma RefIsNotEmpty(s: string)
    requires IsRef(s)
    ensures s != ""
  {
  }

  lemma NothingIsNoRef()
    ensures NormalizeLineRef("") == "" && !IsRef("")
  {
    hide TightenHash, DropMarker, RefPrefix, TrimStart, TrimEnd;
    assert Trim("") == "";
    DropMarkerOfNothing();
    TightenNothing();
    DropTextOfNothing();
  }

  lemma DropMarkerOfNothing()
    ensures DropMarker("") == ""
  {
    assert !(">>>" <= "");
  }

  lemma TightenNothing()
    ensures TightenHash("") == ""
  {
  }

  lemma {:induction false} EqualAnchorsEqualLines(h: Hashes, lines: seq<string>, a: Edit, b: Edit)
    requires Proper(h, lines, a) && Proper(h, lines, b) && KeyAnchors(a) == KeyAnchors(b)
    requires (a.Replace? <==> b.Replace?) && (a.Append? <==> b.Append?)
    ensures OpOf(a).(text := ToNewLines(b.lines)) == OpOf(b) && OpOf(a).text == ToNewLines(a.lines)
    ensures !Apart(a, b)
  {
    hide Fresh, Canonical, Target, ToNewLines;
    forall ref | ref in Refs(a) || ref in Refs(b) ensures ref != "" && Canonical(ref) != "" {
      FreshIsGiven(h, lines, ref);
    }
    if a.Replace? {
      assert a.pos in Refs(a) && b.pos in Refs(b);
      SameCanonical(a.pos, b.pos);
      if Given(a.end) { assert Refs(a)[1] == a.end.value; }
      if Given(b.end) { assert Refs(b)[1] == b.end.value; }
      if Given(a.end) && Given(b.end) { SameCanonical(a.end.value, b.end.value); }
    } else {
      assert Given(a.at) && Given(b.at);
      SameCanonical(a.at.value, b.at.value);
    }
  }

  /** Disjoint edits never share a key, so deduplication leaves a disjoint batch alone. */
  lemma {:induction false} DisjointBatchIsKept(h: Hashes, lines: seq<string>, edits: seq<Edit>)
    requires DisjointBatch(h, lines, edits)
    ensures Kept(edits) == edits
  {
    hide Key, Proper, Apart;
    forall i, j | 0 <= i < j < |edits| ensures Key(edits[i]) != Key(edits[j]) {
      var a, b := edits[i], edits[j];
      assert a in edits && b in edits && Apart(a, b);
      if Key(a) == Key(b) {
        EqualKeysEqualAnchors(h, lines, a, b);
        EqualAnchorsEqualLines(h, lines, a, b);
      }
    }
    DistinctKeysKept(edits);
  }

  lemma EditOrder()
    ensures Transitive(GoesBefore) && Total(GoesBefore)
  {
    hide SortLine, Precedence;
  }

  lemma {:induction false} ProperSortLine(h: Hashes, lines: seq<string>, e: Edit)
    requires Proper(h, lines, e)
    ensures SortLine(e) == Last(OpOf(e)) && Sortable(e)
  {
    hide ParseLineRef, ToNewLines;
    match e
    case Replace(pos, end, _) =>
      assert pos in Refs(e);
      if end.Some? { assert Refs(e)[1] == end.value; }
      assert SortRef(e).value in Refs(e) && Fresh(h, lines, SortRef(e).value);
    case Append(at, _) => assert at.value in Refs(e) && Fresh(h, lines, at.value);
    case Prepend(at, _) => assert at.value in Refs(e) && Fresh(h, lines, at.value);
  }

  lemma {:induction false} OrderedApartFollows(h: Hashes, lines: seq<string>, a: Edit, b: Edit)
    requires Proper(h, lines, a) && Proper(h, lines, b) && Apart(a, b) && GoesBefore(a, b)
    ensures Follows(OpOf(a), OpOf(b)) && OpOf(a) != OpOf(b)
  {
    hide SortLine, Target, ToNewLines;
    ProperSortLine(h, lines, a);
    ProperSortLine(h, lines, b);
  }

  lemma {:induction false} SortedBatch(h: Hashes, lines: seq<string>, edits: seq<Edit>)
    requires DisjointBatch(h, lines, edits)
    ensures DisjointBatch(h, lines, SortEdits(edits))
    ensures BottomUp(Ops(SortEdits(edits)), |lines|)
    ensures SetOf(Ops(SortEdits(edits))) == OpSet(edits)
  {
    hide SortBy, Proper, Apart, GoesBefore, OpOf, Follows, InFile, Disjoint;
    var sorted := SortEdits(edits);
    EditOrder();
    SortSorts(edits, GoesBefore);
    SortMembers(edits, GoesBefore);
    SortKeeps(edits, GoesBefore);
    PermutedPairs(edits, sorted, Apart);
    var ops := Ops(sorted);
    forall i | 0 <= i < |sorted| ensures Proper(h, lines, sorted[i]) && InFile(ops[i], |lines|) {
      assert sorted[i] in sorted;
      ProperIsInFile(h, lines, sorted[i]);
    }
    forall i, j | 0 <= i < j < |sorted|
      ensures Anchored(ops[i]) && Anchored(ops[j]) && Disjoint(ops[i], ops[j])
      ensures ops[i] != ops[j] && Follows(ops[i], ops[j])
    {
      assert Apart(sorted[i], sorted[j]) && GoesBefore(sorted[i], sorted[j]);
      ApartIsDisjoint(sorted[i], sorted[j]);
      OrderedApartFollows(h, lines, sorted[i], sorted[j]);
    }
    SameOpSets(edits, sorted);
  }

  lemma ProperIsInFile(h: Hashes, lines: seq<string>, e: Edit)
    requires Proper(h, lines, e)
    ensures InFile(OpOf(e), |lines|)
  {
  }

  lemma ApartIsDisjoint(a: Edit, b: Edit)
    requires Apart(a, b)
    ensures Anchored(OpOf(a)) && Anchored(OpOf(b)) && Disjoint(OpOf(a), OpOf(b))
  {
  }

  lemma {:induction false} SameOpSets(edits: seq<Edit>, sorted: seq<Edit>)
    requires forall e :: e in sorted <==> e in edits
    ensures SetOf(Ops(sorted)) == OpSet(edits)
  {
    hide OpOf;
    forall op | op in SetOf(Ops(sorted)) ensures op in OpSet(edits) {
      var i :| 0 <= i < |sorted| && Ops(sorted)[i] == op;
      assert sorted[i] in edits;
    }
    forall op | op in OpSet(edits) ensures op in SetOf(Ops(sorted)) {
      var e :| e in edits && OpOf(e) == op;
      var i :| 0 <= i < |sorted| && sorted[i] == e;
      assert Ops(sorted)[i] == op;
    }
  }

  lemma {:induction false} BatchValidates(h: Hashes, lines: seq<string>, edits: seq<Edit>)
    requires DisjointBatch(h, lines, edits)
    ensures Validation(h, lines, AllRefs(edits)).Ok?
  {
    hide Validation, AllRefs, Fresh, Refs, Apart, OpOf;
    forall ref | ref in AllRefs(edits) ensures Fresh(h, lines, ref) {
      RefsListed(edits, ref);
      var i :| 0 <= i < |edits| && ref in Refs(edits[i]);
      assert edits[i] in edits;
    }
    ValidMeansFresh(h, lines, AllRefs(edits));
  }

  lemma {:induction false} BatchDoesNotOverlap(ops: seq<Op>, n: nat)
    requires BottomUp(ops, n)
    ensures Overlap(ops).None?
  {
    hide Overlap, Follows;
    assert forall i :: 0 <= i < |ops| ==> InFile(ops[i], n);
    forall i, j | 0 <= i < j < |ops| && ops[i].ReplaceRange? && ops[j].ReplaceRange?
      ensures ops[i].end < ops[j].start || ops[j].end < ops[i].start
    {
      assert Disjoint(ops[i], ops[j]);
    }
    OverlapIsExact(ops);
  }

  ghost predicate SomeInsertVanishes(lines: seq<string>, ops: set<Op>) {
    exists op :: op in ops && InFile(op, |lines|) && Vanishes(lines, op)
  }

  lemma {:induction false} DisjointBatchRuns(h: Hashes, ac: Autocorrect, lines: seq<string>, edits: seq<Edit>)
    requires DisjointBatch(h, lines, edits)
    ensures !SomeInsertVanishes(lines, OpSet(edits)) ==>
              ApplySorted(h, ac, lines, SortEdits(edits)) ==
              Ok(Progress(Merge(ac, lines, OpSet(edits)), |NoopOps(ac, lines, OpSet(edits))|))
    ensures SomeInsertVanishes(lines, OpSet(edits)) ==> ApplySorted(h, ac, lines, SortEdits(edits)).Err?
  {
    hide SortEdits, Merge, NoopOps, Vanishes, OpSet, Validation, AllRefs, Overlap, RunOps, DisjointBatch;
    var sorted := SortEdits(edits);
    SortedBatch(h, lines, edits);
    BatchValidates(h, lines, sorted);
    ValidatedArePositive(h, lines, sorted);
    var ops := Ops(sorted);
    BatchDoesNotOverlap(ops, |lines|);
    if SomeInsertVanishes(lines, OpSet(edits)) {
      var op :| op in SetOf(ops) && InFile(op, |lines|) && Vanishes(lines, op);
      var i :| 0 <= i < |ops| && ops[i] == op;
      VanishedInsertFails(ac, lines, ops);
    } else {
      forall i | 0 <= i < |ops| ensures !Vanishes(lines, ops[i]) { assert ops[i] in SetOf(ops); }
      LoopIsMerge(ac, lines, ops);
    }
  }

  /** The main result.  A non-empty batch of fresh edits on disjoint intervals is applied as if all
      edits happened at once on the original file; it fails exactly when an insertion strips to nothing. */
  lemma {:induction false} BatchIsSimultaneous(h: Hashes, ac: Autocorrect, content: string, edits: seq<Edit>)
    requires edits != [] && DisjointBatch(h, LinesOf(content), edits)
    ensures Applied(h, ac, content, edits).Err? <==> SomeInsertVanishes(LinesOf(content), OpSet(edits))
    ensures Applied(h, ac, content, edits).Ok? ==>
              var lines, ops := LinesOf(content), OpSet(edits);
              Applied(h, ac, content, edits)
              == Ok(Report(Join(Merge(ac, lines, ops), '\n'), |NoopOps(ac, lines, ops)|, 0))
  {
    var lines := LinesOf(content);
    hide SortEdits, Merge, NoopOps, OpSet, Sortable, Split, ApplySorted, SomeInsertVanishes, Kept;
    DisjointBatchIsKept(h, lines, edits);
    DisjointBatchRuns(h, ac, lines, edits);
    forall i | 0 <= i < |edits| ensures Sortable(edits[i]) {
      assert edits[i] in edits;
      ProperSortLine(h, lines, edits[i]);
    }
  }

  /** The order of a disjoint batch does not matter: content and both counters are the same. */
  lemma {:induction false} OrderDoesNotMatter(h: Hashes, ac: Autocorrect, content: string, edits: seq<Edit>,
                                              edits': seq<Edit>)
    requires DisjointBatch(h, LinesOf(content), edits) && multiset(edits) == multiset(edits')
    ensures Applied(h, ac, content, edits).Ok? <==> Applied(h, ac, content, edits').Ok?
    ensures Applied(h, ac, content, edits).Ok? ==> Applied(h, ac, content, edits) == Applied(h, ac, content, edits')
  {
    hide Applied, DisjointBatch, OpSet, Merge, NoopOps, SomeInsertVanishes;
    PermutedBatch(h, LinesOf(content), edits, edits');
    if edits != [] {
      BatchIsSimultaneous(h, ac, content, edits);
      BatchIsSimultaneous(h, ac, content, edits');
    }
  }

  lemma {:induction false} PermutedBatch(h: Hashes, lines: seq<string>, edits: seq<Edit>, edits': seq<Edit>)
    requires DisjointBatch(h, lines, edits) && multiset(edits) == multiset(edits')
    ensures DisjointBatch(h, lines, edits') && OpSet(edits) == OpSet(edits') && |edits| == |edits'|
  {
    hide Proper, Apart, OpOf;
    assert |multiset(edits)| == |multiset(edits')|;
    assert forall e :: e in edits <==> e in multiset(edits');
    assert forall e :: e in edits' <==> e in multiset(edits');
    PermutedPairs(edits, edits', Apart);
  }

  // ----- repeated keys

  /** Repeating a key that already occurred changes nothing but the deduplicated count, in any batch. */
  lemma {:induction false} RepeatsOnlyCount(h: Hashes, ac: Autocorrect, content: string, a: seq<Edit>, d: Edit,
                                            b: seq<Edit>)
    requires Key(d) in Keys(a)
    ensures Applied(h, ac, content, a + [d] + b) ==
            match Applied(h, ac, content, a + b)
            case Err(e) => Err(e)
            case Ok(r) => Ok(r.(deduplicatedEdits := r.deduplicatedEdits + 1))
  {
    hide Key, ApplySorted, AllSortable, SortEdits, Kept;
    RepeatIsDropped(a, d, b);
    assert a != [];
  }

  /** Proper edits with one key are the same line edit if and only if their new lines agree; payloads that are
      plain always do. */
  lemma {:induction false} EqualKeysEqualOps(h: Hashes, lines: seq<string>, a: Edit, b: Edit)
    requires Proper(h, lines, a) && Proper(h, lines, b) && Key(a) == Key(b)
    ensures OpOf(a) == OpOf(b) <==> ToNewLines(a.lines) == ToNewLines(b.lines)
    ensures Plain(a.lines) && Plain(b.lines) ==> OpOf(a) == OpOf(b)
    ensures !Apart(a, b)
  {
    hide Key, Proper, KeyAnchors, OpOf, ToNewLines, Plain, Apart;
    EqualKeysEqualAnchors(h, lines, a, b);
    EqualAnchorsEqualLines(h, lines, a, b);
    if Plain(a.lines) && Plain(b.lines) { SameTextSameLines(a.lines, b.lines); }
  }

  lemma {:induction false} SwapKeepsDisjoint(h: Hashes, lines: seq<string>, a: seq<Edit>, d: Edit, b: seq<Edit>,
                                             e: Edit, c: seq<Edit>)
    requires DisjointBatch(h, lines, a + b + [e] + c) && Proper(h, lines, d) && OpOf(d) == OpOf(e)
    ensures DisjointBatch(h, lines, a + [d] + b + c) && OpSet(a + [d] + b + c) == OpSet(a + b + [e] + c)
  {
    hide Proper, OpOf, Apart, OpSet, Moved;
    var was, now, n, m := a + b + [e] + c, a + [d] + b + c, |a|, |a| + |b|;
    MovedEdits(a, d, b, e, c);
    MovedOps(was, now, n, m);
    forall i | 0 <= i < |now| ensures Proper(h, lines, now[i]) {
      if i != n { assert now[i] == was[Moved(n, m, i)] && was[Moved(n, m, i)] in was; }
    }
    forall i, j | 0 <= i < |now| && 0 <= j < |now| && i != j ensures Apart(now[i], now[j]) {
      MovedApart(n, m, i, j);
      assert Apart(was[Moved(n, m, i)], was[Moved(n, m, j)]);
      ApartByOps(was[Moved(n, m, i)], was[Moved(n, m, j)], now[i], now[j]);
    }
  }

  lemma MovedApart(n: nat, m: nat, i: nat, j: nat)
    requires n <= m && i != j
    ensures Moved(n, m, i) != Moved(n, m, j)
  {
  }

  lemma {:induction false} MovedEdits(a: seq<Edit>, d: Edit, b: seq<Edit>, e: Edit, c: seq<Edit>)
    requires OpOf(d) == OpOf(e)
    ensures var was, now, n, m := a + b + [e] + c, a + [d] + b + c, |a|, |a| + |b|;
            forall i :: 0 <= i < |now| ==>
              && Moved(n, m, i) < |was| && OpOf(now[i]) == OpOf(was[Moved(n, m, i)])
              && (i != n ==> now[i] == was[Moved(n, m, i)])
    ensures (a + [d] + b + c)[|a|] == d
  {
    hide OpOf;
  }

  lemma {:induction false} MovedOps(was: seq<Edit>, now: seq<Edit>, n: nat, m: nat)
    requires n <= m < |was| && |now| == |was|
    requires forall i :: 0 <= i < |now| ==> Moved(n, m, i) < |was| && OpOf(now[i]) == OpOf(was[Moved(n, m, i)])
    ensures OpSet(now) == OpSet(was)
  {
    hide OpOf;
    forall i | 0 <= i < |was| ensures OpOf(was[i]) in OpSet(now) {
      var k := if i == m then n else if n <= i < m then i + 1 else i;
      assert Moved(n, m, k) == i && now[k] in now;
    }
    forall i | 0 <= i < |now| ensures OpOf(now[i]) in OpSet(was) { assert was[Moved(n, m, i)] in was; }
  }

  /** Where the edit at `i` stood before the one at `m` moved up to `n`. */
  function Moved(n: nat, m: nat, i: nat): nat
    requires n <= m
  {
    if i == n then m else if n < i <= m then i - 1 else i
  }

  lemma ApartByOps(a: Edit, b: Edit, c: Edit, d: Edit)
    requires Apart(a, b) && OpOf(c) == OpOf(a) && OpOf(d) == OpOf(b)
    ensures Apart(c, d)
  {
    hide OpOf;
  }

  /** A repeat in front of the edit it repeats takes that edit's place. */
  lemma {:induction false} RepeatInFront(h: Hashes, ac: Autocorrect, content: string, a: seq<Edit>, d: Edit,
                                         b: seq<Edit>, e: Edit, c: seq<Edit>)
    requires DisjointBatch(h, LinesOf(content), a + b + [e] + c) && Proper(h, LinesOf(content), d)
    requires Key(d) == Key(e) && OpOf(d) == OpOf(e)
    ensures Applied(h, ac, content, a + [d] + b + [e] + c).Ok? <==> Applied(h, ac, content, a + b + [e] + c).Ok?
    ensures Applied(h, ac, content, a + b + [e] + c).Ok? ==>
              var r := Applied(h, ac, content, a + b + [e] + c).value;
              Applied(h, ac, content, a + [d] + b + [e] + c) == Ok(r.(deduplicatedEdits := r.deduplicatedEdits + 1))
  {
    hide Key, Keys, Proper, OpOf, OpSet, DisjointBatch, Applied, SomeInsertVanishes, Merge, NoopOps;
    SwapKeepsDisjoint(h, LinesOf(content), a, d, b, e, c);
    BatchIsSimultaneous(h, ac, content, a + b + [e] + c);
    BatchIsSimultaneous(h, ac, content, a + [d] + b + c);
    KeyOfMember(a + [d] + b, |a|);
    RepeatsOnlyCount(h, ac, content, a + [d] + b, e, c);
  }

  /** In a disjoint batch a repeat of an edit, with the same key and the same new lines, may stand anywhere:
      only the deduplicated count grows. */
  lemma {:induction false} RepeatsAnywhere(h: Hashes, ac: Autocorrect, content: string, a: seq<Edit>, d: Edit,
                                           b: seq<Edit>, e: Edit)
    requires DisjointBatch(h, LinesOf(content), a + b) && Proper(h, LinesOf(content), d)
    requires e in a + b && Key(d) == Key(e)
    requires ToNewLines(d.lines) == ToNewLines(e.lines) || (Plain(d.lines) && Plain(e.lines))
    ensures Applied(h, ac, content, a + [d] + b).Ok? <==> Applied(h, ac, content, a + b).Ok?
    ensures Applied(h, ac, content, a + b).Ok? ==>
              var r := Applied(h, ac, content, a + b).value;
              Applied(h, ac, content, a + [d] + b) == Ok(r.(deduplicatedEdits := r.deduplicatedEdits + 1))
  {
    hide Key, Proper, OpOf, Apart, Applied, Plain, ToNewLines;
    assert Proper(h, LinesOf(content), e);
    EqualKeysEqualOps(h, LinesOf(content), d, e);
    if e in a {
      RepeatsOnlyCount(h, ac, content, a, d, b);
    } else {
      var i :| 0 <= i < |b| && b[i] == e;
      assert b == b[..i] + [e] + b[i + 1..];
      assert a + b == a + b[..i] + [e] + b[i + 1..];
      assert a + [d] + b == a + [d] + b[..i] + [e] + b[i + 1..];
      RepeatInFront(h, ac, content, a, d, b[..i], e, b[i + 1..]);
    }
  }

  /** The key of a deletion is the key of blanking the same line, although they are different edits. */
  lemma {:induction false} DeleteAndBlankShareKey(pos: string)
    ensures Key(Replace(pos, None, Lines([]))) == Key(Replace(pos, None, Whole("")))
    ensures OpOf(Replace(pos, None, Lines([]))) != OpOf(Replace(pos, None, Whole("")))
  {
    hide ToNewLines, Target, Canonical;
    NothingAndBlank();
  }

  lemma {:induction false} OneOp(ac: Autocorrect, lines: seq<string>, op: Op)
    requires Positive(op)
    ensures RunOps(ac, lines, [op]) == Step(ac, Progress(lines, 0), op)
    ensures !op.ReplaceRange? ==> Overlap([op]).None?
  {
    hide Step;
    assert [op][..0] == [];
    if !op.ReplaceRange? { OverlapIsExact([op]); }
  }

  lemma {:induction false} OneEdit(e: Edit)
    ensures Kept([e]) == [e] && SortEdits([e]) == [e] && Ops([e]) == [OpOf(e)]
  {
    hide Key, Keys, OpOf, Kept, SortBy;
    SortOne(e, GoesBefore);
    KeptOne(e);
  }

  lemma {:induction false} KeptOne(e: Edit)
    ensures Kept([e]) == [e]
  {
    hide Key, Keys;
    assert [e][..0] == [];
    NoKeys();
    NothingIsKept();
  }

  /** One edit of a single line: the line gives way to the corrected text. */
  lemma {:induction false} OneLineReplaced(h: Hashes, ac: Autocorrect, content: string, pos: string, p: Payload)
    requires Fresh(h, LinesOf(content), pos)
    ensures var lines, i := LinesOf(content), Target(pos).line - 1;
            0 <= i < |lines| &&
            var block := RestoreFirst(lines[i], ac([lines[i]], ToNewLines(p)));
            Applied(h, ac, content, [Replace(pos, None, p)]) ==
            Ok(Report(Join(lines[..i] + block + lines[i + 1..], '\n'), if block == [lines[i]] then 1 else 0, 0))
  {
    hide LinesOf, Validation, ToNewLines, RestoreFirst, Kept, SortEdits, RunOps, Overlap, AllRefs, Fresh, Target, Join;
    var lines, e := LinesOf(content), Replace(pos, None, p);
    var l := FreshLine(h, lines, pos);
    OneEdit(e);
    forall ref | ref in AllRefs([e]) ensures Fresh(h, lines, ref) { RefsListed([e], ref); }
    ValidMeansFresh(h, lines, AllRefs([e]));
    var text := ToNewLines(p);
    assert OpOf(e) == SetLine(l, text);
    OneOp(ac, lines, OpOf(e));
    var block := RestoreFirst(lines[l - 1], ac([lines[l - 1]], text));
    assert Splice(lines, l - 1, 1, block) == lines[..l - 1] + block + lines[l..];
    assert lines == lines[..l - 1] + [lines[l - 1]] + lines[l..];
    SameMiddle(lines[..l - 1], block, [lines[l - 1]], lines[l..]);
  }

  lemma FreshLine(h: Hashes, lines: seq<string>, ref: string) returns (l: nat)
    requires Fresh(h, lines, ref)
    ensures l == Target(ref).line && 1 <= l <= |lines|
  {
    hide ParseLineRef;
    l := Target(ref).line;
  }

  lemma {:induction false} BlankLineIsLonger(x: seq<string>, y: seq<string>)
    requires x + y != []
    ensures |Join(x + [""] + y, '\n')| == |Join(x + y, '\n')| + 1
  {
    hide Join;
    assert Join([""], '\n') == "" by { JoinOne("", '\n'); }
    if x == [] {
      assert x + [""] + y == [""] + y && x + y == y;
      JoinAppend([""], y, '\n');
    } else if y == [] {
      assert x + [""] + y == x + [""] && x + y == x;
      JoinAppend(x, [""], '\n');
    } else {
      JoinAppend(x + [""], y, '\n');
      JoinAppend(x, [""], '\n');
      JoinAppend(x, y, '\n');
    }
  }

  /** So the batch {delete, blank} on one fresh line depends on which comes first, in every file and, with
      more than one line, in its content.  (`autocorrectReplacementLines` leaves both texts alone.) */
  lemma {:induction false} FirstOfOneKeyWins(h: Hashes, ac: Autocorrect, content: string, pos: string)
    requires Fresh(h, LinesOf(content), pos)
    requires forall line :: ac([line], []) == [] && ac([line], [""]) == [""]
    ensures var lines, i := LinesOf(content), Target(pos).line - 1;
            var delete, blank := Replace(pos, None, Lines([])), Replace(pos, None, Whole(""));
            && 0 <= i < |lines|
            && Applied(h, ac, content, [delete, blank]) == Ok(Report(Join(lines[..i] + lines[i + 1..], '\n'), 0, 1))
            && Applied(h, ac, content, [blank, delete])
                 == Ok(Report(Join(lines[..i] + [""] + lines[i + 1..], '\n'), if lines[i] == "" then 1 else 0, 1))
            && (|lines| > 1 ==>
                 Applied(h, ac, content, [delete, blank]).value.content
                 != Applied(h, ac, content, [blank, delete]).value.content)
  {
    hide Key, Applied, LinesOf, Fresh, Target, Join, ToNewLines, RestoreLeadingIndent;
    var delete, blank := Replace(pos, None, Lines([])), Replace(pos, None, Whole(""));
    var lines := LinesOf(content);
    DeleteAndBlankShareKey(pos);
    NothingAndBlank();
    OneLineReplaced(h, ac, content, pos, delete.lines);
    OneLineReplaced(h, ac, content, pos, blank.lines);
    var i := Target(pos).line - 1;
    BlankStaysBlank(lines[i]);
    RepeatRightBehind(h, ac, content, delete, blank);
    RepeatRightBehind(h, ac, content, blank, delete);
    assert lines[..i] + [] + lines[i + 1..] == lines[..i] + lines[i + 1..];
    if |lines| > 1 { BlankLineIsLonger(lines[..i], lines[i + 1..]); }
  }

  lemma BlankStaysBlank(line: string)
    ensures RestoreFirst(line, [""]) == [""] && RestoreFirst(line, []) == []
  {
  }

  lemma {:induction false} RepeatRightBehind(h: Hashes, ac: Autocorrect, content: string, e: Edit, d: Edit)
    requires Key(e) == Key(d) && Applied(h, ac, content, [e]).Ok?
    ensures var r := Applied(h, ac, content, [e]).value;
            Applied(h, ac, content, [e, d]) == Ok(r.(deduplicatedEdits := r.deduplicatedEdits + 1))
  {
    hide Key, Applied;
    KeyOfMember([e], 0);
    RepeatsOnlyCount(h, ac, content, [e], d, []);
    assert [e] + [d] + [] == [e, d] && [e] + [] == [e];
  }

  /** The same on one small file, with the anchor its listing prints. */
  lemma {:induction false} DeleteOrBlank(h: Hashes, ac: Autocorrect) returns (pos: string)
    requires DictionaryHashes(h) && forall line :: ac([line], []) == [] && ac([line], [""]) == [""]
    ensures var delete, blank := Replace(pos, None, Lines([])), Replace(pos, None, Whole(""));
            && Applied(h, ac, "a\nb", [delete, blank]) == Ok(Report("b", 0, 1))
            && Applied(h, ac, "a\nb", [blank, delete]) == Ok(Report("\nb", 0, 1))
  {
    hide Applied, Fresh, Target, FormatHashLine, Split;
    var lines := ["a", "b"];
    JoinCons("a", ["b"], '\n');
    JoinCons("", ["b"], '\n');
    JoinOne("b", '\n');
    assert ["a"] + ["b"] == lines && "a" + ['\n'] + "b" == "a\nb";
    SplitJoin(lines, '\n');
    assert LinesOf("a\nb") == lines;
    EmptyPrefixIsDisplayed();
    ListedAnchorIsFresh(h, lines, "", 1);
    pos := "" + FormatHashLine(h, 1, "a");
    FirstOfOneKeyWins(h, ac, "a\nb", pos);
    assert lines[..0] + lines[1..] == ["b"] && lines[..0] + [""] + lines[1..] == [""] + ["b"];
    assert "" + ['\n'] + "b" == "\nb";
  }

  lemma EmptyPrefixIsDisplayed()
    ensures DisplayPrefix("")
  {
  }

  /** Whatever else it holds, a batch that keeps an inverted range is refused. */
  lemma {:induction false} InvertedRangeIsRefused(h: Hashes, ac: Autocorrect, content: string, edits: seq<Edit>,
                                                  e: Edit)
    requires e in Kept(edits) && OpOf(e).ReplaceRange? && OpOf(e).start > OpOf(e).end
    ensures Applied(h, ac, content, edits).Err?
  {
    hide Kept, SortEdits, OpOf, Validation, AllRefs, Overlap, RunOps, AllSortable, Positive;
    var lines, sorted := LinesOf(content), SortEdits(Kept(edits));
    if edits == [] { NothingIsKept(); }
    SortedMembers(Kept(edits));
    var k :| 0 <= k < |sorted| && sorted[k] == e;
    if Validation(h, lines, AllRefs(sorted)).Ok? {
      ValidatedArePositive(h, lines, sorted);
      InvertedRangeFails(ac, lines, Ops(sorted), k);
    }
  }

  lemma NothingIsKept()
    ensures Kept([]) == []
  {
  }

  // ----- batches that also append to or prepend to the whole file

  predicate IsAnchored(e: Edit) { e.Replace? || Given(e.at) }

  function AnchoredOf(edits: seq<Edit>): (r: seq<Edit>)
    ensures forall e :: e in r ==> e in edits && IsAnchored(e)
  {
    if edits == [] then []
    else AnchoredOf(edits[..|edits| - 1]) + if IsAnchored(edits[|edits| - 1]) then [edits[|edits| - 1]] else []
  }

  function UnanchoredOf(edits: seq<Edit>): (r: seq<Edit>)
    ensures forall e :: e in r ==> e in edits && !IsAnchored(e)
  {
    if edits == [] then []
    else UnanchoredOf(edits[..|edits| - 1]) + if IsAnchored(edits[|edits| - 1]) then [] else [edits[|edits| - 1]]
  }

  lemma AnchoredFirst(a: Edit, u: Edit)
    requires IsAnchored(a) && !IsAnchored(u)
    ensures GoesBefore(a, u) && !GoesBefore(u, a)
  {
    hide Target;
  }

  lemma {:induction false} InsertAnchored(a: seq<Edit>, u: seq<Edit>, x: Edit)
    requires (forall e :: e in u ==> !IsAnchored(e)) && IsAnchored(x)
    ensures Insert(a + u, x, GoesBefore) == Insert(a, x, GoesBefore) + u
  {
    hide GoesBefore, IsAnchored;
    var all := a + u;
    if u == [] {
      assert all == a;
    } else {
      var front, last := u[..|u| - 1], u[|u| - 1];
      assert last in u && u == front + [last];
      assert all[..|all| - 1] == a + front && all[|all| - 1] == last;
      InsertAnchored(a, front, x);
      AnchoredFirst(x, last);
    }
  }

  lemma {:induction false} InsertUnanchored(a: seq<Edit>, u: seq<Edit>, x: Edit)
    requires (forall e :: e in a ==> IsAnchored(e)) && !IsAnchored(x)
    ensures Insert(a + u, x, GoesBefore) == a + Insert(u, x, GoesBefore)
  {
    hide GoesBefore, IsAnchored;
    var all := a + u;
    if u == [] {
      assert all == a;
      if a != [] {
        assert a[|a| - 1] in a;
        AnchoredFirst(a[|a| - 1], x);
      }
    } else {
      var front := u[..|u| - 1];
      assert all[..|all| - 1] == a + front && all[|all| - 1] == u[|u| - 1];
      InsertUnanchored(a, front, x);
    }
  }

  lemma {:induction false} SortedMembers(edits: seq<Edit>)
    ensures forall e :: e in SortEdits(edits) <==> e in edits
  {
    SortMembers(edits, GoesBefore);
  }

  /** Sorting puts the whole-file edits last and does not mix the two kinds. */
  lemma {:induction false} SortSplits(edits: seq<Edit>)
    ensures SortEdits(edits) == SortEdits(AnchoredOf(edits)) + SortEdits(UnanchoredOf(edits))
  {
    hide GoesBefore, IsAnchored, Insert;
    if edits != [] {
      var front, last := edits[..|edits| - 1], edits[|edits| - 1];
      SortSplits(front);
      var a, u := AnchoredOf(front), UnanchoredOf(front);
      SortedMembers(a);
      SortedMembers(u);
      if IsAnchored(last) {
        InsertAnchored(SortEdits(a), SortEdits(u), last);
        assert AnchoredOf(edits)[..|a|] == a && UnanchoredOf(edits) == u;
      } else {
        InsertUnanchored(SortEdits(a), SortEdits(u), last);
        assert UnanchoredOf(edits)[..|u|] == u && AnchoredOf(edits) == a;
      }
    }
  }

  lemma {:induction false} RefsSplit(a: seq<Edit>, u: seq<Edit>)
    requires forall e :: e in u ==> !IsAnchored(e)
    ensures AllRefs(a + u) == AllRefs(a)
  {
    if u == [] {
      assert a + u == a;
    } else {
      var front, all := u[..|u| - 1], a + u;
      assert all[..|all| - 1] == a + front && all[|all| - 1] == u[|u| - 1] && u[|u| - 1] in u;
      RefsSplit(a, front);
    }
  }

  lemma {:induction false} RangesSplit(a: seq<Op>, u: seq<Op>)
    requires forall op :: op in u ==> !op.ReplaceRange?
    ensures Ranges(a + u) == Ranges(a)
  {
    if u == [] {
      assert a + u == a;
    } else {
      var front, all := u[..|u| - 1], a + u;
      assert all[..|all| - 1] == a + front && all[|all| - 1] == u[|u| - 1] && u[|u| - 1] in u;
      RangesSplit(a, front);
    }
  }

  lemma {:induction false} WholeFileOps(edits: seq<Edit>)
    requires forall e :: e in edits ==> !IsAnchored(e)
    ensures forall op :: op in Ops(edits) ==> !Anchored(op) && Positive(op)
  {
    hide ToNewLines;
    forall op | op in Ops(edits) ensures !Anchored(op) && Positive(op) {
      var i :| 0 <= i < |edits| && Ops(edits)[i] == op;
      assert edits[i] in edits;
    }
  }

  // ----- their order, and what they come to

  predicate AtBottom(e: Edit) { e.Append? && !IsAnchored(e) }
  predicate AtTop(e: Edit) { e.Prepend? && !IsAnchored(e) }

  /** The texts of the whole-file appends, in the given order. */
  function Below(edits: seq<Edit>): seq<seq<string>> {
    if edits == [] then []
    else
      var front, last := edits[..|edits| - 1], edits[|edits| - 1];
      Below(front) + if AtBottom(last) then [ToNewLines(last.lines)] else []
  }

  /** The texts of the whole-file prepends, the last one first. */
  function Above(edits: seq<Edit>): seq<seq<string>> {
    if edits == [] then []
    else
      var front, last := edits[..|edits| - 1], edits[|edits| - 1];
      (if AtTop(last) then [ToNewLines(last.lines)] else []) + Above(front)
  }

  lemma AppendsFirst(x: Edit, y: Edit)
    requires !IsAnchored(x) && !IsAnchored(y)
    ensures GoesBefore(x, y) <==> AtBottom(x) || AtTop(y)
  {
  }

  lemma {:induction false} UnanchoredSnoc(edits: seq<Edit>)
    requires edits != []
    ensures var front, last := UnanchoredOf(edits[..|edits| - 1]), edits[|edits| - 1];
            && (IsAnchored(last) ==> UnanchoredOf(edits) == front)
            && (!IsAnchored(last) ==> SortEdits(UnanchoredOf(edits)) == Insert(SortEdits(front), last, GoesBefore))
  {
    hide IsAnchored, GoesBefore, Insert;
    var front := UnanchoredOf(edits[..|edits| - 1]);
    if !IsAnchored(edits[|edits| - 1]) { assert UnanchoredOf(edits)[..|front|] == front; }
  }

  lemma {:induction false} InsertAppend(a: seq<Edit>, p: seq<Edit>, x: Edit)
    requires (forall e :: e in a ==> AtBottom(e)) && (forall e :: e in p ==> AtTop(e)) && AtBottom(x)
    ensures Insert(a + p, x, GoesBefore) == (a + [x]) + p
  {
    hide Insert, GoesBefore, IsAnchored;
    forall e | e in a ensures GoesBefore(e, x) { AppendsFirst(e, x); }
    forall e | e in p ensures !GoesBefore(e, x) { AppendsFirst(e, x); }
    InsertBetween(a, p, x, GoesBefore);
  }

  lemma {:induction false} InsertPrepend(a: seq<Edit>, p: seq<Edit>, x: Edit)
    requires (forall e :: e in a ==> AtBottom(e)) && (forall e :: e in p ==> AtTop(e)) && AtTop(x)
    ensures Insert(a + p, x, GoesBefore) == a + (p + [x])
  {
    hide Insert, GoesBefore, IsAnchored;
    var all := a + p;
    forall e | e in all ensures GoesBefore(e, x) {
      assert e in a || e in p;
      AppendsFirst(e, x);
    }
    assert all + [] == all && all + [x] + [] == a + (p + [x]);
    InsertBetween(all, [], x, GoesBefore);
  }

  lemma {:induction false} AppendOpsSnoc(front: seq<seq<string>>, t: seq<string>)
    ensures AppendOps(front + [t]) == AppendOps(front) + [AppendFile(t)]
  {
  }

  lemma {:induction false} PrependOpsCons(t: seq<string>, rest: seq<seq<string>>)
    ensures PrependOps([t] + rest) == PrependOps(rest) + [PrependFile(t)]
  {
  }

  lemma {:induction false} OpsSnoc(front: seq<Edit>, e: Edit)
    ensures Ops(front + [e]) == Ops(front) + [OpOf(e)]
  {
    hide OpOf;
  }

  lemma {:induction false} TextsSnoc(edits: seq<Edit>)
    requires edits != []
    ensures var front, last := edits[..|edits| - 1], edits[|edits| - 1];
            && Below(edits) == (if AtBottom(last) then Below(front) + [ToNewLines(last.lines)] else Below(front))
            && Above(edits) == (if AtTop(last) then [ToNewLines(last.lines)] + Above(front) else Above(front))
  {
    hide AtBottom, AtTop, ToNewLines;
  }

  lemma NoTexts()
    ensures Ops([]) == [] && Below([]) == [] && Above([]) == [] && AppendOps([]) == [] && PrependOps([]) == []
  {
  }

  /** Whole-file edits are sorted into the appends and then the prepends, each in the given order. */
  lemma {:induction false} AppendsThenPrepends(edits: seq<Edit>) returns (a: seq<Edit>, p: seq<Edit>)
    ensures SortEdits(UnanchoredOf(edits)) == a + p
    ensures (forall e :: e in a ==> AtBottom(e)) && (forall e :: e in p ==> AtTop(e))
    ensures Ops(a) == AppendOps(Below(edits)) && Ops(p) == PrependOps(Above(edits))
  {
    hide SortEdits, UnanchoredOf, GoesBefore, ToNewLines, Insert, IsAnchored, OpOf, Ops, Below, Above, AppendOps,
         PrependOps;
    if edits == [] {
      a, p := [], [];
      NoneUnanchored();
      NoTexts();
    } else {
      var front, last := edits[..|edits| - 1], edits[|edits| - 1];
      a, p := AppendsThenPrepends(front);
      UnanchoredSnoc(edits);
      TextsSnoc(edits);
      if !IsAnchored(last) {
        UnanchoredOp(last);
        if AtBottom(last) {
          InsertAppend(a, p, last);
          OpsSnoc(a, last);
          AppendOpsSnoc(Below(front), ToNewLines(last.lines));
          a := a + [last];
        } else {
          InsertPrepend(a, p, last);
          OpsSnoc(p, last);
          PrependOpsCons(ToNewLines(last.lines), Above(front));
          p := p + [last];
        }
      }
    }
  }

  lemma UnanchoredOp(e: Edit)
    requires !IsAnchored(e)
    ensures AtBottom(e) || AtTop(e)
    ensures OpOf(e) == if AtBottom(e) then AppendFile(ToNewLines(e.lines)) else PrependFile(ToNewLines(e.lines))
  {
    hide ToNewLines;
  }

  lemma NoneUnanchored()
    ensures SortEdits(UnanchoredOf([])) == []
  {
  }

  ghost predicate SomeTextMissing(edits: seq<Edit>) { !AllTexts(Below(edits)) || !AllTexts(Above(edits)) }

  /** What a batch comes to: the simultaneous edit, then the appended texts below, then the prepended ones above. */
  ghost function Outcome(ac: Autocorrect, lines: seq<string>, edits: seq<Edit>): Progress {
    var ops, below, above := OpSet(AnchoredOf(edits)), Below(edits), Above(edits);
    var merged := Merge(ac, lines, ops);
    var longer := WithBelow(merged, below);
    Progress(WithAbove(longer, above),
             |NoopOps(ac, lines, ops)| + BlankSteps(merged, |below|, |FromSubstance(below)|)
             + BlankSteps(longer, |above|, |ToSubstance(above)|))
  }

  lemma {:induction false} WholeFileRuns(ac: Autocorrect, p: Progress, below: seq<seq<string>>, above: seq<seq<string>>)
    ensures var ops := AppendOps(below) + PrependOps(above);
            && (!AllTexts(below) || !AllTexts(above) ==> RunFrom(ac, p, ops).Err?)
            && (AllTexts(below) && AllTexts(above) ==>
                 var longer := WithBelow(p.lines, below);
                 RunFrom(ac, p, ops) ==
                 Ok(Progress(WithAbove(longer, above),
                             p.noops + BlankSteps(p.lines, |below|, |FromSubstance(below)|)
                             + BlankSteps(longer, |above|, |ToSubstance(above)|))))
  {
    hide RunFrom, WithBelow, WithAbove, BlankSteps, FromSubstance, ToSubstance;
    var a, b := AppendOps(below), PrependOps(above);
    var ops := a + b;
    assert forall op :: op in ops ==> Positive(op);
    if !AllTexts(below) {
      var k :| 0 <= k < |below| && below[k] == [];
      assert ops[k] == a[k];
      NoTextFails(ac, p, ops, k);
    } else if !AllTexts(above) {
      var k :| 0 <= k < |above| && above[k] == [];
      assert ops[|a| + (|above| - 1 - k)] == b[|above| - 1 - k];
      NoTextFails(ac, p, ops, |a| + (|above| - 1 - k));
    } else {
      RunFromAppend(ac, p, a, b);
      AppendsRun(ac, p, below);
      PrependsRun(ac, RunFrom(ac, p, a).value, above);
    }
  }

  /** Anchored edits on disjoint lines run first, as if alone; the whole-file ops run on what they leave. */
  lemma {:induction false} AnchoredThenWhole(h: Hashes, ac: Autocorrect, lines: seq<string>, edits: seq<Edit>,
                                             whole: seq<Op>)
    requires DisjointBatch(h, lines, AnchoredOf(edits)) && whole == Ops(SortEdits(UnanchoredOf(edits)))
    ensures forall op :: op in whole ==> Positive(op)
    ensures SomeInsertVanishes(lines, OpSet(AnchoredOf(edits))) ==> ApplySorted(h, ac, lines, SortEdits(edits)).Err?
    ensures !SomeInsertVanishes(lines, OpSet(AnchoredOf(edits))) ==>
              var ops := OpSet(AnchoredOf(edits));
              ApplySorted(h, ac, lines, SortEdits(edits)) ==
              match RunFrom(ac, Progress(Merge(ac, lines, ops), |NoopOps(ac, lines, ops)|), whole)
              case Ok(p) => Ok(p)
              case Err(e) => Err(Apply(e))
  {
    hide SortEdits, AnchoredOf, UnanchoredOf, Merge, NoopOps, Validation, AllRefs, Ranges, RunOps, RunFrom, OpSet,
         DisjointBatch, OpOf, Positive, Anchored, IsAnchored, SomeInsertVanishes;
    var a, u := SortEdits(AnchoredOf(edits)), SortEdits(UnanchoredOf(edits));
    SortSplits(edits);
    SortedMembers(UnanchoredOf(edits));
    DisjointBatchRuns(h, ac, lines, AnchoredOf(edits));
    SortedBatch(h, lines, AnchoredOf(edits));
    BatchValidates(h, lines, a);
    BatchDoesNotOverlap(Ops(a), |lines|);
    RefsSplit(a, u);
    WholeFileOps(u);
    NoRangesLeft(Ops(u));
    assert Ops(a + u) == Ops(a) + Ops(u);
    RangesSplit(Ops(a), Ops(u));
    ValidatedArePositive(h, lines, a);
    RunAppend(ac, lines, Ops(a), Ops(u));
  }

  lemma {:induction false} UnanchoredIsSortable(e: Edit)
    requires !IsAnchored(e)
    ensures Sortable(e)
  {
  }

  lemma {:induction false} MixedBatchIsSortable(h: Hashes, lines: seq<string>, edits: seq<Edit>)
    requires DisjointBatch(h, lines, AnchoredOf(edits))
    ensures AllSortable(edits)
  {
    hide Proper, Apart, IsAnchored, Sortable;
    forall i | 0 <= i < |edits| ensures Sortable(edits[i]) {
      if IsAnchored(edits[i]) {
        AnchoredListed(edits, i);
        ProperSortLine(h, lines, edits[i]);
      } else {
        UnanchoredIsSortable(edits[i]);
      }
    }
  }

  lemma {:induction false} AnchoredListed(edits: seq<Edit>, i: nat)
    requires i < |edits| && IsAnchored(edits[i])
    ensures edits[i] in AnchoredOf(edits)
  {
    hide IsAnchored;
    if i < |edits| - 1 { AnchoredListed(edits[..|edits| - 1], i); }
  }

  /** A batch whose anchored edits are disjoint, with whole-file appends and prepends among them: the
      simultaneous edit, with all appended texts below in their order and all prepended texts above in
      reverse order.  It fails exactly when an insertion strips to nothing or a whole-file text is empty. */
  lemma {:induction false} WholeFileEditsComeLast(h: Hashes, ac: Autocorrect, content: string, edits: seq<Edit>)
    requires edits != [] && DisjointBatch(h, LinesOf(content), AnchoredOf(Kept(edits)))
    ensures Applied(h, ac, content, edits).Err? <==>
            SomeInsertVanishes(LinesOf(content), OpSet(AnchoredOf(Kept(edits)))) || SomeTextMissing(Kept(edits))
    ensures Applied(h, ac, content, edits).Ok? ==>
              var p := Outcome(ac, LinesOf(content), Kept(edits));
              Applied(h, ac, content, edits) == Ok(Report(Join(p.lines, '\n'), p.noops, |edits| - |Kept(edits)|))
  {
    hide DisjointBatch, AnchoredOf, UnanchoredOf, OpSet, SomeInsertVanishes, Kept, SortEdits, Merge, NoopOps,
         RunFrom, Above, Below, AllTexts, AllSortable, ApplySorted, Join, LinesOf, WithAbove, WithBelow, BlankSteps,
         FromSubstance, ToSubstance, Positive;
    var lines, kept := LinesOf(content), Kept(edits);
    MixedBatchIsSortable(h, lines, kept);
    var a, p := AppendsThenPrepends(kept);
    assert Ops(a + p) == Ops(a) + Ops(p);
    AnchoredThenWhole(h, ac, lines, kept, Ops(a + p));
    assert Ops(a + p) == AppendOps(Below(kept)) + PrependOps(Above(kept));
    var ops := OpSet(AnchoredOf(kept));
    WholeFileRuns(ac, Progress(Merge(ac, lines, ops), |NoopOps(ac, lines, ops)|), Below(kept), Above(kept));
  }

  /** When more than a blank line is left, nothing is swallowed. */
  lemma {:induction false} WholeFileTextsAreAdded(ac: Autocorrect, lines: seq<string>, edits: seq<Edit>)
    requires Substantial(Merge(ac, lines, OpSet(AnchoredOf(edits))))
    ensures var ops := OpSet(AnchoredOf(edits));
            Outcome(ac, lines, edits) ==
            Progress(Flatten(Above(edits)) + Merge(ac, lines, ops) + Flatten(Below(edits)), |NoopOps(ac, lines, ops)|)
  {
    hide AnchoredOf, OpSet, Merge, NoopOps, Above, Below, Flatten, FromSubstance, ToSubstance;
    var merged := Merge(ac, lines, OpSet(AnchoredOf(edits)));
    assert Substantial(merged + Flatten(Below(edits)));
    assert Flatten(Above(edits)) + (merged + Flatten(Below(edits)))
        == Flatten(Above(edits)) + merged + Flatten(Below(edits));
  }

  lemma NoRangesLeft(ops: seq<Op>)
    requires forall op :: op in ops ==> !Anchored(op)
    ensures forall op :: op in ops ==> !op.ReplaceRange?
  {
  }

  // ----- anchors copied from a listing

  lemma {:induction false} ListedAnchorIsFresh(h: Hashes, lines: seq<string>, pre: string, i: nat)
    requires DictionaryHashes(h) && DisplayPrefix(pre) && 1 <= i <= |lines|
    ensures var anchor := pre + FormatHashLine(h, i, lines[i - 1]);
            anchor != "" && Fresh(h, lines, anchor) && Target(anchor).line == i
  {
    hide ParseLineRef, FormatHashLine, DisplayPrefix;
    var anchor := pre + FormatHashLine(h, i, lines[i - 1]);
    PrintedLineParses(h, pre, i, lines[i - 1]);
    assert Fresh(h, lines, anchor);
    if anchor == "" { FreshIsGiven(h, lines, anchor); }
  }

  /** Edits whose anchors are whole lines copied from a listing of the same file, with any marker the
      tool prints, are proper and mean the lines they were copied from. */
  lemma {:induction false} ListedEditsAreProper(h: Hashes, lines: seq<string>, pre: string, i: nat, j: nat, p: Payload)
    requires DictionaryHashes(h) && DisplayPrefix(pre) && 1 <= i <= j <= |lines|
    ensures var a, b := pre + FormatHashLine(h, i, lines[i - 1]), pre + FormatHashLine(h, j, lines[j - 1]);
            && Proper(h, lines, Replace(a, None, p)) && OpOf(Replace(a, None, p)) == SetLine(i, ToNewLines(p))
            && Proper(h, lines, Replace(a, Some(b), p))
            && OpOf(Replace(a, Some(b), p)) == ReplaceRange(i, j, ToNewLines(p))
            && Proper(h, lines, Append(Some(a), p)) && OpOf(Append(Some(a), p)) == InsertAfter(i, ToNewLines(p))
            && Proper(h, lines, Prepend(Some(a), p)) && OpOf(Prepend(Some(a), p)) == InsertBefore(i, ToNewLines(p))
  {
    hide Fresh, Target, ToNewLines, FormatHashLine, DisplayPrefix;
    ListedAnchorIsFresh(h, lines, pre, i);
    ListedAnchorIsFresh(h, lines, pre, j);
  }
}
