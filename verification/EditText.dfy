/** Text clean-up of edit payloads (packages/hashline-core/src/edit-text-normalization.ts)
    and the listing it must undo (`formatHashLines`). */
module EditText {
  import opened Text
  import opened Anchors

  /** An edit's `lines` field: one string, or a list of lines. */
  datatype Payload = Whole(text: string) | Lines(lines: seq<string>)

  // ----- copied prefixes

  function DropArrow(t: string): string {
    if |t| >= 3 && t[..3] == ">>>" then t[3..] else if |t| >= 2 && t[..2] == ">>" then t[2..] else t
  }

  /** What follows "#", two hash letters and a bar. */
  function AfterHash(v: string): Option<string> {
    if v == "" || v[0] != '#' then None
    else
      var w := TrimStart(v[1..]);
      if |w| >= 3 && IsHash(w[..2]) && w[2] == '|' then Some(w[3..]) else None
  }

  /** `HASHLINE_PREFIX_RE`: what follows a copied "LINE#HASH|" prefix, if the line has one. */
  function AfterHashPrefix(line: string): Option<string> {
    var u := TrimStart(DropArrow(TrimStart(line)));
    var d := DigitRun(u);
    if d == 0 then None else AfterHash(TrimStart(u[d..]))
  }

  /** `DIFF_PLUS_RE`. */
  predicate HasDiffPlus(line: string) {
    line != "" && line[0] == '+' && (|line| == 1 || line[1] != '+')
  }

  function Count(lines: seq<string>, p: string -> bool): nat {
    if lines == [] then 0
    else Count(lines[..|lines| - 1], p) + if p(lines[|lines| - 1]) then 1 else 0
  }

  predicate NonEmpty(line: string) { line != "" }
  predicate HasHashPrefix(line: string) { AfterHashPrefix(line).Some? }

  predicate StripsHash(lines: seq<string>) {
    Count(lines, HasHashPrefix) > 0 && 2 * Count(lines, HasHashPrefix) >= Count(lines, NonEmpty)
  }

  predicate StripsPlus(lines: seq<string>) {
    !StripsHash(lines) && Count(lines, HasDiffPlus) > 0 && 2 * Count(lines, HasDiffPlus) >= Count(lines, NonEmpty)
  }

  function WithoutHash(line: string): string {
    match AfterHashPrefix(line)
    case Some(rest) => rest
    case None => line
  }

  function WithoutPlus(line: string): string {
    if HasDiffPlus(line) then line[1..] else line
  }

  function MapLines(f: string -> string, lines: seq<string>): (r: seq<string>)
    ensures |r| == |lines| && forall i :: 0 <= i < |lines| ==> r[i] == f(lines[i])
  {
    seq(|lines|, i requires 0 <= i < |lines| => f(lines[i]))
  }

  function Stripped(lines: seq<string>): seq<string> {
    if StripsHash(lines) then MapLines(WithoutHash, lines)
    else if StripsPlus(lines) then MapLines(WithoutPlus, lines)
    else lines
  }

  /** `stripLinePrefixes`: counts first, and strips only when at least half of the non-empty lines agree. */
  method StripLinePrefixes(lines: seq<string>) returns (r: seq<string>)
    ensures r == Stripped(lines)
  {
    hide AfterHashPrefix;
    var hashes, pluses, nonEmpty := 0, 0, 0;
    var i := 0;
    while i < |lines|
      invariant 0 <= i <= |lines|
      invariant hashes == Count(lines[..i], HasHashPrefix)
      invariant pluses == Count(lines[..i], HasDiffPlus)
      invariant nonEmpty == Count(lines[..i], NonEmpty)
    {
      assert lines[..i + 1][..i] == lines[..i];
      if |lines[i]| == 0 {
        EmptyHasNoPrefix();
      } else {
        nonEmpty := nonEmpty + 1;
        if HasHashPrefix(lines[i]) { hashes := hashes + 1; }
        if HasDiffPlus(lines[i]) { pluses := pluses + 1; }
      }
      i := i + 1;
    }
    assert lines[..i] == lines;
    if nonEmpty == 0 {
      NothingToStrip(lines);
      return lines;
    }
    var stripHash := hashes > 0 && 2 * hashes >= nonEmpty;
    var stripPlus := !stripHash && pluses > 0 && 2 * pluses >= nonEmpty;
    if !stripHash && !stripPlus { return lines; }
    return if stripHash then MapLines(WithoutHash, lines) else MapLines(WithoutPlus, lines);
  }

  lemma NoArrowInEmpty()
    ensures DropArrow("") == ""
  {
  }

  lemma EmptyHasNoPrefix()
    ensures !HasHashPrefix("") && !HasDiffPlus("")
  {
    hide TrimStart, DigitRun, AfterHash, DropArrow;
    NoArrowInEmpty();
    assert TrimStart("") == "";
  }

  lemma {:induction false} NothingToStrip(lines: seq<string>)
    requires Count(lines, NonEmpty) == 0
    ensures Count(lines, HasHashPrefix) == 0 && Count(lines, HasDiffPlus) == 0
  {
    hide AfterHashPrefix;
    if lines != [] {
      NothingToStrip(lines[..|lines| - 1]);
      assert lines[|lines| - 1] == "";
      EmptyHasNoPrefix();
    }
  }

  function ToNewLines(p: Payload): seq<string> {
    match p
    case Whole(text) => Stripped(Split(text, '\n'))
    case Lines(lines) => Stripped(lines)
  }

  // ----- payloads that their joined text determines

  /** One text, or a non-empty list of lines without line breaks. */
  predicate Plain(p: Payload) {
    p.Whole? || (p.lines != [] && forall line :: line in p.lines ==> '\n' !in line)
  }

  predicate Ends(line: string, rest: string) { |rest| <= |line| && line[|line| - |rest|..] == rest }

  lemma {:induction false} EndsKeepsOneLine(line: string, rest: string)
    requires Ends(line, rest) && '\n' !in line
    ensures '\n' !in rest
  {
    assert forall k :: 0 <= k < |rest| ==> rest[k] == line[|line| - |rest| + k];
  }

  lemma {:induction false} AfterHashEnds(v: string)
    requires AfterHash(v).Some?
    ensures Ends(v, AfterHash(v).value)
  {
    hide IsHash;
  }

  lemma {:induction false} EndsTwice(line: string, t: string, u: string)
    requires Ends(line, t) && Ends(t, u)
    ensures Ends(line, u)
  {
    assert line[|line| - |u|..] == t[|t| - |u|..];
  }

  lemma DropArrowEnds(t: string)
    ensures Ends(t, DropArrow(t))
  {
  }

  lemma {:induction false} WithoutHashEnds(line: string)
    ensures Ends(line, WithoutHash(line))
  {
    hide AfterHash, DigitRun, IsSpace, DropArrow, Ends, TrimStart;
    EndsItself(line);
    if AfterHashPrefix(line).Some? {
      var t := TrimStart(line);
      var a := DropArrow(t);
      var u := TrimStart(a);
      var w := u[DigitRun(u)..];
      var v := TrimStart(w);
      TrimStartEnds(line);
      DropArrowEnds(t);
      EndsTwice(line, t, a);
      TrimStartEnds(a);
      EndsTwice(line, a, u);
      CutEnds(u, DigitRun(u));
      EndsTwice(line, u, w);
      TrimStartEnds(w);
      EndsTwice(line, w, v);
      AfterHashEnds(v);
      EndsTwice(line, v, AfterHash(v).value);
    }
  }

  lemma EndsItself(s: string)
    ensures Ends(s, s)
  {
  }

  lemma TrimStartEnds(s: string)
    ensures Ends(s, TrimStart(s))
  {
    hide IsSpace;
  }

  lemma CutEnds(s: string, k: nat)
    requires k <= |s|
    ensures Ends(s, s[k..])
  {
  }

  lemma {:induction false} StrippedIsOneLineEach(lines: seq<string>)
    requires forall line :: line in lines ==> '\n' !in line
    ensures |Stripped(lines)| == |lines| && forall line :: line in Stripped(lines) ==> '\n' !in line
  {
    hide AfterHashPrefix, Count, WithoutHash;
    forall i | 0 <= i < |lines| ensures '\n' !in Stripped(lines)[i] {
      assert lines[i] in lines;
      WithoutHashEnds(lines[i]);
      EndsKeepsOneLine(lines[i], WithoutHash(lines[i]));
    }
  }

  lemma {:induction false} PlainNewLines(p: Payload)
    requires Plain(p)
    ensures ToNewLines(p) != [] && forall line :: line in ToNewLines(p) ==> '\n' !in line
  {
    hide Stripped, Split;
    if p.Whole? {
      SplitPieces(p.text, '\n');
      StrippedIsOneLineEach(Split(p.text, '\n'));
    } else {
      StrippedIsOneLineEach(p.lines);
    }
  }

  /** Plain payloads that join to the same text are the same lines. */
  lemma {:induction false} SameTextSameLines(p: Payload, q: Payload)
    requires Plain(p) && Plain(q) && Join(ToNewLines(p), '\n') == Join(ToNewLines(q), '\n')
    ensures ToNewLines(p) == ToNewLines(q)
  {
    hide ToNewLines;
    PlainNewLines(p);
    PlainNewLines(q);
    SplitJoin(ToNewLines(p), '\n');
    SplitJoin(ToNewLines(q), '\n');
  }

  /** An empty list and an empty text: the first means no line, the second one blank line. */
  lemma {:induction false} NothingAndBlank()
    ensures ToNewLines(Lines([])) == [] && ToNewLines(Whole("")) == [""]
  {
    hide AfterHashPrefix, StripsPlus;
    BlankTextStays();
    SplitWithout("", '\n');
    assert Count([], HasHashPrefix) == 0;
    assert MapLines(WithoutPlus, []) == [];
  }

  // ----- listings, and pasting them back

  function FormatLines(h: Hashes, start: nat, lines: seq<string>): (r: seq<string>)
    ensures |r| == |lines| && forall i :: 0 <= i < |lines| ==> r[i] == FormatHashLine(h, start + i, lines[i])
  {
    seq(|lines|, i requires 0 <= i < |lines| => FormatHashLine(h, start + i, lines[i]))
  }

  /** `formatHashLines`. */
  function FormatHashLines(h: Hashes, content: string): string {
    if content == "" then "" else Join(FormatLines(h, 1, Split(content, '\n')), '\n')
  }

  lemma {:induction false} HashIsFound(hash: string, content: string)
    requires IsHash(hash)
    ensures AfterHash("#" + hash + "|" + content) == Some(content)
    ensures TrimStart("#" + hash + "|" + content) == "#" + hash + "|" + content
  {
    hide IsHash, TrimStart, IsSpace;
    HashHasTwo(hash);
    HashSignIsNoSpace();
    var v, w := "#" + hash + "|" + content, hash + "|" + content;
    TrimStartStays(v);
    assert v[1..] == w;
    TrimStartStays(w);
    assert w[..2] == hash && w[3..] == content;
  }

  lemma {:induction false} FormattedHasPrefix(h: Hashes, n: nat, content: string)
    requires DictionaryHashes(h)
    ensures AfterHashPrefix(FormatHashLine(h, n, content)) == Some(content)
  {
    hide Numeral, DigitRun, TrimStart, IsSpace, IsHash, AfterHash;
    var hash := h.current(n, content);
    RefShape(n, hash);
    HashIsFound(hash, content);
    var num, tail := Numeral(n), "#" + hash + "|" + content;
    var line := num + tail;
    assert FormatHashLine(h, n, content) == line;
    assert line[0] == FormatRef(n, hash)[0];
    NoArrow(line);
    TrimStartStays(line);
    DigitRunOf(num, tail);
    assert line[|num|..] == tail;
  }

  lemma NoArrow(line: string)
    requires line != "" && IsDigit(line[0])
    ensures DropArrow(line) == line
  {
    assert |line| >= 3 ==> line[..3][0] == line[0];
    assert |line| >= 2 ==> line[..2][0] == line[0];
  }

  lemma HashSignIsNoSpace()
    ensures !IsSpace('#')
  {
  }

  lemma {:induction false} CountAll(lines: seq<string>, p: string -> bool)
    requires forall i :: 0 <= i < |lines| ==> p(lines[i])
    ensures Count(lines, p) == |lines|
  {
    if lines != [] { CountAll(lines[..|lines| - 1], p); }
  }

  lemma {:induction false} CountAtMost(lines: seq<string>, p: string -> bool)
    ensures Count(lines, p) <= |lines|
  {
    if lines != [] { CountAtMost(lines[..|lines| - 1], p); }
  }

  /** Stripping undoes formatting, for every list of lines and every starting number. */
  lemma {:induction false} StripUndoesFormat(h: Hashes, start: nat, lines: seq<string>)
    requires DictionaryHashes(h)
    ensures Stripped(FormatLines(h, start, lines)) == lines
  {
    hide AfterHashPrefix, FormatHashLine, Count;
    var printed := FormatLines(h, start, lines);
    forall i | 0 <= i < |printed| ensures AfterHashPrefix(printed[i]) == Some(lines[i]) {
      FormattedHasPrefix(h, start + i, lines[i]);
    }
    CountAll(printed, HasHashPrefix);
    CountAtMost(printed, NonEmpty);
    if lines == [] {
      CountAll(printed, HasDiffPlus);
      assert printed == lines;
    } else {
      assert MapLines(WithoutHash, printed) == lines;
    }
  }

  lemma {:induction false} FormattedIsOneLine(h: Hashes, n: nat, content: string)
    requires DictionaryHashes(h) && '\n' !in content
    ensures '\n' !in FormatHashLine(h, n, content)
  {
    hide IsHash;
    var hash := h.current(n, content);
    HashHasTwo(hash);
    assert '\n' !in hash by { NewlineIsSpace(); assert hash == [hash[0], hash[1]]; }
  }

  lemma NewlineIsSpace()
    ensures IsSpace('\n')
  {
  }

  /** Pasting a whole listing back as an edit's text gives the file's own lines. */
  lemma {:induction false} PastedListing(h: Hashes, content: string)
    requires DictionaryHashes(h)
    ensures ToNewLines(Whole(FormatHashLines(h, content))) == Split(content, '\n')
  {
    hide Stripped, FormatHashLine, Split;
    var lines := Split(content, '\n');
    if content == "" {
      BlankTextStays();
    } else {
      var printed := FormatLines(h, 1, lines);
      SplitPieces(content, '\n');
      forall p | p in printed ensures '\n' !in p {
        var i :| 0 <= i < |printed| && printed[i] == p;
        assert lines[i] in lines;
        FormattedIsOneLine(h, 1 + i, lines[i]);
      }
      SplitJoin(printed, '\n');
      StripUndoesFormat(h, 1, lines);
    }
  }

  lemma BlankTextStays()
    ensures Stripped(Split("", '\n')) == Split("", '\n')
  {
    hide AfterHashPrefix;
    SplitWithout("", '\n');
    assert [""][..0] == [];
    EmptyHasNoPrefix();
    assert Count([""], NonEmpty) == 0;
    NothingToStrip([""]);
  }

  // ----- indentation and echoes

  function LeadingWhitespace(s: string): string {
    s[..|s| - |TrimStart(s)|]
  }

  function RestoreLeadingIndent(template: string, line: string): string {
    if line == "" || LeadingWhitespace(template) == "" || LeadingWhitespace(line) != "" || Trim(template) == Trim(line)
    then line
    else LeadingWhitespace(template) + line
  }

  function RemoveSpaces(s: string): string {
    if s == "" then "" else (if IsSpace(s[0]) then "" else [s[0]]) + RemoveSpaces(s[1..])
  }

  predicate EqualsIgnoringWhitespace(a: string, b: string) {
    a == b || RemoveSpaces(a) == RemoveSpaces(b)
  }

  function StripInsertAnchorEcho(anchor: string, text: seq<string>): seq<string> {
    if text != [] && EqualsIgnoringWhitespace(text[0], anchor) then text[1..] else text
  }

  function StripInsertBeforeEcho(anchor: string, text: seq<string>): seq<string> {
    if |text| > 1 && EqualsIgnoringWhitespace(text[|text| - 1], anchor) then text[..|text| - 1] else text
  }

  /** `stripRangeBoundaryEcho`, given the neighbours of the range instead of the whole file. */
  function StripRangeEcho(before: Option<string>, after: Option<string>, replaced: nat,
                          text: seq<string>): seq<string>
  {
    if |text| <= 1 || |text| <= replaced then text
    else
      var out := if before == Some(text[0]) then text[1..] else text;
      if out != [] && after == Some(out[|out| - 1]) then out[..|out| - 1] else out
  }

  /** Echo stripping takes off at most one line at each end, and exactly when the text is longer than what
      it replaces and that line repeats the neighbour. */
  lemma {:induction false} RangeEchoIsExact(before: Option<string>, after: Option<string>, replaced: nat,
                                            text: seq<string>)
    ensures var long := |text| > 1 && |text| > replaced;
            var head := if long && before == Some(text[0]) then 1 else 0;
            var foot := if long && after == Some(text[|text| - 1]) then 1 else 0;
            head + foot <= |text| && StripRangeEcho(before, after, replaced, text) == text[head..|text| - foot]
  {
    if |text| > 1 && |text| > replaced && before == Some(text[0]) {
      var out := text[1..];
      assert out[|out| - 1] == text[|text| - 1];
      assert out[..|out| - 1] == text[1..|text| - 1];
    }
  }

  /** An insertion loses at most the line that repeats its anchor; an insertion before keeps a single line. */
  lemma {:induction false} InsertEchoIsExact(anchor: string, text: seq<string>)
    ensures StripInsertAnchorEcho(anchor, text) ==
            text[if text != [] && RemoveSpaces(text[0]) == RemoveSpaces(anchor) then 1 else 0..]
    ensures StripInsertBeforeEcho(anchor, text) ==
            text[..if |text| > 1 && RemoveSpaces(text[|text| - 1]) == RemoveSpaces(anchor) then |text| - 1 else |text|]
  {
    hide RemoveSpaces;
  }

  lemma {:induction false} TrimStartAppend(indent: string, s: string)
    requires forall i :: 0 <= i < |indent| ==> IsSpace(indent[i])
    ensures TrimStart(indent + s) == TrimStart(s)
  {
    hide IsSpace;
    if indent == "" {
      assert indent + s == s;
    } else {
      assert (indent + s)[1..] == indent[1..] + s && (indent + s)[0] == indent[0];
      TrimStartAppend(indent[1..], s);
    }
  }

  /** Restoring the indent changes leading white space only, and only by adding the template's. */
  lemma {:induction false} IndentKeepsText(template: string, line: string)
    ensures Trim(RestoreLeadingIndent(template, line)) == Trim(line)
    ensures RestoreLeadingIndent(template, line) == line ||
            (LeadingWhitespace(line) == "" &&
             RestoreLeadingIndent(template, line) == LeadingWhitespace(template) + line)
  {
    hide TrimStart, TrimEnd, IsSpace;
    TrimStartAppend(LeadingWhitespace(template), line);
  }
}
