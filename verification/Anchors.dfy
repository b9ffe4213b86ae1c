/** `LINE#HASH` anchors: printing, normalising, parsing, validating and repairing them
    (packages/hashline-core/src/validation.ts, hash-computation.ts).  The two line hashes are parameters. */
module Anchors {
  import opened Text

  const HASH_ALPHABET := "ZPMQVRWSNKTXJBYH"

  predicate IsHash(s: string) {
    |s| == 2 && s[0] in HASH_ALPHABET && s[1] in HASH_ALPHABET
  }

  predicate IsDigit(c: char) { '0' <= c <= '9' }

  /** `computeLineHash` and `computeLegacyLineHash`. */
  datatype Hashes = Hashes(current: (nat, string) -> string, legacy: (nat, string) -> string)

  /** Every hash is an entry of the two-letter dictionary. */
  ghost predicate DictionaryHashes(h: Hashes) {
    forall n: nat, s: string :: IsHash(h.current(n, s))
  }

  datatype LineRef = LineRef(line: nat, hash: string)

  // ----- numerals

  function DigitChar(d: nat): char
    requires d < 10
  {
    '0' + (d as char)
  }

  function Numeral(n: nat): (s: string)
    ensures |s| >= 1 && forall i :: 0 <= i < |s| ==> IsDigit(s[i])
  {
    var ds := DigitsOf(n);
    seq(|ds|, i requires 0 <= i < |ds| => (assert ds[i] in ds; DigitChar(ds[i])))
  }

  function DigitValues(s: string): (r: Digits)
    requires forall i :: 0 <= i < |s| ==> IsDigit(s[i])
    ensures |r| == |s| && forall i :: 0 <= i < |s| ==> r[i] == s[i] as int - '0' as int
  {
    seq(|s|, i requires 0 <= i < |s| && IsDigit(s[i]) => s[i] as int - '0' as int)
  }

  /** `Number.parseInt` on a run of digits. */
  function ParseNumeral(s: string): nat
    requires forall i :: 0 <= i < |s| ==> IsDigit(s[i])
  {
    ValueOf(DigitValues(s))
  }

  lemma {:induction false} ParseNumeralOf(n: nat)
    ensures ParseNumeral(Numeral(n)) == n
  {
    hide DigitsOf, ValueOf;
    var ds := DigitsOf(n);
    assert forall i :: 0 <= i < |ds| ==> ds[i] in ds;
    assert DigitValues(Numeral(n)) == ds;
    ValueOfDigits(n);
  }

  // ----- the reference pattern

  /** Length of the run of digits that starts `s`. */
  function DigitRun(s: string): (n: nat)
    ensures n <= |s| && (forall i :: 0 <= i < n ==> IsDigit(s[i])) && (n < |s| ==> !IsDigit(s[n]))
  {
    if s != [] && IsDigit(s[0]) then 1 + DigitRun(s[1..]) else 0
  }

  /** `s` starts with digits, "#" and two hash letters; the length of that prefix, or 0. */
  function RefPrefix(s: string): (n: nat)
    ensures n <= |s|
    ensures n > 0 ==> n >= 4 && n == DigitRun(s) + 3
  {
    var d := DigitRun(s);
    if 0 < d && d + 3 <= |s| && s[d] == '#' && IsHash(s[d + 1..d + 3]) then d + 3 else 0
  }

  /** `HASHLINE_REF_PATTERN`. */
  predicate IsRef(s: string) {
    s != "" && RefPrefix(s) == |s|
  }

  function ReadRef(s: string): LineRef
    requires IsRef(s)
  {
    LineRef(ParseNumeral(s[..|s| - 3]), s[|s| - 2..])
  }

  /** The leftmost reference inside `s`. */
  function ExtractRef(s: string): Option<string> {
    if s == "" then None
    else if RefPrefix(s) > 0 then Some(s[..RefPrefix(s)])
    else ExtractRef(s[1..])
  }

  // ----- normalising

  function DropMarker(s: string): string {
    if ">>>" <= s then TrimStart(s[3..])
    else if s != "" && (s[0] == '+' || s[0] == '-') then TrimStart(s[1..])
    else s
  }

  /** Removes the white space around the first "#". */
  function TightenHash(s: string): string {
    var i := IndexOf(s, '#');
    if i == |s| then s else TrimEnd(s[..i]) + "#" + TrimStart(s[i + 1..])
  }

  predicate IsLineTerminator(c: char) {
    c == '\n' || c == '\r' || c as int == 0x2028 || c as int == 0x2029
  }

  /** `/\|.*$/`: the first bar with no line terminator behind it, and everything after it, goes. */
  function DropText(s: string): string {
    if s == "" then ""
    else if s[0] == '|' && (forall c :: c in s ==> !IsLineTerminator(c)) then ""
    else [s[0]] + DropText(s[1..])
  }

  function Tidy(ref: string): string {
    Trim(DropText(TightenHash(DropMarker(Trim(ref)))))
  }

  function NormalizeLineRef(ref: string): string {
    var t := Tidy(ref);
    if IsRef(t) then t
    else match ExtractRef(t)
      case Some(found) => found
      case None => Trim(ref)
  }

  function ParseLineRef(ref: string): Option<LineRef> {
    var n := NormalizeLineRef(ref);
    if IsRef(n) then Some(ReadRef(n)) else None
  }

  // ----- printing

  function FormatRef(n: nat, hash: string): string {
    Numeral(n) + "#" + hash
  }

  function FormatHashLine(h: Hashes, n: nat, content: string): string {
    FormatRef(n, h.current(n, content)) + "|" + content
  }

  lemma {:induction false} DigitRunOf(digits: string, rest: string)
    requires forall i :: 0 <= i < |digits| ==> IsDigit(digits[i])
    requires rest != "" ==> !IsDigit(rest[0])
    ensures DigitRun(digits + rest) == |digits|
  {
    var s := digits + rest;
    assert forall i :: 0 <= i < |digits| ==> s[i] == digits[i];
    assert rest != "" ==> s[|digits|] == rest[0];
  }

  /** A printed reference is found at the front of any text that starts with it. */
  lemma {:induction false} RefPrefixOf(n: nat, hash: string, rest: string)
    requires IsHash(hash)
    ensures RefPrefix(FormatRef(n, hash) + rest) == |FormatRef(n, hash)|
    ensures (FormatRef(n, hash) + rest)[..|FormatRef(n, hash)|] == FormatRef(n, hash)
  {
    hide IsHash, Numeral, DigitRun;
    var s := FormatRef(n, hash) + rest;
    assert s == Numeral(n) + ("#" + hash + rest);
    assert IsHash(hash) ==> |hash| == 2 by { HashHasTwo(hash); }
    DigitRunOf(Numeral(n), "#" + hash + rest);
    var d := |Numeral(n)|;
    assert s[d] == '#' && s[d + 1..d + 3] == hash;
  }

  lemma {:induction false} HashHasTwo(hash: string)
    requires IsHash(hash)
    ensures |hash| == 2 && !IsSpace(hash[0]) && !IsSpace(hash[1]) && '|' !in hash && '#' !in hash
  {
  }

  lemma {:induction false} FormatRefIsRef(n: nat, hash: string)
    requires IsHash(hash)
    ensures IsRef(FormatRef(n, hash)) && ReadRef(FormatRef(n, hash)) == LineRef(n, hash)
  {
    hide IsHash, Numeral, RefPrefix, ParseNumeral;
    var s := FormatRef(n, hash);
    HashHasTwo(hash);
    RefPrefixOf(n, hash, "");
    assert s + "" == s;
    assert s[..|s| - 3] == Numeral(n) && s[|s| - 2..] == hash;
    ParseNumeralOf(n);
  }

  // ----- what is printed parses back

  /** Text that does not start or end in white space keeps its front when trimmed. */
  lemma {:induction false} TrimKeepsFront(a: string, rest: string) returns (rest': string)
    requires a != "" && !IsSpace(a[0]) && !IsSpace(a[|a| - 1])
    ensures Trim(a + rest) == a + rest' && TrimStart(a + rest) == a + rest
    ensures rest == "" ==> rest' == ""
  {
    hide IsSpace, TrimEnd, TrimStart;
    var s := a + rest;
    assert s[0] == a[0];
    TrimStartStays(s);
    var r := TrimEnd(s);
    assert s[|a| - 1] == a[|a| - 1];
    assert |r| >= |a|;
    rest' := r[|a|..];
    assert r == s[..|r|] == a + rest';
  }

  lemma {:induction false} TrimStartStays(s: string)
    requires s != "" && !IsSpace(s[0])
    ensures TrimStart(s) == s
  {
  }

  lemma {:induction false} DropTextSkips(a: string, b: string)
    requires '|' !in a
    ensures DropText(a + b) == a + DropText(b)
  {
    if a == "" {
      assert a + b == b;
    } else {
      assert (a + b)[1..] == a[1..] + b;
      DropTextSkips(a[1..], b);
    }
  }

  lemma {:induction false} RefShape(n: nat, hash: string)
    requires IsHash(hash)
    ensures var ref := FormatRef(n, hash);
            && |ref| == |Numeral(n)| + 3
            && IsDigit(ref[0]) && !IsSpace(ref[0]) && !IsSpace(ref[|ref| - 1])
            && '|' !in ref && IndexOf(ref, '#') == |Numeral(n)|
            && !IsSpace(Numeral(n)[|Numeral(n)| - 1])
            && ref[|Numeral(n)| + 1..] == hash
  {
    hide Numeral;
    HashHasTwo(hash);
    var ref, d := FormatRef(n, hash), |Numeral(n)|;
    assert ref[d] == '#' && forall i :: 0 <= i < d ==> ref[i] == Numeral(n)[i];
    assert ref[d + 1] == hash[0] && ref[d + 2] == hash[1];
  }

  lemma {:induction false} TightenStays(n: nat, hash: string, rest: string)
    requires IsHash(hash)
    ensures TightenHash(FormatRef(n, hash) + rest) == FormatRef(n, hash) + rest
  {
    hide IsHash, Numeral, TrimStart, TrimEnd, IsSpace, IndexOf, Split;
    RefShape(n, hash);
    HashHasTwo(hash);
    var ref, d := FormatRef(n, hash), |Numeral(n)|;
    var s := ref + rest;
    assert ref == Numeral(n) + "#" + hash;
    var tail := hash + rest;
    assert s == Numeral(n) + ['#'] + tail;
    assert '#' !in Numeral(n);
    SplitFirst(Numeral(n), tail, '#');
    assert s[..d] == Numeral(n) && s[d + 1..] == tail && tail[0] == hash[0];
    assert TrimEnd(s[..d]) == s[..d];
    TrimStartStays(tail);
  }

  lemma {:induction false} DropMarkerStays(s: string)
    requires s != "" && IsDigit(s[0])
    ensures DropMarker(s) == s
  {
  }

  lemma {:induction false} TrimRef(n: nat, hash: string)
    requires IsHash(hash)
    ensures Trim(FormatRef(n, hash)) == FormatRef(n, hash)
  {
    hide Trim, IsHash, FormatRef, IsSpace, IsDigit;
    RefShape(n, hash);
    var rest := TrimKeepsFront(FormatRef(n, hash), "");
    assert FormatRef(n, hash) + "" == FormatRef(n, hash);
    assert FormatRef(n, hash) + rest == FormatRef(n, hash);
  }

  lemma {:induction false} TrimRefBar(n: nat, hash: string, text: string) returns (text': string)
    requires IsHash(hash)
    ensures Trim(FormatRef(n, hash) + ("|" + text)) == FormatRef(n, hash) + ("|" + text')
  {
    hide Trim, IsHash, FormatRef, IsSpace, IsDigit;
    var ref := FormatRef(n, hash);
    RefShape(n, hash);
    BarIsNoSpace();
    var a := ref + "|";
    assert a[|a| - 1] == '|' && a[0] == ref[0];
    text' := TrimKeepsFront(a, text);
    assert ref + ("|" + text) == a + text;
    assert ref + ("|" + text') == a + text';
  }

  lemma {:induction false} ExtractsRef(n: nat, hash: string, text: string)
    requires IsHash(hash)
    ensures var t := FormatRef(n, hash) + ("|" + text);
            !IsRef(t) && ExtractRef(t) == Some(FormatRef(n, hash))
  {
    hide IsHash, FormatRef, RefPrefix;
    RefShape(n, hash);
    RefPrefixOf(n, hash, "|" + text);
  }

  lemma {:induction false} DropTextAtBar(content: string)
    ensures DropText("|" + content) == "" || DropText("|" + content) == "|" + DropText(content)
  {
    assert ("|" + content)[1..] == content;
  }

  /** Once markers are gone, whatever text follows the bar does not disturb the reference. */
  lemma {:induction false} TextIsIgnored(n: nat, hash: string, content: string)
    requires IsHash(hash)
    ensures var t := Trim(DropText(TightenHash(FormatRef(n, hash) + "|" + content)));
            t == FormatRef(n, hash) || (!IsRef(t) && ExtractRef(t) == Some(FormatRef(n, hash)))
  {
    hide TightenHash, Trim, IsHash, FormatRef, IsRef, ExtractRef, DropText;
    var ref := FormatRef(n, hash);
    RefShape(n, hash);
    assert ref + "|" + content == ref + ("|" + content);
    TightenStays(n, hash, "|" + content);
    DropTextSkips(ref, "|" + content);
    DropTextAtBar(content);
    if DropText("|" + content) == "" {
      assert ref + "" == ref;
      TrimRef(n, hash);
    } else {
      var text' := TrimRefBar(n, hash, DropText(content));
      ExtractsRef(n, hash, text');
    }
  }

  lemma BarIsNoSpace()
    ensures !IsSpace('|') && !IsSpace('>') && IsSpace(' ')
  {
  }

  /** The text in front of a reference in tool output: nothing, an indent, or a marker. */
  predicate DisplayPrefix(pre: string) {
    pre == "" || pre == "    " || pre == ">>> " || pre == "+" || pre == "-"
  }

  predicate Spaces(pre: string) { forall c :: c in pre ==> c == ' ' }

  lemma {:induction false} TrimIndent(pre: string, s: string)
    requires Spaces(pre) && s != "" && !IsSpace(s[0])
    ensures Trim(pre + s) == Trim(s)
  {
    hide IsSpace, TrimStart, TrimEnd;
    IndentIsTrimmed(pre, s);
    TrimStartStays(s);
  }

  lemma {:induction false} IndentedIsDropped(pre: string, ref: string, content: string) returns (content': string)
    requires Spaces(pre) && ref != "" && IsDigit(ref[0]) && !IsSpace(ref[0])
    ensures DropMarker(Trim(pre + (ref + "|" + content))) == ref + "|" + content'
  {
    hide IsSpace, TrimStart, TrimEnd, Trim, IsDigit, DropMarker, Spaces;
    BarIsNoSpace();
    var body := ref + "|";
    assert body[0] == ref[0] && body[|body| - 1] == '|';
    content' := TrimKeepsFront(body, content);
    assert (body + content)[0] == ref[0] && (body + content')[0] == ref[0];
    TrimIndent(pre, body + content);
    DropMarkerStays(body + content');
  }

  lemma {:induction false} ArrowIsDropped(x: string)
    requires x != "" && !IsSpace(x[0])
    ensures DropMarker(">>> " + x) == x
  {
    hide IsSpace, TrimStart;
    var t := ">>> " + x;
    assert ">>>" <= t;
    assert t[3..] == " " + x;
    IndentIsTrimmed(" ", x);
  }

  lemma {:induction false} SignIsDropped(sign: char, x: string)
    requires sign == '+' || sign == '-'
    requires x != "" && !IsSpace(x[0])
    ensures DropMarker([sign] + x) == x
  {
    hide IsSpace, TrimStart;
    var t := [sign] + x;
    assert t[0] == sign && t[1..] == x;
    assert !(">>>" <= t);
    TrimStartStays(x);
  }

  predicate Marker(pre: string) { pre == ">>> " || pre == "+" || pre == "-" }

  lemma {:induction false} MarkerIsDropped(pre: string, x: string)
    requires Marker(pre)
    requires x != "" && !IsSpace(x[0])
    ensures DropMarker(pre + x) == x
  {
    hide IsSpace, DropMarker;
    if pre == ">>> " {
      ArrowIsDropped(x);
    } else {
      assert pre == [pre[0]];
      SignIsDropped(pre[0], x);
    }
  }

  lemma {:induction false} MarkedIsDropped(pre: string, ref: string, content: string) returns (content': string)
    requires Marker(pre) && ref != "" && !IsSpace(ref[0])
    ensures DropMarker(Trim(pre + (ref + "|" + content))) == ref + "|" + content'
  {
    hide IsSpace, TrimStart, TrimEnd, Trim, DropMarker, Marker;
    BarIsNoSpace();
    MarkersAreNoSpace(pre);
    var body := ref + "|";
    var a := pre + body;
    assert a[0] == pre[0] && a[|a| - 1] == '|';
    content' := TrimKeepsFront(a, content);
    assert pre + (ref + "|" + content) == a + content;
    assert a + content' == pre + (body + content') && (body + content')[0] == ref[0];
    MarkerIsDropped(pre, body + content');
  }

  lemma {:induction false} PrefixIsDropped(pre: string, n: nat, hash: string, content: string)
    returns (content': string)
    requires IsHash(hash) && DisplayPrefix(pre)
    ensures DropMarker(Trim(pre + (FormatRef(n, hash) + "|" + content))) == FormatRef(n, hash) + "|" + content'
  {
    hide FormatRef, IsHash, IsSpace, Trim, DropMarker, Spaces, Marker, DisplayPrefix;
    RefShape(n, hash);
    DisplayIsIndentOrMarker(pre);
    if Spaces(pre) {
      content' := IndentedIsDropped(pre, FormatRef(n, hash), content);
    } else {
      content' := MarkedIsDropped(pre, FormatRef(n, hash), content);
    }
  }

  lemma DisplayIsIndentOrMarker(pre: string)
    requires DisplayPrefix(pre)
    ensures Spaces(pre) || Marker(pre)
  {
  }

  lemma MarkersAreNoSpace(pre: string)
    requires Marker(pre)
    ensures pre != "" && !IsSpace(pre[0])
  {
  }

  lemma {:induction false} IndentIsTrimmed(indent: string, s: string)
    requires Spaces(indent) && s != "" && !IsSpace(s[0])
    ensures TrimStart(indent + s) == s
  {
    if indent == "" {
      assert indent + s == s;
    } else {
      assert indent[0] in indent;
      assert (indent + s)[1..] == indent[1..] + s;
      assert forall c :: c in indent[1..] ==> c in indent;
      IndentIsTrimmed(indent[1..], s);
    }
  }

  /** Every line the tool prints, in a listing or in a mismatch report, parses back to its number and hash. */
  lemma {:induction false} PrintedLineParses(h: Hashes, pre: string, n: nat, content: string)
    requires DictionaryHashes(h) && DisplayPrefix(pre)
    ensures ParseLineRef(pre + FormatHashLine(h, n, content)) == Some(LineRef(n, h.current(n, content)))
  {
    hide FormatRef, IsHash, DropMarker, DropText, TightenHash, Trim, ReadRef, IsRef, ExtractRef, DisplayPrefix;
    var hash := h.current(n, content);
    var content' := PrefixIsDropped(pre, n, hash, content);
    assert FormatHashLine(h, n, content) == FormatRef(n, hash) + "|" + content;
    TextIsIgnored(n, hash, content');
    FormatRefIsRef(n, hash);
  }

  /** A bare reference parses back too. */
  lemma {:induction false} RefParses(n: nat, hash: string)
    requires IsHash(hash)
    ensures ParseLineRef(FormatRef(n, hash)) == Some(LineRef(n, hash))
  {
    hide FormatRef, IsHash, ReadRef, IsRef, IsSpace, TightenHash, DropMarker, Trim, IsDigit, DropText;
    var ref := FormatRef(n, hash);
    RefShape(n, hash);
    var r := TrimKeepsFront(ref, "");
    assert ref + "" == ref;
    DropMarkerStays(ref);
    TightenStays(n, hash, "");
    DropTextSkips(ref, "");
    DropTextOfNothing();
    FormatRefIsRef(n, hash);
  }

  lemma DropTextOfNothing()
    ensures DropText("") == ""
  {
  }

  // ----- validation

  datatype RefError =
    | BadReference(ref: string)
    | OutOfBounds(line: nat)
    | Mismatched(stale: seq<LineRef>)

  predicate InBounds(lines: seq<string>, r: LineRef) {
    1 <= r.line <= |lines|
  }

  predicate Compatible(h: Hashes, lines: seq<string>, r: LineRef) {
    && InBounds(lines, r)
    && (h.current(r.line, lines[r.line - 1]) == r.hash || h.legacy(r.line, lines[r.line - 1]) == r.hash)
  }

  /** A reference that names an existing line with a hash that line still has. */
  predicate Fresh(h: Hashes, lines: seq<string>, ref: string) {
    match ParseLineRef(ref)
    case None => false
    case Some(r) => Compatible(h, lines, r)
  }

  function Broken(lines: seq<string>, ref: string): Option<RefError> {
    match ParseLineRef(ref)
    case None => Some(BadReference(ref))
    case Some(r) => if InBounds(lines, r) then None else Some(OutOfBounds(r.line))
  }

  function FirstBroken(lines: seq<string>, refs: seq<string>): (e: Option<RefError>)
    ensures e.None? <==> forall ref :: ref in refs ==> Broken(lines, ref).None?
    ensures e.Some? ==> !e.value.Mismatched?
  {
    if refs == [] then None
    else if Broken(lines, refs[0]).Some? then Broken(lines, refs[0])
    else FirstBroken(lines, refs[1..])
  }

  function Target(ref: string): LineRef {
    match ParseLineRef(ref)
    case None => LineRef(0, "")
    case Some(r) => r
  }

  function StaleRefs(h: Hashes, lines: seq<string>, refs: seq<string>): seq<LineRef> {
    if refs == [] then []
    else
      var rest, last := refs[..|refs| - 1], refs[|refs| - 1];
      StaleRefs(h, lines, rest) + (if Fresh(h, lines, last) then [] else [Target(last)])
  }

  function Validation(h: Hashes, lines: seq<string>, refs: seq<string>): Result<(), RefError> {
    match FirstBroken(lines, refs)
    case Some(e) => Err(e)
    case None =>
      var stale := StaleRefs(h, lines, refs);
      if stale == [] then Ok(()) else Err(Mismatched(stale))
  }

  lemma {:induction false} FirstBrokenSnoc(lines: seq<string>, refs: seq<string>, i: nat)
    requires i < |refs| && forall k :: 0 <= k < i ==> Broken(lines, refs[k]).None?
    requires Broken(lines, refs[i]).Some?
    ensures FirstBroken(lines, refs) == Broken(lines, refs[i])
  {
    hide Broken;
    if i > 0 {
      FirstBrokenSnoc(lines, refs[1..], i - 1);
    }
  }

  /** `validateLineRefs`: stops at the first unusable reference, and otherwise collects every stale one. */
  method ValidateLineRefs(h: Hashes, lines: seq<string>, refs: seq<string>) returns (r: Result<(), RefError>)
    ensures r == Validation(h, lines, refs)
  {
    hide Broken, FirstBroken, ParseLineRef;
    var stale: seq<LineRef> := [];
    var i := 0;
    while i < |refs|
      invariant 0 <= i <= |refs|
      invariant forall k :: 0 <= k < i ==> Broken(lines, refs[k]).None?
      invariant stale == StaleRefs(h, lines, refs[..i])
    {
      var p := ParseLineRef(refs[i]);
      BrokenMeans(lines, refs[i]);
      if p.None? {
        FirstBrokenSnoc(lines, refs, i);
        return Err(BadReference(refs[i]));
      }
      if p.value.line < 1 || p.value.line > |lines| {
        FirstBrokenSnoc(lines, refs, i);
        return Err(OutOfBounds(p.value.line));
      }
      assert refs[..i + 1][..i] == refs[..i];
      if !Compatible(h, lines, p.value) { stale := stale + [p.value]; }
      i := i + 1;
    }
    assert refs[..i] == refs;
    return if stale == [] then Ok(()) else Err(Mismatched(stale));
  }

  lemma BrokenMeans(lines: seq<string>, ref: string)
    ensures var p := ParseLineRef(ref);
            Broken(lines, ref) == if p.None? then Some(BadReference(ref))
                                  else if InBounds(lines, p.value) then None
                                  else Some(OutOfBounds(p.value.line))
  {
  }

  lemma UsableRef(lines: seq<string>, ref: string)
    requires Broken(lines, ref).None?
    ensures InBounds(lines, Target(ref))
  {
    hide ParseLineRef;
  }

  lemma {:induction false} StaleRefsAre(h: Hashes, lines: seq<string>, refs: seq<string>)
    requires forall ref :: ref in refs ==> Broken(lines, ref).None?
    ensures forall ref :: ref in refs && !Fresh(h, lines, ref) ==> Target(ref) in StaleRefs(h, lines, refs)
    ensures forall r :: r in StaleRefs(h, lines, refs) ==> InBounds(lines, r)
  {
    hide Target, Broken, Fresh, InBounds;
    if refs != [] {
      var rest, last := refs[..|refs| - 1], refs[|refs| - 1];
      assert refs == rest + [last];
      assert forall ref :: ref in rest ==> ref in refs;
      StaleRefsAre(h, lines, rest);
      assert last in refs;
      UsableRef(lines, last);
    }
  }

  /** Validation succeeds exactly when every reference is fresh. */
  lemma {:induction false} ValidMeansFresh(h: Hashes, lines: seq<string>, refs: seq<string>)
    ensures Validation(h, lines, refs).Ok? <==> forall ref :: ref in refs ==> Fresh(h, lines, ref)
  {
    hide FirstBroken, StaleRefs, ParseLineRef;
    if FirstBroken(lines, refs).None? {
      StaleRefsAre(h, lines, refs);
      if forall ref :: ref in refs ==> Fresh(h, lines, ref) {
        NoStaleRefs(h, lines, refs);
      }
    } else {
      var ref :| ref in refs && Broken(lines, ref).Some?;
      assert !Fresh(h, lines, ref);
    }
  }

  lemma {:induction false} NoStaleRefs(h: Hashes, lines: seq<string>, refs: seq<string>)
    requires forall ref :: ref in refs ==> Fresh(h, lines, ref)
    ensures StaleRefs(h, lines, refs) == []
  {
    hide Fresh, Target;
    if refs != [] {
      var rest := refs[..|refs| - 1];
      assert forall ref :: ref in rest ==> ref in refs;
      NoStaleRefs(h, lines, rest);
    }
  }

  // ----- repair

  function CurrentRef(h: Hashes, lines: seq<string>, n: nat): string {
    FormatRef(n, h.current(n, if 1 <= n <= |lines| then lines[n - 1] else ""))
  }

  /** The `remaps` of a mismatch error. */
  function Remaps(h: Hashes, lines: seq<string>, stale: seq<LineRef>): map<string, string> {
    if stale == [] then map[]
    else
      var last := stale[|stale| - 1];
      Remaps(h, lines, stale[..|stale| - 1])[FormatRef(last.line, last.hash) := CurrentRef(h, lines, last.line)]
  }

  /** What a caller does with the remaps: swap every anchor the error has a remap for. */
  function Repair(remaps: map<string, string>, ref: string): string {
    match ParseLineRef(ref)
    case None => ref
    case Some(r) =>
      var key := FormatRef(r.line, r.hash);
      if key in remaps then remaps[key] else ref
  }

  function RepairAll(remaps: map<string, string>, refs: seq<string>): (r: seq<string>)
    ensures |r| == |refs| && forall i :: 0 <= i < |refs| ==> r[i] == Repair(remaps, refs[i])
  {
    seq(|refs|, i requires 0 <= i < |refs| => Repair(remaps, refs[i]))
  }

  ghost predicate PointsToLine(h: Hashes, lines: seq<string>, v: string) {
    exists n: nat :: 1 <= n <= |lines| && v == CurrentRef(h, lines, n)
  }

  lemma {:induction false} RemapsAre(h: Hashes, lines: seq<string>, stale: seq<LineRef>)
    requires forall r :: r in stale ==> InBounds(lines, r)
    ensures forall r :: r in stale ==> FormatRef(r.line, r.hash) in Remaps(h, lines, stale)
    ensures forall k :: k in Remaps(h, lines, stale) ==> PointsToLine(h, lines, Remaps(h, lines, stale)[k])
  {
    hide FormatRef, CurrentRef;
    if stale != [] {
      var rest, last := stale[..|stale| - 1], stale[|stale| - 1];
      assert stale == rest + [last];
      assert last in stale && InBounds(lines, last);
      RemapsAre(h, lines, rest);
      assert PointsToLine(h, lines, CurrentRef(h, lines, last.line));
    }
  }

  lemma HashOfLine(h: Hashes, n: nat, s: string)
    requires DictionaryHashes(h)
    ensures IsHash(h.current(n, s))
  {
  }

  lemma {:induction false} CurrentRefIsFresh(h: Hashes, lines: seq<string>, v: string)
    requires DictionaryHashes(h) && PointsToLine(h, lines, v)
    ensures Fresh(h, lines, v)
  {
    hide ParseLineRef, FormatRef, IsHash, DictionaryHashes;
    var n: nat :| 1 <= n <= |lines| && v == CurrentRef(h, lines, n);
    HashOfLine(h, n, lines[n - 1]);
    RefParses(n, h.current(n, lines[n - 1]));
  }

  /** A mismatch error is repairable: after swapping in its remaps the same validation succeeds. */
  lemma {:induction false} RepairedRefsAreFresh(h: Hashes, lines: seq<string>, refs: seq<string>)
    requires DictionaryHashes(h) && Validation(h, lines, refs).Err? && Validation(h, lines, refs).error.Mismatched?
    ensures Validation(h, lines, RepairAll(Remaps(h, lines, Validation(h, lines, refs).error.stale), refs)).Ok?
  {
    hide ParseLineRef, StaleRefs, FormatRef, Compatible, Remaps, PointsToLine, FirstBroken, Broken;
    assert FirstBroken(lines, refs).None?;
    var stale := StaleRefs(h, lines, refs);
    StaleRefsAre(h, lines, refs);
    RemapsAre(h, lines, stale);
    var remaps := Remaps(h, lines, stale);
    var fixed := RepairAll(remaps, refs);
    forall ref | ref in fixed ensures Fresh(h, lines, ref) {
      var i :| 0 <= i < |fixed| && fixed[i] == ref;
      assert refs[i] in refs;
      RepairOne(h, lines, refs[i], stale, remaps);
    }
    ValidMeansFresh(h, lines, fixed);
  }

  lemma {:induction false} RepairOne(h: Hashes, lines: seq<string>, ref: string, stale: seq<LineRef>,
                                     remaps: map<string, string>)
    requires DictionaryHashes(h) && Broken(lines, ref).None?
    requires !Fresh(h, lines, ref) ==> Target(ref) in stale
    requires forall r :: r in stale ==> FormatRef(r.line, r.hash) in remaps
    requires forall k :: k in remaps ==> PointsToLine(h, lines, remaps[k])
    ensures Fresh(h, lines, Repair(remaps, ref))
  {
    hide ParseLineRef, FormatRef, Compatible, PointsToLine;
    var r := Target(ref);
    var key := FormatRef(r.line, r.hash);
    if key in remaps {
      CurrentRefIsFresh(h, lines, remaps[key]);
    }
  }
}
