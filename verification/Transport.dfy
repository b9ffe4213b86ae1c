/** The mixed line / Content-Length reader of packages/mcp-stdio-core/src/transport.ts,
    and the writer it undoes.  UTF-8 decoding and JSON parsing are parameters. */
module Transport {
  import opened Text

  datatype Mode = Line | Framed

  datatype Message<+J> =
    | Request(payload: J, mode: Mode)
    | ParseError(message: string, mode: Mode)

  /** The two foreign functions of the reader: `toString("utf8")` and `JSON.parse`. */
  datatype Codec<+J> = Codec(decode: Bytes -> string, parseJson: string -> Result<J, string>)

  datatype ReadResult<+J> = Incomplete | Complete(message: Option<Message<J>>, remaining: Bytes)


  /** "content-length:" */
  const HEADER_NAME: seq<nat> := [99, 111, 110, 116, 101, 110, 116, 45, 108, 101, 110, 103, 116, 104, 58]
  const CRLF: Bytes := [13, 10]
  const HEADER_SEPARATOR: Bytes := [13, 10, 13, 10]

  const BAD_HEADER := "Missing or invalid Content-Length header"

  // ----- searching

  predicate MatchesAt(s: Bytes, pat: Bytes, i: nat) {
    i + |pat| <= |s| && s[i..i + |pat|] == pat
  }

  /** `buffer.indexOf(pat)`, with `|s|` for "not found". */
  function Find(s: Bytes, pat: Bytes, from: nat := 0): (i: nat)
    requires from <= |s| && pat != []
    ensures from <= i <= |s|
    ensures i < |s| ==> i + |pat| <= |s| && MatchesAt(s, pat, i)
    ensures forall k :: from <= k < i ==> !MatchesAt(s, pat, k)
    decreases |s| - from
  {
    if from == |s| || MatchesAt(s, pat, from) then from else Find(s, pat, from + 1)
  }

  lemma {:induction false} MatchStarts(s: Bytes, pat: Bytes, i: nat)
    requires pat != [] && i < |s| && MatchesAt(s, pat, i)
    ensures s[i] == pat[0]
  {
    assert s[i] == s[i..i + |pat|][0];
  }

  /** The first match is the only place a search can stop. */
  lemma {:induction false} FindIs(s: Bytes, pat: Bytes, i: nat)
    requires pat != [] && MatchesAt(s, pat, i) && forall k :: 0 <= k < i ==> !MatchesAt(s, pat, k)
    ensures Find(s, pat) == i
  {
    assert i < |s|;
  }

  /** Appending bytes does not move a match that was already found. */
  lemma {:induction false} FindStable(s: Bytes, pat: Bytes, x: Bytes)
    requires pat != [] && Find(s, pat) < |s|
    ensures Find(s + x, pat) == Find(s, pat)
  {
    var i := Find(s, pat);
    assert (s + x)[i..i + |pat|] == s[i..i + |pat|];
    forall k | 0 <= k < i ensures !MatchesAt(s + x, pat, k) {
      assert !MatchesAt(s, pat, k);
      assert (s + x)[k..k + |pat|] == s[k..k + |pat|];
    }
    FindIs(s + x, pat, i);
  }

  // ----- headers

  /** Node's "ascii" decoding keeps the low seven bits of every byte. */
  function Ascii(s: Bytes): (r: Bytes)
    ensures |r| == |s| && forall i :: 0 <= i < |s| ==> r[i] == s[i] % 128
  {
    seq(|s|, i requires 0 <= i < |s| => s[i] % 128)
  }

  function Lower(s: seq<nat>): (r: seq<nat>)
    ensures |r| == |s| && forall i :: 0 <= i < |s| ==> r[i] == if 65 <= s[i] <= 90 then s[i] + 32 else s[i]
  {
    seq(|s|, i requires 0 <= i < |s| => if 65 <= s[i] <= 90 then s[i] + 32 else s[i])
  }

  predicate StartsWithContentLength(b: Bytes) {
    Lower(Ascii(if |b| < 15 then b else b[..15])) == HEADER_NAME
  }

  predicate AsciiSpace(c: nat) {
    9 <= c <= 13 || c == 32
  }

  predicate AsciiDigits(s: seq<nat>) {
    s != [] && forall c :: c in s ==> 48 <= c <= 57
  }

  function SkipSpaces(s: seq<nat>): (r: seq<nat>)
    ensures r != [] ==> !AsciiSpace(r[0])
  {
    if s != [] && AsciiSpace(s[0]) then SkipSpaces(s[1..]) else s
  }

  function AsciiValue(s: seq<nat>): nat
    requires AsciiDigits(s)
  {
    ValueOf(Numerals(s))
  }

  function Numerals(s: seq<nat>): (r: Digits)
    requires AsciiDigits(s)
    ensures |r| == |s| && forall i :: 0 <= i < |s| ==> r[i] + 48 == s[i]
  {
    assert forall i :: 0 <= i < |s| ==> s[i] in s;
    seq(|s|, i requires 0 <= i < |s| && s[i] >= 48 => s[i] - 48)
  }

  /** `/^content-length:\s*(\d+)$/i` on one header line. */
  function MatchHeader(line: seq<nat>): Option<nat> {
    if |line| < 15 || Lower(line[..15]) != HEADER_NAME then None
    else
      var digits := SkipSpaces(line[15..]);
      if AsciiDigits(digits) then Some(AsciiValue(digits)) else None
  }

  /** The first line of the decoded header block that matches decides. */
  function ContentLengthIn(text: Bytes): Option<nat>
    decreases |text|
  {
    var i := Find(text, CRLF);
    var found := MatchHeader(text[..i]);
    if found.Some? || i == |text| then found else ContentLengthIn(text[i + 2..])
  }

  /** `parseContentLength` on the decoded header bytes. */
  function ParseContentLength(headers: Bytes): Option<nat> { ContentLengthIn(Ascii(headers)) }

  // ----- the reader

  function ParsePayload<J>(c: Codec<J>, text: string, mode: Mode): Message<J> {
    match c.parseJson(text)
    case Ok(payload) => Request(payload, mode)
    case Err(message) => ParseError(message, mode)
  }

  function StripCr(s: string): string {
    if s != [] && s[|s| - 1] == '\r' then s[..|s| - 1] else s
  }

  function ReadLineMessage<J>(c: Codec<J>, b: Bytes): ReadResult<J> {
    var i := IndexOf(b, LF);
    if i == |b| then Incomplete
    else
      var line := StripCr(c.decode(b[..i]));
      Complete(if Trim(line) == "" then None else Some(ParsePayload(c, line, Line)), b[i + 1..])
  }

  function ReadFramedMessage<J>(c: Codec<J>, b: Bytes): ReadResult<J> {
    var i := Find(b, HEADER_SEPARATOR);
    if i == |b| then Incomplete
    else
      var start := i + 4;
      match ParseContentLength(b[..i])
      case None => Complete(Some(ParseError(BAD_HEADER, Framed)), b[start..])
      case Some(n) =>
        if |b| < start + n then Incomplete
        else Complete(Some(ParsePayload(c, c.decode(b[start..start + n]), Framed)), b[start + n..])
  }

  function ReadNextMessage<J>(c: Codec<J>, b: Bytes): ReadResult<J> {
    if b == [] then Incomplete
    else if StartsWithContentLength(b) then ReadFramedMessage(c, b)
    else ReadLineMessage(c, b)
  }

  /** A completed read always consumes something. */
  lemma {:induction false} ReadShrinks<J>(c: Codec<J>, b: Bytes)
    ensures ReadNextMessage(c, b).Complete? ==> |ReadNextMessage(c, b).remaining| < |b|
  {
    hide StartsWithContentLength, ParsePayload, ParseContentLength, StripCr, Trim;
  }

  function Optional<T>(o: Option<T>): seq<T> {
    if o.Some? then [o.value] else []
  }

  /** All complete messages of a buffer, and what is left over. */
  function Drain<J>(c: Codec<J>, b: Bytes): (seq<Message<J>>, Bytes)
    decreases |b|
  {
    ReadShrinks(c, b);
    match ReadNextMessage(c, b)
    case Incomplete => ([], b)
    case Complete(message, remaining) =>
      var (later, rest) := Drain(c, remaining);
      (Optional(message) + later, rest)
  }

  function Trailing<J>(c: Codec<J>, rest: Bytes): seq<Message<J>> {
    var text := Trim(c.decode(rest));
    if text == "" then [] else [ParsePayload(c, text, Line)]
  }

  /** What a stream of bytes means, whatever its chunks were. */
  function Decode<J>(c: Codec<J>, stream: Bytes): seq<Message<J>> {
    var (messages, rest) := Drain(c, stream);
    messages + Trailing(c, rest)
  }

  // ----- chunk independence

  lemma {:induction false} PrefixWithLineFeed(b: Bytes, x: Bytes)
    requires LF in b && !StartsWithContentLength(b)
    ensures !StartsWithContentLength(b + x)
  {
    if |b| < 15 && |b + x| >= 15 {
      var i :| 0 <= i < |b| && b[i] == LF;
      assert (b + x)[..15][i] == LF;
      assert Lower(Ascii((b + x)[..15]))[i] == 10;
    } else if |b| >= 15 {
      assert (b + x)[..15] == b[..15];
    }
  }

  lemma {:induction false} PrefixIsStable(b: Bytes, x: Bytes)
    requires StartsWithContentLength(b)
    ensures StartsWithContentLength(b + x)
  {
    assert |b| >= 15;
    assert (b + x)[..15] == b[..15];
  }

  lemma {:induction false} LineReadIsStable<J>(c: Codec<J>, b: Bytes, x: Bytes)
    requires ReadLineMessage(c, b).Complete?
    ensures LF in b
    ensures ReadLineMessage(c, b + x) ==
            Complete(ReadLineMessage(c, b).message, ReadLineMessage(c, b).remaining + x)
  {
    hide StripCr, ParsePayload, Trim, IndexOf;
    var i := IndexOf(b, LF);
    assert b[i] == LF;
    LineEndStays(b, x);
    assert (b + x)[..i] == b[..i] && (b + x)[i + 1..] == b[i + 1..] + x;
  }

  lemma {:induction false} LineEndStays(b: Bytes, x: Bytes)
    requires IndexOf(b, LF) < |b|
    ensures IndexOf(b + x, LF) == IndexOf(b, LF)
  {
    hide IndexOf;
    var i := IndexOf(b, LF);
    assert (b + x)[i] == LF && forall k :: 0 <= k < i ==> (b + x)[k] == b[k];
  }

  /** A complete parse stays the same parse when more bytes arrive. */
  lemma {:induction false} ReadIsStable<J>(c: Codec<J>, b: Bytes, x: Bytes)
    ensures ReadNextMessage(c, b).Complete? ==>
              ReadNextMessage(c, b + x) == Complete(ReadNextMessage(c, b).message, ReadNextMessage(c, b).remaining + x)
  {
    hide ReadFramedMessage, ReadLineMessage, StartsWithContentLength;
    if ReadNextMessage(c, b).Incomplete? {
    } else if StartsWithContentLength(b) {
      PrefixIsStable(b, x);
      FramedReadIsStable(c, b, x);
    } else {
      LineReadIsStable(c, b, x);
      PrefixWithLineFeed(b, x);
    }
  }

  lemma {:induction false} FramedReadIsStable<J>(c: Codec<J>, b: Bytes, x: Bytes)
    requires ReadFramedMessage(c, b).Complete?
    ensures ReadFramedMessage(c, b + x) ==
            Complete(ReadFramedMessage(c, b).message, ReadFramedMessage(c, b).remaining + x)
  {
    hide ParseContentLength, ParsePayload, MatchesAt, Find;
    var i := Find(b, HEADER_SEPARATOR);
    FindStable(b, HEADER_SEPARATOR, x);
    assert (b + x)[..i] == b[..i];
    assert (b + x)[i + 4..] == b[i + 4..] + x;
    match ParseContentLength(b[..i])
    case None =>
    case Some(n) =>
      var start := i + 4;
      assert (b + x)[start..start + n] == b[start..start + n];
      assert (b + x)[start + n..] == b[start + n..] + x;
  }

  lemma {:induction false} DrainEmpty<J>(c: Codec<J>)
    ensures Drain(c, []) == ([], [])
  {
  }

  lemma {:induction false} DrainUnfold<J>(c: Codec<J>, b: Bytes)
    ensures var r := ReadNextMessage(c, b);
            if r.Incomplete? then Drain(c, b) == ([], b)
            else Drain(c, b) == (Optional(r.message) + Drain(c, r.remaining).0, Drain(c, r.remaining).1)
  {
    hide ReadNextMessage;
  }

  lemma {:induction false} DrainAppend<J>(c: Codec<J>, a: Bytes, x: Bytes)
    ensures Drain(c, a + x).0 == Drain(c, a).0 + Drain(c, Drain(c, a).1 + x).0
    ensures Drain(c, a + x).1 == Drain(c, Drain(c, a).1 + x).1
    decreases |a|
  {
    hide ReadNextMessage, Drain;
    var r := ReadNextMessage(c, a);
    DrainUnfold(c, a);
    if r.Complete? {
      ReadShrinks(c, a);
      ReadIsStable(c, a, x);
      DrainUnfold(c, a + x);
      DrainAppend(c, r.remaining, x);
    }
  }

  /** The generator: it appends each chunk and drains the buffer before taking the next.
      Its output depends on the concatenation of the chunks only. */
  method ReadStdioMessages<J>(c: Codec<J>, chunks: seq<Bytes>) returns (out: seq<Message<J>>)
    ensures out == Decode(c, Flatten(chunks))
  {
    hide ReadNextMessage, Drain, Trailing, Flatten;
    out := [];
    var buffer: Bytes := [];
    var i := 0;
    DrainEmpty(c);
    FlattenNone(chunks);
    while i < |chunks|
      invariant 0 <= i <= |chunks|
      invariant Drain(c, Flatten(chunks[..i])) == (out, buffer)
    {
      DrainAppend(c, Flatten(chunks[..i]), chunks[i]);
      FlattenSnoc(chunks, i);
      ghost var all := Drain(c, Flatten(chunks[..i + 1]));
      buffer := buffer + chunks[i];
      while true
        invariant all.0 == out + Drain(c, buffer).0
        invariant all.1 == Drain(c, buffer).1
        decreases |buffer|
      {
        var result := ReadNextMessage(c, buffer);
        DrainUnfold(c, buffer);
        if result.Incomplete? { break; }
        ReadShrinks(c, buffer);
        buffer := result.remaining;
        assert all.0 == (out + Optional(result.message)) + Drain(c, buffer).0;
        if result.message.Some? { out := out + [result.message.value]; } else { assert out + [] == out; }
      }
      assert out + [] == out;
      i := i + 1;
    }
    assert chunks[..i] == chunks;
    out := out + Trailing(c, buffer);
  }

  // ----- reading undoes writing

  datatype Item = Item(body: Bytes, mode: Mode)

  function AsciiDigitsOf(n: nat): (r: Bytes)
    ensures |r| == |DigitsOf(n)| && forall i :: 0 <= i < |r| ==> r[i] == DigitsOf(n)[i] + 48
  {
    seq(|DigitsOf(n)|, i requires 0 <= i < |DigitsOf(n)| => DigitsOf(n)[i] + 48)
  }

  /** "Content-Length: " */
  const WRITTEN_NAME: Bytes := [67, 111, 110, 116, 101, 110, 116, 45, 76, 101, 110, 103, 116, 104, 58, 32]

  /** The payload layout of `writeStdioJsonRpcResponse`. */
  function WriteMessage(item: Item): Bytes {
    match item.mode
    case Framed => WRITTEN_NAME + AsciiDigitsOf(|item.body|) + HEADER_SEPARATOR + item.body
    case Line => item.body + [LF]
  }

  /** Any framed body is readable; a line body must be one non-blank line that is no header. */
  predicate Writable<J>(c: Codec<J>, item: Item) {
    item.mode.Framed? ||
    (&& LF !in item.body
     && !StartsWithContentLength(item.body)
     && StripCr(c.decode(item.body)) == c.decode(item.body)
     && Trim(c.decode(item.body)) != "")
  }

  function Meaning<J>(c: Codec<J>, item: Item): Message<J> {
    ParsePayload(c, c.decode(item.body), item.mode)
  }

  lemma {:induction false} HeaderName(h: Bytes)
    requires |h| >= 16 && h[..16] == WRITTEN_NAME
    ensures Lower(Ascii(h[..15])) == HEADER_NAME && Lower(Ascii(h)[..15]) == HEADER_NAME && Ascii(h)[15] == 32
    ensures StartsWithContentLength(h)
  {
    assert forall k :: 0 <= k < 16 ==> h[k] == h[..16][k] == WRITTEN_NAME[k];
  }

  lemma {:induction false} HeaderTail(h: Bytes, digits: Bytes)
    requires h == WRITTEN_NAME + digits
    ensures Ascii(h)[15..] == [32] + Ascii(digits)
  {
    assert h[15] == 32 && forall k :: 16 <= k < |h| ==> h[k] == digits[k - 16];
  }

  lemma {:induction false} DigitBytes(n: nat)
    ensures var tail := Ascii(AsciiDigitsOf(n));
            AsciiDigits(tail) && Numerals(tail) == DigitsOf(n)
  {
    hide DigitsOf;
    var ds, tail := DigitsOf(n), Ascii(AsciiDigitsOf(n));
    forall i | 0 <= i < |tail| ensures 48 <= tail[i] <= 57 && tail[i] == ds[i] + 48 { assert ds[i] in ds; }
    assert Numerals(tail) == ds;
  }

  lemma {:induction false} OneSpaceSkipped(tail: seq<nat>)
    requires AsciiDigits(tail)
    ensures SkipSpaces([32] + tail) == tail
  {
    assert tail[0] in tail;
    assert tail == SkipSpaces(tail);
    assert ([32] + tail)[1..] == tail;
  }

  lemma {:induction false} HeaderDigits(n: nat)
    ensures var tail := Ascii(AsciiDigitsOf(n));
            AsciiDigits(tail) && SkipSpaces([32] + tail) == tail && AsciiValue(tail) == n
  {
    hide ValueOf, DigitsOf, SkipSpaces, AsciiDigits;
    DigitBytes(n);
    OneSpaceSkipped(Ascii(AsciiDigitsOf(n)));
    ValueOfDigits(n);
  }

  lemma {:induction false} HeaderHasNoCr(n: nat)
    ensures CR !in WRITTEN_NAME + AsciiDigitsOf(n)
  {
    var digits := AsciiDigitsOf(n);
    assert CR !in WRITTEN_NAME;
  }

  lemma {:induction false} NoCrNoMatch(h: Bytes, pat: Bytes, k: nat)
    requires CR !in h && pat != [] && pat[0] == CR && k < |h|
    ensures forall x: Bytes {:trigger h + x} :: !MatchesAt(h + x, pat, k)
  {
    forall x: Bytes ensures !MatchesAt(h + x, pat, k) {
      assert (h + x)[k] == h[k];
    }
  }

  lemma {:induction false} OneHeaderLine(h: Bytes)
    requires CR !in Ascii(h)
    ensures ParseContentLength(h) == MatchHeader(Ascii(h))
  {
    hide MatchHeader, MatchesAt;
    var text := Ascii(h);
    var i := Find(text, CRLF);
    if i < |text| { MatchStarts(text, CRLF, i); assert false; }
    assert text[..i] == text;
  }

  lemma {:induction false} AsciiStays(h: Bytes)
    requires forall b :: b in h ==> b < 128
    ensures Ascii(h) == h
  {
    assert forall i :: 0 <= i < |h| ==> h[i] in h;
  }

  /** The bytes 8D 8A decode to CR LF, so they end a header line, too. */
  lemma {:induction false} HighBitsBreakLines(a: Bytes, b: Bytes)
    ensures ParseContentLength(a + [0x8D, 0x8A] + b) == ParseContentLength(a + CRLF + b)
  {
    assert Ascii(a + [0x8D, 0x8A] + b) == Ascii(a + CRLF + b);
  }

  lemma {:induction false} HeaderParses(n: nat)
    ensures ParseContentLength(WRITTEN_NAME + AsciiDigitsOf(n)) == Some(n)
  {
    hide AsciiDigits, AsciiValue, SkipSpaces, ParseContentLength, AsciiDigitsOf;
    var digits := AsciiDigitsOf(n);
    var h := WRITTEN_NAME + digits;
    HeaderHasNoCr(n);
    OneHeaderLine(h);
    HeaderName(h);
    HeaderTail(h, digits);
    HeaderDigits(n);
  }

  /** Reading what was just written gives that message back and leaves the rest alone. */
  lemma {:induction false} ReadUndoesWrite<J>(c: Codec<J>, item: Item, rest: Bytes)
    requires Writable(c, item)
    ensures ReadNextMessage(c, WriteMessage(item) + rest) == Complete(Some(Meaning(c, item)), rest)
  {
    if item.mode.Framed? {
      ReadUndoesFrame(c, item, rest);
    } else {
      ReadUndoesLine(c, item, rest);
    }
  }

  lemma {:induction false} LineIsNoHeader(body: Bytes, rest: Bytes)
    requires LF !in body && !StartsWithContentLength(body)
    ensures !StartsWithContentLength(body + [LF] + rest)
  {
    var n, b := |body|, body + [LF] + rest;
    assert b[n] == LF;
    if |b| >= 15 {
      if n >= 15 {
        assert b[..15] == body[..15];
      } else {
        assert Lower(Ascii(b[..15]))[n] == 10;
      }
    }
  }

  lemma {:induction false} ReadUndoesLine<J>(c: Codec<J>, item: Item, rest: Bytes)
    requires Writable(c, item) && item.mode.Line?
    ensures ReadNextMessage(c, WriteMessage(item) + rest) == Complete(Some(Meaning(c, item)), rest)
  {
    hide StartsWithContentLength, StripCr, Trim, ParsePayload;
    var n, b := |item.body|, WriteMessage(item) + rest;
    assert b == item.body + [LF] + rest;
    assert b[n] == LF && forall k :: 0 <= k < n ==> b[k] == item.body[k];
    assert IndexOf(b, LF) == n;
    assert b[..n] == item.body && b[n + 1..] == rest;
    LineIsNoHeader(item.body, rest);
  }

  lemma {:induction false} FrameReads<J>(c: Codec<J>, h: Bytes, body: Bytes, rest: Bytes)
    requires CR !in h && ParseContentLength(h) == Some(|body|)
    ensures ReadFramedMessage(c, h + (HEADER_SEPARATOR + (body + rest)))
         == Complete(Some(ParsePayload(c, c.decode(body), Framed)), rest)
  {
    hide ParsePayload, ParseContentLength, MatchesAt, Find;
    var i, n := |h|, |body|;
    var b := h + (HEADER_SEPARATOR + (body + rest));
    SeparatorFound(h, body + rest);
    assert b[..i] == h;
    assert b[i + 4..i + 4 + n] == body;
    assert b[i + 4 + n..] == rest;
  }

  lemma {:induction false} ReadUndoesFrame<J>(c: Codec<J>, item: Item, rest: Bytes)
    requires item.mode.Framed?
    ensures ReadNextMessage(c, WriteMessage(item) + rest) == Complete(Some(Meaning(c, item)), rest)
  {
    hide StartsWithContentLength, ParsePayload, ParseContentLength, AsciiDigitsOf, ReadFramedMessage;
    var n := |item.body|;
    var h := WRITTEN_NAME + AsciiDigitsOf(n);
    var after := HEADER_SEPARATOR + (item.body + rest);
    assert WriteMessage(item) + rest == h + after;
    HeaderName(h);
    PrefixIsStable(h, after);
    HeaderHasNoCr(n);
    HeaderParses(n);
    FrameReads(c, h, item.body, rest);
  }

  lemma {:induction false} SeparatorFound(h: Bytes, body: Bytes)
    requires CR !in h
    ensures Find(h + (HEADER_SEPARATOR + body), HEADER_SEPARATOR) == |h|
  {
    var b := h + (HEADER_SEPARATOR + body);
    assert b[|h|..|h| + 4] == HEADER_SEPARATOR;
    forall k | 0 <= k < |h| ensures !MatchesAt(b, HEADER_SEPARATOR, k) {
      NoCrNoMatch(h, HEADER_SEPARATOR, k);
    }
    FindIs(b, HEADER_SEPARATOR, |h|);
  }

  function WriteAll(items: seq<Item>): Bytes {
    if items == [] then [] else WriteMessage(items[0]) + WriteAll(items[1..])
  }

  function Meanings<J>(c: Codec<J>, items: seq<Item>): (r: seq<Message<J>>)
    ensures |r| == |items| && forall i :: 0 <= i < |items| ==> r[i] == Meaning(c, items[i])
  {
    seq(|items|, i requires 0 <= i < |items| => Meaning(c, items[i]))
  }

  lemma {:induction false} DrainUndoesWriteAll<J>(c: Codec<J>, items: seq<Item>)
    requires forall item :: item in items ==> Writable(c, item)
    ensures Drain(c, WriteAll(items)) == (Meanings(c, items), [])
  {
    hide ReadNextMessage, Writable, Meaning, WriteMessage;
    DrainEmpty(c);
    if items != [] {
      ReadUndoesWrite(c, items[0], WriteAll(items[1..]));
      DrainUndoesWriteAll(c, items[1..]);
      assert Meanings(c, items) == [Meaning(c, items[0])] + Meanings(c, items[1..]);
    }
  }

  /** Mixed-mode round trip under every split: however the written bytes are cut into chunks,
      the reader's output is the list of written messages with their modes. */
  lemma {:induction false} RoundTrip<J>(c: Codec<J>, items: seq<Item>, chunks: seq<Bytes>)
    requires forall item :: item in items ==> Writable(c, item)
    requires Flatten(chunks) == WriteAll(items) && c.decode([]) == ""
    ensures Decode(c, Flatten(chunks)) == Meanings(c, items)
  {
    DrainUndoesWriteAll(c, items);
  }

  // ----- what is not a message

  /** A blank line, with or without CR, is skipped without a message. */
  lemma {:induction false} BlankLineIsSkipped<J>(c: Codec<J>, blank: Bytes, rest: Bytes)
    requires LF !in blank && !StartsWithContentLength(blank) && Trim(StripCr(c.decode(blank))) == ""
    ensures Drain(c, blank + [LF] + rest) == Drain(c, rest)
  {
    hide StartsWithContentLength, StripCr, Trim, ParsePayload, Drain;
    var n, b := |blank|, blank + [LF] + rest;
    assert b[n] == LF && forall k :: 0 <= k < n ==> b[k] == blank[k];
    assert IndexOf(b, LF) == n;
    assert b[..n] == blank && b[n + 1..] == rest;
    LineIsNoHeader(blank, rest);
    DrainUnfold(c, b);
    assert [] + Drain(c, rest).0 == Drain(c, rest).0;
  }

  /** A header block, of any number of lines, without a usable length costs one framed parse error, and
      reading resumes behind the first separator. */
  lemma {:induction false} BadHeaderIsReported<J>(c: Codec<J>, h: Bytes, rest: Bytes)
    requires Find(h + HEADER_SEPARATOR, HEADER_SEPARATOR) == |h|
    requires StartsWithContentLength(h) && ParseContentLength(h).None?
    ensures ReadNextMessage(c, h + (HEADER_SEPARATOR + rest)) == Complete(Some(ParseError(BAD_HEADER, Framed)), rest)
  {
    hide StartsWithContentLength, ParseContentLength, MatchesAt, Find;
    var b := h + (HEADER_SEPARATOR + rest);
    PrefixIsStable(h, HEADER_SEPARATOR + rest);
    FindStable(h + HEADER_SEPARATOR, HEADER_SEPARATOR, rest);
    assert h + HEADER_SEPARATOR + rest == b;
    assert b[..|h|] == h && b[|h| + 4..] == rest;
  }
}
