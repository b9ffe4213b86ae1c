/** Streaming hash-line output: the chunk formatter (packages/hashline-core/src/hashline-chunk-formatter.ts)
    and the line splitter on top of it (`streamHashLinesFromUtf8`, on decoded text chunks). */
module Stream {
  import opened Text
  import opened Anchors
  import opened EditText
  import Utf8

  // ----- sizes

  /** `Buffer.byteLength(s, "utf-8")`. */
  function ByteLength(s: string): nat { |Utf8.Encode(s)| }

  lemma {:induction false} ByteLengthAdds(a: string, b: string)
    ensures ByteLength(a + b) == ByteLength(a) + ByteLength(b)
  {
    hide Utf8.Encode;
    Utf8.EncodeAppend(a, b);
  }

  lemma {:induction false} JoinedBytes(lines: seq<string>, line: string)
    requires lines != []
    ensures ByteLength(Join(lines + [line], '\n')) == ByteLength(Join(lines, '\n')) + 1 + ByteLength(line)
  {
    hide ByteLength, Join;
    JoinAppend(lines, [line], '\n');
    JoinOne(line, '\n');
    ByteLengthAdds(Join(lines, '\n') + ['\n'], line);
    ByteLengthAdds(Join(lines, '\n'), ['\n']);
    NewlineBytes();
  }

  lemma NothingBytes()
    ensures ByteLength(Join([], '\n')) == 0
  {
  }

  lemma NewlineBytes()
    ensures ByteLength(['\n']) == 1
  {
    assert "\n"[..0] == "";
    assert Utf8.Encode("\n"[..0]) == [];
  }

  function JoinAll(groups: seq<seq<string>>): (r: seq<string>)
    ensures |r| == |groups| && forall i :: 0 <= i < |groups| ==> r[i] == Join(groups[i], '\n')
  {
    seq(|groups|, i requires 0 <= i < |groups| => Join(groups[i], '\n'))
  }

  /** Within both limits, or a single line. */
  predicate Fits(group: seq<string>, maxLines: int, maxBytes: int) {
    && 1 <= |group| <= (if maxLines < 1 then 1 else maxLines)
    && (|group| == 1 || ByteLength(Join(group, '\n')) <= maxBytes)
  }

  ghost predicate AllFit(groups: seq<seq<string>>, maxLines: int, maxBytes: int) {
    forall i :: 0 <= i < |groups| ==> Fits(groups[i], maxLines, maxBytes)
  }

  lemma {:induction false} JoinIsNotEmpty(lines: seq<string>)
    requires lines != [] && lines[0] != ""
    ensures Join(lines, '\n') != ""
  {
  }

  // ----- the chunk formatter

  class ChunkFormatter {
    const maxChunkLines: int
    const maxChunkBytes: int
    var outputLines: seq<string>
    var outputBytes: nat

    ghost predicate Valid()
      reads this
    {
      && outputBytes == ByteLength(Join(outputLines, '\n'))
      && (forall i :: 0 <= i < |outputLines| ==> outputLines[i] != "")
      && (outputLines != [] ==> |outputLines| < maxChunkLines && outputBytes < maxChunkBytes)
    }

    constructor (maxChunkLines: int, maxChunkBytes: int)
      ensures Valid() && outputLines == []
      ensures this.maxChunkLines == maxChunkLines && this.maxChunkBytes == maxChunkBytes
    {
      this.maxChunkLines := maxChunkLines;
      this.maxChunkBytes := maxChunkBytes;
      outputLines := [];
      outputBytes := 0;
    }

    /** Hands over what is buffered. */
    method Flush() returns (chunk: Option<string>)
      requires forall i :: 0 <= i < |outputLines| ==> outputLines[i] != ""
      modifies this
      ensures Valid() && outputLines == []
      ensures chunk == if old(outputLines) == [] then None else Some(Join(old(outputLines), '\n'))
    {
      if |outputLines| == 0 {
        outputBytes := 0;
        return None;
      }
      chunk := Some(Join(outputLines, '\n'));
      outputLines := [];
      outputBytes := 0;
    }

    /** Adds one line; every chunk handed out is a run of buffered lines that fits. */
    method Push(line: string) returns (chunks: seq<string>, ghost groups: seq<seq<string>>)
      requires Valid() && line != ""
      modifies this
      ensures Valid()
      ensures chunks == JoinAll(groups) && AllFit(groups, maxChunkLines, maxChunkBytes)
      ensures Flatten(groups) + outputLines == old(outputLines) + [line]
      ensures forall i :: 0 <= i < |chunks| ==> chunks[i] != ""
    {
      hide ByteLength, Join;
      NothingBytes();
      chunks, groups := [], [];
      var lineBytes := ByteLength(line);
      var separatorBytes := if |outputLines| == 0 then 0 else 1;
      if |outputLines| > 0
         && (|outputLines| >= maxChunkLines || outputBytes + separatorBytes + lineBytes > maxChunkBytes) {
        ghost var full := outputLines;
        JoinIsNotEmpty(outputLines);
        var flushed := Flush();
        if flushed.Some? && flushed.value != "" { chunks := chunks + [flushed.value]; }
        groups := [full];
        FlattenOne(full);
      }
      if outputLines == [] {
        JoinOne(line, '\n');
        assert [] + [line] == [line];
      } else {
        JoinedBytes(outputLines, line);
      }
      outputLines := outputLines + [line];
      outputBytes := outputBytes + (if |outputLines| == 1 then 0 else 1) + lineBytes;
      if |outputLines| >= maxChunkLines || outputBytes >= maxChunkBytes {
        ghost var full := outputLines;
        JoinIsNotEmpty(outputLines);
        var flushed := Flush();
        if flushed.Some? && flushed.value != "" { chunks := chunks + [flushed.value]; }
        FlattenAppend(groups, [full]);
        FlattenOne(full);
        groups := groups + [full];
      }
    }
  }

  // ----- the text stream

  /** The stream's state after some text: which lines went out, and what is still pending. */
  class HashlineStream {
    const hashes: Hashes
    const startLine: nat
    const formatter: ChunkFormatter
    var lineNumber: nat
    var pending: string
    var sawAnyText: bool
    var endedWithNewline: bool

    ghost var text: string               // everything consumed so far
    ghost var pushed: seq<string>        // lines given to the formatter
    ghost var groups: seq<seq<string>>   // the lines of every chunk handed out

    ghost predicate Linked()
      reads this`lineNumber, this`pushed, this`groups, formatter
    {
      && formatter.Valid()
      && lineNumber == startLine + |pushed|
      && Flatten(groups) + formatter.outputLines == FormatLines(hashes, startLine, pushed)
      && AllFit(groups, formatter.maxChunkLines, formatter.maxChunkBytes)
      && (forall i :: 0 <= i < |groups| ==> Join(groups[i], '\n') != "")
    }

    ghost predicate Valid()
      reads this, formatter
    {
      && Linked()
      && Split(text, '\n') == pushed + [pending] && '\n' !in pending
      && (sawAnyText <==> text != "")
      && (text != "" ==> (endedWithNewline <==> pending == ""))
    }

    constructor (hashes: Hashes, startLine: nat, maxChunkLines: int, maxChunkBytes: int)
      ensures Valid() && fresh(formatter) && text == "" && groups == []
      ensures this.hashes == hashes && this.startLine == startLine
      ensures formatter.maxChunkLines == maxChunkLines && formatter.maxChunkBytes == maxChunkBytes
    {
      this.hashes, this.startLine, lineNumber := hashes, startLine, startLine;
      pending, sawAnyText, endedWithNewline := "", false, false;
      text, pushed, groups := "", [], [];
      formatter := new ChunkFormatter(maxChunkLines, maxChunkBytes);
      new;
      SplitWithout("", '\n');
    }

    method PushLine(line: string) returns (chunks: seq<string>)
      requires Linked()
      modifies this`lineNumber, this`pushed, this`groups, formatter
      ensures Linked() && pushed == old(pushed) + [line]
      ensures old(groups) <= groups && chunks == JoinAll(groups[|old(groups)|..])
    {
      hide Fits, Join, FormatHashLine, ByteLength, Flatten;
      var formatted := FormatHashLine(hashes, lineNumber, line);
      FormattedIsNotEmpty(hashes, lineNumber, line);
      ghost var more;
      chunks, more := formatter.Push(formatted);
      lineNumber := lineNumber + 1;
      FormatSnoc(hashes, startLine, pushed, line);
      FlattenAppend(groups, more);
      assert Flatten(groups + more) + formatter.outputLines
          == Flatten(groups) + (Flatten(more) + formatter.outputLines)
          == (Flatten(groups) + old(formatter.outputLines)) + [formatted];
      pushed := pushed + [line];
      assert forall i :: 0 <= i < |more| ==>
               Join(more[i], '\n') == chunks[i] && Fits(more[i], formatter.maxChunkLines, formatter.maxChunkBytes);
      groups := groups + more;
      assert groups[|old(groups)|..] == more;
    }

    /** `consumeText`: pushes every line the new text completes. */
    method ConsumeText(more: string) returns (chunks: seq<string>)
      requires Valid()
      modifies this, formatter
      ensures Valid() && text == old(text) + more
      ensures old(groups) <= groups && chunks == JoinAll(groups[|old(groups)|..])
    {
      hide Linked, Split, IndexOf, JoinAll;
      chunks := [];
      NoChunks();
      if |more| == 0 {
        assert old(text) + more == old(text);
        assert groups[|old(groups)|..] == [];
        return;
      }
      sawAnyText := true;
      pending := pending + more;
      SplitContinues(text, pushed, old(pending), more, '\n');
      text := text + more;
      assert pending[0..] == pending && groups[|old(groups)|..] == [];
      var lastIdx := 0;
      while true
        invariant 0 <= lastIdx <= |pending|
        invariant Linked() && pending == old(pending) + more && text == old(text) + more && sawAnyText
        invariant Split(text, '\n') == pushed + Split(pending[lastIdx..], '\n')
        invariant lastIdx > 0 ==> endedWithNewline
        invariant lastIdx == 0 ==> pending[lastIdx..] == pending
        invariant old(groups) <= groups && chunks == JoinAll(groups[|old(groups)|..])
        decreases |pending| - lastIdx
      {
        SplitFrom(pending, lastIdx);
        var idx := IndexOf(pending, '\n', lastIdx);
        if idx == |pending| { break; }
        var line := pending[lastIdx..idx];
        lastIdx := idx + 1;
        endedWithNewline := true;
        ghost var had, sent, rest := groups, pushed, Split(pending[lastIdx..], '\n');
        assert Split(text, '\n') == (sent + [line]) + rest by {
          assert sent + ([line] + rest) == (sent + [line]) + rest;
        }
        var out := PushLine(line);
        JoinAllAppend(groups, |old(groups)|, |had|);
        assert groups[|old(groups)|..|had|] == had[|old(groups)|..];
        chunks := chunks + out;
      }
      pending := pending[lastIdx..];
      if |pending| > 0 { endedWithNewline := false; }
    }

    /** The end of the stream: the last line, then whatever is buffered. */
    method Finish() returns (chunks: seq<string>)
      requires Valid()
      modifies this, formatter
      ensures Flatten(groups) == FormatLines(hashes, startLine, LinesOf(old(text)))
      ensures AllFit(groups, formatter.maxChunkLines, formatter.maxChunkBytes)
      ensures old(groups) <= groups && chunks == JoinAll(groups[|old(groups)|..])
    {
      hide Split, Fits, Join;
      chunks := [];
      assert groups[|old(groups)|..] == [];
      ghost var all := LinesOf(text);
      if sawAnyText && (|pending| > 0 || endedWithNewline) {
        chunks := PushLine(pending);
      } else {
        NothingConsumed(pushed, pending);
      }
      assert pushed == all;
      ghost var had := groups;
      ghost var left := formatter.outputLines;
      var last := formatter.Flush();
      if last.Some? {
        FlattenAppend(groups, [left]);
        FlattenOne(left);
        FitsInBuffer(left, formatter.maxChunkLines, formatter.maxChunkBytes);
        groups := groups + [left];
        assert groups[|had|..] == [left];
        JoinAllAppend(groups, |old(groups)|, |had|);
        JoinIsNotEmpty(left);
        if last.value != "" { chunks := chunks + [last.value]; }
      }
    }
  }

  lemma NoChunks()
    ensures JoinAll([]) == []
  {
  }

  lemma FitsInBuffer(lines: seq<string>, maxLines: int, maxBytes: int)
    requires lines != [] && |lines| < maxLines && ByteLength(Join(lines, '\n')) < maxBytes
    ensures Fits(lines, maxLines, maxBytes)
  {
  }

  lemma NothingConsumed(pushed: seq<string>, pending: string)
    requires Split("", '\n') == pushed + [pending]
    ensures pushed == []
  {
    SplitWithout("", '\n');
    assert |pushed + [pending]| == 1;
  }

  lemma {:induction false} FormattedIsNotEmpty(h: Hashes, n: nat, content: string)
    ensures FormatHashLine(h, n, content) != ""
  {
    hide Numeral;
  }

  lemma {:induction false} FormatSnoc(h: Hashes, start: nat, lines: seq<string>, line: string)
    ensures FormatLines(h, start, lines + [line])
         == FormatLines(h, start, lines) + [FormatHashLine(h, start + |lines|, line)]
  {
    hide FormatHashLine;
  }

  lemma {:induction false} JoinAllAppend(groups: seq<seq<string>>, a: nat, b: nat)
    requires a <= b <= |groups|
    ensures JoinAll(groups[a..]) == JoinAll(groups[a..b]) + JoinAll(groups[b..])
  {
    hide Join;
    assert groups[a..] == groups[a..b] + groups[b..];
  }

  /** The next line of `s` from `from` on. */
  lemma {:induction false} SplitFrom(s: string, from: nat)
    requires from <= |s|
    ensures var i := IndexOf(s, '\n', from);
            if i == |s| then Split(s[from..], '\n') == [s[from..]] && '\n' !in s[from..]
            else Split(s[from..], '\n') == [s[from..i]] + Split(s[i + 1..], '\n')
  {
    hide IndexOf, Split;
    var i := IndexOf(s, '\n', from);
    var t := s[from..];
    if i == |s| {
      SplitWithout(t, '\n');
    } else {
      SplitFirst(s[from..i], s[i + 1..], '\n');
      assert t == s[from..i] + ['\n'] + s[i + 1..];
    }
  }

  lemma {:induction false} JoinOfJoins(groups: seq<seq<string>>)
    requires forall i :: 0 <= i < |groups| ==> groups[i] != []
    ensures Join(JoinAll(groups), '\n') == Join(Flatten(groups), '\n')
    ensures groups != [] ==> Flatten(groups) != []
  {
    if groups == [] {
      assert JoinAll(groups) == [];
    } else {
      hide Join, Flatten;
      var first, rest := groups[0], groups[1..];
      FlattenCons(groups);
      if rest == [] {
        assert JoinAll(groups) == [Join(first, '\n')];
        JoinOne(Join(first, '\n'), '\n');
        FlattenNothing(rest);
        assert first + [] == first;
      } else {
        JoinOfJoins(rest);
        assert JoinAll(groups) == [Join(first, '\n')] + JoinAll(rest);
        JoinCons(Join(first, '\n'), JoinAll(rest), '\n');
        JoinAppend(first, Flatten(rest), '\n');
      }
    }
  }

  lemma FlattenNothing(groups: seq<seq<string>>)
    requires groups == []
    ensures Flatten(groups) == []
  {
  }

  lemma FlattenCons(groups: seq<seq<string>>)
    requires groups != []
    ensures Flatten(groups) == groups[0] + Flatten(groups[1..])
  {
  }

  /** `streamHashLinesFromUtf8` on any split of a text into chunks: the pieces joined by newlines are
      the batch listing of the whole text, and every piece is a run of listed lines within the limits. */
  method StreamHashLines(h: Hashes, chunks: seq<string>, startLine: nat, maxChunkLines: int, maxChunkBytes: int)
    returns (pieces: seq<string>, ghost groups: seq<seq<string>>)
    ensures Join(pieces, '\n') == Join(FormatLines(h, startLine, LinesOf(Flatten(chunks))), '\n')
    ensures pieces == JoinAll(groups) && AllFit(groups, maxChunkLines, maxChunkBytes)
    ensures Flatten(groups) == FormatLines(h, startLine, LinesOf(Flatten(chunks)))
  {
    hide Join, Fits, Flatten;
    var stream := new HashlineStream(h, startLine, maxChunkLines, maxChunkBytes);
    pieces := [];
    assert stream.groups[0..] == [];
    FlattenNone(chunks);
    var i := 0;
    while i < |chunks|
      invariant 0 <= i <= |chunks| && fresh(stream) && fresh(stream.formatter)
      invariant stream.Valid() && stream.text == Flatten(chunks[..i]) && pieces == JoinAll(stream.groups)
    {
      ghost var had := stream.groups;
      FlattenSnoc(chunks, i);
      var out := stream.ConsumeText(chunks[i]);
      JoinAllAppend(stream.groups, 0, |had|);
      assert stream.groups[0..] == stream.groups && stream.groups[0..|had|] == had;
      pieces := pieces + out;
      i := i + 1;
    }
    assert chunks[..i] == chunks;
    ghost var had := stream.groups;
    var out := stream.Finish();
    JoinAllAppend(stream.groups, 0, |had|);
    assert stream.groups[0..] == stream.groups && stream.groups[0..|had|] == had;
    pieces := pieces + out;
    groups := stream.groups;
    forall k | 0 <= k < |groups| ensures groups[k] != [] { FitsIsNotEmpty(groups[k], maxChunkLines, maxChunkBytes); }
    JoinOfJoins(groups);
  }

  lemma FitsIsNotEmpty(group: seq<string>, maxLines: int, maxBytes: int)
    requires Fits(group, maxLines, maxBytes)
    ensures group != []
  {
  }

  /** With numbering from 1 the batch listing is `formatHashLines`. */
  lemma {:induction false} BatchListing(h: Hashes, text: string)
    ensures Join(FormatLines(h, 1, LinesOf(text)), '\n') == FormatHashLines(h, text)
  {
    if text == "" { assert FormatLines(h, 1, []) == []; }
  }
}
