/** Line endings and byte order mark: packages/hashline-core/src/file-text-canonicalization.ts. */
module FileText {
  import opened Text

  datatype Ending = Lf | CrLf
  datatype Envelope = Envelope(content: string, hadBom: bool, ending: Ending)

  const BOM := '\U{FEFF}'

  predicate StartsCrLf(s: string) { |s| >= 2 && s[0] == '\r' && s[1] == '\n' }

  /** `replace(/\r\n/g, "\n")`. */
  function CrLfToLf(s: string): string {
    if s == "" then "" else if StartsCrLf(s) then "\n" + CrLfToLf(s[2..]) else [s[0]] + CrLfToLf(s[1..])
  }

  /** `replace(/\r/g, "\n")`. */
  function CrToLf(s: string): string {
    if s == "" then "" else [if s[0] == '\r' then '\n' else s[0]] + CrToLf(s[1..])
  }

  function NormalizeToLf(s: string): string { CrToLf(CrLfToLf(s)) }

  /** `replace(/\n/g, "\r\n")`. */
  function LfToCrLf(s: string): string {
    if s == "" then "" else (if s[0] == '\n' then "\r\n" else [s[0]]) + LfToCrLf(s[1..])
  }

  /** `indexOf("\r\n")`, with the length for "not found". */
  function CrLfIndex(s: string): (i: nat)
    ensures i <= |s| && (i < |s| ==> StartsCrLf(s[i..])) && forall k :: 0 <= k < i ==> !StartsCrLf(s[k..])
  {
    if s == "" || StartsCrLf(s) then 0
    else
      var j := CrLfIndex(s[1..]);
      assert forall k :: 1 <= k < 1 + j ==> s[k..] == s[1..][k - 1..];
      assert s[1 + j..] == s[1..][j..];
      1 + j
  }

  function DetectLineEnding(s: string): Ending {
    var crlf, lf := CrLfIndex(s), IndexOf(s, '\n');
    if lf == |s| || crlf == |s| then Lf else if crlf < lf then CrLf else Lf
  }

  function StripBom(s: string): (string, bool) { if s != "" && s[0] == BOM then (s[1..], true) else (s, false) }

  function CanonicalizeFileText(s: string): Envelope {
    var (content, hadBom) := StripBom(s);
    Envelope(NormalizeToLf(content), hadBom, DetectLineEnding(content))
  }

  function RestoreFileText(content: string, e: Envelope): string {
    var text := if e.ending.Lf? then content else LfToCrLf(content);
    if e.hadBom then [BOM] + text else text
  }

  // ----- the canonical form

  /** The lines of a text under all three conventions: CRLF, CR and LF. */
  function UniversalLines(s: string): (r: seq<string>)
    ensures r != []
  {
    if s == "" then [""]
    else if StartsCrLf(s) then [""] + UniversalLines(s[2..])
    else if s[0] == '\r' || s[0] == '\n' then [""] + UniversalLines(s[1..])
    else
      var rest := UniversalLines(s[1..]);
      [[s[0]] + rest[0]] + rest[1..]
  }

  lemma {:induction false} NormalizeUnfold(s: string)
    ensures s == "" ==> NormalizeToLf(s) == ""
    ensures s != "" && StartsCrLf(s) ==> NormalizeToLf(s) == "\n" + NormalizeToLf(s[2..])
    ensures s != "" && !StartsCrLf(s) ==>
              NormalizeToLf(s) == [if s[0] == '\r' then '\n' else s[0]] + NormalizeToLf(s[1..])
  {
    if s != "" {
      var head, rest := if StartsCrLf(s) then '\n' else s[0], CrLfToLf(if StartsCrLf(s) then s[2..] else s[1..]);
      assert CrLfToLf(s) == [head] + rest;
      assert ([head] + rest)[1..] == rest;
    }
  }

  lemma {:induction false} NoCrLeft(s: string)
    ensures '\r' !in NormalizeToLf(s)
  {
    hide NormalizeToLf;
    NormalizeUnfold(s);
    if s != "" { NoCrLeft(if StartsCrLf(s) then s[2..] else s[1..]); }
  }

  lemma {:induction false} BreakStartsLine(rest: string)
    ensures Split("\n" + rest, '\n') == [""] + Split(rest, '\n')
  {
    hide Split;
    SplitFirst("", rest, '\n');
    assert "" + ['\n'] + rest == "\n" + rest;
  }

  lemma {:induction false} CharJoinsLine(c: char, rest: string)
    requires c != '\n'
    ensures Split([c] + rest, '\n') == [[c] + Split(rest, '\n')[0]] + Split(rest, '\n')[1..]
  {
    hide Split;
    SplitAppendLast([c], rest, '\n');
  }

  lemma {:induction false} SameLines(s: string)
    ensures Split(NormalizeToLf(s), '\n') == UniversalLines(s)
  {
    hide NormalizeToLf, Split;
    NormalizeUnfold(s);
    if s == "" {
      SplitWithout("", '\n');
    } else if StartsCrLf(s) {
      SameLines(s[2..]);
      BreakStartsLine(NormalizeToLf(s[2..]));
    } else {
      SameLines(s[1..]);
      var rest := NormalizeToLf(s[1..]);
      if s[0] == '\r' || s[0] == '\n' {
        BreakStartsLine(rest);
      } else {
        CharJoinsLine(s[0], rest);
      }
    }
  }

  /** For every text the canonical form has no CR and the same lines. */
  lemma {:induction false} CanonicalLines(s: string)
    ensures '\r' !in CanonicalizeFileText(s).content
    ensures Split(CanonicalizeFileText(s).content, '\n') == UniversalLines(StripBom(s).0)
  {
    hide NormalizeToLf, Split, UniversalLines, DetectLineEnding;
    NoCrLeft(StripBom(s).0);
    SameLines(StripBom(s).0);
  }

  // ----- when restoring gives the text back

  predicate AllCrLf(s: string) {
    s == "" || (if StartsCrLf(s) then AllCrLf(s[2..]) else s[0] != '\r' && s[0] != '\n' && AllCrLf(s[1..]))
  }

  lemma {:induction false} LfStays(s: string)
    ensures NormalizeToLf(s) == s <==> '\r' !in s
  {
    hide NormalizeToLf, Split;
    NormalizeUnfold(s);
    NoCrLeft(s);
    if '\r' !in s && s != "" {
      assert s[0] in s && s == [s[0]] + s[1..];
      LfStays(s[1..]);
    }
  }

  lemma {:induction false} Shrinks(s: string)
    ensures |LfToCrLf(NormalizeToLf(s))| >= |s|
  {
    hide NormalizeToLf;
    NormalizeUnfold(s);
    if s != "" {
      var n := NormalizeToLf(s);
      var rest := if StartsCrLf(s) then s[2..] else s[1..];
      assert n[1..] == NormalizeToLf(rest);
      Shrinks(rest);
    }
  }

  lemma {:induction false} CrLfRestores(s: string)
    ensures LfToCrLf(NormalizeToLf(s)) == s <==> AllCrLf(s)
  {
    hide NormalizeToLf;
    NormalizeUnfold(s);
    if s != "" {
      var n := NormalizeToLf(s);
      var rest := if StartsCrLf(s) then s[2..] else s[1..];
      assert n[1..] == NormalizeToLf(rest);
      CrLfRestores(rest);
      var back := LfToCrLf(NormalizeToLf(rest));
      if StartsCrLf(s) {
        assert s == "\r\n" + rest;
        assert LfToCrLf(n) == "\r\n" + back;
        assert back == LfToCrLf(n)[2..];
      } else if s[0] == '\r' || s[0] == '\n' {
        assert LfToCrLf(n) == "\r\n" + back;
        Shrinks(rest);
        assert |LfToCrLf(n)| > |s|;
      } else {
        assert s == [s[0]] + rest;
        assert LfToCrLf(n) == [s[0]] + back;
        assert back == LfToCrLf(n)[1..];
      }
    }
  }

  /** In a text with CRLF endings only, the detector answers CRLF exactly when there is an ending. */
  lemma {:induction false} DetectsCrLf(s: string)
    requires AllCrLf(s)
    ensures CrLfIndex(s) < |s| <==> '\n' in s
    ensures '\n' in s ==> IndexOf(s, '\n') == CrLfIndex(s) + 1
    ensures '\n' in s <==> '\r' in s
  {
    if s != "" && !StartsCrLf(s) {
      DetectsCrLf(s[1..]);
      assert s == [s[0]] + s[1..];
      IndexOfCons(s);
    } else if s != "" {
      assert s[1] == '\n' && s[0] != '\n';
      assert IndexOf(s, '\n') == 1;
    }
  }

  lemma {:induction false} IndexOfCons(s: string)
    requires s != "" && s[0] != '\n'
    ensures IndexOf(s, '\n') == 1 + IndexOf(s[1..], '\n')
  {
    hide IndexOf;
    var i, j := IndexOf(s, '\n'), IndexOf(s[1..], '\n');
    assert forall k :: 1 <= k < |s| ==> s[k] == s[1..][k - 1];
  }

  predicate Uniform(s: string) { '\r' !in s || AllCrLf(s) }

  /** Restoring after canonicalising gives back exactly the texts whose endings, behind an optional
      byte order mark, are all LF or all CRLF. */
  lemma {:induction false} RestoreUndoesCanonicalize(s: string)
    ensures RestoreFileText(CanonicalizeFileText(s).content, CanonicalizeFileText(s)) == s <==> Uniform(StripBom(s).0)
  {
    hide NormalizeToLf, AllCrLf, LfToCrLf, DetectLineEnding;
    var (content, hadBom) := StripBom(s);
    LfStays(content);
    CrLfRestores(content);
    var e := CanonicalizeFileText(s);
    var text := if e.ending.Lf? then e.content else LfToCrLf(e.content);
    if hadBom {
      assert s == [BOM] + content;
      assert [BOM] + text == s <==> text == content by { assert ([BOM] + text)[1..] == text; }
    }
    EndingDecides(content);
  }

  lemma {:induction false} MixedToLf()
    ensures NormalizeToLf("a\r\nb\n") == "a\nb\n"
  {
    hide NormalizeToLf;
    NormalizeUnfold("");
    NormalizeUnfold("\n");
    NormalizeUnfold("b\n");
    NormalizeUnfold("\r\nb\n");
    NormalizeUnfold("a\r\nb\n");
    assert "a\r\nb\n"[1..] == "\r\nb\n" && "\r\nb\n"[2..] == "b\n" && "b\n"[1..] == "\n" && "\n"[1..] == "";
  }

  lemma {:induction false} LfToMixed()
    ensures LfToCrLf("a\nb\n") == "a\r\nb\r\n"
  {
    assert "a\nb\n"[1..] == "\nb\n" && "\nb\n"[1..] == "b\n" && "b\n"[1..] == "\n" && "\n"[1..] == "";
    assert LfToCrLf("b\n") == "b\r\n" && LfToCrLf("\nb\n") == "\r\nb\r\n";
  }

  lemma {:induction false} MixedIsCrLf()
    ensures DetectLineEnding("a\r\nb\n") == CrLf
  {
    var s := "a\r\nb\n";
    assert s[1..] == "\r\nb\n";
    assert CrLfIndex("\r\nb\n") == 0 && CrLfIndex(s) == 1;
    assert IndexOf(s, '\n') == 2;
  }

  /** One text with both endings: what comes back has CRLF throughout. */
  lemma {:induction false} MixedEndingsAreRewritten()
    ensures var s := "a\r\nb\n";
            var e := CanonicalizeFileText(s);
            && e.ending == CrLf && e.content == "a\nb\n"
            && RestoreFileText(e.content, e) == "a\r\nb\r\n" && "a\r\nb\r\n" != s
  {
    hide NormalizeToLf, LfToCrLf, DetectLineEnding;
    MixedToLf();
    LfToMixed();
    MixedIsCrLf();
    assert |"a\r\nb\r\n"| == 6 && |"a\r\nb\n"| == 5;
  }

  lemma {:induction false} EndingDecides(s: string)
    ensures AllCrLf(s) ==> (DetectLineEnding(s).CrLf? <==> '\r' in s)
    ensures DetectLineEnding(s).CrLf? ==> '\r' in s
  {
    hide AllCrLf, IndexOf, CrLfIndex;
    if AllCrLf(s) { DetectsCrLf(s); }
    if DetectLineEnding(s).CrLf? {
      assert StartsCrLf(s[CrLfIndex(s)..]);
      assert s[CrLfIndex(s)] == '\r';
    }
  }
}
