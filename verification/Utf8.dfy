/** Cutting UTF-8 at byte limits: `truncateUtf8` and `decodeStderr` of packages/ast-grep-mcp/src/sg-runner.ts.
    Encoding follows section 3 of RFC 3629. */
module Utf8 {
  import opened Text

  const MAX_STDERR_BYTES := 0x1_0000

  // ----- encoding

  function EncodeChar(c: char): (r: Bytes)
    ensures 1 <= |r| <= 4 && !Continues(r[0]) && |r| == WidthOf(r[0])
    ensures forall i :: 1 <= i < |r| ==> Continues(r[i])
  {
    var n := c as int;
    if n < 0x80 then [n]
    else if n < 0x800 then [0xC0 + n / 0x40, 0x80 + n % 0x40]
    else if n < 0x10000 then [0xE0 + n / 0x1000, 0x80 + n / 0x40 % 0x40, 0x80 + n % 0x40]
    else [0xF0 + n / 0x40000, 0x80 + n / 0x1000 % 0x40, 0x80 + n / 0x40 % 0x40, 0x80 + n % 0x40]
  }

  function Encode(s: string): Bytes {
    if s == "" then [] else Encode(s[..|s| - 1]) + EncodeChar(s[|s| - 1])
  }

  /** `(b & 0xc0) === 0x80`. */
  predicate Continues(b: Byte) { 0x80 <= b <= 0xBF }

  /** The width `decodeStderr` reads off a lead byte. */
  function WidthOf(lead: Byte): nat {
    if 0xC2 <= lead <= 0xDF then 2 else if 0xE0 <= lead <= 0xEF then 3 else if 0xF0 <= lead <= 0xF4 then 4 else 1
  }

  /** Byte offset of the `k`-th character. */
  function Offset(s: string, k: nat): nat
    requires k <= |s|
  {
    |Encode(s[..k])|
  }

  lemma {:induction false} EncodeSnoc(s: string, k: nat)
    requires k < |s|
    ensures Encode(s[..k + 1]) == Encode(s[..k]) + EncodeChar(s[k])
  {
    assert s[..k + 1][..k] == s[..k];
  }

  lemma {:induction false} EncodePrefix(s: string, k: nat)
    requires k <= |s|
    ensures Offset(s, k) <= |Encode(s)| && Encode(s)[..Offset(s, k)] == Encode(s[..k])
    decreases |s| - k
  {
    hide Encode;
    if k == |s| {
      assert s[..k] == s;
    } else {
      EncodePrefix(s, k + 1);
      EncodeSnoc(s, k);
      var n := Offset(s, k);
      assert Encode(s)[..n] == Encode(s)[..Offset(s, k + 1)][..n];
    }
  }

  lemma {:induction false} EncodeAppend(a: string, b: string)
    ensures Encode(a + b) == Encode(a) + Encode(b)
  {
    hide EncodeChar;
    var s := a + b;
    if b == "" {
      assert s == a;
    } else {
      assert s[..|s| - 1] == a + b[..|b| - 1] && s[|s| - 1] == b[|b| - 1];
      EncodeAppend(a, b[..|b| - 1]);
      assert Encode(s) == Encode(a + b[..|b| - 1]) + EncodeChar(b[|b| - 1]);
    }
  }

  /** The bytes of character `k` sit at its offset: a lead byte, then continuation bytes. */
  lemma {:induction false} CharAt(s: string, k: nat)
    requires k < |s|
    ensures var a, b, e := Offset(s, k), Offset(s, k + 1), Encode(s);
            && a < b <= |e| && b - a == WidthOf(e[a]) <= 4 && !Continues(e[a])
            && forall i :: a < i < b ==> Continues(e[i])
  {
    hide Encode, EncodeChar;
    EncodePrefix(s, k);
    EncodePrefix(s, k + 1);
    EncodeSnoc(s, k);
    var a, b, e, c := Offset(s, k), Offset(s, k + 1), Encode(s), EncodeChar(s[k]);
    assert e[..b] == e[..a] + c;
    forall i | a <= i < b ensures e[i] == c[i - a] { assert e[..b][i] == c[i - a]; }
  }

  // ----- the longest whole prefix

  /** `k` characters are the most that fit into the first `limit` bytes. */
  predicate LastWhole(s: string, limit: nat, k: int) {
    0 <= k <= |s| && Offset(s, k) <= limit && (k < |s| ==> limit < Offset(s, k + 1))
  }

  /** There is only one such prefix. */
  lemma {:induction false} LastWholeIsUnique(s: string, limit: nat, j: nat, k: nat)
    requires LastWhole(s, limit, j) && LastWhole(s, limit, k)
    ensures j == k
  {
    hide Offset;
    if j < k { OffsetGrows(s, j + 1, k); }
    if k < j { OffsetGrows(s, k + 1, j); }
  }

  lemma {:induction false} OffsetGrows(s: string, j: nat, k: nat)
    requires j <= k <= |s|
    ensures Offset(s, j) <= Offset(s, k)
    decreases k - j
  {
    hide Encode, EncodeChar;
    if j < k {
      EncodeSnoc(s, k - 1);
      OffsetGrows(s, j, k - 1);
    }
  }

  lemma {:induction false} FindLastWhole(s: string, limit: nat, k: nat) returns (r: nat)
    requires k <= |s| && Offset(s, k) <= limit
    ensures LastWhole(s, limit, r)
    decreases |s| - k
  {
    hide Offset;
    if k < |s| && Offset(s, k + 1) <= limit {
      r := FindLastWhole(s, limit, k + 1);
    } else {
      r := k;
    }
  }

  lemma OffsetZero(s: string)
    ensures Offset(s, 0) == 0
  {
  }

  /** `truncateUtf8`: the longest whole-character prefix within the byte budget. */
  method TruncateUtf8(s: string, maxBytes: nat) returns (r: Bytes)
    ensures exists k :: LastWhole(s, maxBytes, k) && r == Encode(s[..k])
  {
    hide Encode, Continues, Offset;
    var bytes := Encode(s);
    OffsetZero(s);
    ghost var k := FindLastWhole(s, maxBytes, 0);
    EncodePrefix(s, k);
    OffsetIs(s, k);
    if |bytes| <= maxBytes {
      WholeFits(s, maxBytes, k);
      return bytes;
    }
    CutsInside(s, maxBytes, k);
    CharAt(s, k);
    var end := maxBytes;
    while end > 0 && Continues(bytes[end])
      invariant Offset(s, k) <= end <= maxBytes < |bytes|
    {
      end := end - 1;
    }
    assert end == Offset(s, k);
    r := bytes[..end];
  }

  lemma OffsetIs(s: string, k: nat)
    requires k <= |s|
    ensures Offset(s, k) == |Encode(s[..k])|
  {
  }

  lemma {:induction false} WholeFits(s: string, limit: nat, k: nat)
    requires LastWhole(s, limit, k) && |Encode(s)| <= limit
    ensures k == |s| && s[..k] == s
  {
    hide Encode;
    if k < |s| {
      EncodePrefix(s, k + 1);
    }
  }

  lemma {:induction false} CutsInside(s: string, limit: nat, k: nat)
    requires LastWhole(s, limit, k) && |Encode(s)| > limit
    ensures k < |s|
  {
    hide Encode;
    assert s[..|s|] == s;
  }

  /** A leading byte order mark, which a `TextDecoder` drops. */
  function WithoutBom(s: string): string { if s != "" && s[0] == '\U{FEFF}' then s[1..] else s }

  lemma {:induction false} WithoutBomIsShorter(s: string)
    ensures |Encode(WithoutBom(s))| <= |Encode(s)|
  {
    hide Encode;
    if s != "" {
      EncodeAppend(s[..1], s[1..]);
      assert s[..1] + s[1..] == s;
    }
  }

  /** What `decodeStderr` keeps of the first `m` bytes of `s`: the whole characters, without a byte order
      mark, and of them what fits the cap; when the bytes were within the cap, all of them. */
  ghost predicate StderrText(s: string, m: nat, r: Bytes) {
    exists k :: LastWhole(s, m, k) &&
      var text := WithoutBom(s[..k]);
      && (exists j :: LastWhole(text, MAX_STDERR_BYTES, j) && r == Encode(text[..j]))
      && (m <= MAX_STDERR_BYTES ==> r == Encode(text))
  }

  /** `decodeStderr` on a byte prefix of some text. */
  method DecodeStderr(ghost s: string, ghost m: nat, bytes: Bytes, decode: Bytes -> string) returns (r: Bytes)
    requires m <= |Encode(s)| && bytes == Encode(s)[..m]
    requires forall t :: decode(Encode(t)) == WithoutBom(t)
    ensures StderrText(s, m, r)
  {
    hide Encode, Offset, WithoutBom;
    var complete := DropIncomplete(s, m, bytes);
    ghost var k :| LastWhole(s, m, k) && complete == Encode(s[..k]);
    ghost var text := WithoutBom(s[..k]);
    r := TruncateUtf8(decode(complete), MAX_STDERR_BYTES);
    ghost var j :| LastWhole(text, MAX_STDERR_BYTES, j) && r == Encode(text[..j]);
    if m <= MAX_STDERR_BYTES {
      WholeLength(s, m, k);
      WithoutBomIsShorter(s[..k]);
      WholeFits(text, MAX_STDERR_BYTES, j);
    }
  }

  lemma WholeLength(s: string, limit: nat, k: nat)
    requires LastWhole(s, limit, k)
    ensures k <= |s| && |Encode(s[..k])| <= limit
  {
  }

  /** Its first part: exactly the trailing incomplete character is dropped. */
  method DropIncomplete(ghost s: string, ghost m: nat, bytes: Bytes) returns (complete: Bytes)
    requires m <= |Encode(s)| && bytes == Encode(s)[..m]
    ensures exists k :: LastWhole(s, m, k) && complete == Encode(s[..k])
  {
    hide Encode, Continues, Offset, WidthOf;
    OffsetZero(s);
    ghost var k := FindLastWhole(s, m, 0);
    EncodePrefix(s, k);
    OffsetIs(s, k);
    ghost var lead := LeadBefore(s, m, k);
    var start := |bytes| - 1;
    while start >= 0 && Continues(bytes[start]) && |bytes| - start <= 3
      invariant -1 <= start < |bytes|
      invariant lead <= start
    {
      start := start - 1;
    }
    assert start == lead;
    var width := if start >= 0 then WidthOf(bytes[start]) else 1;
    complete := if start >= 0 && width > |bytes| - start then bytes[..start] else bytes;
    assert bytes[..Offset(s, k)] == Encode(s)[..Offset(s, k)];
    if Offset(s, k) == m { assert bytes[..Offset(s, k)] == bytes; }
  }

  /** Where the last character that has begun starts, or -1. */
  lemma {:induction false} LeadBefore(s: string, m: nat, k: nat) returns (lead: int)
    requires m <= |Encode(s)| && LastWhole(s, m, k)
    ensures var e := Encode(s);
            && -1 <= lead < m && m - lead <= 4
            && (lead == -1 <==> m == 0)
            && (forall i :: lead < i < m ==> Continues(e[i]))
            && (lead >= 0 ==> !Continues(e[lead]))
            && (lead >= 0 && Offset(s, k) < m ==> lead == Offset(s, k) && WidthOf(e[lead]) > m - lead)
            && (lead >= 0 && Offset(s, k) == m ==> WidthOf(e[lead]) == m - lead)
  {
    hide Encode, Continues, WidthOf, Offset;
    OffsetZero(s);
    if Offset(s, k) < m {
      OffsetIs(s, |s|);
      assert s[..|s|] == s;
      CharAt(s, k);
      lead := Offset(s, k);
    } else if k == 0 {
      lead := -1;
    } else {
      CharAt(s, k - 1);
      lead := Offset(s, k - 1);
    }
  }
}
