/** The line hash behind an anchor: packages/hashline-core/src/hash-computation.ts and constants.ts. */
module LineHash {
  import opened Text
  import opened Anchors
  import EditText
  import Utf8
  import Xxh32

  /** `HASHLINE_DICT[i]`. */
  function DictionaryEntry(i: nat): string
    requires i < 256
  {
    [HASH_ALPHABET[i / 16], HASH_ALPHABET[i % 16]]
  }

  function WithoutCr(s: string): string {
    if s == "" then "" else (if s[0] == '\r' then "" else [s[0]]) + WithoutCr(s[1..])
  }

  /** A line without letters or digits is hashed together with its number. */
  function NormalizedHash(significant: string -> bool, n: nat, text: string): string {
    var seed: Xxh32.Word := if significant(text) then 0 else n % Xxh32.WRAP;
    DictionaryEntry(Xxh32.Xxh32Of(Utf8.Encode(text), seed) % 256)
  }

  function CurrentHash(significant: string -> bool, n: nat, content: string): string {
    NormalizedHash(significant, n, TrimEnd(WithoutCr(content)))
  }

  function LegacyHash(significant: string -> bool, n: nat, content: string): string {
    NormalizedHash(significant, n, EditText.RemoveSpaces(WithoutCr(content)))
  }

  /** `significant` stands for the test `/[\p{L}\p{N}]/u`. */
  function LineHashes(significant: string -> bool): Hashes {
    Hashes((n: nat, s: string) => CurrentHash(significant, n, s), (n: nat, s: string) => LegacyHash(significant, n, s))
  }

  lemma {:induction false} EntryIsHash(i: nat)
    requires i < 256
    ensures IsHash(DictionaryEntry(i))
  {
    assert HASH_ALPHABET[i / 16] in HASH_ALPHABET && HASH_ALPHABET[i % 16] in HASH_ALPHABET;
  }

  /** Different bytes have different entries, so an anchor carries the whole low byte of the hash. */
  lemma {:induction false} EntriesDiffer(i: nat, j: nat)
    requires i < 256 && j < 256 && DictionaryEntry(i) == DictionaryEntry(j)
    ensures i == j
  {
    var a, b := DictionaryEntry(i), DictionaryEntry(j);
    assert a[0] == b[0] && a[1] == b[1];
    LettersDiffer(i / 16, j / 16);
    LettersDiffer(i % 16, j % 16);
  }

  lemma {:induction false} LettersDiffer(i: nat, j: nat)
    requires i < 16 && j < 16 && HASH_ALPHABET[i] == HASH_ALPHABET[j]
    ensures i == j
  {
  }

  lemma {:induction false} NormalizedIsEntry(significant: string -> bool, n: nat, text: string)
    ensures IsHash(NormalizedHash(significant, n, text))
  {
    hide DictionaryEntry, Xxh32.Xxh32Of, Utf8.Encode, IsHash;
    var seed: Xxh32.Word := if significant(text) then 0 else n % Xxh32.WRAP;
    EntryIsHash(Xxh32.Xxh32Of(Utf8.Encode(text), seed) % 256);
  }

  /** The real hashes, current and legacy, are dictionary entries, which is all the anchor theorems ask of them. */
  lemma {:induction false} LineHashesAreDictionary(significant: string -> bool)
    ensures DictionaryHashes(LineHashes(significant))
    ensures forall n: nat, s: string :: IsHash(LineHashes(significant).legacy(n, s))
  {
    hide NormalizedHash, IsHash;
    forall n: nat, s: string
      ensures IsHash(LineHashes(significant).current(n, s)) && IsHash(LineHashes(significant).legacy(n, s))
    {
      NormalizedIsEntry(significant, n, TrimEnd(WithoutCr(s)));
      NormalizedIsEntry(significant, n, EditText.RemoveSpaces(WithoutCr(s)));
    }
  }

  lemma {:induction false} WithoutCrAppend(s: string, t: string)
    ensures WithoutCr(s + t) == WithoutCr(s) + WithoutCr(t)
  {
    if s == "" {
      assert s + t == t;
    } else {
      assert (s + t)[1..] == s[1..] + t;
      WithoutCrAppend(s[1..], t);
    }
  }

  lemma {:induction false} TrimEndAppend(s: string, t: string)
    requires forall i :: 0 <= i < |t| ==> IsSpace(t[i])
    ensures TrimEnd(s + t) == TrimEnd(s)
  {
    hide IsSpace;
    if t == "" {
      assert s + t == s;
    } else {
      var u := s + t;
      assert u[|u| - 1] == t[|t| - 1] && u[..|u| - 1] == s + t[..|t| - 1];
      TrimEndAppend(s, t[..|t| - 1]);
    }
  }

  lemma {:induction false} SpacesWithoutCr(t: string)
    requires forall i :: 0 <= i < |t| ==> IsSpace(t[i])
    ensures forall i :: 0 <= i < |WithoutCr(t)| ==> IsSpace(WithoutCr(t)[i])
  {
    hide IsSpace;
    if t != "" { SpacesWithoutCr(t[1..]); }
  }

  /** Trailing white space, a carriage return included, does not make an anchor stale. */
  lemma {:induction false} TrailingSpaceKeepsHash(significant: string -> bool, n: nat, s: string, t: string)
    requires forall i :: 0 <= i < |t| ==> IsSpace(t[i])
    ensures LineHashes(significant).current(n, s + t) == LineHashes(significant).current(n, s)
  {
    hide IsSpace, NormalizedHash, TrimEnd, WithoutCr;
    WithoutCrAppend(s, t);
    SpacesWithoutCr(t);
    TrimEndAppend(WithoutCr(s), WithoutCr(t));
  }
}
