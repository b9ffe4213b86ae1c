/** Line counts of a change: `countLineDiffs` of packages/hashline-core/src/diff-utils.ts. */
module LineDiff {
  import opened Text

  /** The map built by `set(line, (get(line) ?? 0) + 1)` over some lines. */
  ghost predicate Counts(m: map<string, nat>, lines: seq<string>) {
    forall s :: (s in m <==> s in lines) && (s in m ==> m[s] == multiset(lines)[s])
  }

  method CountLines(lines: seq<string>) returns (m: map<string, nat>)
    ensures Counts(m, lines)
  {
    m := map[];
    var i := 0;
    while i < |lines|
      invariant 0 <= i <= |lines| && Counts(m, lines[..i])
    {
      var line := lines[i];
      assert lines[..i + 1] == lines[..i] + [line];
      assert line in lines[..i] <==> multiset(lines[..i])[line] > 0;
      m := m[line := (if line in m then m[line] else 0) + 1];
      i := i + 1;
    }
    assert lines[..i] == lines;
  }

  /** How many entries of `a` exceed those of `b`, summed. */
  method Excess(a: map<string, nat>, b: map<string, nat>, ghost x: seq<string>, ghost y: seq<string>) returns (n: nat)
    requires Counts(a, x) && Counts(b, y)
    ensures n == |multiset(x) - multiset(y)|
  {
    n := 0;
    var rest := a.Keys;
    ghost var acc: multiset<string> := multiset{};
    while rest != {}
      invariant rest <= a.Keys && n == |acc|
      invariant forall s :: acc[s] == if s in a && s !in rest then (multiset(x) - multiset(y))[s] else 0
      decreases |rest|
    {
      var line :| line in rest;
      var other := if line in b then b[line] else 0;
      assert line in b <==> multiset(y)[line] > 0;
      ghost var k := (multiset(x) - multiset(y))[line];
      assert |acc[line := k]| == |acc| + k;
      if a[line] > other { n := n + (a[line] - other); }
      acc := acc[line := k];
      rest := rest - {line};
    }
    assert forall s :: s !in a ==> multiset(x)[s] == 0;
    assert acc == multiset(x) - multiset(y);
  }

  /** `countLineDiffs`: lines gained and lost as bags. */
  method CountLineDiffs(oldContent: string, newContent: string) returns (additions: nat, deletions: nat)
    ensures deletions == |multiset(Split(oldContent, '\n')) - multiset(Split(newContent, '\n'))|
    ensures additions == |multiset(Split(newContent, '\n')) - multiset(Split(oldContent, '\n'))|
  {
    var oldLines, newLines := Split(oldContent, '\n'), Split(newContent, '\n');
    var oldSet := CountLines(oldLines);
    var newSet := CountLines(newLines);
    deletions := Excess(oldSet, newSet, oldLines, newLines);
    additions := Excess(newSet, oldSet, newLines, oldLines);
  }

  lemma {:induction false} BagSplit(a: multiset<string>, b: multiset<string>)
    ensures |a - b| == |a| - |a * b|
  {
    assert a == (a - b) + (a * b);
  }

  /** Gains minus losses is the change in length. */
  lemma {:induction false} Balance(a: seq<string>, b: seq<string>)
    ensures |multiset(b) - multiset(a)| - |multiset(a) - multiset(b)| == |b| - |a|
  {
    BagSplit(multiset(a), multiset(b));
    BagSplit(multiset(b), multiset(a));
    assert multiset(a) * multiset(b) == multiset(b) * multiset(a);
    assert |multiset(a)| == |a| && |multiset(b)| == |b|;
  }

  /** `c` is what is left of `a` after deleting some lines. */
  predicate Subsequence(c: seq<string>, a: seq<string>) {
    c == [] ||
    (a != [] && (Subsequence(c, a[1..]) || (c[0] == a[0] && Subsequence(c[1..], a[1..]))))
  }

  lemma {:induction false} SubsequenceBag(c: seq<string>, a: seq<string>)
    requires Subsequence(c, a)
    ensures multiset(c) <= multiset(a)
    decreases |a|
  {
    if c != [] {
      assert a == [a[0]] + a[1..];
      if Subsequence(c, a[1..]) {
        SubsequenceBag(c, a[1..]);
      } else {
        assert c == [c[0]] + c[1..];
        SubsequenceBag(c[1..], a[1..]);
      }
    }
  }

  /** The counts never exceed those of a real line diff: any diff keeps a common subsequence `c`,
      deletes the other old lines and adds the other new lines. */
  lemma {:induction false} NoDiffIsSmaller(a: seq<string>, b: seq<string>, c: seq<string>)
    requires Subsequence(c, a) && Subsequence(c, b)
    ensures |multiset(a) - multiset(b)| <= |a| - |c|
    ensures |multiset(b) - multiset(a)| <= |b| - |c|
  {
    SubsequenceBag(c, a);
    SubsequenceBag(c, b);
    var common := multiset(a) * multiset(b);
    assert multiset(c) <= common;
    BagSize(multiset(c), common);
    BagSplit(multiset(a), multiset(b));
    BagSplit(multiset(b), multiset(a));
    assert multiset(b) * multiset(a) == common;
    assert |multiset(a)| == |a| && |multiset(b)| == |b| && |multiset(c)| == |c|;
  }

  lemma {:induction false} BagSize(a: multiset<string>, b: multiset<string>)
    requires a <= b
    ensures |a| <= |b|
  {
    assert b == a + (b - a);
  }
}
