/** Sequence and text helpers shared by the models: splitting at a separator element,
    joining, and decimal numerals. */
module Text {

  datatype Option<+T> = None | Some(value: T)

  datatype Result<+T, +E> = Ok(value: T) | Err(error: E)

  type Byte = b: int | 0 <= b < 256
  type Bytes = seq<Byte>

  const LF: Byte := 10
  const CR: Byte := 13

  function Flatten<T>(parts: seq<seq<T>>): seq<T> {
    if parts == [] then [] else parts[0] + Flatten(parts[1..])
  }

  lemma {:induction false} FlattenAppend<T>(a: seq<seq<T>>, b: seq<seq<T>>)
    ensures Flatten(a + b) == Flatten(a) + Flatten(b)
  {
    if a == [] {
      assert a + b == b;
    } else {
      assert (a + b)[1..] == a[1..] + b;
      FlattenAppend(a[1..], b);
    }
  }

  lemma {:induction false} FlattenNone<T>(parts: seq<seq<T>>)
    ensures Flatten(parts[..0]) == []
  {
  }

  lemma {:induction false} FlattenSnoc<T>(parts: seq<seq<T>>, i: nat)
    requires i < |parts|
    ensures Flatten(parts[..i + 1]) == Flatten(parts[..i]) + parts[i]
  {
    assert parts[..i + 1] == parts[..i] + [parts[i]];
    FlattenAppend(parts[..i], [parts[i]]);
    assert [parts[i]][1..] == [];
    assert Flatten([parts[i]]) == parts[i];
  }

  lemma {:induction false} FlattenOne<T>(part: seq<T>)
    ensures Flatten([part]) == part
  {
    assert [part][1..] == [] && Flatten<T>([]) == [];
  }

  /** Index of the first `x` in `s` at or after `from`, or `|s|` when there is none. */
  function IndexOf<T(==)>(s: seq<T>, x: T, from: nat := 0): (i: nat)
    requires from <= |s|
    ensures from <= i <= |s|
    ensures i < |s| ==> s[i] == x
    ensures forall k :: from <= k < i ==> s[k] != x
    decreases |s| - from
  {
    if from == |s| || s[from] == x then from else IndexOf(s, x, from + 1)
  }

  /** `text.split(sep)` for a one-element separator: always at least one piece. */
  function Split<T(==)>(s: seq<T>, sep: T): (r: seq<seq<T>>)
    ensures |r| >= 1
    decreases |s|
  {
    var i := IndexOf(s, sep);
    if i == |s| then [s] else [s[..i]] + Split(s[i + 1..], sep)
  }

  /** `pieces.join(sep)`. */
  function Join<T>(pieces: seq<seq<T>>, sep: T): seq<T> {
    if pieces == [] then []
    else if |pieces| == 1 then pieces[0]
    else pieces[0] + [sep] + Join(pieces[1..], sep)
  }

  /** The pieces after the first separator, and the first piece. */
  lemma {:induction false} SplitUnfold<T>(s: seq<T>, sep: T)
    ensures IndexOf(s, sep) == |s| ==> Split(s, sep) == [s] && sep !in s
    ensures IndexOf(s, sep) < |s| ==>
              var i := IndexOf(s, sep);
              Split(s, sep) == [s[..i]] + Split(s[i + 1..], sep) && s == s[..i] + [sep] + s[i + 1..] && sep !in s[..i]
  {
    hide IndexOf;
  }

  lemma JoinOne<T>(p: seq<T>, sep: T)
    ensures Join([p], sep) == p
  {
  }

  lemma {:induction false} JoinCons<T>(p: seq<T>, rest: seq<seq<T>>, sep: T)
    requires rest != []
    ensures Join([p] + rest, sep) == p + [sep] + Join(rest, sep)
  {
    assert ([p] + rest)[1..] == rest;
  }

  lemma {:induction false} JoinSplit<T>(s: seq<T>, sep: T)
    ensures Join(Split(s, sep), sep) == s
    decreases |s|
  {
    hide IndexOf, Split;
    var i := IndexOf(s, sep);
    SplitUnfold(s, sep);
    if i < |s| {
      JoinSplit(s[i + 1..], sep);
      JoinCons(s[..i], Split(s[i + 1..], sep), sep);
    }
  }

  lemma {:induction false} SplitPieces<T>(s: seq<T>, sep: T)
    ensures forall p :: p in Split(s, sep) ==> sep !in p
    decreases |s|
  {
    var i := IndexOf(s, sep);
    SplitUnfold(s, sep);
    if i < |s| {
      SplitPieces(s[i + 1..], sep);
    }
  }

  lemma {:induction false} SplitJoin<T>(pieces: seq<seq<T>>, sep: T)
    requires pieces != [] && forall p :: p in pieces ==> sep !in p
    ensures Split(Join(pieces, sep), sep) == pieces
  {
    var p := pieces[0];
    if |pieces| == 1 {
      SplitWithout(p, sep);
      assert pieces == [p];
    } else {
      var rest := Join(pieces[1..], sep);
      SplitJoin(pieces[1..], sep);
      SplitFirst(p, rest, sep);
      assert pieces == [p] + pieces[1..];
    }
  }

  lemma {:induction false} SplitFirst<T>(p: seq<T>, rest: seq<T>, sep: T)
    requires sep !in p
    ensures IndexOf(p + [sep] + rest, sep) == |p|
    ensures Split(p + [sep] + rest, sep) == [p] + Split(rest, sep)
  {
    var s := p + [sep] + rest;
    assert s[|p|] == sep && forall k :: 0 <= k < |p| ==> s[k] == p[k];
    assert IndexOf(s, sep) == |p|;
    assert s[..|p|] == p && s[|p| + 1..] == rest;
  }

  lemma {:induction false} JoinAppend<T>(a: seq<seq<T>>, b: seq<seq<T>>, sep: T)
    requires a != [] && b != []
    ensures Join(a + b, sep) == Join(a, sep) + [sep] + Join(b, sep)
  {
    assert (a + b)[1..] == a[1..] + b && (a + b)[0] == a[0];
    if |a| > 1 {
      JoinAppend(a[1..], b, sep);
    } else {
      assert a[1..] + b == b;
    }
  }

  /** Splitting a concatenation continues the last piece of the first text. */
  function Continue<T>(l: seq<seq<T>>, r: seq<seq<T>>): seq<seq<T>>
    requires l != [] && r != []
  {
    l[..|l| - 1] + [l[|l| - 1] + r[0]] + r[1..]
  }

  lemma {:induction false} ContinueCons<T>(p: seq<T>, l: seq<seq<T>>, r: seq<seq<T>>)
    requires l != [] && r != []
    ensures Continue([p] + l, r) == [p] + Continue(l, r)
  {
    var pl := [p] + l;
    assert pl[..|pl| - 1] == [p] + l[..|l| - 1];
  }

  lemma {:induction false} SplitAppend<T>(a: seq<T>, b: seq<T>, sep: T)
    ensures Split(a + b, sep) == Continue(Split(a, sep), Split(b, sep))
    decreases |a|
  {
    hide IndexOf, Split, Continue;
    var i := IndexOf(a, sep);
    SplitUnfold(a, sep);
    if i < |a| {
      var p, rest := a[..i], a[i + 1..];
      SplitAppend(rest, b, sep);
      SplitFirst(p, rest + b, sep);
      assert a + b == p + [sep] + (rest + b);
      ContinueCons(p, Split(rest, sep), Split(b, sep));
    } else {
      assert Split(a, sep) == [a];
      SplitAppendLast(a, b, sep);
    }
  }

  lemma {:induction false} SplitAppendLast<T>(a: seq<T>, b: seq<T>, sep: T)
    requires sep !in a
    ensures Split(a + b, sep) == Continue([a], Split(b, sep))
  {
    hide IndexOf, Split;
    var j := IndexOf(b, sep);
    SplitUnfold(b, sep);
    assert Continue([a], Split(b, sep)) == [a + Split(b, sep)[0]] + Split(b, sep)[1..];
    if j < |b| {
      var p, rest := b[..j], b[j + 1..];
      SplitFirst(a + p, rest, sep);
      assert a + b == (a + p) + [sep] + rest;
    } else {
      SplitWithout(a + b, sep);
    }
  }

  lemma {:induction false} SplitWithout<T>(s: seq<T>, sep: T)
    requires sep !in s
    ensures Split(s, sep) == [s]
  {
  }

  /** New text continues the last piece, when it is still open. */
  lemma {:induction false} SplitContinues<T>(text: seq<T>, done: seq<seq<T>>, pending: seq<T>, more: seq<T>, sep: T)
    requires Split(text, sep) == done + [pending] && sep !in pending
    ensures Split(text + more, sep) == done + Split(pending + more, sep)
  {
    hide Split;
    SplitAppend(text, more, sep);
    SplitAppendLast(pending, more, sep);
    var l, r := done + [pending], Split(more, sep);
    assert l[..|l| - 1] == done;
  }

  /** `content.length === 0 ? [] : content.split("\n")`. */
  function LinesOf(content: string): seq<string> { if content == "" then [] else Split(content, '\n') }

  // ----- white space

  /** The characters JavaScript's `trim` and `\s` treat as white space. */
  predicate IsSpace(c: char) {
    var n := c as int;
    9 <= n <= 13 || n == 32 || n == 0xA0 || n == 0x1680 || 0x2000 <= n <= 0x200A
    || n == 0x2028 || n == 0x2029 || n == 0x202F || n == 0x205F || n == 0x3000 || n == 0xFEFF
  }

  function TrimStart(s: string): (r: string)
    ensures |r| <= |s|
    ensures s[|s| - |r|..] == r
    ensures forall k :: 0 <= k < |s| - |r| ==> IsSpace(s[k])
    ensures r != [] ==> !IsSpace(r[0])
  {
    if s != [] && IsSpace(s[0]) then TrimStart(s[1..]) else s
  }

  function TrimEnd(s: string): (r: string)
    ensures |r| <= |s| && s[..|r|] == r
    ensures forall k :: |r| <= k < |s| ==> IsSpace(s[k])
    ensures r != [] ==> !IsSpace(r[|r| - 1])
  {
    if s != [] && IsSpace(s[|s| - 1]) then TrimEnd(s[..|s| - 1]) else s
  }

  function Trim(s: string): string {
    TrimEnd(TrimStart(s))
  }

  // ----- decimal numerals

  type Digits = s: seq<nat> | forall d :: d in s ==> d < 10

  function DigitsOf(n: nat): (r: Digits)
    ensures |r| >= 1
  {
    if n < 10 then [n] else DigitsOf(n / 10) + [n % 10]
  }

  function ValueOf(s: Digits): nat {
    if s == [] then 0 else 10 * ValueOf(s[..|s| - 1]) + s[|s| - 1]
  }

  lemma {:induction false} ValueOfDigits(n: nat)
    ensures ValueOf(DigitsOf(n)) == n
  {
    if n < 10 {
      assert [n][..0] == [];
    } else {
      ValueOfDigits(n / 10);
      var r := DigitsOf(n);
      assert r[..|r| - 1] == DigitsOf(n / 10);
    }
  }
}
