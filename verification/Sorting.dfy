/** JavaScript's stable `Array.prototype.sort`, as the stable insertion sort that any stable sort is equal to. */
module Sorting {

  ghost predicate Transitive<T(!new)>(leq: (T, T) -> bool) {
    forall a, b, c :: leq(a, b) && leq(b, c) ==> leq(a, c)
  }

  ghost predicate Total<T(!new)>(leq: (T, T) -> bool) {
    forall a, b :: leq(a, b) || leq(b, a)
  }

  ghost predicate Sorted<T>(s: seq<T>, leq: (T, T) -> bool) {
    forall i, j :: 0 <= i < j < |s| ==> leq(s[i], s[j])
  }

  /** Puts `x` behind everything that may stand before it. */
  function Insert<T>(s: seq<T>, x: T, leq: (T, T) -> bool): seq<T> {
    if s == [] || leq(s[|s| - 1], x) then s + [x]
    else Insert(s[..|s| - 1], x, leq) + [s[|s| - 1]]
  }

  function SortBy<T>(s: seq<T>, leq: (T, T) -> bool): seq<T> {
    if s == [] then [] else Insert(SortBy(s[..|s| - 1], leq), s[|s| - 1], leq)
  }

  lemma {:induction false} InsertKeeps<T>(s: seq<T>, x: T, leq: (T, T) -> bool)
    ensures multiset(Insert(s, x, leq)) == multiset(s) + multiset{x}
  {
    if s != [] && !leq(s[|s| - 1], x) {
      InsertKeeps(s[..|s| - 1], x, leq);
      assert s == s[..|s| - 1] + [s[|s| - 1]];
    }
  }

  lemma {:induction false} SortKeeps<T>(s: seq<T>, leq: (T, T) -> bool)
    ensures multiset(SortBy(s, leq)) == multiset(s)
  {
    if s != [] {
      SortKeeps(s[..|s| - 1], leq);
      InsertKeeps(SortBy(s[..|s| - 1], leq), s[|s| - 1], leq);
      assert s == s[..|s| - 1] + [s[|s| - 1]];
    }
  }

  lemma {:induction false} SortMembers<T>(s: seq<T>, leq: (T, T) -> bool)
    ensures |SortBy(s, leq)| == |s|
    ensures forall x :: x in SortBy(s, leq) <==> x in s
  {
    hide SortBy;
    SortKeeps(s, leq);
    var r := SortBy(s, leq);
    assert |multiset(r)| == |r| && |multiset(s)| == |s|;
    assert forall x :: x in r <==> x in multiset(r);
    assert forall x :: x in s <==> x in multiset(s);
  }

  lemma {:induction false} InsertBetween<T>(a: seq<T>, b: seq<T>, x: T, leq: (T, T) -> bool)
    requires (forall y :: y in a ==> leq(y, x)) && (forall y :: y in b ==> !leq(y, x))
    ensures Insert(a + b, x, leq) == a + [x] + b
  {
    var all := a + b;
    if b == [] {
      assert all == a;
      assert a != [] ==> a[|a| - 1] in a;
    } else {
      var front, last := b[..|b| - 1], b[|b| - 1];
      assert last in b && all[..|all| - 1] == a + front && all[|all| - 1] == last;
      InsertBetween(a, front, x, leq);
    }
  }

  lemma {:induction false} SortOne<T>(x: T, leq: (T, T) -> bool)
    ensures SortBy([x], leq) == [x]
  {
    assert [x][..0] == [];
    assert SortBy([x][..0], leq) == [];
  }

  lemma {:induction false} SortedSnoc<T>(s: seq<T>, x: T, leq: (T, T) -> bool)
    requires Sorted(s, leq) && forall y :: y in s ==> leq(y, x)
    ensures Sorted(s + [x], leq)
  {
    var r := s + [x];
    forall i, j | 0 <= i < j < |r| ensures leq(r[i], r[j]) {
      if j == |s| { assert s[i] in s; }
    }
  }

  lemma {:induction false} InsertSorts<T(!new)>(s: seq<T>, x: T, leq: (T, T) -> bool)
    requires Transitive(leq) && Total(leq) && Sorted(s, leq)
    ensures Sorted(Insert(s, x, leq), leq)
  {
    if s == [] || leq(s[|s| - 1], x) {
      forall y | y in s ensures leq(y, x) {
        var i :| 0 <= i < |s| && s[i] == y;
        assert i < |s| - 1 ==> leq(s[i], s[|s| - 1]);
      }
      SortedSnoc(s, x, leq);
    } else {
      var front, last := s[..|s| - 1], s[|s| - 1];
      InsertSorts(front, x, leq);
      InsertKeeps(front, x, leq);
      var r := Insert(front, x, leq);
      forall y | y in r ensures leq(y, last) {
        assert y in multiset(r);
        assert y == x || y in front;
        if y != x {
          var i :| 0 <= i < |front| && front[i] == y;
          assert leq(s[i], s[|s| - 1]);
        }
      }
      SortedSnoc(r, last, leq);
    }
  }

  lemma {:induction false} SortSorts<T(!new)>(s: seq<T>, leq: (T, T) -> bool)
    requires Transitive(leq) && Total(leq)
    ensures Sorted(SortBy(s, leq), leq)
  {
    if s != [] {
      SortSorts(s[..|s| - 1], leq);
      InsertSorts(SortBy(s[..|s| - 1], leq), s[|s| - 1], leq);
    }
  }

  /** Distinct positions stay distinct positions: pairs of a permutation are pairs of the list. */
  lemma {:induction false} PermutedPairs<T(!new)>(s: seq<T>, t: seq<T>, p: (T, T) -> bool)
    requires multiset(s) == multiset(t)
    requires forall i, j :: 0 <= i < |s| && 0 <= j < |s| && i != j ==> p(s[i], s[j])
    ensures forall i, j :: 0 <= i < |t| && 0 <= j < |t| && i != j ==> p(t[i], t[j])
  {
    forall i, j | 0 <= i < |t| && 0 <= j < |t| && i != j ensures p(t[i], t[j]) {
      var i', j' := PairIn(s, t, i, j);
    }
  }

  lemma {:induction false} PairIn<T>(s: seq<T>, t: seq<T>, i: nat, j: nat) returns (i': nat, j': nat)
    requires multiset(s) == multiset(t) && i < |t| && j < |t| && i != j
    ensures i' < |s| && j' < |s| && i' != j' && s[i'] == t[i] && s[j'] == t[j]
  {
    assert t[i] in multiset(s) && t[j] in multiset(s);
    i' :| 0 <= i' < |s| && s[i'] == t[i];
    if t[i] != t[j] {
      j' :| 0 <= j' < |s| && s[j'] == t[j];
    } else {
      TwiceIn(t, i, j);
      j' := SecondIn(s, i');
    }
  }

  lemma {:induction false} TwiceIn<T>(t: seq<T>, i: nat, j: nat)
    requires i < |t| && j < |t| && i != j && t[i] == t[j]
    ensures multiset(t)[t[i]] >= 2
  {
    var lo, hi := if i < j then i else j, if i < j then j else i;
    assert t == t[..hi] + t[hi..];
    assert t[..hi][lo] == t[i] && t[hi..][0] == t[i];
    assert t[i] in multiset(t[..hi]) && t[i] in multiset(t[hi..]);
  }

  lemma {:induction false} SecondIn<T>(s: seq<T>, i: nat) returns (j: nat)
    requires i < |s| && multiset(s)[s[i]] >= 2
    ensures j < |s| && j != i && s[j] == s[i]
  {
    var rest := s[..i] + s[i + 1..];
    assert s == s[..i] + [s[i]] + s[i + 1..];
    assert multiset(s) == multiset(rest) + multiset{s[i]};
    assert s[i] in multiset(rest);
    var k :| 0 <= k < |rest| && rest[k] == s[i];
    j := if k < i then k else k + 1;
  }
}
