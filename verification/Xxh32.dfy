/** XXH32 as packages/hashline-core/src/xxhash32.ts computes it in JavaScript numbers, against the
    algorithm of the xxHash specification ("XXH32 Algorithm Description") in arithmetic modulo 2^32. */
module Xxh32 {

  import opened Text

  type Word = w: int | 0 <= w < 0x1_0000_0000

  const WRAP := 0x1_0000_0000
  const MAX_SAFE := 0x1F_FFFF_FFFF_FFFF

  const PRIME1: Word := 0x9e3779b1
  const PRIME2: Word := 0x85ebca77
  const PRIME3: Word := 0xc2b2ae3d
  const PRIME4: Word := 0x27d4eb2f
  const PRIME5: Word := 0x165667b1

  // ----- bits of natural numbers

  function Pow2(k: nat): (r: nat)
    ensures r >= 1
  {
    if k == 0 then 1 else 2 * Pow2(k - 1)
  }

  function Or(a: nat, b: nat): nat {
    if a == 0 && b == 0 then 0
    else 2 * Or(a / 2, b / 2) + (if a % 2 == 1 || b % 2 == 1 then 1 else 0)
  }

  function Xor(a: nat, b: nat): nat {
    if a == 0 && b == 0 then 0
    else 2 * Xor(a / 2, b / 2) + (if a % 2 != b % 2 then 1 else 0)
  }

  lemma {:induction false} OrZero(a: nat)
    ensures Or(a, 0) == a && Or(0, a) == a
  {
    if a != 0 { OrZero(a / 2); }
  }

  lemma {:induction false} XorBound(a: nat, b: nat, k: nat)
    requires a < Pow2(k) && b < Pow2(k)
    ensures Xor(a, b) < Pow2(k)
  {
    if k > 0 && !(a == 0 && b == 0) {
      XorBound(a / 2, b / 2, k - 1);
    }
  }

  /** `x * 2^k`, floor(`x / 2^k`) and `x mod 2^k`, one bit at a time. */
  function ShiftUp(x: int, k: nat): int { if k == 0 then x else 2 * ShiftUp(x, k - 1) }
  function ShiftDown(x: nat, k: nat): nat { if k == 0 then x else ShiftDown(x / 2, k - 1) }
  function LowBits(x: nat, k: nat): nat { if k == 0 then 0 else 2 * LowBits(x / 2, k - 1) + x % 2 }

  lemma {:induction false} SplitBits(x: nat, k: nat)
    ensures x == ShiftUp(ShiftDown(x, k), k) + LowBits(x, k) && LowBits(x, k) < Pow2(k)
  {
    if k > 0 { SplitBits(x / 2, k - 1); }
  }

  lemma {:induction false} ShiftUpAdds(x: int, y: int, k: nat)
    ensures ShiftUp(x + y, k) == ShiftUp(x, k) + ShiftUp(y, k)
  {
    if k > 0 { ShiftUpAdds(x, y, k - 1); }
  }

  lemma {:induction false} ShiftUpTwice(x: int, j: nat, k: nat)
    ensures ShiftUp(ShiftUp(x, j), k) == ShiftUp(x, j + k)
  {
    if k > 0 { ShiftUpTwice(x, j, k - 1); }
  }

  lemma {:induction false} ShiftUpPow2(j: nat, k: nat)
    ensures ShiftUp(Pow2(j), k) == Pow2(j + k)
  {
    if k > 0 { ShiftUpPow2(j, k - 1); }
  }

  lemma {:induction false} ShiftUpOrder(x: int, y: int, k: nat)
    requires x < y
    ensures ShiftUp(x, k) + Pow2(k) <= ShiftUp(y, k)
  {
    if k > 0 { ShiftUpOrder(x, y, k - 1); }
  }

  lemma {:induction false} ShiftUpNat(x: nat, k: nat)
    ensures ShiftUp(x, k) >= 0
  {
    if k > 0 { ShiftUpNat(x, k - 1); }
  }

  lemma {:induction false} ShiftDownBound(x: nat, j: nat, k: nat)
    requires x < Pow2(j + k)
    ensures ShiftDown(x, k) < Pow2(j)
  {
    if k > 0 { ShiftDownBound(x / 2, j, k - 1); }
  }

  lemma {:induction false} ShiftUpByte(x: int)
    ensures ShiftUp(x, 8) == 0x100 * x
  {
    assert ShiftUp(x, 1) == 2 * x;
    assert ShiftUp(x, 3) == 8 * x;
    assert ShiftUp(x, 5) == 32 * x;
    assert ShiftUp(x, 7) == 128 * x;
  }

  lemma {:induction false} ShiftUpBytes(x: int)
    ensures ShiftUp(x, 8) == 0x100 * x && ShiftUp(x, 16) == 0x1_0000 * x
    ensures ShiftUp(x, 24) == 0x100_0000 * x && ShiftUp(x, 32) == WRAP * x
  {
    hide ShiftUp;
    ShiftUpByte(x);
    ShiftUpTwice(x, 8, 8);
    ShiftUpByte(ShiftUp(x, 8));
    ShiftUpTwice(x, 16, 8);
    ShiftUpByte(ShiftUp(x, 16));
    ShiftUpTwice(x, 24, 8);
    ShiftUpByte(ShiftUp(x, 24));
  }

  /** Numbers without common bits add up. */
  lemma {:induction false} OrDisjoint(a: nat, k: nat, b: nat)
    requires b < Pow2(k)
    ensures ShiftUp(a, k) >= 0
    ensures Or(ShiftUp(a, k), b) == ShiftUp(a, k) + b && Or(b, ShiftUp(a, k)) == ShiftUp(a, k) + b
  {
    ShiftUpNat(a, k);
    if k == 0 {
      OrZero(a);
    } else {
      OrDisjoint(a, k - 1, b / 2);
    }
  }

  lemma {:induction false} Pow2IsShift(k: nat)
    ensures Pow2(k) == ShiftUp(1, k)
  {
    if k > 0 { Pow2IsShift(k - 1); }
  }

  lemma Pow2Values()
    ensures Pow2(8) == 0x100 && Pow2(16) == 0x1_0000 && Pow2(24) == 0x100_0000 && Pow2(32) == WRAP
  {
    hide Pow2, ShiftUp;
    ShiftUpBytes(1);
    Pow2IsShift(8);
    Pow2IsShift(16);
    Pow2IsShift(24);
    Pow2IsShift(32);
  }

  // ----- JavaScript operators

  function ToUint32(x: int): Word { x % WRAP }

  function ToInt32(x: int): int {
    if ToUint32(x) >= 0x8000_0000 then ToUint32(x) - WRAP else ToUint32(x)
  }

  lemma SignDoesNotMatter(x: int)
    ensures ToUint32(ToInt32(x)) == ToUint32(x)
  {
  }

  /** `a + b` in doubles, exact because the sum is a safe integer. */
  function Plus(a: int, b: int): int
    requires -MAX_SAFE <= a + b <= MAX_SAFE
  {
    a + b
  }

  function ShiftLeft(v: int, k: nat): int { ToInt32(ShiftUp(ToInt32(v), k)) }
  function ShiftRight(v: int, k: nat): nat { ShiftDown(ToUint32(v), k) }
  function BitOr(a: int, b: int): int { ToInt32(Or(ToUint32(a), ToUint32(b))) }
  function BitXor(a: int, b: int): int { ToInt32(Xor(ToUint32(a), ToUint32(b))) }

  /** `Math.imul`: the low 32 bits of the exact product, signed. */
  function Imul(a: int, b: int): int { ToInt32(ToUint32(a) * ToUint32(b)) }

  // ----- the helpers of the source

  function RotateLeft32(value: int, bits: nat): Word
    requires 0 < bits < 32
  {
    ToUint32(BitOr(ShiftLeft(value, bits), ShiftRight(value, 32 - bits)))
  }

  function ReadUint32LittleEndian(input: seq<Byte>, offset: nat): Word
    requires offset + 4 <= |input|
  {
    ToUint32(BitOr(BitOr(BitOr(input[offset], ShiftLeft(input[offset + 1], 8)),
                         ShiftLeft(input[offset + 2], 16)),
                   ShiftLeft(input[offset + 3], 24)))
  }

  function Round32(accumulator: Word, value: Word): Word {
    RoundFrom(ToUint32(Plus(accumulator, Imul(value, PRIME2))))
  }

  function RoundFrom(added: Word): Word { ToUint32(Imul(RotateLeft32(added, 13), PRIME1)) }

  // ----- the specification

  function Add(a: int, b: int): Word { (a + b) % WRAP }
  function Mul(a: Word, b: Word): Word { (a * b) % WRAP }

  function Rotl(x: Word, r: nat): nat
    requires 0 < r < 32
  {
    ShiftUp(x, r) % WRAP + ShiftDown(x, 32 - r)
  }

  function Lane(b: seq<Byte>): Word
    requires |b| == 4
  {
    var b0: int, b1: int, b2: int, b3: int := b[0], b[1], b[2], b[3];
    b0 + 0x100 * b1 + 0x1_0000 * b2 + 0x100_0000 * b3
  }

  /** What is shifted out at the top is exactly what comes back in at the bottom. */
  lemma {:induction false} ShiftUpWraps(x: Word, r: nat)
    requires 0 < r < 32
    ensures ShiftUp(x, r) % WRAP == ShiftUp(LowBits(x, 32 - r), r)
    ensures ShiftUp(LowBits(x, 32 - r), r) + Pow2(r) <= WRAP
    ensures ShiftDown(x, 32 - r) < Pow2(r)
  {
    hide ShiftUp, ShiftDown, LowBits, Pow2;
    var h, l := ShiftDown(x, 32 - r), LowBits(x, 32 - r);
    SplitBits(x, 32 - r);
    ShiftUpAdds(ShiftUp(h, 32 - r), l, r);
    ShiftUpTwice(h, 32 - r, r);
    ShiftUpBytes(h);
    assert ShiftUp(x, r) == WRAP * h + ShiftUp(l, r);
    ShiftUpOrder(l, Pow2(32 - r), r);
    ShiftUpPow2(32 - r, r);
    Pow2Values();
    ShiftUpNat(l, r);
    ShiftDownBound(x, r, 32 - r);
    assert Pow2(r) >= 1;
    ModOfSum(h, ShiftUp(l, r));
  }

  lemma {:induction false} ModOfSum(h: int, r: int)
    requires 0 <= r < WRAP
    ensures (WRAP * h + r) % WRAP == r
  {
  }

  lemma {:induction false} ShiftedBits(x: Word, k: nat)
    ensures ToUint32(ShiftLeft(x, k)) == ShiftUp(x, k) % WRAP
  {
    SignDoesNotMatter(ShiftUp(ToInt32(x), k));
    if ToInt32(x) != x {
      ShiftUpAdds(x, -WRAP, k);
      ShiftUpWrap(k);
      ModOfShift(ShiftUp(x, k), Pow2(k));
    }
  }

  lemma {:induction false} ShiftUpWrap(k: nat)
    ensures ShiftUp(-WRAP, k) == -(WRAP * Pow2(k))
  {
    if k > 0 { ShiftUpWrap(k - 1); }
  }

  lemma {:induction false} ModOfShift(a: int, d: nat)
    ensures (a - WRAP * d) % WRAP == a % WRAP
  {
  }

  /** The shift-and-or rotation is the rotation of the specification. */
  lemma {:induction false} RotateIsRotl(x: Word, r: nat)
    requires 0 < r < 32
    ensures RotateLeft32(x, r) == Rotl(x, r) && Rotl(x, r) < WRAP
  {
    hide Or, Pow2, ShiftUp, ShiftDown, LowBits, ShiftLeft, ToInt32;
    ShiftUpWraps(x, r);
    ShiftedBits(x, r);
    var high, low := ShiftUp(LowBits(x, 32 - r), r), ShiftDown(x, 32 - r);
    OrDisjoint(LowBits(x, 32 - r), r, low);
    SignDoesNotMatter(high + low);
  }

  lemma {:induction false} OrInByte(acc: int, b: Byte, k: nat)
    requires ToUint32(acc) < Pow2(k) && ToUint32(acc) + ShiftUp(b, k) < WRAP
    ensures ToUint32(BitOr(acc, ShiftLeft(b, k))) == ToUint32(acc) + ShiftUp(b, k)
  {
    hide Or, Pow2, ShiftUp, ShiftLeft, ToInt32;
    ShiftUpNat(b, k);
    ShiftedBits(b, k);
    OrDisjoint(b, k, ToUint32(acc));
    SignDoesNotMatter(ToUint32(acc) + ShiftUp(b, k));
  }

  lemma {:induction false} ReadIsLane(input: seq<Byte>, offset: nat)
    requires offset + 4 <= |input|
    ensures ReadUint32LittleEndian(input, offset) == Lane(input[offset..offset + 4])
  {
    hide BitOr, Pow2, ShiftUp, ShiftLeft;
    Pow2Values();
    var b := input[offset..offset + 4];
    var b0: int, b1: int, b2: int, b3: int := b[0], b[1], b[2], b[3];
    assert b0 == input[offset] && b1 == input[offset + 1] && b2 == input[offset + 2] && b3 == input[offset + 3];
    ShiftUpBytes(b1);
    ShiftUpBytes(b2);
    ShiftUpBytes(b3);
    OrInByte(b0, b1, 8);
    var w1 := BitOr(b0, ShiftLeft(b1, 8));
    OrInByte(w1, b2, 16);
    var w2 := BitOr(w1, ShiftLeft(b2, 16));
    OrInByte(w2, b3, 24);
  }

  lemma {:induction false} ImulIsMul(a: Word, b: Word)
    ensures ToUint32(Imul(a, b)) == Mul(a, b)
    ensures -0x8000_0000 <= Imul(a, b) < 0x8000_0000
    ensures forall c: int :: ToUint32(c + Imul(a, b)) == Add(c, a * b)
  {
    SignDoesNotMatter(a * b);
    forall c: int ensures ToUint32(c + Imul(a, b)) == Add(c, a * b) {
      SumMod(c, Imul(a, b), a * b);
    }
  }

  lemma {:induction false} SumMod(c: int, x: int, y: int)
    requires x % WRAP == y % WRAP
    ensures (c + x) % WRAP == (c + y) % WRAP
  {
  }

  // ----- the specification, step by step

  function RoundStep(acc: Word, lane: Word): (r: Word) {
    RotlBound(Add(acc, lane * PRIME2), 13);
    Mul(Rotl(Add(acc, lane * PRIME2), 13), PRIME1)
  }

  lemma RotlBound(x: Word, r: nat)
    requires 0 < r < 32
    ensures Rotl(x, r) < WRAP
  {
    hide Rotl, RotateLeft32;
    RotateIsRotl(x, r);
  }

  datatype Lanes = Lanes(a: Word, b: Word, c: Word, d: Word)

  /** Steps 1 and 2: accumulators over whole 16-byte stripes; the rest is left over. */
  function Stripes(v: Lanes, s: seq<Byte>): (Lanes, seq<Byte>)
    decreases |s|
  {
    if |s| < 16 then (v, s)
    else Stripes(Lanes(RoundStep(v.a, Lane(s[0..4])), RoundStep(v.b, Lane(s[4..8])),
                       RoundStep(v.c, Lane(s[8..12])), RoundStep(v.d, Lane(s[12..16]))), s[16..])
  }

  function InitialLanes(seed: Word): Lanes {
    Lanes(Add(Add(seed, PRIME1), PRIME2), Add(seed, PRIME2), seed, Add(seed, -(PRIME1 as int)))
  }

  /** Step 3: convergence. */
  function Converge(v: Lanes): Word {
    Add(Add(Add(Rotl(v.a, 1), Rotl(v.b, 7)), Rotl(v.c, 12)), Rotl(v.d, 18))
  }

  function WordStep(acc: Word, lane: Word): Word {
    RotlBound(Add(acc, lane * PRIME3), 17);
    Mul(Rotl(Add(acc, lane * PRIME3), 17), PRIME4)
  }

  function ByteStep(acc: Word, b: Byte): Word {
    var n: Word := b;
    RotlBound(Add(acc, n * PRIME5), 11);
    Mul(Rotl(Add(acc, n * PRIME5), 11), PRIME1)
  }

  /** Step 5: remaining words, then remaining bytes. */
  function RestWords(acc: Word, s: seq<Byte>): (Word, seq<Byte>)
    decreases |s|
  {
    if |s| < 4 then (acc, s) else RestWords(WordStep(acc, Lane(s[0..4])), s[4..])
  }

  function RestBytes(acc: Word, s: seq<Byte>): Word
    decreases |s|
  {
    if s == [] then acc else RestBytes(ByteStep(acc, s[0]), s[1..])
  }

  function XorShift(x: Word, k: nat): (r: Word) {
    ShiftDownShrinks(x, k);
    Pow2Values();
    XorBound(x, ShiftDown(x, k), 32);
    Xor(x, ShiftDown(x, k))
  }

  lemma {:induction false} ShiftDownShrinks(x: nat, k: nat)
    ensures ShiftDown(x, k) <= x
  {
    if k > 0 { ShiftDownShrinks(x / 2, k - 1); }
  }

  /** Step 6: final mix. */
  function Avalanche(x: Word): Word {
    XorShift(Mul(XorShift(Mul(XorShift(x, 15), PRIME2), 13), PRIME3), 16)
  }

  function Start(input: seq<Byte>, seed: Word): (Word, seq<Byte>) {
    if |input| < 16 then (Add(seed, PRIME5), input)
    else
      var (v, rest) := Stripes(InitialLanes(seed), input);
      (Converge(v), rest)
  }

  /** XXH32 of the xxHash specification. */
  function Xxh32Of(input: seq<Byte>, seed: Word): Word {
    var (acc, rest) := Start(input, seed);
    var (acc', rest') := RestWords(Add(acc, |input|), rest);
    Avalanche(RestBytes(acc', rest'))
  }

  // ----- the helpers compute the steps

  lemma {:induction false} RoundIsStep(acc: Word, lane: Word)
    ensures Round32(acc, lane) == RoundStep(acc, lane)
  {
    hide RotateLeft32, Rotl, Imul;
    ImulIsMul(lane, PRIME2);
    var added := Add(acc, lane * PRIME2);
    RotateIsRotl(added, 13);
    ImulIsMul(Rotl(added, 13), PRIME1);
  }

  /** `hash = imul(rotl(hash + imul(value, p), r), q)` with the sum taken modulo 2^32. */
  function MixIn(hash: Word, value: Word, p: Word, r: nat, q: Word): Word
    requires 0 < r < 32
  {
    ImulIsMul(value, p);
    ToUint32(Imul(RotateLeft32(ToUint32(Plus(hash, Imul(value, p))), r), q))
  }

  lemma {:induction false} MixIsStep(hash: Word, value: Word, p: Word, r: nat, q: Word)
    requires 0 < r < 32
    ensures Rotl(Add(hash, value * p), r) < WRAP
    ensures MixIn(hash, value, p, r, q) == Mul(Rotl(Add(hash, value * p), r), q)
  {
    hide RotateLeft32, Rotl, Imul;
    ImulIsMul(value, p);
    RotateIsRotl(Add(hash, value * p), r);
    ImulIsMul(Rotl(Add(hash, value * p), r), q);
  }

  /** `(hash ^ (hash >>> k)) >>> 0`. */
  function XorShiftJs(hash: Word, k: nat): Word { ToUint32(BitXor(hash, ShiftRight(hash, k))) }

  lemma {:induction false} XorShiftIsSpec(hash: Word, k: nat)
    ensures XorShiftJs(hash, k) == XorShift(hash, k)
  {
    hide Xor, ShiftDown, Pow2;
    ShiftDownShrinks(hash, k);
    Pow2Values();
    XorBound(hash, ShiftDown(hash, k), 32);
    SignDoesNotMatter(Xor(hash, ShiftDown(hash, k)));
  }

  // ----- the JavaScript loop

  lemma {:induction false} StripeStep(v: Lanes, input: seq<Byte>, offset: nat)
    requires offset + 16 <= |input|
    ensures Stripes(v, input[offset..]) ==
            Stripes(Lanes(Round32(v.a, ReadUint32LittleEndian(input, offset)),
                          Round32(v.b, ReadUint32LittleEndian(input, offset + 4)),
                          Round32(v.c, ReadUint32LittleEndian(input, offset + 8)),
                          Round32(v.d, ReadUint32LittleEndian(input, offset + 12))), input[offset + 16..])
  {
    hide Round32, RoundStep, ReadUint32LittleEndian, Lane;
    var s := input[offset..];
    assert s[0..4] == input[offset..offset + 4] && s[4..8] == input[offset + 4..offset + 8];
    assert s[8..12] == input[offset + 8..offset + 12] && s[12..16] == input[offset + 12..offset + 16];
    assert s[16..] == input[offset + 16..];
    ReadIsLane(input, offset);
    ReadIsLane(input, offset + 4);
    ReadIsLane(input, offset + 8);
    ReadIsLane(input, offset + 12);
    RoundIsStep(v.a, Lane(s[0..4]));
    RoundIsStep(v.b, Lane(s[4..8]));
    RoundIsStep(v.c, Lane(s[8..12]));
    RoundIsStep(v.d, Lane(s[12..16]));
  }

  lemma {:induction false} WordLoopStep(acc: Word, input: seq<Byte>, offset: nat)
    requires offset + 4 <= |input|
    ensures RestWords(acc, input[offset..]) ==
            RestWords(MixIn(acc, ReadUint32LittleEndian(input, offset), PRIME3, 17, PRIME4), input[offset + 4..])
  {
    hide MixIn, Rotl, ReadUint32LittleEndian, Lane, Mul, Add;
    var s := input[offset..];
    assert s[0..4] == input[offset..offset + 4] && s[4..] == input[offset + 4..];
    ReadIsLane(input, offset);
    MixIsStep(acc, Lane(s[0..4]), PRIME3, 17, PRIME4);
  }

  lemma {:induction false} ByteLoopStep(acc: Word, input: seq<Byte>, offset: nat)
    requires offset < |input|
    ensures RestBytes(acc, input[offset..])
         == RestBytes(MixIn(acc, input[offset], PRIME5, 11, PRIME1), input[offset + 1..])
  {
    hide MixIn, Rotl, Mul, Add;
    var s := input[offset..];
    assert s[0] == input[offset] && s[1..] == input[offset + 1..];
    MixIsStep(acc, s[0], PRIME5, 11, PRIME1);
  }

  lemma {:induction false} ConvergeInJs(v: Lanes)
    ensures ToUint32(Plus(ToUint32(Plus(ToUint32(Plus(RotateLeft32(v.a, 1), RotateLeft32(v.b, 7))),
                                        RotateLeft32(v.c, 12))), RotateLeft32(v.d, 18))) == Converge(v)
  {
    hide RotateLeft32, Rotl;
    RotateIsRotl(v.a, 1);
    RotateIsRotl(v.b, 7);
    RotateIsRotl(v.c, 12);
    RotateIsRotl(v.d, 18);
  }

  /** The accumulation part of `xxHash32Js`. */
  method Accumulate(input: seq<Byte>, seed: Word) returns (hash: Word, offset: nat)
    requires |input| >= 16
    ensures offset <= |input| && Start(input, seed) == (hash, input[offset..])
  {
    hide Stripes, Round32, ReadUint32LittleEndian, RotateLeft32, Converge, Start;
    StartIs(input, seed);
    offset := 0;
    var limit := |input| - 16;
    var v1 := ToUint32(Plus(Plus(seed, PRIME1), PRIME2));
    var v2 := ToUint32(Plus(seed, PRIME2));
    var v3 := seed;
    var v4 := ToUint32(Plus(seed, -(PRIME1 as int)));
    assert Lanes(v1, v2, v3, v4) == InitialLanes(seed);
    assert input[0..] == input;
    while offset <= limit
      invariant offset <= |input|
      invariant Stripes(InitialLanes(seed), input) == Stripes(Lanes(v1, v2, v3, v4), input[offset..])
      decreases |input| - offset
    {
      StripeStep(Lanes(v1, v2, v3, v4), input, offset);
      v1 := Round32(v1, ReadUint32LittleEndian(input, offset));
      offset := offset + 4;
      v2 := Round32(v2, ReadUint32LittleEndian(input, offset));
      offset := offset + 4;
      v3 := Round32(v3, ReadUint32LittleEndian(input, offset));
      offset := offset + 4;
      v4 := Round32(v4, ReadUint32LittleEndian(input, offset));
      offset := offset + 4;
    }
    StripesEnd(Lanes(v1, v2, v3, v4), input[offset..]);
    ConvergeInJs(Lanes(v1, v2, v3, v4));
    hash := ToUint32(Plus(RotateLeft32(v1, 1), RotateLeft32(v2, 7)));
    hash := ToUint32(Plus(hash, RotateLeft32(v3, 12)));
    hash := ToUint32(Plus(hash, RotateLeft32(v4, 18)));
  }

  lemma StartIs(input: seq<Byte>, seed: Word)
    requires |input| >= 16
    ensures var s := Stripes(InitialLanes(seed), input);
            Start(input, seed) == (Converge(s.0), s.1)
  {
    hide Stripes, Converge, InitialLanes;
  }

  lemma StripesEnd(v: Lanes, s: seq<Byte>)
    requires |s| < 16
    ensures Stripes(v, s) == (v, s)
  {
  }

  lemma LoopsEnd(acc: Word, s: seq<Byte>)
    ensures |s| < 4 ==> RestWords(acc, s) == (acc, s)
    ensures s == [] ==> RestBytes(acc, s) == acc
  {
  }

  /** `xxHash32Js`: for every byte sequence and seed, the JavaScript code computes XXH32.  All reads
      are in bounds and all sums are safe integers. */
  method XxHash32Js(input: seq<Byte>, seed: Word) returns (r: Word)
    requires |input| <= MAX_SAFE - WRAP
    ensures r == Xxh32Of(input, seed)
  {
    hide Start, RestWords, RestBytes, MixIn, ReadUint32LittleEndian, XorShift, XorShiftJs, Imul;
    var offset: nat := 0;
    var hash: Word;
    if |input| >= 16 {
      hash, offset := Accumulate(input, seed);
    } else {
      hash := ToUint32(Plus(seed, PRIME5));
      ShortStart(input, seed);
      assert input[0..] == input;
    }
    hash := ToUint32(Plus(hash, |input|));
    ghost var words := RestWords(hash, input[offset..]);
    while offset + 4 <= |input|
      invariant offset <= |input|
      invariant words == RestWords(hash, input[offset..])
    {
      WordLoopStep(hash, input, offset);
      hash := MixIn(hash, ReadUint32LittleEndian(input, offset), PRIME3, 17, PRIME4);
      offset := offset + 4;
    }
    LoopsEnd(hash, input[offset..]);
    ghost var mixed := RestBytes(hash, input[offset..]);
    while offset < |input|
      invariant offset <= |input|
      invariant mixed == RestBytes(hash, input[offset..])
    {
      ByteLoopStep(hash, input, offset);
      hash := MixIn(hash, input[offset], PRIME5, 11, PRIME1);
      offset := offset + 1;
    }
    LoopsEnd(hash, input[offset..]);
    XorShiftIsSpec(hash, 15);
    hash := XorShiftJs(hash, 15);
    ImulIsMul(hash, PRIME2);
    hash := ToUint32(Imul(hash, PRIME2));
    XorShiftIsSpec(hash, 13);
    hash := XorShiftJs(hash, 13);
    ImulIsMul(hash, PRIME3);
    hash := ToUint32(Imul(hash, PRIME3));
    XorShiftIsSpec(hash, 16);
    r := XorShiftJs(hash, 16);
  }

  lemma ShortStart(input: seq<Byte>, seed: Word)
    requires |input| < 16
    ensures Start(input, seed) == (ToUint32(Plus(seed, PRIME5)), input)
  {
  }
}
