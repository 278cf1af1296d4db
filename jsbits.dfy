/** The 32-bit integer operators of JavaScript (`|`, `&`, `~`, `<<`, `>>`)
    on integral numbers: each operand is reduced to its low 32 bits in two's
    complement, the bits are combined, and the result is read back as a
    signed 32-bit integer. Bit sequences list the least significant bit
    first. */
module JsBits {
  function Pow2(n: nat): (p: nat)
    ensures p >= 1
  {
    if n == 0 then 1 else 2 * Pow2(n - 1)
  }

  const TWO_32: nat := 0x1_0000_0000

  lemma {:induction false} Pow2Add(a: nat, b: nat)
    ensures Pow2(a + b) == Pow2(a) * Pow2(b)
  {
    if a > 0 {
      Pow2Add(a - 1, b);
    }
  }

  lemma {:induction false} Pow2Of32()
    ensures Pow2(32) == TWO_32
  {
    assert Pow2(8) == 256;
    Pow2Add(8, 8);
    Pow2Add(16, 16);
  }

  /** Bit `i` of `x` in two's complement (`/` and `%` on `int` round toward
      minus infinity, which is what two's complement needs). */
  function Bit(x: int, i: nat): bool
    decreases i
  {
    if i == 0 then x % 2 == 1 else Bit(x / 2, i - 1)
  }

  /** The low `n` bits of `x`. */
  function BitsOf(x: int, n: nat): (bs: seq<bool>)
    ensures |bs| == n
  {
    seq(n, i requires 0 <= i < n => Bit(x, i))
  }

  /** The unsigned value of a bit sequence. */
  function ValueOf(bs: seq<bool>): nat {
    if bs == [] then 0 else (if bs[0] then 1 else 0) + 2 * ValueOf(bs[1..])
  }

  /** The signed 32-bit integer with bits `bs` (the top bit weighs
      -2^31). */
  function Int32(bs: seq<bool>): int
    requires |bs| == 32
  {
    ValueOf(bs) - (if bs[31] then TWO_32 else 0)
  }

  function Or(a: seq<bool>, b: seq<bool>): (r: seq<bool>)
    requires |a| == |b|
    ensures |r| == |a| && forall i :: 0 <= i < |a| ==> r[i] == (a[i] || b[i])
  {
    seq(|a|, i requires 0 <= i < |a| => a[i] || b[i])
  }

  function And(a: seq<bool>, b: seq<bool>): (r: seq<bool>)
    requires |a| == |b|
    ensures |r| == |a| && forall i :: 0 <= i < |a| ==> r[i] == (a[i] && b[i])
  {
    seq(|a|, i requires 0 <= i < |a| => a[i] && b[i])
  }

  function Not(a: seq<bool>): (r: seq<bool>)
    ensures |r| == |a| && forall i :: 0 <= i < |a| ==> r[i] == !a[i]
  {
    seq(|a|, i requires 0 <= i < |a| => !a[i])
  }

  /** The shift count of `<<` and `>>`: the low five bits of the right
      operand. */
  function ShiftCount(n: int): (k: nat)
    ensures k < 32
  {
    n % 32
  }

  /** `x | y` */
  function BitOr(x: int, y: int): int {
    Int32(Or(BitsOf(x, 32), BitsOf(y, 32)))
  }

  /** `x & y` */
  function BitAnd(x: int, y: int): int {
    Int32(And(BitsOf(x, 32), BitsOf(y, 32)))
  }

  /** `~x` */
  function BitNot(x: int): int {
    Int32(Not(BitsOf(x, 32)))
  }

  /** `x << n` */
  function ShiftLeft(x: int, n: int): int {
    var bs := BitsOf(x, 32);
    var k := ShiftCount(n);
    Int32(seq(32, i requires 0 <= i < 32 => i >= k && bs[i - k]))
  }

  /** `x >> n`, which copies the sign bit into the vacated places. */
  function ShiftRight(x: int, n: int): int {
    Int32(ShiftedRight(BitsOf(x, 32), ShiftCount(n)))
  }

  /** Bit `i` of `x`, as `(x >> i) & 1` reads it. */
  function TestBit(x: int, i: nat): bool
    requires i < 32
  {
    BitsOf(x, 32)[i]
  }

  /** A single set bit. */
  function Single(k: nat): (r: seq<bool>)
    ensures |r| == 32
  {
    seq(32, i requires 0 <= i < 32 => i == k)
  }

  /** No bit set. */
  function Zeros(n: nat): (r: seq<bool>)
    ensures |r| == n
  {
    seq(n, i requires 0 <= i < n => false)
  }

  // ---- reading bits back ----

  lemma {:induction false} BitOfValueOf(bs: seq<bool>, i: nat)
    requires i < |bs|
    ensures Bit(ValueOf(bs), i) == bs[i]
    decreases i
  {
    if i > 0 {
      BitOfValueOf(bs[1..], i - 1);
    }
  }

  lemma {:induction false} BitsOfValueOf(bs: seq<bool>)
    ensures BitsOf(ValueOf(bs), |bs|) == bs
  {
    forall i | 0 <= i < |bs|
      ensures Bit(ValueOf(bs), i) == bs[i]
    {
      BitOfValueOf(bs, i);
    }
  }

  /** Subtracting `2^n` changes none of the low `n` bits. */
  lemma {:induction false} BitPeriodic(x: int, n: nat, i: nat)
    requires i < n
    ensures Bit(x - Pow2(n), i) == Bit(x, i)
    decreases i
  {
    assert (x - Pow2(n)) / 2 == x / 2 - Pow2(n - 1);
    if i > 0 {
      BitPeriodic(x / 2, n - 1, i - 1);
    }
  }

  lemma {:induction false} BitsOfPeriodic(x: int, n: nat)
    ensures BitsOf(x - Pow2(n), n) == BitsOf(x, n)
  {
    forall i | 0 <= i < n
      ensures Bit(x - Pow2(n), i) == Bit(x, i)
    {
      BitPeriodic(x, n, i);
    }
  }

  /** The bits of a signed 32-bit integer are the ones it was built from. */
  lemma {:induction false} BitsOfInt32(bs: seq<bool>)
    requires |bs| == 32
    ensures BitsOf(Int32(bs), 32) == bs
  {
    BitsOfValueOf(bs);
    if bs[31] {
      Pow2Of32();
      BitsOfPeriodic(ValueOf(bs), 32);
    }
  }

  lemma {:induction false} BitOfZero(i: nat)
    ensures !Bit(0, i)
    decreases i
  {
    if i > 0 {
      BitOfZero(i - 1);
    }
  }

  lemma {:induction false} BitsOfZero(n: nat)
    ensures BitsOf(0, n) == Zeros(n)
  {
    forall i | 0 <= i < n
      ensures !Bit(0, i)
    {
      BitOfZero(i);
    }
  }

  lemma {:induction false} ValueOfZeros(n: nat)
    ensures ValueOf(Zeros(n)) == 0
  {
    if n > 0 {
      assert Zeros(n)[1..] == Zeros(n - 1);
      ValueOfZeros(n - 1);
    }
  }

  /** A value is nonzero exactly when one of its bits is set. */
  lemma {:induction false} ValueOfNonZero(bs: seq<bool>)
    ensures ValueOf(bs) != 0 <==> exists i :: 0 <= i < |bs| && bs[i]
  {
    if bs != [] {
      ValueOfNonZero(bs[1..]);
      if exists i :: 0 <= i < |bs[1..]| && bs[1..][i] {
        var i :| 0 <= i < |bs[1..]| && bs[1..][i];
        assert bs[i + 1];
      }
      if exists i :: 0 <= i < |bs| && bs[i] {
        var i :| 0 <= i < |bs| && bs[i];
        if i > 0 {
          assert bs[1..][i - 1];
        }
      }
    }
  }

  lemma {:induction false} ValueOfBound(bs: seq<bool>)
    ensures ValueOf(bs) < Pow2(|bs|)
  {
    if bs != [] {
      ValueOfBound(bs[1..]);
    }
  }

  /** A signed 32-bit integer is zero exactly when no bit is set. */
  lemma {:induction false} Int32NonZero(bs: seq<bool>)
    requires |bs| == 32
    ensures Int32(bs) != 0 <==> exists i :: 0 <= i < 32 && bs[i]
  {
    ValueOfNonZero(bs);
    ValueOfBound(bs);
    Pow2Of32();
    if bs[31] {
      assert Int32(bs) < 0;
    }
  }

  lemma {:induction false} Int32Zeros()
    ensures Int32(Zeros(32)) == 0
  {
    ValueOfZeros(32);
  }

  lemma {:induction false} BitsOfOne()
    ensures BitsOf(1, 32) == Single(0)
  {
    forall i | 0 < i < 32
      ensures !Bit(1, i)
    {
      BitOfZero(i - 1);
    }
  }

  /** `1 << k` has exactly bit `k` set. */
  lemma {:induction false} BitsOfShiftedOne(n: int)
    ensures BitsOf(ShiftLeft(1, n), 32) == Single(ShiftCount(n))
  {
    BitsOfOne();
    var k := ShiftCount(n);
    var shifted := seq(32, i requires 0 <= i < 32 => i >= k && BitsOf(1, 32)[i - k]);
    assert shifted == Single(k);
    BitsOfInt32(shifted);
  }

  /** The bits of `x | y`, `x & y` and `~x`. */
  lemma {:induction false} BitsOfOps(x: int, y: int)
    ensures BitsOf(BitOr(x, y), 32) == Or(BitsOf(x, 32), BitsOf(y, 32))
    ensures BitsOf(BitAnd(x, y), 32) == And(BitsOf(x, 32), BitsOf(y, 32))
    ensures BitsOf(BitNot(x), 32) == Not(BitsOf(x, 32))
  {
    BitsOfInt32(Or(BitsOf(x, 32), BitsOf(y, 32)));
    BitsOfInt32(And(BitsOf(x, 32), BitsOf(y, 32)));
    BitsOfInt32(Not(BitsOf(x, 32)));
  }

  /** `(x >> i) & 1` is bit `i` of `x`: 1 when it is set, 0 otherwise. */
  lemma {:induction false} ShiftRightAndOne(x: int, i: nat)
    requires i < 32
    ensures BitAnd(ShiftRight(x, i), 1) == if TestBit(x, i) then 1 else 0
  {
    var shifted := ShiftedRight(BitsOf(x, 32), i);
    BitsOfInt32(shifted);
    BitsOfOne();
    LowBit(shifted);
  }

  function ShiftedRight(bs: seq<bool>, k: nat): (r: seq<bool>)
    requires |bs| == 32 && k < 32
    ensures |r| == 32 && r[0] == bs[k]
  {
    seq(32, j requires 0 <= j < 32 => if j + k < 32 then bs[j + k] else bs[31])
  }

  /** `y & 1` keeps the lowest bit. */
  lemma {:induction false} LowBit(bs: seq<bool>)
    requires |bs| == 32
    ensures Int32(And(bs, Single(0))) == if bs[0] then 1 else 0
  {
    var r := And(bs, Single(0));
    if bs[0] {
      assert r == Single(0);
      ValueOfSingleZero();
    } else {
      assert r == Zeros(32);
      Int32Zeros();
    }
  }

  lemma {:induction false} ValueOfSingleZero()
    ensures ValueOf(Single(0)) == 1
  {
    assert Single(0)[1..] == Zeros(31);
    ValueOfZeros(31);
  }

  /** `0 << n` is 0. */
  lemma {:induction false} BitsOfShiftedZero(n: int)
    ensures BitsOf(ShiftLeft(0, n), 32) == Zeros(32)
  {
    BitsOfZero(32);
    var k := ShiftCount(n);
    var shifted := seq(32, i requires 0 <= i < 32 => i >= k && BitsOf(0, 32)[i - k]);
    assert shifted == Zeros(32);
    BitsOfInt32(shifted);
  }

  /** `x & (1 << k)` is nonzero exactly when bit `k` of `x` is set. */
  lemma {:induction false} MaskedBit(x: int, k: nat)
    requires k < 32
    ensures BitAnd(x, ShiftLeft(1, k)) != 0 <==> TestBit(x, k)
  {
    BitsOfShiftedOne(k);
    var masked := And(BitsOf(x, 32), Single(k));
    Int32NonZero(masked);
    if TestBit(x, k) {
      assert masked[k];
    }
  }

  /** A value whose bits from `k` on are clear is below `2^k`. */
  lemma {:induction false} ValueOfLowBits(bs: seq<bool>, k: nat)
    requires k <= |bs|
    requires forall j :: k <= j < |bs| ==> !bs[j]
    ensures ValueOf(bs) < Pow2(k)
  {
    if bs != [] {
      if k == 0 {
        ValueOfZero(bs);
      } else {
        ValueOfLowBits(bs[1..], k - 1);
      }
    }
  }

  lemma {:induction false} ValueOfZero(bs: seq<bool>)
    requires forall j :: 0 <= j < |bs| ==> !bs[j]
    ensures ValueOf(bs) == 0
  {
    if bs != [] {
      ValueOfZero(bs[1..]);
    }
  }

  /** The bits of 7: the three lowest. */
  lemma {:induction false} BitsOfSeven()
    ensures forall i :: 0 <= i < 32 ==> BitsOf(7, 32)[i] == (i < 3)
  {
    assert Bit(7, 0);
    assert Bit(7, 1) == Bit(3, 0);
    assert Bit(7, 2) == Bit(3, 1) == Bit(1, 0);
    forall i | 0 <= i < 32
      ensures BitsOf(7, 32)[i] == (i < 3)
    {
      if i >= 3 {
        assert Bit(7, i) == Bit(3, i - 1);
        assert Bit(3, i - 1) == Bit(1, i - 2);
        assert Bit(1, i - 2) == Bit(0, i - 3);
        BitOfZero(i - 3);
      }
    }
  }

  // ---- Numbers made from mathematical integers ----

  const TWO_53: nat := 0x20_0000_0000_0000

  lemma {:induction false} Pow2Of53()
    ensures Pow2(53) == TWO_53
  {
    Pow2Of32();
    assert Pow2(5) == 32;
    Pow2Add(8, 8);
    Pow2Add(16, 5);
    Pow2Add(32, 21);
  }

  /** The position of the highest set bit of a positive integer. */
  function Log2(n: nat): (e: nat)
    requires n >= 1
    ensures Pow2(e) <= n < Pow2(e + 1)
  {
    if n < 2 then 0 else 1 + Log2(n / 2)
  }

  /** `Pow2` grows with its exponent. */
  lemma {:induction false} Pow2Monotone(a: nat, b: nat)
    requires a <= b
    ensures Pow2(a) <= Pow2(b)
    decreases b - a
  {
    if a < b {
      Pow2Monotone(a, b - 1);
    }
  }

  /** A positive multiplier does not make a non-negative number smaller. */
  lemma {:induction false} MulAtLeast(a: int, d: int)
    requires a >= 1 && d >= 0
    ensures a * d >= d
    decreases a
  {
    if a > 1 {
      MulAtLeast(a - 1, d);
      assert a * d == (a - 1) * d + d;
    }
  }

  /** Dividing `q * d + r` by `d` gives `q`, with remainder `r`. */
  lemma {:induction false} DivModOf(x: int, d: int, q: int, r: int)
    requires d > 0 && 0 <= r < d && x == q * d + r
    ensures x / d == q && x % d == r
  {
    var q', r' := x / d, x % d;
    assert x == q' * d + r';
    assert q * d - q' * d == (q - q') * d;
    if q' < q {
      MulAtLeast(q - q', d);
    } else if q' > q {
      MulAtLeast(q' - q, d);
    }
  }

  /** Below 2^1024, the least power of two that is no Number. */
  lemma {:induction false} Pow2BelowInfinity(e: nat)
    requires e < 1024
    ensures Pow2(e + 1) <= Pow2(1024)
  {
    Pow2Monotone(e + 1, 1024);
  }

  /** A Number with an integral value: the value, or one of the two
      infinities. */
  datatype Number = Finite(value: int) | Infinite(negative: bool)

  /** The Number nearest a non-negative integer, as the language turns a
      mathematical value into a Number: the integer itself below 2^53;
      above, the integer rounded to 53 significant bits, a tie going to the
      neighbour whose last significant bit is 0; `Infinity` once the
      rounding reaches 2^1024. */
  function RoundMagnitude(n: nat): (r: Number)
    ensures n < TWO_53 ==> r == Finite(n)
    ensures r.Finite? ==> r.value >= 0
    ensures r.Infinite? ==> !r.negative
  {
    Pow2Of53();
    if n < Pow2(53) then Finite(n)
    else
      LogAtLeast(n, 53);
      var ulp := Pow2(Log2(n) - 52);
      var rounded := RoundedUnits(n, ulp);
      if rounded * ulp >= Pow2(1024) then Infinite(false) else Finite(rounded * ulp)
  }

  /** `n / ulp` rounded to the nearest integer, a tie going to the even
      one. */
  function RoundedUnits(n: nat, ulp: nat): nat
    requires ulp >= 1
  {
    var q, rem := n / ulp, n % ulp;
    if 2 * rem > ulp || (2 * rem == ulp && q % 2 == 1) then q + 1 else q
  }

  /** The rounded multiple of `ulp` is at most half of `ulp` away from
      `n`, and on a tie it is an even multiple. */
  lemma {:induction false} RoundedUnitsNearest(n: nat, ulp: nat)
    requires ulp >= 1
    ensures var v := RoundedUnits(n, ulp) * ulp;
      v % ulp == 0 && -(ulp as int) <= 2 * (v - n) <= ulp &&
      (2 * (v - n) == ulp || 2 * (v - n) == -(ulp as int) ==> (v / ulp) % 2 == 0)
  {
    var q, rem := n / ulp, n % ulp;
    var rounded := RoundedUnits(n, ulp);
    var v := rounded * ulp;
    DivModOf(v, ulp, rounded, 0);
    assert n == q * ulp + rem;
    if rounded == q + 1 {
      assert v == q * ulp + ulp;
    }
  }

  /** Above 2^53 the spacing of the Numbers near `n` is `2^(e - 52)`, with
      `e` the position of the highest bit of `n`: a finite rounding is a
      multiple of it, at most half of it away from `n`, and on a tie an even
      multiple. */
  lemma {:induction false} RoundMagnitudeNearest(n: nat)
    requires n >= TWO_53 && RoundMagnitude(n).Finite?
    ensures Log2(n) >= 53
    ensures var ulp: int := Pow2(Log2(n) - 52);
      var v := RoundMagnitude(n).value;
      v % ulp == 0 && -ulp <= 2 * (v - n) <= ulp &&
      (2 * (v - n) == ulp || 2 * (v - n) == -ulp ==> (v / ulp) % 2 == 0)
  {
    Pow2Of53();
    LogAtLeast(n, 53);
    var ulp := Pow2(Log2(n) - 52);
    RoundedUnitsNearest(n, ulp);
    var v := RoundedUnits(n, ulp) * ulp;
    assert RoundMagnitude(n) == Finite(v);
  }

  /** An integer at or above `Pow2(e)` has its highest bit at `e` or above. */
  lemma {:induction false} LogAtLeast(n: nat, e: nat)
    requires Pow2(e) <= n
    ensures Log2(n) >= e
  {
    if Log2(n) < e {
      Pow2Monotone(Log2(n) + 1, e);
    }
  }

  /** The Number nearest an integer: the rounding is symmetric about 0. */
  function NumberOf(i: int): (r: Number)
    ensures -(TWO_53 as int) < i < TWO_53 ==> r == Finite(i)
    ensures r.Finite? && i >= 0 ==> r == RoundMagnitude(i)
    ensures r.Finite? && i < 0 ==> RoundMagnitude(-i) == Finite(-r.value)
    ensures r.Infinite? <==> RoundMagnitude(if i < 0 then -i else i).Infinite?
    ensures r.Infinite? ==> r.negative == (i < 0)
  {
    if i >= 0 then RoundMagnitude(i)
    else
      match RoundMagnitude(-i)
      case Finite(m) => Finite(-m)
      case Infinite(_) => Infinite(true)
  }

  /** The integer a bitwise operator starts from: `ToInt32` keeps a finite
      Number's low 32 bits, and the infinities become 0. */
  function Operand(x: Number): (n: int)
    ensures x.Finite? ==> n == x.value
    ensures x.Infinite? ==> BitsOf(n, 32) == Zeros(32)
  {
    if x.Finite? then x.value else BitsOfZero(32); 0
  }

  /** Between 2^53 and 2^54 the Numbers are the even integers: an odd one
      lies halfway between two of them and goes to the one that is a
      multiple of 4. */
  lemma {:induction false} RoundAbove53(n: nat)
    requires TWO_53 <= n < 2 * TWO_53
    ensures RoundMagnitude(n) == Finite(if n % 2 == 0 then n else if (n / 2) % 2 == 0 then n - 1 else n + 1)
  {
    Pow2Of53();
    assert Pow2(54) == 2 * TWO_53;
    LogOf(n, 53);
    assert Pow2(1) == 2;
    Pow2BelowInfinity(54);
    assert Pow2(Log2(n) - 52) == 2;
    var q := n / 2;
    assert n == 2 * q + n % 2;
    var rounded := RoundedUnits(n, 2);
    assert rounded == if n % 2 == 1 && q % 2 == 1 then q + 1 else q;
    assert rounded * 2 <= Pow2(54) < Pow2(55);
  }

  /** `2^53 + 1` is the first integer that is no Number: it goes to 2^53,
      whose lowest bit is clear although its own is set. */
  lemma {:induction false} FirstInexact()
    ensures NumberOf(TWO_53 + 1) == Finite(TWO_53)
    ensures !Bit(TWO_53, 0) && Bit(TWO_53 + 1, 0)
  {
    RoundsDown(TWO_53 + 1);
  }

  /** An odd `n` just above 2^53 whose half is even rounds down to `n - 1`. */
  lemma {:induction false} RoundsDown(n: nat)
    requires TWO_53 <= n < 2 * TWO_53 && n % 2 == 1 && (n / 2) % 2 == 0
    ensures NumberOf(n) == Finite(n - 1)
  {
    RoundAbove53(n);
  }

  /** The bounds of `Log2` pin it down. */
  lemma {:induction false} LogOf(n: nat, e: nat)
    requires Pow2(e) <= n < Pow2(e + 1)
    ensures Log2(n) == e
  {
    if e > 0 {
      LogOf(n / 2, e - 1);
    }
  }

  /** A 32-bit integer is a Number as it is. */
  lemma {:induction false} Int32IsNumber(bs: seq<bool>)
    requires |bs| == 32
    ensures NumberOf(Int32(bs)) == Finite(Int32(bs))
  {
    ValueOfBound(bs);
    Pow2Of32();
  }
}
