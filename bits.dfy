/**
 * Unsigned machine words as natural numbers, and the C operators the codec
 * applies to them: `x >> k & 1`, `(x << 1) | bit`, `x | mask`, `x & mask`,
 * `x ^ y`. A bit string is a `seq<nat>` of 0/1 entries written MSB first,
 * the order in which every loop of the codec consumes or produces bits.
 */
module Bits {

  /** 2^n, i.e. `1U << n`. */
  function Pow2(n: nat): (r: nat)
    ensures r >= 1
  {
    if n == 0 then 1 else 2 * Pow2(n - 1)
  }

  /** `MASK >>= 1` moves a one-bit mask down one position. */
  lemma Pow2Half(k: nat)
    requires k >= 1
    ensures Pow2(k) / 2 == Pow2(k - 1)
  {
  }

  /** The starting masks of the codec's bit loops. */
  lemma Pow2Masks()
    ensures Pow2(11) == 0x800 && Pow2(22) == 0x400000
    ensures Pow2(23) == 0x800000 && Pow2(24) == 0x1000000
  {
    assert Pow2(4) == 16;
    assert Pow2(8) == 256;
    assert Pow2(11) == 0x800;
    assert Pow2(16) == 0x10000;
    assert Pow2(20) == 0x100000;
    assert Pow2(22) == 0x400000;
  }

  /** `(x >> k) & 1`. For a negative `int` this is the arithmetic shift of
      two's complement, because Dafny's division by 2 rounds toward minus
      infinity. */
  function Bit(x: int, k: nat): (r: nat)
    ensures r <= 1
    decreases k
  {
    if k == 0 then x % 2 else Bit(x / 2, k - 1)
  }

  ghost predicate IsBits(s: seq<nat>) {
    forall i :: 0 <= i < |s| ==> s[i] <= 1
  }

  /** The value of an MSB-first bit string: the loop `v = (v << 1) | s[i]`. */
  function FromBits(s: seq<nat>): nat
  {
    if s == [] then 0 else 2 * FromBits(s[..|s| - 1]) + s[|s| - 1]
  }

  /** The accumulator `acc |= (TOP >> i)` of a loop that ORs the bits of s
      in from the top, k weights above the bottom: FromBits(s) * 2^k,
      written without a product. */
  function Weighted(s: seq<nat>, k: nat): nat
  {
    if s == [] then 0 else Weighted(s[..|s| - 1], k + 1) + (if s[|s| - 1] != 0 then Pow2(k) else 0)
  }

  /** The low `w` bits of `x`, MSB first: `(x >> (w-1)) & 1, ..., x & 1`. */
  function ToBits(x: int, w: nat): (r: seq<nat>)
    ensures |r| == w && IsBits(r)
  {
    seq(w, j requires 0 <= j < w => Bit(x, w - 1 - j))
  }

  /** `x | y` on unsigned words. */
  function BitOr(x: nat, y: nat): nat
    decreases x + y
  {
    if x == 0 && y == 0 then 0
    else 2 * BitOr(x / 2, y / 2) + (if x % 2 == 1 || y % 2 == 1 then 1 else 0)
  }

  /** `x & y` on unsigned words. */
  function BitAnd(x: nat, y: nat): nat
    decreases x + y
  {
    if x == 0 && y == 0 then 0
    else 2 * BitAnd(x / 2, y / 2) + (if x % 2 == 1 && y % 2 == 1 then 1 else 0)
  }

  /** `x ^ y` on unsigned words. */
  function BitXor(x: nat, y: nat): nat
    decreases x + y
  {
    if x == 0 && y == 0 then 0
    else 2 * BitXor(x / 2, y / 2) + (x % 2 + y % 2) % 2
  }

  // ---------------------------------------------------------------------
  // Division by powers of two
  // ---------------------------------------------------------------------

  lemma {:induction false} MulAtLeast(d: int, a: int)
    requires d > 0 && a >= 1
    ensures d * a >= d
    decreases a
  {
    if a > 1 {
      MulAtLeast(d, a - 1);
      assert d * a == d * (a - 1) + d;
    }
  }

  /** Division with remainder is unique. */
  lemma DivMod(x: int, d: int, q: int, m: int)
    requires d > 0 && x == d * q + m && 0 <= m < d
    ensures x / d == q && x % d == m
  {
    var q', m' := x / d, x % d;
    assert x == d * q' + m';
    if q' > q {
      MulAtLeast(d, q' - q);
      assert false;
    } else if q' < q {
      MulAtLeast(d, q - q');
      assert false;
    }
  }

  /** Halving then reducing modulo P is reducing modulo 2P and halving. */
  lemma {:induction false} ModDouble(x: int, p: nat)
    requires p > 0
    ensures x % (2 * p) == 2 * ((x / 2) % p) + x % 2
  {
    var h, r := x / 2, x % 2;
    var t, u := h / p, h % p;
    assert x == 2 * h + r;
    assert h == p * t + u;
    assert x == (2 * p) * t + (2 * u + r);
    DivMod(x, 2 * p, t, 2 * u + r);
  }

  /** `(x >> k) >> 1` is `x >> (k + 1)`: the bit read at the bottom. */
  lemma {:induction false} BitOfHalf(x: int, k: nat)
    ensures Bit(x / 2, k) == Bit(x, k + 1)
  {
  }

  // ---------------------------------------------------------------------
  // Bit strings
  // ---------------------------------------------------------------------

  /** Entry j of ToBits(x, w) is bit (w - 1 - j) of x. */
  lemma ToBitsAt(x: int, w: nat, j: nat)
    requires j < w
    ensures ToBits(x, w)[j] == Bit(x, w - 1 - j)
  {
  }

  /** The w-bit rendering is the (w - 1)-bit rendering of x / 2 followed by
      the bit x % 2. */
  lemma ToBitsSnoc(x: int, w: nat)
    requires w > 0
    ensures ToBits(x, w) == ToBits(x / 2, w - 1) + [x % 2]
  {
    var r := ToBits(x / 2, w - 1) + [x % 2];
    forall j | 0 <= j < w
      ensures ToBits(x, w)[j] == r[j]
    {
      if j < w - 1 {
        BitOfHalf(x, w - 2 - j);
        assert r[j] == ToBits(x / 2, w - 1)[j] == Bit(x / 2, w - 2 - j);
      } else {
        assert r[j] == x % 2 == Bit(x, 0);
      }
    }
  }

  /** Reading the low w bits back gives x modulo 2^w. */
  lemma {:induction false} FromToBits(x: int, w: nat)
    ensures FromBits(ToBits(x, w)) == x % Pow2(w)
    decreases w
  {
    if w > 0 {
      var s := ToBits(x, w);
      ToBitsSnoc(x, w);
      assert s[..w - 1] == ToBits(x / 2, w - 1);
      FromToBits(x / 2, w - 1);
      ModDouble(x, Pow2(w - 1));
    }
  }

  /** A bit string is the w-bit rendering of its own value. */
  lemma {:induction false} ToFromBits(s: seq<nat>)
    requires IsBits(s)
    ensures ToBits(FromBits(s), |s|) == s
  {
    if s != [] {
      var n := |s|;
      var v := FromBits(s[..n - 1]);
      assert IsBits(s[..n - 1]);
      ToFromBits(s[..n - 1]);
      ToBitsSnoc(2 * v + s[n - 1], n);
      assert (2 * v + s[n - 1]) / 2 == v;
      assert (2 * v + s[n - 1]) % 2 == s[n - 1];
      assert s == s[..n - 1] + [s[n - 1]];
    }
  }

  /** A value below 2^w survives the round trip through w bits. */
  lemma FromToBitsSmall(x: nat, w: nat)
    requires x < Pow2(w)
    ensures FromBits(ToBits(x, w)) == x
  {
    FromToBits(x, w);
    DivMod(x, Pow2(w), 0, x);
  }

  /** Two bit strings of one length with one value are equal. */
  lemma FromBitsInjective(s: seq<nat>, t: seq<nat>)
    requires IsBits(s) && IsBits(t) && |s| == |t| && FromBits(s) == FromBits(t)
    ensures s == t
  {
    ToFromBits(s);
    ToFromBits(t);
  }

  /** Appending one bit: the step of `v = (v << 1) | b`. */
  lemma FromBitsSnoc(s: seq<nat>, b: nat)
    ensures FromBits(s + [b]) == 2 * FromBits(s) + b
  {
    assert (s + [b])[..|s|] == s;
  }

  // ---------------------------------------------------------------------
  // Bitwise operators
  // ---------------------------------------------------------------------

  lemma {:induction false} OrZero(x: nat)
    ensures BitOr(x, 0) == x
    decreases x
  {
    if x != 0 {
      OrZero(x / 2);
    }
  }

  lemma {:induction false} ZeroOr(y: nat)
    ensures BitOr(0, y) == y
    decreases y
  {
    if y != 0 {
      ZeroOr(y / 2);
    }
  }

  /** OR-ing a bit into a word whose bits at and below that position are all
      clear adds it: the accumulators of the codec fill bits from the top. */
  lemma {:induction false} OrFreshBit(f: nat, k: nat)
    ensures BitOr(f * Pow2(k + 1), Pow2(k)) == f * Pow2(k + 1) + Pow2(k)
  {
    var x := f * Pow2(k + 1);
    assert x == 2 * (f * Pow2(k));
    if k == 0 {
      if f != 0 {
        OrZero(f);
      }
    } else if f != 0 {
      var p := Pow2(k);
      assert p == 2 * Pow2(k - 1);
      assert x / 2 == f * Pow2(k) && x % 2 == 0;
      assert p / 2 == Pow2(k - 1) && p % 2 == 0;
      assert BitOr(x, p) == 2 * BitOr(x / 2, p / 2);
      OrFreshBit(f, k - 1);
      assert f * Pow2(k) == f * Pow2(k - 1 + 1);
    } else {
      ZeroOr(Pow2(k));
    }
  }

  /** `(v << 1) | b` for a single bit b is `2v + b`. */
  lemma ShiftOrBit(v: nat, b: nat)
    requires b <= 1
    ensures BitOr(2 * v, b) == 2 * v + b
  {
    if b == 0 {
      OrZero(2 * v);
    } else {
      OrFreshBit(v, 0);
    }
  }

  lemma {:induction false} AndZero(x: nat)
    ensures BitAnd(x, 0) == 0
    decreases x
  {
    if x != 0 {
      AndZero(x / 2);
    }
  }

  /** `x & (1 << k)` is nonzero exactly when bit k of x is set. */
  lemma {:induction false} AndPow2(x: nat, k: nat)
    ensures (BitAnd(x, Pow2(k)) != 0) == (Bit(x, k) == 1)
  {
    if k == 0 {
      AndZero(x / 2);
    } else {
      AndPow2(x / 2, k - 1);
    }
  }

  /** Bit k of `x ^ y` is the sum of the two bits modulo 2. */
  lemma {:induction false} XorBit(x: nat, y: nat, k: nat)
    ensures Bit(BitXor(x, y), k) == (Bit(x, k) + Bit(y, k)) % 2
  {
    if k > 0 {
      assert BitXor(x, y) / 2 == BitXor(x / 2, y / 2);
      XorBit(x / 2, y / 2, k - 1);
    }
  }

  /** XOR with the same mask twice is the identity: descrambling undoes
      scrambling. */
  lemma {:induction false} XorTwice(x: nat, m: nat)
    ensures BitXor(BitXor(x, m), m) == x
    decreases x + m
  {
    if x != 0 || m != 0 {
      XorTwice(x / 2, m / 2);
      var xh, xr, mh, mr := x / 2, x % 2, m / 2, m % 2;
      var y, h, r := BitXor(x, m), BitXor(xh, mh), (xr + mr) % 2;
      XorStep(x, m);
      DivMod(y, 2, h, r);
      XorStep(y, m);
      ParityCancel(xr, mr);
      assert BitXor(y, m) == 2 * BitXor(h, mh) + (r + mr) % 2;
    }
  }

  /** Adding the same bit twice, modulo 2, gives back the first bit. */
  lemma ParityCancel(a: nat, b: nat)
    requires a < 2 && b < 2
    ensures ((a + b) % 2 + b) % 2 == a
  {
  }

  /** One step of the XOR recursion, for every pair of words. */
  lemma XorStep(x: nat, m: nat)
    ensures BitXor(x, m) == 2 * BitXor(x / 2, m / 2) + (x % 2 + m % 2) % 2
  {
  }

  /** A word below 2^k has no bit at k. */
  lemma {:induction false} BitAbove(x: nat, k: nat)
    requires x < Pow2(k)
    ensures Bit(x, k) == 0
  {
    if k > 0 {
      BitAbove(x / 2, k - 1);
    }
  }

  /** `x >> 1` of a (k + 1)-bit word is a k-bit word. */
  lemma HalfBound(x: nat, k: nat)
    requires x < Pow2(k + 1)
    ensures x / 2 < Pow2(k)
  {
  }

  /** XOR of two n-bit words is an n-bit word. */
  lemma {:induction false} XorBound(x: nat, y: nat, n: nat)
    requires x < Pow2(n) && y < Pow2(n)
    ensures BitXor(x, y) < Pow2(n)
  {
    if n > 0 && (x != 0 || y != 0) {
      XorBound(x / 2, y / 2, n - 1);
    }
  }

  /** Multiplication by a power of two distributes over the MSB-first
      step `2 * f + b` of a bit-string value. */
  lemma Distrib(f: int, b: int, p: int)
    ensures f * (2 * p) == 2 * (f * p)
    ensures (2 * f + b) * p == 2 * (f * p) + b * p
  {
  }

  /** An n-bit string has a value below 2^n. */
  lemma {:induction false} FromBitsBound(s: seq<nat>)
    requires IsBits(s)
    ensures FromBits(s) < Pow2(|s|)
  {
    if s != [] {
      assert IsBits(s[..|s| - 1]);
      FromBitsBound(s[..|s| - 1]);
    }
  }

  lemma {:induction false} WeightedIsShift(s: seq<nat>, k: nat)
    requires IsBits(s)
    ensures Weighted(s, k) == FromBits(s) * Pow2(k)
    decreases |s|
  {
    if s != [] {
      var n := |s|;
      assert IsBits(s[..n - 1]);
      WeightedIsShift(s[..n - 1], k + 1);
      assert Pow2(k + 1) == 2 * Pow2(k);
      Distrib(FromBits(s[..n - 1]), s[n - 1], Pow2(k));
    }
  }

  /** Once every weight is used up the accumulator holds the value. */
  lemma WeightedValue(s: seq<nat>)
    requires IsBits(s)
    ensures Weighted(s, 0) == FromBits(s)
  {
    WeightedIsShift(s, 0);
  }

  /** One iteration of an accumulating loop: when entry i of s is set, OR-ing
      in weight 2^k adds it, because every bit at and below k is still clear. */
  lemma AccumulateStep(s: seq<nat>, i: nat, k: nat, acc: nat)
    requires i < |s| && IsBits(s) && acc == Weighted(s[..i], k + 1)
    ensures (if s[i] != 0 then BitOr(acc, Pow2(k)) else acc) == Weighted(s[..i + 1], k)
  {
    assert s[..i + 1][..i] == s[..i];
    assert IsBits(s[..i]);
    WeightedIsShift(s[..i], k + 1);
    OrFreshBit(FromBits(s[..i]), k);
  }

  // ---------------------------------------------------------------------
  // Filling a buffer from the front
  // ---------------------------------------------------------------------

  function Zeros(n: nat): (r: seq<nat>)
    ensures |r| == n && forall i :: 0 <= i < n ==> r[i] == 0
  {
    seq(n, i => 0)
  }

  /** Writing entry i of w into a buffer that holds w up to i and zeros
      after it extends the written prefix by one. */
  lemma FillStep(w: seq<nat>, i: nat)
    requires i < |w|
    ensures (w[..i] + Zeros(|w| - i))[i := w[i]] == w[..i + 1] + Zeros(|w| - (i + 1))
  {
  }

  /** Writing entry i of t into a buffer that holds t's first i entries from
      position start on extends the written part by one. */
  lemma SpliceStep(before: seq<nat>, t: seq<nat>, start: nat, i: nat)
    requires start + |t| <= |before| && i < |t|
    ensures (before[..start] + t[..i] + before[start + i..])[start + i := t[i]]
            == before[..start] + t[..i + 1] + before[start + i + 1..]
  {
    var x := before[..start] + t[..i] + before[start + i..];
    var y := before[..start] + t[..i + 1] + before[start + i + 1..];
    assert |x| == |y|;
    forall k | 0 <= k < |y|
      ensures x[start + i := t[i]][k] == y[k]
    {
      if k < start {
      } else if k < start + i {
      } else if k == start + i {
      } else {
      }
    }
  }

  /** The same step when entry start + i already holds t[i]. */
  lemma SpliceKeep(before: seq<nat>, t: seq<nat>, start: nat, i: nat)
    requires start + |t| <= |before| && i < |t| && before[start + i] == t[i]
    ensures before[..start] + t[..i] + before[start + i..]
            == before[..start] + t[..i + 1] + before[start + i + 1..]
  {
    SpliceStep(before, t, start, i);
    var x := before[..start] + t[..i] + before[start + i..];
    assert x[start + i] == t[i];
    assert x[start + i := t[i]] == x;
  }

  /** ToBits(x, w) depends only on the w low bits of x. */
  lemma ToBitsMod(x: int, w: nat)
    ensures ToBits(x, w) == ToBits(x % Pow2(w), w)
  {
    FromToBits(x, w);
    ToFromBits(ToBits(x, w));
  }

  lemma SliceLeft(p: seq<nat>, t: seq<nat>, lo: nat, hi: nat)
    requires lo <= hi <= |p|
    ensures (p + t)[lo..hi] == p[lo..hi]
  {
  }

  lemma SliceRight(p: seq<nat>, t: seq<nat>)
    ensures (p + t)[|p|..|p| + |t|] == t
  {
  }

  lemma SplitThree(d: seq<nat>, i: nat, j: nat)
    requires i <= j <= |d|
    ensures d == d[..i] + d[i..j] + d[j..]
  {
  }

  lemma SlicesOfThree(x: seq<nat>, y: seq<nat>, z: seq<nat>)
    ensures (x + y + z)[..|x|] == x
    ensures (x + y + z)[|x|..|x| + |y|] == y
    ensures (x + y + z)[|x| + |y|..] == z
  {
  }

  lemma IndexOfThree(x: seq<nat>, y: seq<nat>, z: seq<nat>, i: nat)
    requires i < |x| + |y| + |z|
    ensures (x + y + z)[i]
            == if i < |x| then x[i] else if i < |x| + |y| then y[i - |x|] else z[i - |x| - |y|]
  {
  }

  lemma UpdateRight(x: seq<nat>, y: seq<nat>, j: nat, v: nat)
    requires j < |y|
    ensures (x + y)[|x| + j := v] == x + y[j := v]
  {
  }

  lemma PrefixConcat(d: seq<nat>, lo: nat, hi: nat)
    requires lo <= hi <= |d|
    ensures d[..hi] == d[..lo] + d[lo..hi]
  {
  }
}
