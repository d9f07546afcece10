/** Fixed-width integer types of C#, and the integer square root that replaces Math.Sqrt. */
module Numerics {

  type Byte = b: int | 0 <= b < 256

  type Int32 = v: int | -0x8000_0000 <= v <= 0x7fff_ffff

  /** int.MaxValue, the cost the source gives to out-of-bounds and claimed cells. */
  const IntMax: Int32 := 0x7fff_ffff

  /** byte.MaxValue. */
  const ByteMax: Byte := 255

  /** The result of an unchecked C# int addition: the exact sum reduced into the 32-bit range. */
  function Wrap32(v: int): (r: Int32)
  {
    if -0x8000_0000 <= v <= 0x7fff_ffff then v else (v + 0x8000_0000) % 0x1_0000_0000 - 0x8000_0000
  }

  /** The wrapped sum agrees with the exact one modulo 2^32, and equals it when it fits. */
  lemma Wrap32Congruent(v: int)
    ensures (Wrap32(v) - v) % 0x1_0000_0000 == 0
    ensures -0x8000_0000 <= v <= 0x7fff_ffff ==> Wrap32(v) == v
  {
  }

  /** The smaller of a value and 255, as the filters cap their magnitudes. */
  function Cap255(v: int): (r: int)
    ensures r <= 255
    ensures r == v || r == 255
    ensures v >= 0 ==> 0 <= r
  {
    if v > 255 then 255 else v
  }

  /** Floor square root: what (int)Math.Sqrt(n) computes for the magnitudes the filters produce. */
  function ISqrt(n: nat): nat
  {
    RootFrom(n, 0)
  }

  /** The least k >= r whose successor squares past n. */
  function RootFrom(n: nat, r: nat): nat
    requires Square(r) <= n
    decreases n - r
  {
    if n < Square(r + 1) then r
    else
      SquareAtLeast(r + 1);
      RootFrom(n, r + 1)
  }

  /** k * k, built up by addition so that unfolding it stays linear. */
  function Square(k: int): nat
  {
    SquareNat(if k < 0 then -k else k)
  }

  function SquareNat(m: nat): nat
  {
    if m == 0 then 0 else SquareNat(m - 1) + 2 * m - 1
  }

  lemma {:induction false} SquareNatIsProduct(m: nat)
    ensures SquareNat(m) == m * m
  {
    if m > 0 {
      SquareNatIsProduct(m - 1);
    }
  }

  lemma SquareIsProduct(k: int)
    ensures Square(k) == k * k
  {
    SquareNatIsProduct(if k < 0 then -k else k);
  }

  lemma {:induction false} SquareAtLeast(k: nat)
    ensures k <= Square(k)
  {
    if k > 0 {
      SquareAtLeast(k - 1);
    }
  }

  /** ISqrt is the floor square root. */
  lemma ISqrtIsFloorRoot(n: nat)
    ensures Square(ISqrt(n)) <= n < Square(ISqrt(n) + 1)
  {
    RootFromIsFloorRoot(n, 0);
  }

  lemma {:induction false} RootFromIsFloorRoot(n: nat, r: nat)
    requires Square(r) <= n
    ensures Square(RootFrom(n, r)) <= n < Square(RootFrom(n, r) + 1)
    decreases n - r
  {
    if Square(r + 1) <= n {
      SquareAtLeast(r + 1);
      RootFromIsFloorRoot(n, r + 1);
    }
  }

  /** The floor root in terms of products. */
  lemma ISqrtBounds(n: nat)
    ensures ISqrt(n) * ISqrt(n) <= n < (ISqrt(n) + 1) * (ISqrt(n) + 1)
  {
    ISqrtIsFloorRoot(n);
    SquareBounds(n, ISqrt(n));
  }

  lemma SquareBounds(n: int, r: int)
    requires Square(r) <= n < Square(r + 1)
    ensures r * r <= n < (r + 1) * (r + 1)
  {
    SquareIsProduct(r);
    SquareIsProduct(r + 1);
  }

  lemma ISqrtUnique(n: nat, r: nat)
    requires r * r <= n < (r + 1) * (r + 1)
    ensures ISqrt(n) == r
  {
    ISqrtIsFloorRoot(n);
    RootUniqueSquare(n, r, ISqrt(n));
  }

  lemma RootUniqueSquare(n: int, r: nat, s: nat)
    requires r * r <= n < (r + 1) * (r + 1)
    requires Square(s) <= n < Square(s + 1)
    ensures r == s
  {
    SquareBounds(n, s);
    RootUnique(n, r, s);
  }

  /** Two floor roots of the same number are equal. */
  lemma RootUnique(n: nat, r: nat, s: nat)
    requires r * r <= n < (r + 1) * (r + 1)
    requires s * s <= n < (s + 1) * (s + 1)
    ensures r == s
  {
    if s < r {
      MulMono(s + 1, r);
    } else if r < s {
      MulMono(r + 1, s);
    }
  }

  lemma MulMono(a: nat, b: nat)
    requires a <= b
    ensures a * a <= b * b
  {
    assert a * a <= a * b <= b * b;
  }
}
