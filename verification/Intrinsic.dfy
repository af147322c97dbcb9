/** Restoring division of signed 32-bit numbers, one bit at a time. */
module Intrinsic {
  import opened Basics
  import opened Bitmap

  const INT_MAX: int := 0x7FFF_FFFF

  predicate IsInt(x: int) {
    -INT_MAX - 1 <= x <= INT_MAX
  }

  function Abs(x: int): nat {
    if x > 0 then x else -x
  }

  /** One bit less of a shift brings in one bit more. */
  lemma {:induction false} ShrStep(x: nat, i: nat)
    ensures Shr(x, i) == 2 * Shr(x, i + 1) + Shr(x, i) % 2
  {
    if i == 0 {
      assert Shr(x, 1) == Shr(x / 2, 0);
    } else {
      ShrStep(x / 2, i - 1);
    }
  }

  lemma {:induction false} ShrSmall(x: nat, i: nat)
    requires x < Pow2(i)
    ensures Shr(x, i) == 0
  {
    if i > 0 {
      ShrSmall(x / 2, i - 1);
    }
  }

  /** Setting a bit below which nothing is set is adding it. */
  lemma {:induction false} OrAdds(w: nat, q: nat, i: nat)
    requires w == q * Pow2(i + 1)
    ensures Or(w, i) == w + Pow2(i)
  {
    assert w == 2 * (q * Pow2(i));
    if i > 0 {
      OrAdds(w / 2, q, i - 1);
    }
  }

  lemma Regroup(q: nat, p: nat)
    ensures q * (2 * p) == (2 * q) * p && (2 * q + 1) * p == (2 * q) * p + p && q * p >= 0
  {
  }

  /** What holds before bit `i` is looked at: `q` and the remainder divide the bits above
      it, and the quotient has `q` in its upper bits and nothing below. */
  ghost predicate Partial(xx: nat, yy: nat, i: int, q: nat, remainder: nat, quotient: nat) {
    && -1 <= i <= 31 && remainder < yy && q * yy + remainder == Shr(xx, i + 1)
    && quotient == q * Pow2(i + 1) && quotient < Pow2(31)
  }

  lemma {:induction false} NextBit(xx: nat, yy: nat, i: int, q: nat, remainder: nat, quotient: nat)
    requires i >= 0 && xx < Pow2(31) && Partial(xx, yy, i, q, remainder, quotient)
    ensures var t := 2 * remainder + Shr(xx, i) % 2;
            && t <= xx
            && (t < yy ==> Partial(xx, yy, i - 1, 2 * q, t, quotient))
            && (t >= yy ==> i < 31 && Partial(xx, yy, i - 1, 2 * q + 1, t - yy, Or(quotient, i)))
  {
    NextRemainder(xx, yy, i, q, remainder);
    NextQuotient(q, i, quotient);
    ShrSmall(xx, 31);
  }

  lemma {:induction false} NextRemainder(xx: nat, yy: nat, i: nat, q: nat, remainder: nat)
    requires remainder < yy && q * yy + remainder == Shr(xx, i + 1)
    ensures var t := 2 * remainder + Shr(xx, i) % 2;
            && t <= Shr(xx, i) && (2 * q) * yy + t == Shr(xx, i)
            && (2 * q + 1) * yy + (t - yy) == Shr(xx, i) && t - yy < yy
  {
    ShrStep(xx, i);
    Regroup(q, yy);
    assert (2 * q) * yy == 2 * (q * yy);
  }

  lemma {:induction false} NextQuotient(q: nat, i: nat, w: nat)
    requires w == q * Pow2(i + 1) && w < Pow2(31)
    ensures w == (2 * q) * Pow2(i)
    ensures i < 31 ==> Or(w, i) == (2 * q + 1) * Pow2(i) && Or(w, i) < Pow2(31)
  {
    Regroup(q, Pow2(i));
    if i < 31 {
      OrAdds(w, q, i);
      StaysWord(w, i, 31);
    }
  }

  /** The loop of both functions. No number in it overflows. */
  method Divide(xx: nat, yy: nat) returns (quotient: nat, remainder: nat)
    requires xx <= INT_MAX && 0 < yy <= INT_MAX
    ensures xx == quotient * yy + remainder && remainder < yy && quotient <= INT_MAX
  {
    quotient, remainder := 0, 0;
    ghost var q: nat := 0;
    Powers();
    ShrSmall(xx, 32);
    var i := 31;
    while i >= 0
      invariant Partial(xx, yy, i, q, remainder, quotient)
    {
      NextBit(xx, yy, i, q, remainder, quotient);
      remainder := 2 * remainder + Shr(xx, i) % 2;
      assert IsInt(remainder);
      if remainder >= yy {
        assert i < 31;
        remainder, quotient := remainder - yy, Or(quotient, i);
        q := 2 * q + 1;
      } else {
        q := 2 * q;
      }
      i := i - 1;
    }
  }

  lemma Powers()
    ensures Pow2(31) == 0x8000_0000 && Pow2(32) == 0x1_0000_0000
  {
    assert Pow2(8) == 0x100;
    assert Pow2(16) == 0x1_0000;
    assert Pow2(24) == 0x100_0000;
  }

  /** Quotient and remainder of truncating division. */
  ghost predicate Truncates(x: int, y: int, q: int, r: int) {
    x == q * y + r && Abs(r) < Abs(y) && (r > 0 ==> x > 0) && (r < 0 ==> x < 0)
  }

  /** _Div */
  method Div(x: int, y: int) returns (z: int)
    requires IsInt(x) && IsInt(y) && y != 0 && x != -INT_MAX - 1 && y != -INT_MAX - 1
    ensures IsInt(z) && exists r :: Truncates(x, y, z, r)
  {
    var quotient, remainder := Divide(Abs(x), Abs(y));
    Signs(x, y, quotient, remainder);
    z := quotient;
    if !((x > 0 && y > 0) || (x < 0 && y < 0)) {
      z := -z;
    }
  }

  /** _Rem */
  method Rem(x: int, y: int) returns (z: int)
    requires IsInt(x) && IsInt(y) && y != 0 && x != -INT_MAX - 1 && y != -INT_MAX - 1
    ensures IsInt(z) && exists q :: Truncates(x, y, q, z)
  {
    var quotient, remainder := Divide(Abs(x), Abs(y));
    Signs(x, y, quotient, remainder);
    z := remainder;
    if !(x > 0) {
      z := -z;
    }
  }

  lemma Signs(x: int, y: int, q: int, r: int)
    requires q >= 0 && r >= 0 && y != 0 && Abs(x) == q * Abs(y) + r && r < Abs(y)
    ensures var s := (x > 0 && y > 0) || (x < 0 && y < 0);
            Truncates(x, y, if s then q else -q, if x > 0 then r else -r)
  {
    if x == 0 {
      assert q == 0 || q * Abs(y) >= Abs(y);
    }
  }

  /** There is one such pair only, so the two functions agree with each other. */
  lemma TruncatesOnce(x: int, y: int, q: int, r: int, p: int, s: int)
    requires y != 0 && Truncates(x, y, q, r) && Truncates(x, y, p, s)
    ensures q == p && r == s
  {
    assert (q - p) * y == s - r;
    assert Abs(s - r) < Abs(y);
    SmallProduct(q - p, y);
  }

  lemma SmallProduct(d: int, y: int)
    requires y != 0 && Abs(d * y) < Abs(y)
    ensures d == 0
  {
    assert d == 0 || Abs(d * y) >= Abs(y);
  }
}
