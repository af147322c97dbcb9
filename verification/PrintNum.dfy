/** Printing numbers with padding on the left. */
module PrintNum {
  import opened Divide

  const DIGITS: string := "0123456789abcdef"

  /** The bases a caller may ask for. */
  predicate IsBase(base: nat) {
    1 <= base <= 16
  }

  /** The base in which digits are made: any other base than 8 and 10 is taken for 16. */
  function Radix(base: nat): nat {
    if base == 10 then 10 else if base == 8 then 8 else 16
  }

  function Quotient(n: nat, base: nat): (q: nat)
    ensures q <= n && (n > 0 ==> q < n) && (n >= Radix(base) ==> q > 0)
  {
    if base == 8 then n / 8 else if base == 10 then n / 10 else n / 16
  }

  function Remainder(n: nat, base: nat): (r: nat)
    ensures r < Radix(base) && (n < Radix(base) ==> r == n)
  {
    if base == 8 then n % 8 else if base == 10 then n % 10 else n % 16
  }

  lemma DivMod(n: nat, base: nat)
    ensures Quotient(n, base) * Radix(base) + Remainder(n, base) == n
  {
    if base == 8 {
    } else if base == 10 {
    } else {
    }
  }

  /** The digits of a number, the most significant first. The base decides when to stop. */
  function DigitsOf(n: nat, base: nat): (ds: seq<nat>)
    requires IsBase(base)
    ensures ds != [] && forall i :: 0 <= i < |ds| ==> ds[i] < Radix(base)
  {
    if n < base then [n] else DigitsOf(Quotient(n, base), base) + [Remainder(n, base)]
  }

  /** The number that digits stand for. */
  function ValueOf(ds: seq<nat>, base: nat): nat {
    if ds == [] then 0 else ValueOf(ds[..|ds| - 1], base) * base + ds[|ds| - 1]
  }

  lemma {:induction false} DigitsValue(n: nat, base: nat)
    requires IsBase(base)
    ensures ValueOf(DigitsOf(n, base), Radix(base)) == n
    ensures n > 0 && base == Radix(base) ==> DigitsOf(n, base)[0] > 0
  {
    var ds := DigitsOf(n, base);
    if n < base {
      assert ds[..0] == [];
    } else {
      var q := Quotient(n, base);
      DivMod(n, base);
      DigitsValue(q, base);
      LastDigit(DigitsOf(q, base), Remainder(n, base), Radix(base));
    }
  }

  lemma {:induction false} LastDigit(ds: seq<nat>, d: nat, base: nat)
    ensures ValueOf(ds + [d], base) == ValueOf(ds, base) * base + d
  {
    assert (ds + [d])[..|ds|] == ds;
  }

  /** The character of a digit, and back. */
  function DigitChar(d: nat): (c: char)
    requires d < 16
    ensures DigitAt(c) == d && (d > 0 ==> c != '0')
  {
    DIGITS[d]
  }

  function DigitAt(c: char): nat {
    if '0' <= c <= '9' then c as nat - '0' as nat else if 'a' <= c <= 'f' then c as nat - 'a' as nat + 10 else 0
  }

  function Chars(ds: seq<nat>): (s: string)
    requires forall i :: 0 <= i < |ds| ==> ds[i] < 16
    ensures |s| == |ds| && forall i :: 0 <= i < |ds| ==> s[i] == DigitChar(ds[i])
  {
    if ds == [] then "" else Chars(ds[..|ds| - 1]) + [DigitChar(ds[|ds| - 1])]
  }

  function Padding(n: int, padc: char): (s: string)
    ensures |s| == if n > 0 then n else 0
  {
    seq(if n > 0 then n else 0, _ => padc)
  }

  /** What printnum puts out: padding up to the width, then the digits. */
  function Printed(num: nat, base: nat, width: int, padc: char): (s: string)
    requires IsBase(base)
  {
    var ds := DigitsOf(num, base);
    Padding(width - |ds|, padc) + Chars(ds)
  }

  /** The last digit and the rest come from shifts, or in base 10 from the division above. */
  method Split(num: nat, base: nat) returns (result: nat, mod: nat)
    requires num < WORD && IsBase(base)
    ensures result == Quotient(num, base) && mod == Remainder(num, base)
  {
    if base == 10 {
      Divu10Exact(num);
      var t := Divu10(num);
      Mulu10Exact(t);
      mod := Wrap(num - Mulu10(t));
      result := t;
    } else if base == 8 {
      mod := num % 8;
      result := num / 8;
    } else {
      mod := num % 16;
      result := num / 16;
    }
  }

  /** printnum, with the characters it emits as result. */
  method PrintNum(num: nat, base: nat, width: int, padc: char) returns (out: string)
    requires num < WORD && IsBase(base)
    ensures out == Printed(num, base, width, padc)
    decreases num
  {
    var result, mod := Split(num, base);
    if num >= base {
      out := PrintNum(result, base, width - 1, padc);
      PrintedMore(num, base, width, padc);
    } else {
      out := Pad(width, padc);
      PrintedOne(num, base, width, padc);
    }
    out := out + [DigitChar(mod)];
  }

  /** The padding before the first digit, which itself takes one place of the width. */
  method Pad(width: int, padc: char) returns (out: string)
    ensures out == Padding(width - 1, padc)
  {
    out := "";
    var w := width - 1;
    while w > 0
      invariant out == Padding(width - 1 - (if w > 0 then w else 0), padc) && (w <= 0 ==> w == 0 || w == width - 1)
      decreases w
    {
      out := out + [padc];
      w := w - 1;
    }
  }

  lemma {:induction false} PrintedMore(num: nat, base: nat, width: int, padc: char)
    requires IsBase(base) && num >= base
    ensures Printed(num, base, width, padc) ==
              Printed(Quotient(num, base), base, width - 1, padc) + [DigitChar(Remainder(num, base))]
  {
    var ds, front := DigitsOf(num, base), DigitsOf(Quotient(num, base), base);
    assert ds == front + [Remainder(num, base)];
    assert ds[..|ds| - 1] == front;
  }

  lemma {:induction false} PrintedOne(num: nat, base: nat, width: int, padc: char)
    requires IsBase(base) && num < base
    ensures Printed(num, base, width, padc) == Padding(width - 1, padc) + [DigitChar(num)]
  {
    assert [num][..0] == [];
    assert Chars([num]) == [DigitChar(num)];
  }

  // ------------------------------------------------------------------ reading back

  function Read(s: string, base: nat): nat {
    if s == "" then 0 else Read(s[..|s| - 1], base) * base + DigitAt(s[|s| - 1])
  }

  lemma {:induction false} ReadChars(ds: seq<nat>, base: nat)
    requires forall i :: 0 <= i < |ds| ==> ds[i] < 16
    ensures Read(Chars(ds), base) == ValueOf(ds, base)
  {
    if ds != [] {
      var front := ds[..|ds| - 1];
      ReadChars(front, base);
      var s := Chars(ds);
      assert s[..|s| - 1] == Chars(front);
    }
  }

  lemma {:induction false} PrintedShape(ds: seq<nat>, width: int, padc: char)
    requires forall i :: 0 <= i < |ds| ==> ds[i] < 16
    ensures var s := Padding(width - |ds|, padc) + Chars(ds);
            && |s| == (if width > |ds| then width else |ds|)
            && s[|s| - |ds|..] == Chars(ds)
            && forall i :: 0 <= i < |s| - |ds| ==> s[i] == padc
  {
  }

  /** The output is as long as the width asks for or the digits need, and behind the
      padding it reads as the number; in bases 8, 10 and 16 without leading zeros. */
  lemma {:induction false} PrintedReads(num: nat, base: nat, width: int, padc: char)
    requires IsBase(base)
    ensures var s, k := Printed(num, base, width, padc), |DigitsOf(num, base)|;
            && |s| == (if width > k then width else k)
            && Read(s[|s| - k..], Radix(base)) == num
            && (forall i :: 0 <= i < |s| - k ==> s[i] == padc)
            && (k > 1 && base == Radix(base) ==> s[|s| - k..][0] != '0')
  {
    var ds := DigitsOf(num, base);
    DigitsValue(num, base);
    ReadChars(ds, Radix(base));
    PrintedShape(ds, width, padc);
  }
}
