/** Division by 10 and by 5 with shifts and additions on 32-bit unsigned numbers. */
module Divide {

  const WORD: nat := 0x1_0000_0000

  function Wrap(x: int): (r: nat)
    ensures r < WORD && (0 <= x < WORD ==> r == x)
  {
    x % WORD
  }

  /** __mulu10 */
  function Mulu10(n: nat): nat {
    Wrap(Wrap(n * 8) + Wrap(n * 2))
  }

  /** The common middle part: q times 16/15, nearly. */
  function Spread(q: nat): nat {
    var a := Wrap(q + q / 0x10);
    var b := Wrap(a + a / 0x100);
    Wrap(b + b / 0x1_0000)
  }

  function Guess10(n: nat): nat {
    Spread(Wrap(n / 2 + n / 4)) / 8
  }

  /** __divu10: a guess, and a correction by what the guess leaves. */
  function Divu10(n: nat): nat {
    Correct10(n, Guess10(n))
  }

  function Correct10(n: nat, q: nat): nat {
    var r := Wrap(n - Mulu10(q));
    Wrap(q + Wrap(r + 6) / 16)
  }

  function Guess5(n: nat): nat {
    Spread(Wrap(n / 8 + n / 16))
  }

  /** __divu5 */
  function Divu5(n: nat): nat {
    Correct5(n, Guess5(n))
  }

  function Correct5(n: nat, q: nat): nat {
    var r := Wrap(n - Wrap(q * 5));
    Wrap(q + Wrap(13 * r) / 64)
  }

  /** Spread stays below 16/15 of its argument, and less than 4 below it by more than the
      last bit. */
  lemma SpreadBounds(q: nat)
    requires q <= 0xC000_0000
    ensures 15 * Spread(q) <= 16 * q
    ensures 15 * Spread(q) * 0x1_0000_0000 >= 16 * q * 0xFFFF_FFFF - 15 * 3 * 0x1_0000_0000
  {
    var a := q + q / 0x10;
    assert 16 * a <= 17 * q && 16 * a >= 17 * q - 15;
    assert a < WORD;
    var b := a + a / 0x100;
    assert 0x100 * b <= 0x101 * a && 0x100 * b >= 0x101 * a - 0xFF;
    assert b < WORD;
    var c := b + b / 0x1_0000;
    assert 0x1_0000 * c <= 0x1_0001 * b && 0x1_0000 * c >= 0x1_0001 * b - 0xFFFF;
    assert c < WORD;
    assert Spread(q) == c;
  }

  /** The remainder of the guess is never negative and at most 15 ... */
  lemma Remainder10(n: nat)
    requires n < WORD
    ensures 0 <= n - 10 * Guess10(n) <= 15
  {
    var q1 := n / 2 + n / 4;
    assert 4 * q1 <= 3 * n && 4 * q1 >= 3 * n - 5;
    SpreadBounds(q1);
    var s := Spread(q1);
    assert 5 * s <= 4 * n;
    assert 5 * s >= 4 * n - 25;
  }

  lemma Corrected10(n: nat, q: nat)
    requires n < WORD && 0 <= n - 10 * q <= 15
    ensures Correct10(n, q) == n / 10
  {
    var r := n - 10 * q;
    assert Mulu10(q) == 10 * q;
    assert (r + 6) / 16 == if r >= 10 then 1 else 0;
  }

  /** ... so one correction is enough: the quotient is exact for every 32-bit number. */
  lemma Divu10Exact(n: nat)
    requires n < WORD
    ensures Divu10(n) == n / 10
  {
    Remainder10(n);
    Corrected10(n, Guess10(n));
  }

  lemma Remainder5(n: nat)
    requires n < WORD
    ensures 0 <= n - 5 * Guess5(n) <= 25
  {
    var q1 := n / 8 + n / 16;
    assert 16 * q1 <= 3 * n && 16 * q1 >= 3 * n - 29;
    SpreadBounds(q1);
  }

  lemma Corrected5(n: nat, q: nat)
    requires n < WORD && 0 <= n - 5 * q <= 25
    ensures Correct5(n, q) == n / 5
  {
    var r := n - 5 * q;
    assert 13 * r / 64 == r / 5;
  }

  lemma Divu5Exact(n: nat)
    requires n < WORD
    ensures Divu5(n) == n / 5
  {
    Remainder5(n);
    Corrected5(n, Guess5(n));
  }

  lemma Mulu10Exact(n: nat)
    requires 10 * n < WORD
    ensures Mulu10(n) == 10 * n
  {
  }
}
