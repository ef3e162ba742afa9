// Reversal of the low bits of a word.
module BitReversal {
  import Flat

  const WORD: nat := 0x1_0000_0000

  function Pow2(n: nat): (r: nat)
    ensures r > 0
  {
    if n == 0 then 1 else 2 * Pow2(n - 1)
  }

  // The number whose n low bits are those of x in the opposite order.
  function Rev(x: nat, n: nat): nat {
    if n == 0 then 0 else (x % 2) * Pow2(n - 1) + Rev(x / 2, n - 1)
  }

  function Bit(x: nat, i: nat): nat {
    if i == 0 then x % 2 else Bit(x / 2, i - 1)
  }

  lemma Pow2Doubles(n: nat)
    ensures Pow2(0) == 1 && Pow2(n + 1) == 2 * Pow2(n)
  {
  }

  // Bit i is the lowest bit after i shifts to the right.
  lemma {:induction false} BitIs(x: nat, i: nat)
    ensures Bit(x, i) == x / Pow2(i) % 2
  {
    if i > 0 {
      BitIs(x / 2, i - 1);
      ShiftTwice(x, Pow2(i - 1));
    }
  }

  lemma ShiftTwice(x: nat, h: nat)
    requires h > 0
    ensures x / 2 / h == x / (2 * h)
  {
    var q := x / 2 / h;
    assert x / 2 == q * h + x / 2 % h;
    assert x == q * (2 * h) + (2 * (x / 2 % h) + x % 2) by {
      assert q * (2 * h) == 2 * (q * h);
    }
    Flat.Split(q, 2 * (x / 2 % h) + x % 2, 2 * h);
  }

  lemma BitTimes(b: nat, h: nat)
    requires b < 2
    ensures b * h == if b == 0 then 0 else h
  {
  }

  lemma {:induction false} RevBelow(x: nat, n: nat)
    ensures Rev(x, n) < Pow2(n)
  {
    if n > 0 {
      RevBelow(x / 2, n - 1);
      BitTimes(x % 2, Pow2(n - 1));
    }
  }

  lemma HalveSum(b: nat, y: nat, h: nat)
    ensures (b * (2 * h) + y) % 2 == y % 2
    ensures (b * (2 * h) + y) / 2 == b * h + y / 2
  {
    assert b * (2 * h) == 2 * (b * h);
  }

  // The top bit becomes the lowest.
  lemma {:induction false} RevOfTop(b: nat, y: nat, n: nat)
    requires n > 0 && b < 2 && y < Pow2(n - 1)
    ensures Rev(b * Pow2(n - 1) + y, n) == 2 * Rev(y, n - 1) + b
  {
    if n == 1 {
      assert b * Pow2(0) + y == b;
      assert Rev(b, 1) == b * Pow2(0) + Rev(b / 2, 0);
    } else {
      HalveSum(b, y, Pow2(n - 2));
      RevOfTop(b, y / 2, n - 1);
      RevTwice(y % 2, Rev(y / 2, n - 2), n);
    }
  }

  lemma RevTwice(c: nat, rest: nat, n: nat)
    requires n > 1 && c < 2
    ensures c * Pow2(n - 1) + 2 * rest == 2 * (c * Pow2(n - 2) + rest)
  {
    BitTimes(c, Pow2(n - 1));
    BitTimes(c, Pow2(n - 2));
  }

  // Reversing twice gives the low bits back.
  lemma {:induction false} Involution(x: nat, n: nat)
    requires x < Pow2(n)
    ensures Rev(x, n) < Pow2(n) && Rev(Rev(x, n), n) == x
  {
    RevBelow(x, n);
    if n > 0 {
      Involution(x / 2, n - 1);
      RevOfTop(x % 2, Rev(x / 2, n - 1), n);
    }
  }

  lemma {:induction false} BitOfSum(b: nat, y: nat, n: nat, i: nat)
    requires b < 2 && y < Pow2(n)
    ensures i < n ==> Bit(b * Pow2(n) + y, i) == Bit(y, i)
    ensures i == n ==> Bit(b * Pow2(n) + y, i) == b
  {
    if n > 0 {
      HalveSum(b, y, Pow2(n - 1));
      if i > 0 {
        BitOfSum(b, y / 2, n - 1, i - 1);
      }
    } else {
      assert b * Pow2(0) + y == b;
    }
  }

  // Bit i of the reversal is bit n - 1 - i of the number.
  lemma {:induction false} RevBit(x: nat, n: nat, i: nat)
    requires i < n
    ensures Bit(Rev(x, n), i) == Bit(x, n - 1 - i)
  {
    RevBelow(x / 2, n - 1);
    BitOfSum(x % 2, Rev(x / 2, n - 1), n - 1, i);
    if i < n - 1 {
      RevBit(x / 2, n - 1, i);
    }
  }

  lemma ShiftModulo(r: nat, full: nat, b: nat)
    requires r == full % WORD && b < 2
    ensures (2 * r + b) % WORD == (2 * full + b) % WORD
  {
    var q := full / WORD;
    assert 2 * full + b == (2 * r + b) + (2 * q) * WORD;
    ModuloAdds(2 * r + b, 2 * q);
  }

  lemma {:induction false} ModuloAdds(x: nat, q: nat)
    ensures (x + q * WORD) % WORD == x % WORD
  {
    if q > 0 {
      ModuloAdds(x, q - 1);
      assert x + q * WORD == (x + (q - 1) * WORD) + WORD;
    }
  }

  lemma RevStep(full: nat, rest: nat, n: nat)
    requires n > 0
    ensures full * Pow2(n) + Rev(rest, n) == (2 * full + rest % 2) * Pow2(n - 1) + Rev(rest / 2, n - 1)
  {
    TwoTimes(full, rest % 2, Pow2(n - 1));
  }

  lemma TwoTimes(full: nat, b: nat, h: nat)
    ensures full * (2 * h) + b * h == (2 * full + b) * h
  {
  }

  lemma {:induction false} Pow2Monotone(a: nat, b: nat)
    requires a <= b
    ensures Pow2(a) <= Pow2(b)
  {
    if a < b {
      Pow2Monotone(a, b - 1);
    }
  }

  lemma WordIsPow2()
    ensures Pow2(32) == WORD
  {
    assert Pow2(8) == 256;
    assert Pow2(16) == 256 * Pow2(8);
    assert Pow2(24) == 256 * Pow2(16);
    assert Pow2(32) == 256 * Pow2(24);
  }

  lemma Fits(num: nat, nbits: nat)
    requires nbits <= 32
    ensures Rev(num, nbits) % WORD == Rev(num, nbits)
  {
    RevBelow(num, nbits);
    Pow2Monotone(nbits, 32);
    WordIsPow2();
  }

  // The loop, on 32-bit words: bits shifted out at the top are lost, so that the
  // result is the whole reversal when at most 32 bits are reversed.
  method BitReverse(num: nat, nbits: nat) returns (reverse: nat)
    requires num < WORD
    ensures reverse == Rev(num, nbits) % WORD
    ensures nbits <= 32 ==> reverse == Rev(num, nbits)
  {
    reverse := 0;
    var rest: nat := num;
    ghost var full: nat := 0;
    for i := 0 to nbits
      invariant reverse == full % WORD
      invariant Rev(num, nbits) == full * Pow2(nbits - i) + Rev(rest, nbits - i)
    {
      RevStep(full, rest, nbits - i);
      ShiftModulo(reverse, full, rest % 2);
      full := 2 * full + rest % 2;
      reverse := (2 * reverse + rest % 2) % WORD;
      rest := rest / 2;
    }
    assert full * Pow2(0) == full;
    if nbits <= 32 {
      Fits(num, nbits);
    }
  }
}
