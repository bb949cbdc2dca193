/** Bytes, 32-bit words, powers of two, shifts and bit strings (most significant bit first). */
module Bits {

  type Bits = seq<bool>
  type byte = x: int | 0 <= x < 256

  const WORD: nat := 0x1_0000_0000

  type uint32 = x: int | 0 <= x < WORD

  /** `x + 1` in 32-bit arithmetic. */
  function Successor(x: uint32): uint32 {
    if x == WORD - 1 then 0 else x + 1
  }

  function Abs(v: int): nat {
    if v < 0 then -v else v
  }

  function Min(a: nat, b: nat): nat {
    if a < b then a else b
  }

  function Bit(b: bool): nat {
    if b then 1 else 0
  }

  function Pow2(n: nat): (p: nat)
    ensures p >= 1
  {
    if n == 0 then 1 else 2 * Pow2(n - 1)
  }

  /** `code >> n`. */
  function Shr(code: nat, n: nat): nat {
    if n == 0 then code else Shr(code, n - 1) / 2
  }

  /** `x << n`. */
  function Shl(x: nat, n: nat): nat {
    if n == 0 then x else 2 * Shl(x, n - 1)
  }

  lemma {:induction false} ShlAdd(x: nat, y: nat, n: nat)
    ensures Shl(x + y, n) == Shl(x, n) + Shl(y, n)
  {
    if n > 0 {
      ShlAdd(x, y, n - 1);
    }
  }

  lemma {:induction false} ShlDouble(x: nat, n: nat)
    ensures Shl(2 * x, n) == Shl(x, n + 1)
  {
    if n > 0 {
      ShlDouble(x, n - 1);
    }
  }

  lemma {:induction false} ShlOrder(x: nat, y: nat, n: nat)
    ensures Shl(x, n) <= Shl(y, n) <==> x <= y
  {
    if n > 0 {
      ShlOrder(x, y, n - 1);
    }
  }

  lemma {:induction false} ShlPow2(a: nat, n: nat)
    ensures Shl(Pow2(a), n) == Pow2(a + n)
  {
    if n > 0 {
      ShlPow2(a, n - 1);
    }
  }

  lemma {:induction false} ShrHalf(code: nat, n: nat)
    ensures Shr(code / 2, n) == Shr(code, n + 1)
  {
    if n > 0 {
      ShrHalf(code, n - 1);
    }
  }

  lemma {:induction false} ShrZero(code: nat, n: nat)
    ensures Shr(code, n) == 0 <==> code < Pow2(n)
  {
    if n > 0 {
      ShrZero(code / 2, n - 1);
      ShrHalf(code, n - 1);
    }
  }

  /** The low `length` bits of `code`: `(code >> i) & 1` for i = length-1 down to 0. */
  function ToBits(code: nat, length: nat): (b: Bits)
    ensures |b| == length
  {
    if length == 0 then [] else ToBits(code / 2, length - 1) + [code % 2 == 1]
  }

  function Value(b: Bits): nat {
    if b == [] then 0 else 2 * Value(b[..|b| - 1]) + Bit(b[|b| - 1])
  }

  lemma {:induction false} ValueOfToBits(code: nat, length: nat)
    requires code < Pow2(length)
    ensures Value(ToBits(code, length)) == code
  {
    if length > 0 {
      var high, last := ToBits(code / 2, length - 1), code % 2 == 1;
      ValueOfToBits(code / 2, length - 1);
      ValueLast(high, last);
      assert ToBits(code, length) == high + [last];
    }
  }

  lemma ValueLast(high: Bits, last: bool)
    ensures Value(high + [last]) == 2 * Value(high) + Bit(last)
  {
    assert (high + [last])[..|high|] == high;
  }

  lemma {:induction false} ToBitsHead(code: nat, n: nat)
    requires n > 0
    ensures ToBits(code, n) == [Shr(code, n - 1) % 2 == 1] + ToBits(code, n - 1)
  {
    if n > 1 {
      ToBitsHead(code / 2, n - 1);
      ShrHalf(code, n - 2);
    }
  }

  /** A byte string read as a bit string. */
  function BytesToBits(s: seq<byte>): Bits {
    if s == [] then [] else BytesToBits(s[..|s| - 1]) + ToBits(s[|s| - 1], 8)
  }

  lemma BytesToBitsSnoc(s: seq<byte>, x: byte)
    ensures BytesToBits(s + [x]) == BytesToBits(s) + ToBits(x, 8)
  {
    assert (s + [x])[..|s|] == s;
  }
}
