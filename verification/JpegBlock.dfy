/**
 One 8x8 block of a baseline scan: what `encode_block` writes for the 64 quantised
 coefficients in zigzag order, and the decoder of section F.2.2 of ITU-T T.81.
 */
module JpegBlock {
  import opened Bits
  import opened Options
  import opened Sequences
  import opened JpegHuffman

  type CodeMap = map<byte, Code>

  // ---------------------------------------------------------------- magnitudes

  function BitLength(m: nat): nat {
    if m == 0 then 0 else 1 + BitLength(m / 2)
  }

  function Category(v: int): nat {
    BitLength(Abs(v))
  }

  lemma {:induction false} BitLengthBounds(m: nat)
    ensures m < Pow2(BitLength(m))
    ensures m > 0 ==> BitLength(m) > 0 && Pow2(BitLength(m) - 1) <= m
  {
    if m > 0 {
      BitLengthBounds(m / 2);
    }
  }

  lemma {:induction false} BitLengthAtMost(m: nat, n: nat)
    ensures m < Pow2(n) <==> BitLength(m) <= n
  {
    if m > 0 && n > 0 {
      BitLengthAtMost(m / 2, n - 1);
    }
  }

  /** The magnitude category: the number of bits of |value|, so 2^(n-1) <= |value| < 2^n. */
  method CategoryOf(value: int) returns (n: nat)
    ensures n == Category(value)
    ensures value == 0 <==> n == 0
    ensures value != 0 ==> Pow2(n - 1) <= Abs(value) < Pow2(n)
  {
    n := 0;
    var magnitude := Abs(value);
    while magnitude != 0
      invariant n + BitLength(magnitude) == Category(value)
    {
      magnitude := magnitude / 2;
      n := n + 1;
    }
    BitLengthBounds(Abs(value));
  }

  function EncodeBits(value: int, size: nat): (r: nat)
    requires Abs(value) < Pow2(size)
    ensures r < Pow2(size)
  {
    if value >= 0 then value else value + Pow2(size) - 1
  }

  /** EXTEND of figure F.12; a zero-bit difference is zero. */
  function Extend(v: nat, t: nat): int {
    if t == 0 then 0
    else if v < Pow2(t - 1) then v - Pow2(t) + 1
    else v
  }

  lemma ExtendInvertsEncodeBits(value: int)
    ensures Abs(value) < Pow2(Category(value))
    ensures Extend(EncodeBits(value, Category(value)), Category(value)) == value
  {
    BitLengthBounds(Abs(value));
  }

  lemma ExtendBound(v: nat, t: nat)
    requires v < Pow2(t) && t <= 15
    ensures Category(Extend(v, t)) <= 15
  {
    BitLengthAtMost(Abs(Extend(v, t)), t);
  }

  function MagnitudeBits(value: int): Bits {
    BitLengthBounds(Abs(value));
    ToBits(EncodeBits(value, Category(value)), Category(value))
  }

  lemma {:induction false} ComplementBits(v: nat, n: nat)
    requires v < Pow2(n)
    ensures forall k | 0 <= k < n :: ToBits(Pow2(n) - 1 - v, n)[k] == !ToBits(v, n)[k]
    decreases n
  {
    if n > 0 {
      var c := Pow2(n) - 1 - v;
      assert c / 2 == Pow2(n - 1) - 1 - v / 2 && c % 2 == 1 - v % 2;
      ComplementBits(v / 2, n - 1);
    }
  }

  /** A positive value is its own binary digits; a negative one has every digit of its opposite inverted. */
  lemma NegativeIsComplement(v: int)
    requires v > 0
    ensures MagnitudeBits(v) == ToBits(v, Category(v)) && |MagnitudeBits(-v)| == Category(v)
    ensures forall k | 0 <= k < Category(v) :: MagnitudeBits(-v)[k] == !MagnitudeBits(v)[k]
  {
    BitLengthBounds(v);
    ComplementBits(v, Category(v));
  }

  /** RECEIVE of figure F.17. */
  function Receive(b: Bits, n: nat): Option<(nat, Bits)> {
    if |b| < n then None else Some((Value(b[..n]), b[n..]))
  }

  lemma ReceiveMagnitude(value: int, rest: Bits)
    ensures Receive(MagnitudeBits(value) + rest, Category(value)).Some?
    ensures var (v, after) := Receive(MagnitudeBits(value) + rest, Category(value)).value;
            Extend(v, Category(value)) == value && after == rest
  {
    var n := Category(value);
    ExtendInvertsEncodeBits(value);
    ValueOfToBits(EncodeBits(value, n), n);
    assert (MagnitudeBits(value) + rest)[..n] == MagnitudeBits(value);
    assert (MagnitudeBits(value) + rest)[n..] == rest;
  }

  lemma {:induction false} ValueBound(b: Bits)
    ensures Value(b) < Pow2(|b|)
  {
    if b != [] {
      ValueBound(b[..|b| - 1]);
    }
  }

  // ---------------------------------------------------------------- the encoder's bits

  /** Bitwise or. */
  function Or(a: nat, b: nat): nat {
    if a == 0 then b else if b == 0 then a
    else 2 * Or(a / 2, b / 2) + (if a % 2 == 1 || b % 2 == 1 then 1 else 0)
  }

  /** `(run << 4) | size`. */
  function RunSize(run: nat, size: nat): nat {
    Or(16 * run, size)
  }

  lemma {:induction false} OrLowZero(a: nat, b: nat, n: nat)
    requires b < Pow2(n)
    ensures Or(Shl(a, n), b) == Shl(a, n) + b
  {
    if n > 0 {
      OrLowZero(a, b / 2, n - 1);
      assert Shl(a, n) == 2 * Shl(a, n - 1);
      OrEven(Shl(a, n - 1), b);
    }
  }

  lemma OrEven(h: nat, b: nat)
    ensures Or(2 * h, b) == 2 * Or(h, b / 2) + b % 2
  {
    assert (2 * h) / 2 == h && (2 * h) % 2 == 0;
  }

  lemma RunSizeOfSmall(run: nat, size: nat)
    requires size <= 15
    ensures RunSize(run, size) == 16 * run + size
  {
    assert Pow2(1) == 2 && Pow2(2) == 4 && Pow2(3) == 8 && Pow2(4) == 16;
    assert Shl(run, 0) == run && Shl(run, 1) == 2 * run && Shl(run, 2) == 4 * run;
    assert Shl(run, 3) == 8 * run && Shl(run, 4) == 16 * run;
    OrLowZero(run, size, 4);
  }

  /** The code written for a symbol; None is the KeyError of a symbol without one. */
  function SymbolBits(codes: CodeMap, symbol: nat): Option<Bits> {
    if symbol in codes then Some(CodeBits(codes[symbol])) else None
  }

  function Then(a: Option<Bits>, b: Option<Bits>): Option<Bits> {
    if a.None? || b.None? then None else Some(a.value + b.value)
  }

  /** A symbol followed by the magnitude bits of `value`. */
  function Coefficient(codes: CodeMap, symbol: nat, value: int): Option<Bits> {
    Then(SymbolBits(codes, symbol), Some(MagnitudeBits(value)))
  }

  /** A ZRL for every sixteen pending zeroes, then the rest of the run with the coefficient. */
  function RunBits(ac: CodeMap, run: nat, value: int): Option<Bits> {
    if run > 15 then Then(SymbolBits(ac, 0xF0), RunBits(ac, run - 16, value))
    else Coefficient(ac, RunSize(run, Category(value)), value)
  }

  /** What is still to be written at coefficient `i` with `run` zeroes pending. */
  function AcBits(ac: CodeMap, zz: seq<int>, i: nat, run: nat): Option<Bits>
    requires |zz| == 64 && i <= 64
    decreases |zz| - i
  {
    if i == 64 then (if run > 0 then SymbolBits(ac, 0x00) else Some([]))
    else if zz[i] == 0 then AcBits(ac, zz, i + 1, run + 1)
    else Then(RunBits(ac, run, zz[i]), AcBits(ac, zz, i + 1, 0))
  }

  function DcBits(dc: CodeMap, diff: int): Option<Bits> {
    Coefficient(dc, Category(diff), diff)
  }

  function BlockBits(dc: CodeMap, ac: CodeMap, zz: seq<int>, prev: int): Option<Bits>
    requires |zz| == 64
  {
    Then(DcBits(dc, zz[0] - prev), AcBits(ac, zz, 1, 0))
  }

  // ---------------------------------------------------------------- the decoder

  function Zeroes(n: nat): seq<int> {
    seq(n, _ => 0)
  }

  /** Decode_AC_coefficients of figure F.13, with the coefficients `zz` already decoded. */
  function DecodeAc(ac: ValidSpec, b: Bits, zz: seq<int>): (r: Option<(seq<int>, Bits)>)
    requires |zz| <= 64
    ensures r.Some? ==> |r.value.0| == 64
    decreases 64 - |zz|
  {
    if |zz| == 64 then Some((zz, b)) else
    match DecodeSymbol(ac, b)
    case None => None
    case Some((symbol, after)) =>
      var run, size := symbol / 16, symbol % 16;
      if size == 0 && run == 15 then
        (if |zz| + 16 < 64 then DecodeAc(ac, after, zz + Zeroes(16)) else None)
      else if size == 0 then Some((zz + Zeroes(64 - |zz|), after))
      else if |zz| + run >= 64 then None
      else match Receive(after, size)
        case None => None
        case Some((v, rest)) => DecodeAc(ac, rest, zz + Zeroes(run) + [Extend(v, size)])
  }

  /** Section F.2.2.1: a difference in DC, added to the prediction. */
  function DecodeDc(dc: ValidSpec, b: Bits, pred: int): Option<(int, Bits)>
  {
    match DecodeSymbol(dc, b)
    case None => None
    case Some((size, after)) =>
      match Receive(after, size)
      case None => None
      case Some((v, rest)) => Some((pred + Extend(v, size), rest))
  }

  function DecodeBlock(dc: ValidSpec, ac: ValidSpec, b: Bits, pred: int): (r: Option<(seq<int>, Bits)>)
    ensures r.Some? ==> |r.value.0| == 64
  {
    match DecodeDc(dc, b, pred)
    case None => None
    case Some((value, rest)) => DecodeAc(ac, rest, [value])
  }

  // ---------------------------------------------------------------- round trip

  /** Every AC coefficient has a magnitude category that fits the symbol's low four bits. */
  ghost predicate SmallAc(zz: seq<int>) {
    forall i | 1 <= i < |zz| :: Category(zz[i]) <= 15
  }

  lemma DecodeCoefficient(s: ValidSpec, symbol: nat, value: int, rest: Bits)
    requires Coefficient(Codes(s), symbol, value).Some?
    ensures symbol < 256
    ensures DecodeSymbol(s, Coefficient(Codes(s), symbol, value).value + rest)
            == Some((symbol, MagnitudeBits(value) + rest))
  {
    DecodeOfSymbol(s, symbol, MagnitudeBits(value) + rest);
    ConcatAssoc(CodeBits(Codes(s)[symbol]), MagnitudeBits(value), rest);
  }

  lemma DcRoundTrip(dc: ValidSpec, diff: int, pred: int, rest: Bits)
    requires DcBits(Codes(dc), diff).Some?
    ensures DecodeDc(dc, DcBits(Codes(dc), diff).value + rest, pred) == Some((pred + diff, rest))
  {
    DecodeCoefficient(dc, Category(diff), diff, rest);
    ReceiveMagnitude(diff, rest);
  }

  /** The decoder is `run` coefficients behind the encoder: those are the pending zeroes. */
  ghost predicate Pending(zz: seq<int>, i: nat, run: nat) {
    |zz| == 64 && 1 <= i <= 64 && run < i && forall j | i - run <= j < i :: zz[j] == 0
  }

  lemma {:induction false} AcRoundTrip(ac: ValidSpec, zz: seq<int>, i: nat, run: nat, rest: Bits)
    requires Pending(zz, i, run) && SmallAc(zz)
    requires AcBits(Codes(ac), zz, i, run).Some?
    ensures DecodeAc(ac, AcBits(Codes(ac), zz, i, run).value + rest, zz[..i - run]) == Some((zz, rest))
    decreases 64 - i
  {
    if i == 64 {
      AcRoundTripEnd(ac, zz, run, rest);
    } else if zz[i] == 0 {
      AcRoundTrip(ac, zz, i + 1, run + 1, rest);
    } else {
      AcRoundTrip(ac, zz, i + 1, 0, rest);
      BitLengthBounds(Abs(zz[i]));
      AcRoundTripValue(ac, zz, i, run, AcBits(Codes(ac), zz, i + 1, 0).value, rest);
    }
  }

  lemma AcRoundTripEnd(ac: ValidSpec, zz: seq<int>, run: nat, rest: Bits)
    requires Pending(zz, 64, run) && AcBits(Codes(ac), zz, 64, run).Some?
    ensures DecodeAc(ac, AcBits(Codes(ac), zz, 64, run).value + rest, zz[..64 - run]) == Some((zz, rest))
  {
    if run == 0 {
      assert zz[..64] == zz && [] + rest == rest;
    } else {
      DecodeOfSymbol(ac, 0x00, rest);
      assert zz[..64 - run] + Zeroes(run) == zz;
    }
  }

  lemma AcRoundTripValue(ac: ValidSpec, zz: seq<int>, i: nat, run: nat, more: Bits, rest: Bits)
    requires Pending(zz, i, run) && i < 64 && 1 <= Category(zz[i]) <= 15
    requires RunBits(Codes(ac), run, zz[i]).Some?
    requires DecodeAc(ac, more + rest, zz[..i + 1]) == Some((zz, rest))
    ensures DecodeAc(ac, RunBits(Codes(ac), run, zz[i]).value + more + rest, zz[..i - run]) == Some((zz, rest))
  {
    ConcatAssoc(RunBits(Codes(ac), run, zz[i]).value, more, rest);
    RunRoundTrip(ac, zz[..i - run], run, zz[i], more + rest);
    PendingThenValue(zz, i, run);
  }

  /** Reading a run and its coefficient back appends the zeroes and the coefficient. */
  lemma {:induction false} RunRoundTrip(ac: ValidSpec, zz: seq<int>, run: nat, value: int, rest: Bits)
    requires 1 <= Category(value) <= 15 && |zz| + run < 64
    requires RunBits(Codes(ac), run, value).Some?
    ensures DecodeAc(ac, RunBits(Codes(ac), run, value).value + rest, zz)
            == DecodeAc(ac, rest, zz + Zeroes(run) + [value])
    decreases run
  {
    if run > 15 {
      RunRoundTrip(ac, zz + Zeroes(16), run - 16, value, rest);
      ZrlRoundTrip(ac, zz, RunBits(Codes(ac), run - 16, value).value, rest);
      assert zz + Zeroes(16) + Zeroes(run - 16) == zz + Zeroes(run);
    } else {
      DecodeAcCoefficient(ac, zz, run, value, rest);
    }
  }

  lemma ZrlRoundTrip(ac: ValidSpec, zz: seq<int>, more: Bits, rest: Bits)
    requires |zz| + 16 < 64 && SymbolBits(Codes(ac), 0xF0).Some?
    ensures DecodeAc(ac, SymbolBits(Codes(ac), 0xF0).value + more + rest, zz)
            == DecodeAc(ac, more + rest, zz + Zeroes(16))
  {
    ConcatAssoc(SymbolBits(Codes(ac), 0xF0).value, more, rest);
    DecodeOfSymbol(ac, 0xF0, more + rest);
  }

  lemma PendingThenValue(zz: seq<int>, i: nat, run: nat)
    requires Pending(zz, i, run) && i < 64
    ensures zz[..i - run] + Zeroes(run) + [zz[i]] == zz[..i + 1]
  {
  }

  lemma DecodeAcCoefficient(ac: ValidSpec, zz: seq<int>, run: nat, value: int, rest: Bits)
    requires run <= 15 && 1 <= Category(value) <= 15 && |zz| + run < 64
    requires Coefficient(Codes(ac), RunSize(run, Category(value)), value).Some?
    ensures DecodeAc(ac, Coefficient(Codes(ac), RunSize(run, Category(value)), value).value + rest, zz)
            == DecodeAc(ac, rest, zz + Zeroes(run) + [value])
  {
    var size := Category(value);
    var symbol := RunSize(run, size);
    var b, after := Coefficient(Codes(ac), symbol, value).value + rest, MagnitudeBits(value) + rest;
    RunSizeParts(run, size);
    DecodeCoefficient(ac, symbol, value, rest);
    ReceiveMagnitude(value, rest);
    DecodeAcStep(ac, b, zz, symbol, after, Receive(after, size).value.0, rest);
  }

  lemma RunSizeParts(run: nat, size: nat)
    requires size <= 15
    ensures RunSize(run, size) / 16 == run && RunSize(run, size) % 16 == size
  {
    RunSizeOfSmall(run, size);
  }

  lemma DecodeAcStep(ac: ValidSpec, b: Bits, zz: seq<int>, symbol: byte, after: Bits, v: nat, rest: Bits)
    requires symbol % 16 != 0 && |zz| + symbol / 16 < 64
    requires DecodeSymbol(ac, b) == Some((symbol, after))
    requires Receive(after, symbol % 16) == Some((v, rest))
    ensures DecodeAc(ac, b, zz) == DecodeAc(ac, rest, zz + Zeroes(symbol / 16) + [Extend(v, symbol % 16)])
  {
  }

  /** A decoder never produces an AC coefficient of more than fifteen bits. */
  lemma {:induction false} DecodedAcIsSmall(ac: ValidSpec, b: Bits, zz: seq<int>)
    requires 1 <= |zz| <= 64 && SmallAc(zz) && DecodeAc(ac, b, zz).Some?
    ensures SmallAc(DecodeAc(ac, b, zz).value.0)
    decreases 64 - |zz|
  {
    if |zz| < 64 {
      var (symbol, after) := DecodeSymbol(ac, b).value;
      var run, size := symbol / 16, symbol % 16;
      if size == 0 && run == 15 {
        DecodedAcIsSmall(ac, after, zz + Zeroes(16));
      } else if size > 0 {
        var (v, rest) := Receive(after, size).value;
        ValueBound(after[..size]);
        ExtendBound(v, size);
        DecodedAcIsSmall(ac, rest, zz + Zeroes(run) + [Extend(v, size)]);
      }
    }
  }

  /**
   Decoding what was encoded gives the block back, whatever follows it, exactly when every
   AC category fits four bits. `encode_block` itself does not check: with sixteen or more
   bits, `(run << 4) | size` can be the key of a different symbol.
   */
  lemma BlockRoundTrip(dc: ValidSpec, ac: ValidSpec, zz: seq<int>, prev: int, rest: Bits)
    requires |zz| == 64
    requires BlockBits(Codes(dc), Codes(ac), zz, prev).Some?
    ensures DecodeBlock(dc, ac, BlockBits(Codes(dc), Codes(ac), zz, prev).value + rest, prev) == Some((zz, rest))
            <==> SmallAc(zz)
  {
    var a := AcBits(Codes(ac), zz, 1, 0).value;
    BlockRoundTripFrom(dc, ac, zz, prev, a, rest);
    AcRoundTripIff(ac, zz, rest);
  }

  lemma BlockRoundTripFrom(dc: ValidSpec, ac: ValidSpec, zz: seq<int>, prev: int, a: Bits, rest: Bits)
    requires |zz| == 64 && DcBits(Codes(dc), zz[0] - prev).Some?
    ensures DecodeBlock(dc, ac, DcBits(Codes(dc), zz[0] - prev).value + a + rest, prev)
            == DecodeAc(ac, a + rest, [zz[0]])
  {
    var d := DcBits(Codes(dc), zz[0] - prev).value;
    ConcatAssoc(d, a, rest);
    DcRoundTrip(dc, zz[0] - prev, prev, a + rest);
    DecodeBlockStep(dc, ac, d + (a + rest), prev, zz[0], a + rest);
  }

  lemma DecodeBlockStep(dc: ValidSpec, ac: ValidSpec, b: Bits, pred: int, value: int, rest: Bits)
    requires DecodeDc(dc, b, pred) == Some((value, rest))
    ensures DecodeBlock(dc, ac, b, pred) == DecodeAc(ac, rest, [value])
  {
  }

  lemma AcRoundTripIff(ac: ValidSpec, zz: seq<int>, rest: Bits)
    requires |zz| == 64 && AcBits(Codes(ac), zz, 1, 0).Some?
    ensures DecodeAc(ac, AcBits(Codes(ac), zz, 1, 0).value + rest, [zz[0]]) == Some((zz, rest)) <==> SmallAc(zz)
  {
    var b := AcBits(Codes(ac), zz, 1, 0).value + rest;
    if SmallAc(zz) {
      AcRoundTrip(ac, zz, 1, 0, rest);
      assert zz[..1] == [zz[0]];
    }
    if DecodeAc(ac, b, [zz[0]]) == Some((zz, rest)) {
      DecodedAcIsSmall(ac, b, [zz[0]]);
    }
  }
}
