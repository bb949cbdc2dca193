/** `encode_block` as it is written: two loops over the coefficients and the pending run. */
module JpegEncoder {
  import opened Bits
  import opened Options
  import opened Sequences
  import opened JpegBitWriter
  import opened JpegBlock

  /** Natural index of the i-th coefficient in zigzag order. */
  function Zigzag(i: nat): nat {
    match i
    case 0 => 0 case 1 => 1 case 2 => 8 case 3 => 16 case 4 => 9 case 5 => 2 case 6 => 3 case 7 => 10
    case 8 => 17 case 9 => 24 case 10 => 32 case 11 => 25 case 12 => 18 case 13 => 11 case 14 => 4 case 15 => 5
    case 16 => 12 case 17 => 19 case 18 => 26 case 19 => 33 case 20 => 40 case 21 => 48 case 22 => 41 case 23 => 34
    case 24 => 27 case 25 => 20 case 26 => 13 case 27 => 6 case 28 => 7 case 29 => 14 case 30 => 21 case 31 => 28
    case 32 => 35 case 33 => 42 case 34 => 49 case 35 => 56 case 36 => 57 case 37 => 50 case 38 => 43 case 39 => 36
    case 40 => 29 case 41 => 22 case 42 => 15 case 43 => 23 case 44 => 30 case 45 => 37 case 46 => 44 case 47 => 51
    case 48 => 58 case 49 => 59 case 50 => 52 case 51 => 45 case 52 => 38 case 53 => 31 case 54 => 39 case 55 => 46
    case 56 => 53 case 57 => 60 case 58 => 61 case 59 => 54 case 60 => 47 case 61 => 55 case 62 => 62 case 63 => 63
    case _ => 64
  }

  /** The other way round: where a decoder finds natural coefficient i (figure A.6). */
  function Unzigzag(i: nat): nat {
    match i
    case 0 => 0 case 1 => 1 case 2 => 5 case 3 => 6 case 4 => 14 case 5 => 15 case 6 => 27 case 7 => 28
    case 8 => 2 case 9 => 4 case 10 => 7 case 11 => 13 case 12 => 16 case 13 => 26 case 14 => 29 case 15 => 42
    case 16 => 3 case 17 => 8 case 18 => 12 case 19 => 17 case 20 => 25 case 21 => 30 case 22 => 41 case 23 => 43
    case 24 => 9 case 25 => 11 case 26 => 18 case 27 => 24 case 28 => 31 case 29 => 40 case 30 => 44 case 31 => 53
    case 32 => 10 case 33 => 19 case 34 => 23 case 35 => 32 case 36 => 39 case 37 => 45 case 38 => 52 case 39 => 54
    case 40 => 20 case 41 => 22 case 42 => 33 case 43 => 38 case 44 => 46 case 45 => 51 case 46 => 55 case 47 => 60
    case 48 => 21 case 49 => 34 case 50 => 37 case 51 => 47 case 52 => 50 case 53 => 56 case 54 => 59 case 55 => 61
    case 56 => 35 case 57 => 36 case 58 => 48 case 59 => 49 case 60 => 57 case 61 => 58 case 62 => 62 case 63 => 63
    case _ => 64
  }

  lemma ZigzagThenUnzigzag(i: nat)
    requires i < 64
    ensures Zigzag(i) < 64 && Unzigzag(Zigzag(i)) == i
  {
    if i < 16 {
    } else if i < 32 {
    } else if i < 48 {
    } else {
    }
  }

  lemma UnzigzagThenZigzag(i: nat)
    requires i < 64
    ensures Unzigzag(i) < 64 && Zigzag(Unzigzag(i)) == i
  {
    if i < 16 {
    } else if i < 32 {
    } else if i < 48 {
    } else {
    }
  }

  lemma ZigzagIsPermutation()
    ensures forall i | 0 <= i < 64 :: Zigzag(i) < 64 && Unzigzag(Zigzag(i)) == i
    ensures forall i | 0 <= i < 64 :: Unzigzag(i) < 64 && Zigzag(Unzigzag(i)) == i
  {
    forall i | 0 <= i < 64
      ensures Zigzag(i) < 64 && Unzigzag(Zigzag(i)) == i
      ensures Unzigzag(i) < 64 && Zigzag(Unzigzag(i)) == i
    {
      ZigzagThenUnzigzag(i);
      UnzigzagThenZigzag(i);
    }
  }

  /** One step of the zigzag of figure A.6: up to the right on every other diagonal, down to the left on the rest. */
  function NextInZigzag(row: nat, column: nat): (nat, nat) {
    if (row + column) % 2 == 0 then
      (if column == 7 then (row + 1, 7) else if row == 0 then (0, column + 1) else (row - 1, column + 1))
    else
      (if row == 7 then (7, column + 1) else if column == 0 then (row + 1, 0) else (row + 1, column - 1))
  }

  lemma ZigzagWalks0(i: nat)
    requires 0 <= i < 16
    ensures (Zigzag(i + 1) / 8, Zigzag(i + 1) % 8) == NextInZigzag(Zigzag(i) / 8, Zigzag(i) % 8)
  {
  }

  lemma ZigzagWalks1(i: nat)
    requires 16 <= i < 32
    ensures (Zigzag(i + 1) / 8, Zigzag(i + 1) % 8) == NextInZigzag(Zigzag(i) / 8, Zigzag(i) % 8)
  {
  }

  lemma ZigzagWalks2(i: nat)
    requires 32 <= i < 48
    ensures (Zigzag(i + 1) / 8, Zigzag(i + 1) % 8) == NextInZigzag(Zigzag(i) / 8, Zigzag(i) % 8)
  {
  }

  lemma ZigzagWalks3(i: nat)
    requires 48 <= i < 63
    ensures (Zigzag(i + 1) / 8, Zigzag(i + 1) % 8) == NextInZigzag(Zigzag(i) / 8, Zigzag(i) % 8)
  {
  }

  /** The order starts in the upper left corner and is that walk through the 64 coefficients. */
  lemma ZigzagWalks(i: nat)
    requires i < 63
    ensures Zigzag(0) == 0
    ensures (Zigzag(i + 1) / 8, Zigzag(i + 1) % 8) == NextInZigzag(Zigzag(i) / 8, Zigzag(i) % 8)
  {
    if i < 16 { ZigzagWalks0(i); }
    else if i < 32 { ZigzagWalks1(i); }
    else if i < 48 { ZigzagWalks2(i); }
    else { ZigzagWalks3(i); }
  }

  function ToZigzag<T>(q: seq<T>): (zz: seq<T>)
    requires |q| == 64
    ensures |zz| == 64
  {
    ZigzagIsPermutation();
    seq(64, i requires 0 <= i < 64 => q[Zigzag(i)])
  }

  function FromZigzag<T>(zz: seq<T>): (q: seq<T>)
    requires |zz| == 64
    ensures |q| == 64
  {
    ZigzagIsPermutation();
    seq(64, k requires 0 <= k < 64 => zz[Unzigzag(k)])
  }

  lemma ZigzagRoundTrip<T>(q: seq<T>)
    requires |q| == 64
    ensures FromZigzag(ToZigzag(q)) == q && ToZigzag(FromZigzag(q)) == q
  {
    ZigzagIsPermutation();
  }

  lemma ThenAssoc(a: Bits, b: Option<Bits>, c: Option<Bits>)
    ensures Then(Some(a), Then(b, c)) == Then(Then(Some(a), b), c)
  {
    if b.Some? && c.Some? {
      ConcatAssoc(a, b.value, c.value);
    }
  }

  lemma ThenNothing(a: Option<Bits>)
    ensures Then(Some([]), a) == a
  {
    if a.Some? {
      assert [] + a.value == a.value;
    }
  }

  /** Writes the code of a symbol; false is the KeyError. */
  method WriteSymbol(bw: BitWriter, codes: CodeMap, symbol: nat) returns (ok: bool)
    requires bw.Valid()
    modifies bw
    ensures bw.Valid() && ok == SymbolBits(codes, symbol).Some?
    ensures ok ==> bw.Content() == old(bw.Content()) + SymbolBits(codes, symbol).value
  {
    ok := symbol in codes;
    if ok {
      bw.Write(codes[symbol].code, codes[symbol].length);
    }
  }

  /** A symbol and the magnitude bits of `value`; `size` is its category. */
  method WriteCoefficient(bw: BitWriter, codes: CodeMap, symbol: nat, value: int, size: nat) returns (ok: bool)
    requires bw.Valid() && size == Category(value)
    modifies bw
    ensures bw.Valid() && ok == Coefficient(codes, symbol, value).Some?
    ensures ok ==> bw.Content() == old(bw.Content()) + Coefficient(codes, symbol, value).value
  {
    ok := WriteSymbol(bw, codes, symbol);
    if ok {
      BitLengthBounds(Abs(value));
      ConcatAssoc(old(bw.Content()), SymbolBits(codes, symbol).value, MagnitudeBits(value));
      bw.Write(EncodeBits(value, size), size);
    }
  }

  /** The body of the coefficient loop for a coefficient that is not zero. */
  method WriteRun(bw: BitWriter, ac: CodeMap, pending: nat, value: int) returns (ok: bool)
    requires bw.Valid()
    modifies bw
    ensures bw.Valid() && ok == RunBits(ac, pending, value).Some?
    ensures ok ==> bw.Content() == old(bw.Content()) + RunBits(ac, pending, value).value
  {
    var run := pending;
    ghost var all, done := RunBits(ac, pending, value), [];
    ThenNothing(all);
    while run > 15
      invariant bw.Valid() && bw.Content() == old(bw.Content()) + done
      invariant all == Then(Some(done), RunBits(ac, run, value))
    {
      ThenAssoc(done, SymbolBits(ac, 0xF0), RunBits(ac, run - 16, value));
      ok := WriteSymbol(bw, ac, 0xF0);
      if !ok { return; }
      ConcatAssoc(old(bw.Content()), done, SymbolBits(ac, 0xF0).value);
      done := done + SymbolBits(ac, 0xF0).value;
      run := run - 16;
    }
    var size := CategoryOf(value);
    ok := WriteCoefficient(bw, ac, RunSize(run, size), value, size);
    if ok {
      ConcatAssoc(old(bw.Content()), done, Coefficient(ac, RunSize(run, size), value).value);
    }
  }

  /** The coefficient loop of `encode_block`, with the end-of-block code after trailing zeroes. */
  method WriteAc(bw: BitWriter, zz: seq<int>, ac: CodeMap) returns (ok: bool)
    requires bw.Valid() && |zz| == 64
    modifies bw
    ensures bw.Valid() && ok == AcBits(ac, zz, 1, 0).Some?
    ensures ok ==> bw.Content() == old(bw.Content()) + AcBits(ac, zz, 1, 0).value
  {
    var run := 0;
    ghost var all, done := AcBits(ac, zz, 1, 0), [];
    ThenNothing(all);
    for i := 1 to 64
      invariant bw.Valid() && bw.Content() == old(bw.Content()) + done
      invariant all == Then(Some(done), AcBits(ac, zz, i, run))
    {
      if zz[i] == 0 {
        run := run + 1;
        continue;
      }
      ThenAssoc(done, RunBits(ac, run, zz[i]), AcBits(ac, zz, i + 1, 0));
      ok := WriteRun(bw, ac, run, zz[i]);
      if !ok { return; }
      ConcatAssoc(old(bw.Content()), done, RunBits(ac, run, zz[i]).value);
      done := done + RunBits(ac, run, zz[i]).value;
      run := 0;
    }
    ok := true;
    if run > 0 {
      ok := WriteSymbol(bw, ac, 0x00);
      if ok { ConcatAssoc(old(bw.Content()), done, SymbolBits(ac, 0x00).value); }
    } else {
      assert done + [] == done;
    }
  }

  /** `encode_block` on the quantised coefficients; None is a KeyError, otherwise the block's DC. */
  method EncodeBlock(bw: BitWriter, q: seq<int>, dc: CodeMap, ac: CodeMap, prevDc: int) returns (r: Option<int>)
    requires bw.Valid() && |q| == 64
    modifies bw
    ensures bw.Valid() && (r.Some? <==> BlockBits(dc, ac, ToZigzag(q), prevDc).Some?)
    ensures r.Some? ==>
              r.value == ToZigzag(q)[0] &&
              bw.Content() == old(bw.Content()) + BlockBits(dc, ac, ToZigzag(q), prevDc).value
  {
    var zz := ToZigzag(q);
    var diff := zz[0] - prevDc;
    var size := CategoryOf(diff);
    var ok := WriteCoefficient(bw, dc, size, diff, size);
    if !ok { return None; }
    ghost var written := bw.Content();
    ok := WriteAc(bw, zz, ac);
    if !ok { return None; }
    ghost var d, a := DcBits(dc, diff), AcBits(ac, zz, 1, 0);
    assert BlockBits(dc, ac, zz, prevDc) == Some(d.value + a.value);
    ConcatAssoc(old(bw.Content()), d.value, a.value);
    r := Some(zz[0]);
  }
}
