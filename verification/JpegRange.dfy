/**
 Which blocks and scans can be encoded at all, for tables that have a code for every DC
 size up to eleven and every run with an AC size up to ten.
 */
module JpegRange {
  import opened Bits
  import opened JpegHuffman
  import opened JpegBlock
  import opened JpegEncoder
  import opened JpegScan

  ghost predicate DcComplete(dc: CodeMap) {
    forall size: nat :: size in dc <==> size <= 11
  }

  ghost predicate AcComplete(ac: CodeMap) {
    0x00 in ac && 0xF0 in ac &&
    forall symbol: byte | 1 <= symbol % 16 <= 15 :: symbol in ac <==> symbol % 16 <= 10
  }

  ghost predicate Full(t: Tables) {
    DcComplete(Codes(t.dc)) && AcComplete(Codes(t.ac))
  }

  /** The coefficients baseline coding has room for. */
  ghost predicate InRange(zz: seq<int>, pred: int)
    requires |zz| == 64
  {
    -2047 <= zz[0] - pred <= 2047 && forall i | 1 <= i < 64 :: -1023 <= zz[i] <= 1023
  }

  lemma CategoryLimits(v: int)
    ensures Category(v) <= 10 <==> -1023 <= v <= 1023
    ensures Category(v) <= 11 <==> -2047 <= v <= 2047
    ensures Category(v) == 0 <==> v == 0
  {
    BitLengthAtMost(Abs(v), 10);
    BitLengthAtMost(Abs(v), 11);
    assert Pow2(5) == 32 && Pow2(10) == 32 * Pow2(5) && Pow2(11) == 2 * Pow2(10);
  }

  lemma {:induction false} RunCoded(ac: CodeMap, run: nat, value: int)
    requires AcComplete(ac) && 1 <= Category(value) <= 15
    ensures RunBits(ac, run, value).Some? <==> Category(value) <= 10
    decreases run
  {
    if run > 15 {
      RunCoded(ac, run - 16, value);
    } else {
      RunSizeOfSmall(run, Category(value));
      RunSizeParts(run, Category(value));
    }
  }

  lemma {:induction false} AcCoded(ac: CodeMap, zz: seq<int>, i: nat, run: nat)
    requires AcComplete(ac) && |zz| == 64 && 1 <= i <= 64 && SmallAc(zz)
    ensures AcBits(ac, zz, i, run).Some? <==> forall j | i <= j < 64 :: Category(zz[j]) <= 10
    decreases 64 - i
  {
    if i < 64 {
      CategoryLimits(zz[i]);
      AcCoded(ac, zz, i + 1, if zz[i] == 0 then run + 1 else 0);
      if zz[i] != 0 {
        RunCoded(ac, run, zz[i]);
      }
    }
  }

  lemma InRangeByCategory(zz: seq<int>, pred: int)
    requires |zz| == 64
    ensures InRange(zz, pred) <==> Category(zz[0] - pred) <= 11 && forall i | 1 <= i < 64 :: Category(zz[i]) <= 10
  {
    CategoryLimits(zz[0] - pred);
    forall i | 1 <= i < 64 ensures Category(zz[i]) <= 10 <==> -1023 <= zz[i] <= 1023 {
      CategoryLimits(zz[i]);
    }
  }

  lemma BlockCoded(dc: CodeMap, ac: CodeMap, zz: seq<int>, pred: int)
    requires DcComplete(dc) && AcComplete(ac) && |zz| == 64
    ensures BlockBits(dc, ac, zz, pred).Some? && SmallAc(zz) <==> InRange(zz, pred)
  {
    InRangeByCategory(zz, pred);
    if SmallAc(zz) {
      AcCoded(ac, zz, 1, 0);
    }
  }

  /** The order of the AC coefficients does not matter. */
  lemma InRangeAnyOrder(q: Block, pred: int)
    requires |q| == 64
    ensures InRange(ToZigzag(q), pred) <==> InRange(q, pred)
  {
    ZigzagIsPermutation();
    var zz := ToZigzag(q);
    assert zz[0] == q[0];
    forall i | 1 <= i < 64
      ensures 1 <= Zigzag(i) && zz[i] == q[Zigzag(i)] && 1 <= Unzigzag(i) && q[i] == zz[Unzigzag(i)]
    {
      assert Unzigzag(0) == 0 && Zigzag(0) == 0;
    }
  }

  ghost predicate McuInRange(mcu: Mcu, preds: seq<int>)
    requires IsMcu(mcu, |preds|)
  {
    forall c | 0 <= c < |mcu| :: InRange(mcu[c], preds[c])
  }

  /** Each DC difference is taken from the same component of the MCU before. */
  ghost predicate ScanInRange(mcus: seq<Mcu>, preds: seq<int>)
    requires Shaped(mcus, |preds|)
  {
    mcus == [] || (McuInRange(mcus[0], preds) && ScanInRange(mcus[1..], CornersOf(mcus[0])))
  }

  /** The block of component `c` has its codes. */
  ghost predicate Coded(luma: Tables, chroma: Tables, mcu: Mcu, preds: seq<int>, c: nat)
    requires IsMcu(mcu, |preds|) && c < |mcu|
  {
    OneBlock(TablesOf(luma, chroma, c), mcu[c], preds[c]).Some?
  }

  predicate AllFrom(flags: seq<bool>, c: nat)
    requires c <= |flags|
    decreases |flags| - c
  {
    c == |flags| || (flags[c] && AllFrom(flags, c + 1))
  }

  lemma {:induction false} AllFromIff(flags: seq<bool>, c: nat)
    requires c <= |flags|
    ensures AllFrom(flags, c) <==> forall k | c <= k < |flags| :: flags[k]
    decreases |flags| - c
  {
    if c < |flags| {
      AllFromIff(flags, c + 1);
    }
  }

  /** The flags say which components have their codes. */
  ghost predicate Flags(flags: seq<bool>, luma: Tables, chroma: Tables, mcu: Mcu, preds: seq<int>)
    requires IsMcu(mcu, |preds|)
  {
    |flags| == |mcu| && forall c | 0 <= c < |mcu| :: flags[c] == Coded(luma, chroma, mcu, preds, c)
  }

  lemma CodedNext(luma: Tables, chroma: Tables, mcu: Mcu, c: nat, preds: seq<int>)
    requires IsMcu(mcu, |preds|) && c < |mcu|
    ensures McuBits(luma, chroma, mcu, c, preds).Some? <==>
              Coded(luma, chroma, mcu, preds, c) && McuBits(luma, chroma, mcu, c + 1, preds).Some?
  {
  }

  lemma {:induction false} McuEncodesIff(luma: Tables, chroma: Tables, mcu: Mcu, c: nat, preds: seq<int>,
                                         flags: seq<bool>)
    requires IsMcu(mcu, |preds|) && c <= |mcu| && Flags(flags, luma, chroma, mcu, preds)
    ensures McuBits(luma, chroma, mcu, c, preds).Some? <==> AllFrom(flags, c)
    decreases |mcu| - c
  {
    if c < |mcu| {
      McuEncodesIff(luma, chroma, mcu, c + 1, preds, flags);
      CodedNext(luma, chroma, mcu, c, preds);
      assert flags[c] == Coded(luma, chroma, mcu, preds, c);
    }
  }

  lemma McuCoded(luma: Tables, chroma: Tables, mcu: Mcu, preds: seq<int>)
    requires Full(luma) && Full(chroma) && IsMcu(mcu, |preds|)
    ensures McuBits(luma, chroma, mcu, 0, preds).Some? && SmallMcu(mcu) <==> McuInRange(mcu, preds)
  {
    var flags := seq(|mcu|, c requires 0 <= c < |mcu| && IsMcu(mcu, |preds|) => Coded(luma, chroma, mcu, preds, c));
    McuEncodesIff(luma, chroma, mcu, 0, preds, flags);
    AllFromIff(flags, 0);
    forall c | 0 <= c < |mcu|
      ensures flags[c] && SmallAc(ToZigzag(mcu[c])) <==> InRange(mcu[c], preds[c])
    {
      InRangeAnyOrder(mcu[c], preds[c]);
      var t := TablesOf(luma, chroma, c);
      BlockCoded(Codes(t.dc), Codes(t.ac), ToZigzag(mcu[c]), preds[c]);
    }
  }

  lemma {:induction false} ScanCoded(luma: Tables, chroma: Tables, mcus: seq<Mcu>, preds: seq<int>)
    requires Full(luma) && Full(chroma) && Shaped(mcus, |preds|)
    ensures ScanBits(luma, chroma, mcus, preds).Some? && Small(mcus) <==> ScanInRange(mcus, preds)
    decreases |mcus|
  {
    if mcus != [] {
      McuCoded(luma, chroma, mcus[0], preds);
      ScanCoded(luma, chroma, mcus[1..], DcOf(mcus[0]));
      DcIsCorner(mcus[0]);
      SmallSplit(mcus);
    }
  }

  lemma SmallSplit(mcus: seq<Mcu>)
    requires mcus != [] && IsMcu(mcus[0], |mcus[0]|)
    ensures Small(mcus) <==> SmallMcu(mcus[0]) && Small(mcus[1..])
  {
    var rest := mcus[1..];
    assert forall m | 1 <= m < |mcus| :: mcus[m] == rest[m - 1];
  }
}
