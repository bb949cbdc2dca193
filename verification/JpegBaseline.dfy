/**
 The scan encoder with its own tables: which coefficients it can encode, and that those
 are exactly the ones a decoder gets back.
 */
module JpegBaseline {
  import opened Bits
  import opened Options
  import opened JpegHuffman
  import opened JpegBitWriter
  import opened JpegBlock
  import opened JpegScan
  import opened JpegTables
  import opened JpegRange

  lemma ValidFrom(bits: seq<nat>, vals: seq<byte>)
    requires |bits| == 16 && Distinct(vals)
    requires |vals| == bits[0] + bits[1] + bits[2] + bits[3] + bits[4] + bits[5] + bits[6] + bits[7]
                     + bits[8] + bits[9] + bits[10] + bits[11] + bits[12] + bits[13] + bits[14] + bits[15]
    requires 32768 * bits[0] + 16384 * bits[1] + 8192 * bits[2] + 4096 * bits[3] + 2048 * bits[4] + 1024 * bits[5]
             + 512 * bits[6] + 256 * bits[7] + 128 * bits[8] + 64 * bits[9] + 32 * bits[10] + 16 * bits[11]
             + 8 * bits[12] + 4 * bits[13] + 2 * bits[14] + bits[15] <= 65536
    ensures Valid(Spec(bits, vals)) && Total(bits) == |vals|
  {
    TotalIsSum(bits);
    KraftIsSum(bits);
    Pow2Sixteen();
    assert KraftBefore(bits, 17) <= Pow2(16) ==> Kraft(bits);
    assert vals[..|vals|] == vals;
  }

  lemma AcLumaDistinct()
    ensures Distinct(AcLumaVals())
  {
    forall i, j | 0 <= i < j < 162
      ensures AcLumaVals()[i] != AcLumaVals()[j]
    {
      AcLumaIndexed(i / 16, i % 16);
      AcLumaIndexed(j / 16, j % 16);
    }
  }

  lemma AcChromaDistinct()
    ensures Distinct(AcChromaVals())
  {
    forall i, j | 0 <= i < j < 162
      ensures AcChromaVals()[i] != AcChromaVals()[j]
    {
      AcChromaIndexed(i / 16, i % 16);
      AcChromaIndexed(j / 16, j % 16);
    }
  }

  function DcLuma(): ValidSpec {
    ValidFrom(DC_LUMA_BITS, DcVals());
    Spec(DC_LUMA_BITS, DcVals())
  }

  function DcChroma(): ValidSpec {
    ValidFrom(DC_CHROMA_BITS, DcVals());
    Spec(DC_CHROMA_BITS, DcVals())
  }

  function AcLuma(): ValidSpec {
    AcLumaDistinct();
    ValidFrom(AC_LUMA_BITS, AcLumaVals());
    Spec(AC_LUMA_BITS, AcLumaVals())
  }

  function AcChroma(): ValidSpec {
    AcChromaDistinct();
    ValidFrom(AC_CHROMA_BITS, AcChromaVals());
    Spec(AC_CHROMA_BITS, AcChromaVals())
  }

  function Luma(): Tables {
    Tables(DcLuma(), AcLuma())
  }

  function Chroma(): Tables {
    Tables(DcChroma(), AcChroma())
  }

  // ---------------------------------------------------------------- which symbols have codes

  lemma KeysAre(s: ValidSpec)
    requires Total(s.bits) == |s.vals|
    ensures forall v :: v in Codes(s) <==> v in s.vals
  {
    CodeTableKeys(s, |s.vals|);
    assert s.vals[..|s.vals|] == s.vals;
  }

  lemma DcSizes(size: nat)
    ensures size in DcVals() <==> size <= 11
  {
    if size <= 11 {
      assert DcVals()[size] == size;
    }
  }

  lemma DcTablesComplete()
    ensures DcComplete(Codes(DcLuma())) && DcComplete(Codes(DcChroma()))
  {
    ValidFrom(DC_LUMA_BITS, DcVals());
    ValidFrom(DC_CHROMA_BITS, DcVals());
    KeysAre(DcLuma());
    KeysAre(DcChroma());
    forall size: nat
      ensures size in Codes(DcLuma()) <==> size <= 11
      ensures size in Codes(DcChroma()) <==> size <= 11
    {
      DcSizes(size);
    }
  }

  lemma AcLumaSymbols(symbol: byte)
    requires 1 <= symbol % 16 <= 15
    ensures symbol in AcLumaVals() <==> symbol % 16 <= 10
  {
    if symbol % 16 <= 10 {
      AcLumaHas(symbol / 16, symbol % 16);
      assert AcLumaVals()[AcLumaIndex(symbol / 16, symbol % 16)] == symbol;
    } else if symbol in AcLumaVals() {
      var k :| 0 <= k < 162 && AcLumaVals()[k] == symbol;
      AcLumaSizes(k / 16, k % 16);
    }
  }

  lemma AcLumaRuns()
    ensures 0x00 in AcLumaVals() && 0xF0 in AcLumaVals()
  {
    assert AcLumaVals()[3] == 0x00 && AcLumaVals()[31] == 0xF0;
  }

  lemma AcLumaComplete()
    ensures AcComplete(Codes(AcLuma()))
  {
    AcLumaKeys();
    AcLumaRuns();
    forall symbol: byte | 1 <= symbol % 16 <= 15
      ensures symbol in AcLumaVals() <==> symbol % 16 <= 10
    {
      AcLumaSymbols(symbol);
    }
  }

  lemma AcLumaKeys()
    ensures forall v :: v in Codes(AcLuma()) <==> v in AcLumaVals()
  {
    AcLumaDistinct();
    ValidFrom(AC_LUMA_BITS, AcLumaVals());
    KeysAre(AcLuma());
  }

  lemma AcChromaSymbols(symbol: byte)
    requires 1 <= symbol % 16 <= 15
    ensures symbol in AcChromaVals() <==> symbol % 16 <= 10
  {
    if symbol % 16 <= 10 {
      AcChromaHas(symbol / 16, symbol % 16);
      assert AcChromaVals()[AcChromaIndex(symbol / 16, symbol % 16)] == symbol;
    } else if symbol in AcChromaVals() {
      var k :| 0 <= k < 162 && AcChromaVals()[k] == symbol;
      AcChromaSizes(k / 16, k % 16);
    }
  }

  lemma AcChromaRuns()
    ensures 0x00 in AcChromaVals() && 0xF0 in AcChromaVals()
  {
    assert AcChromaVals()[0] == 0x00 && AcChromaVals()[31] == 0xF0;
  }

  lemma AcChromaComplete()
    ensures AcComplete(Codes(AcChroma()))
  {
    AcChromaKeys();
    AcChromaRuns();
    forall symbol: byte | 1 <= symbol % 16 <= 15
      ensures symbol in AcChromaVals() <==> symbol % 16 <= 10
    {
      AcChromaSymbols(symbol);
    }
  }

  lemma AcChromaKeys()
    ensures forall v :: v in Codes(AcChroma()) <==> v in AcChromaVals()
  {
    AcChromaDistinct();
    ValidFrom(AC_CHROMA_BITS, AcChromaVals());
    KeysAre(AcChroma());
  }

  lemma AnnexKFull()
    ensures Full(Luma()) && Full(Chroma())
  {
    DcTablesComplete();
    AcLumaComplete();
    AcChromaComplete();
  }

  // ---------------------------------------------------------------- the theorem

  /**
   The scan with the Annex K tables: it is encoded, and read with the luminance tables for the first component and
   the chrominance tables for the others it gives the blocks back, exactly when every DC difference and every AC
   coefficient is in baseline range. A grey scan needs no chrominance tables.
   */
  method EncodeBaselineScan(mcus: seq<Mcu>, n: nat) returns (r: Option<seq<byte>>)
    requires Shaped(mcus, n)
    ensures r.Some? ==> NoMarker(r.value)
    ensures forall tables: seq<Tables> | |tables| == n && LumaFirst(tables, Luma(), Chroma()) ::
              r.Some? && DecodeStream(tables, r.value, |mcus|) == Some(mcus) <==> ScanInRange(mcus, Zeroes(n))
    ensures n == 1 ==>
              (r.Some? && DecodeStream([Luma()], r.value, |mcus|) == Some(mcus) <==> ScanInRange(mcus, Zeroes(n)))
    ensures n == 3 ==>
              (r.Some? && DecodeStream([Luma(), Chroma(), Chroma()], r.value, |mcus|) == Some(mcus) <==>
               ScanInRange(mcus, Zeroes(n)))
  {
    r := EncodeScan(Luma(), Chroma(), mcus, n);
    BaselineCoded(mcus, n);
  }

  lemma BaselineCoded(mcus: seq<Mcu>, n: nat)
    requires Shaped(mcus, n)
    ensures ScanBits(Luma(), Chroma(), mcus, Zeroes(n)).Some? && Small(mcus) <==> ScanInRange(mcus, Zeroes(n))
  {
    AnnexKFull();
    ScanCoded(Luma(), Chroma(), mcus, Zeroes(n));
  }

  /** A coefficient of seventeen bits is written under the code for run 1, size 1, without complaint. */
  lemma WideCoefficientMisread(t: Tables, zz: seq<int>, rest: Bits)
    requires t == Luma() || t == Chroma()
    requires zz == [0, 65536] + Zeroes(62)
    ensures var written := BlockBits(Codes(t.dc), Codes(t.ac), zz, 0);
            written.Some? && DecodeBlock(t.dc, t.ac, written.value + rest, 0) != Some((zz, rest))
  {
    AnnexKFull();
    WideCoefficientFails(t, zz, rest);
  }

  lemma WideCoefficientFails(t: Tables, zz: seq<int>, rest: Bits)
    requires Full(t) && zz == [0, 65536] + Zeroes(62)
    ensures var written := BlockBits(Codes(t.dc), Codes(t.ac), zz, 0);
            written.Some? && DecodeBlock(t.dc, t.ac, written.value + rest, 0) != Some((zz, rest))
  {
    WideCoefficientCoded(Codes(t.dc), Codes(t.ac), zz);
    assert !SmallAc(zz) by { SeventeenBits(); assert Category(zz[1]) == 17; }
    BlockRoundTrip(t.dc, t.ac, zz, 0, rest);
  }

  lemma SeventeenBits()
    ensures Category(65536) == 17 && RunSize(0, 17) == 17 && Category(0) == 0
  {
    BitLengthAtMost(65536, 16);
    BitLengthAtMost(65536, 17);
    Pow2Sixteen();
    assert Pow2(17) == 2 * Pow2(16);
  }

  lemma WideCoefficientCoded(dc: CodeMap, ac: CodeMap, zz: seq<int>)
    requires DcComplete(dc) && AcComplete(ac) && zz == [0, 65536] + Zeroes(62)
    ensures BlockBits(dc, ac, zz, 0).Some?
  {
    SeventeenBits();
    assert 0 in dc;
    assert 17 in ac by { assert 17 % 16 == 1; }
    EobOnly(ac, zz, 2);
    assert RunBits(ac, 0, zz[1]).Some?;
    assert AcBits(ac, zz, 2, 0).Some?;
    assert AcBits(ac, zz, 1, 0) == Then(RunBits(ac, 0, zz[1]), AcBits(ac, zz, 2, 0));
    assert DcBits(dc, 0).Some?;
  }

  lemma {:induction false} EobOnly(ac: CodeMap, zz: seq<int>, i: nat)
    requires 0x00 in ac && |zz| == 64 && i <= 64 && forall j | i <= j < 64 :: zz[j] == 0
    ensures forall run: nat :: AcBits(ac, zz, i, run).Some?
    decreases 64 - i
  {
    if i < 64 {
      EobOnly(ac, zz, i + 1);
    }
  }
}
