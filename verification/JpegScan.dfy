/** The scan loop of `encode_jpeg`, and a decoder for the whole entropy-coded segment. */
module JpegScan {
  import opened Bits
  import opened Options
  import opened Sequences
  import opened JpegHuffman
  import opened JpegBitWriter
  import opened JpegBlock
  import opened JpegEncoder

  /** The tables of one component class. */
  datatype Tables = Tables(dc: ValidSpec, ac: ValidSpec)

  /** Component 0 uses the luminance tables, the others the chrominance tables. */
  function TablesOf(luma: Tables, chroma: Tables, c: nat): Tables {
    if c == 0 then luma else chroma
  }

  /** Quantised coefficients in natural order. */
  type Block = seq<int>

  /** One block for each component. */
  type Mcu = seq<Block>

  ghost predicate IsMcu(mcu: Mcu, n: nat) {
    |mcu| == n && forall c | 0 <= c < n :: |mcu[c]| == 64
  }

  function DcOf(mcu: Mcu): (r: seq<int>)
    requires IsMcu(mcu, |mcu|)
    ensures |r| == |mcu|
  {
    seq(|mcu|, c requires 0 <= c < |mcu| => ToZigzag(mcu[c])[0])
  }

  function OneBlock(t: Tables, q: Block, pred: int): Option<Bits>
    requires |q| == 64
  {
    BlockBits(Codes(t.dc), Codes(t.ac), ToZigzag(q), pred)
  }

  /** What is written for the components from `c` on. */
  function McuBits(luma: Tables, chroma: Tables, mcu: Mcu, c: nat, preds: seq<int>): Option<Bits>
    requires c <= |mcu| && IsMcu(mcu, |preds|)
    decreases |mcu| - c
  {
    if c == |mcu| then Some([])
    else Then(OneBlock(TablesOf(luma, chroma, c), mcu[c], preds[c]), McuBits(luma, chroma, mcu, c + 1, preds))
  }

  /** `n` components in every MCU: one for a grey image, three for a colour one. */
  ghost predicate Shaped(mcus: seq<Mcu>, n: nat) {
    forall m | 0 <= m < |mcus| :: IsMcu(mcus[m], n)
  }

  function ScanBits(luma: Tables, chroma: Tables, mcus: seq<Mcu>, preds: seq<int>): Option<Bits>
    requires Shaped(mcus, |preds|)
    decreases |mcus|
  {
    if mcus == [] then Some([])
    else Then(McuBits(luma, chroma, mcus[0], 0, preds), ScanBits(luma, chroma, mcus[1..], DcOf(mcus[0])))
  }

  // ---------------------------------------------------------------- the decoder

  /** A scan header names a pair of tables for each component; this reads the blocks of the components from `c` on. */
  function DecodeMcu(tables: seq<Tables>, b: Bits, c: nat, preds: seq<int>): (r: Option<(Mcu, Bits)>)
    requires c <= |preds| == |tables|
    ensures r.Some? ==> IsMcu(r.value.0, |preds| - c)
    decreases |preds| - c
  {
    if c == |preds| then Some(([], b)) else
    match DecodeBlock(tables[c].dc, tables[c].ac, b, preds[c])
    case None => None
    case Some((zz, after)) =>
      match DecodeMcu(tables, after, c + 1, preds)
      case None => None
      case Some((blocks, rest)) => Some(([FromZigzag(zz)] + blocks, rest))
  }

  /** The DC coefficients: the upper left corner of each block. */
  function CornersOf(mcu: Mcu): (r: seq<int>)
    requires IsMcu(mcu, |mcu|)
    ensures |r| == |mcu|
  {
    seq(|mcu|, c requires 0 <= c < |mcu| && IsMcu(mcu, |mcu|) => mcu[c][0])
  }

  lemma DcIsCorner(mcu: Mcu)
    requires IsMcu(mcu, |mcu|)
    ensures DcOf(mcu) == CornersOf(mcu)
  {
    assert Zigzag(0) == 0;
  }

  /** Each MCU is predicted from the one before it. */
  function DecodeScan(tables: seq<Tables>, b: Bits, count: nat, preds: seq<int>): (r: Option<seq<Mcu>>)
    requires |preds| == |tables|
    ensures r.Some? ==> Shaped(r.value, |preds|)
    decreases count
  {
    if count == 0 then Some([]) else
    match DecodeMcu(tables, b, 0, preds)
    case None => None
    case Some((mcu, rest)) =>
      match DecodeScan(tables, rest, count - 1, CornersOf(mcu))
      case None => None
      case Some(mcus) => Some([mcu] + mcus)
  }

  /** Reads `count` MCUs from an entropy-coded segment, with one pair of tables for each component. */
  function DecodeStream(tables: seq<Tables>, s: seq<byte>, count: nat): Option<seq<Mcu>>
  {
    match Unstuff(s)
    case None => None
    case Some(bytes) => DecodeScan(tables, BytesToBits(bytes), count, Zeroes(|tables|))
  }

  /** The first component is read with the luminance tables, all others with the chrominance tables. */
  ghost predicate LumaFirst(tables: seq<Tables>, luma: Tables, chroma: Tables) {
    forall c | 0 <= c < |tables| :: tables[c] == if c == 0 then luma else chroma
  }

  // ---------------------------------------------------------------- round trip

  ghost predicate SmallMcu(mcu: Mcu)
    requires IsMcu(mcu, |mcu|)
  {
    forall c | 0 <= c < |mcu| :: SmallAc(ToZigzag(mcu[c]))
  }

  ghost predicate Small(mcus: seq<Mcu>) {
    forall m | 0 <= m < |mcus| :: IsMcu(mcus[m], |mcus[m]|) && SmallMcu(mcus[m])
  }

  lemma {:induction false} McuRoundTrip(luma: Tables, chroma: Tables, tables: seq<Tables>, mcu: Mcu, c: nat,
                                        preds: seq<int>, e: Bits, rest: Bits)
    requires |tables| == |preds| && LumaFirst(tables, luma, chroma)
    requires c <= |mcu| && IsMcu(mcu, |preds|) && SmallMcu(mcu)
    requires McuBits(luma, chroma, mcu, c, preds) == Some(e)
    ensures DecodeMcu(tables, e + rest, c, preds) == Some((mcu[c..], rest))
    decreases |mcu| - c
  {
    if c == |mcu| {
      assert e + rest == rest && mcu[c..] == [];
    } else {
      var one, more := OneBlock(TablesOf(luma, chroma, c), mcu[c], preds[c]), McuBits(luma, chroma, mcu, c + 1, preds);
      assert Some(e) == Then(one, more);
      McuRoundTrip(luma, chroma, tables, mcu, c + 1, preds, more.value, rest);
      ConcatAssoc(one.value, more.value, rest);
      OneBlockRoundTrip(tables, mcu, c, preds, one.value, more.value + rest, rest);
    }
  }

  lemma OneBlockRoundTrip(tables: seq<Tables>, mcu: Mcu, c: nat, preds: seq<int>, one: Bits, after: Bits, rest: Bits)
    requires c < |mcu| && IsMcu(mcu, |preds|) && SmallAc(ToZigzag(mcu[c])) && |tables| == |preds|
    requires OneBlock(tables[c], mcu[c], preds[c]) == Some(one)
    requires DecodeMcu(tables, after, c + 1, preds) == Some((mcu[c + 1..], rest))
    ensures DecodeMcu(tables, one + after, c, preds) == Some((mcu[c..], rest))
  {
    OneBlockDecodes(tables[c], mcu[c], preds[c], one, after);
    DecodeMcuStep(tables, one + after, c, preds, ToZigzag(mcu[c]), after, mcu[c + 1..], rest);
    ZigzagRoundTrip(mcu[c]);
    FirstAndRest(mcu, c);
  }

  lemma FirstAndRest<T>(s: seq<T>, c: nat)
    requires c < |s|
    ensures [s[c]] + s[c + 1..] == s[c..]
  {
  }

  lemma OneBlockDecodes(t: Tables, q: Block, pred: int, one: Bits, rest: Bits)
    requires |q| == 64 && OneBlock(t, q, pred) == Some(one) && SmallAc(ToZigzag(q))
    ensures DecodeBlock(t.dc, t.ac, one + rest, pred) == Some((ToZigzag(q), rest))
  {
    BlockRoundTrip(t.dc, t.ac, ToZigzag(q), pred, rest);
  }

  lemma DecodeMcuStep(tables: seq<Tables>, b: Bits, c: nat, preds: seq<int>, zz: seq<int>, after: Bits, blocks: Mcu,
                      rest: Bits)
    requires c < |preds| == |tables| && |zz| == 64
    requires DecodeBlock(tables[c].dc, tables[c].ac, b, preds[c]) == Some((zz, after))
    requires DecodeMcu(tables, after, c + 1, preds) == Some((blocks, rest))
    ensures DecodeMcu(tables, b, c, preds) == Some(([FromZigzag(zz)] + blocks, rest))
  {
  }

  lemma DecodeScanStep(tables: seq<Tables>, b: Bits, preds: seq<int>, mcu: Mcu, rest: Bits, mcus: seq<Mcu>)
    requires IsMcu(mcu, |preds|) && |tables| == |preds|
    requires DecodeMcu(tables, b, 0, preds) == Some((mcu, rest))
    requires DecodeScan(tables, rest, |mcus|, CornersOf(mcu)) == Some(mcus)
    ensures DecodeScan(tables, b, |mcus| + 1, preds) == Some([mcu] + mcus)
  {
  }

  lemma HeadAndTail(mcus: seq<Mcu>, n: nat)
    requires mcus != [] && Shaped(mcus, n) && Small(mcus)
    ensures IsMcu(mcus[0], n) && SmallMcu(mcus[0]) && mcus[0][0..] == mcus[0]
    ensures Shaped(mcus[1..], n) && Small(mcus[1..]) && [mcus[0]] + mcus[1..] == mcus
  {
  }

  lemma {:induction false} ScanRoundTrip(luma: Tables, chroma: Tables, tables: seq<Tables>, mcus: seq<Mcu>,
                                         preds: seq<int>, e: Bits, rest: Bits)
    requires |tables| == |preds| && LumaFirst(tables, luma, chroma)
    requires Shaped(mcus, |preds|) && Small(mcus) && ScanBits(luma, chroma, mcus, preds) == Some(e)
    ensures DecodeScan(tables, e + rest, |mcus|, preds) == Some(mcus)
    decreases |mcus|
  {
    if mcus != [] {
      HeadAndTail(mcus, |preds|);
      var first := McuBits(luma, chroma, mcus[0], 0, preds).value;
      var more := ScanBits(luma, chroma, mcus[1..], DcOf(mcus[0])).value;
      ScanRoundTrip(luma, chroma, tables, mcus[1..], DcOf(mcus[0]), more, rest);
      DcIsCorner(mcus[0]);
      McuRoundTrip(luma, chroma, tables, mcus[0], 0, preds, first, more + rest);
      ConcatAssoc(first, more, rest);
      DecodeScanStep(tables, e + rest, preds, mcus[0], more + rest, mcus[1..]);
    }
  }

  lemma {:induction false} DecodedMcuIsSmall(tables: seq<Tables>, b: Bits, c: nat, preds: seq<int>)
    requires c <= |preds| == |tables| && DecodeMcu(tables, b, c, preds).Some?
    ensures SmallMcu(DecodeMcu(tables, b, c, preds).value.0)
    decreases |preds| - c
  {
    if c < |preds| {
      var (zz, after) := DecodeBlock(tables[c].dc, tables[c].ac, b, preds[c]).value;
      DecodedBlockIsSmall(tables[c], b, preds[c]);
      UnzigzagRoundTrip(zz);
      DecodedMcuIsSmall(tables, after, c + 1, preds);
    }
  }

  lemma DecodedBlockIsSmall(t: Tables, b: Bits, pred: int)
    requires DecodeBlock(t.dc, t.ac, b, pred).Some?
    ensures SmallAc(DecodeBlock(t.dc, t.ac, b, pred).value.0)
  {
    var (value, ac) := DecodeDc(t.dc, b, pred).value;
    DecodedAcIsSmall(t.ac, ac, [value]);
  }

  lemma UnzigzagRoundTrip(zz: seq<int>)
    requires |zz| == 64
    ensures ToZigzag(FromZigzag(zz)) == zz
  {
    ZigzagRoundTrip(zz);
  }

  lemma SmallFirst(mcu: Mcu, mcus: seq<Mcu>)
    requires IsMcu(mcu, |mcu|) && SmallMcu(mcu) && Small(mcus)
    ensures Small([mcu] + mcus)
  {
  }

  lemma {:induction false} DecodedScanIsSmall(tables: seq<Tables>, b: Bits, count: nat, preds: seq<int>)
    requires |tables| == |preds| && DecodeScan(tables, b, count, preds).Some?
    ensures Small(DecodeScan(tables, b, count, preds).value)
    decreases count
  {
    if count > 0 {
      var (mcu, rest) := DecodeMcu(tables, b, 0, preds).value;
      DecodedMcuIsSmall(tables, b, 0, preds);
      DecodedScanIsSmall(tables, rest, count - 1, CornersOf(mcu));
      SmallFirst(mcu, DecodeScan(tables, rest, count - 1, CornersOf(mcu)).value);
    }
  }

  // ---------------------------------------------------------------- the encoder

  /** Writes one block with the tables of its component. */
  method EncodeComponent(bw: BitWriter, luma: Tables, chroma: Tables, codes: seq<CodeMap>, c: nat, q: Block, pred: int)
    returns (dc: Option<int>)
    requires bw.Valid() && |q| == 64
    requires codes == [Codes(luma.dc), Codes(luma.ac), Codes(chroma.dc), Codes(chroma.ac)]
    modifies bw
    ensures var bits := OneBlock(if c == 0 then luma else chroma, q, pred);
            bw.Valid() && (dc.Some? <==> bits.Some?) &&
            (dc.Some? ==> dc.value == ToZigzag(q)[0] && bw.Content() == old(bw.Content()) + bits.value)
  {
    var dcc := if c == 0 then codes[0] else codes[2];
    var acc := if c == 0 then codes[1] else codes[3];
    dc := EncodeBlock(bw, q, dcc, acc, pred);
  }

  /** The predictions of the components before `c` are those of this MCU, the others those of the one before. */
  ghost predicate Predicted(prev: seq<int>, mcu: Mcu, preds: seq<int>, c: nat)
    requires IsMcu(mcu, |preds|)
  {
    |prev| == |mcu| && forall k | 0 <= k < |mcu| :: prev[k] == if k < c then DcOf(mcu)[k] else preds[k]
  }

  lemma PredictedNext(prev: seq<int>, mcu: Mcu, preds: seq<int>, c: nat)
    requires IsMcu(mcu, |preds|) && c < |mcu| && Predicted(prev, mcu, preds, c)
    ensures Predicted(prev[c := ToZigzag(mcu[c])[0]], mcu, preds, c + 1) && prev[c] == preds[c]
  {
  }

  lemma PredictedAll(prev: seq<int>, mcu: Mcu, preds: seq<int>)
    requires IsMcu(mcu, |preds|) && Predicted(prev, mcu, preds, |mcu|)
    ensures prev == DcOf(mcu)
  {
  }

  /** The bits of component `c` come next. */
  lemma ComponentBits(luma: Tables, chroma: Tables, mcu: Mcu, c: nat, preds: seq<int>, done: Bits)
    requires IsMcu(mcu, |preds|) && c < |mcu|
    ensures Then(Some(done), McuBits(luma, chroma, mcu, c, preds)) ==
              Then(Then(Some(done), OneBlock(TablesOf(luma, chroma, c), mcu[c], preds[c])),
                   McuBits(luma, chroma, mcu, c + 1, preds))
  {
    ThenAssoc(done, OneBlock(TablesOf(luma, chroma, c), mcu[c], preds[c]), McuBits(luma, chroma, mcu, c + 1, preds));
  }

  /** Writes one MCU and updates the predictions; false is a KeyError. */
  method EncodeMcu(bw: BitWriter, luma: Tables, chroma: Tables, codes: seq<CodeMap>, mcu: Mcu, preds: seq<int>)
    returns (next: Option<seq<int>>)
    requires bw.Valid() && IsMcu(mcu, |preds|)
    requires codes == [Codes(luma.dc), Codes(luma.ac), Codes(chroma.dc), Codes(chroma.ac)]
    modifies bw
    ensures bw.Valid() && (next.Some? <==> McuBits(luma, chroma, mcu, 0, preds).Some?)
    ensures next.Some? ==>
              next.value == DcOf(mcu) &&
              bw.Content() == old(bw.Content()) + McuBits(luma, chroma, mcu, 0, preds).value
  {
    var prev := preds;
    ghost var all, done := McuBits(luma, chroma, mcu, 0, preds), [];
    ThenNothing(all);
    for c := 0 to |mcu|
      invariant bw.Valid() && bw.Content() == old(bw.Content()) + done
      invariant all == Then(Some(done), McuBits(luma, chroma, mcu, c, preds))
      invariant Predicted(prev, mcu, preds, c)
    {
      ghost var one := OneBlock(TablesOf(luma, chroma, c), mcu[c], preds[c]);
      ComponentBits(luma, chroma, mcu, c, preds, done);
      var dc := EncodeComponent(bw, luma, chroma, codes, c, mcu[c], prev[c]);
      if dc.None? { return None; }
      ConcatAssoc(old(bw.Content()), done, one.value);
      done := done + one.value;
      PredictedNext(prev, mcu, preds, c);
      prev := prev[c := dc.value];
    }
    assert done + [] == done;
    PredictedAll(prev, mcu, preds);
    next := Some(prev);
  }

  /** The bits of the whole scan, before padding. */
  method WriteScan(bw: BitWriter, luma: Tables, chroma: Tables, mcus: seq<Mcu>, n: nat) returns (ok: bool)
    requires bw.Valid() && bw.Content() == [] && Shaped(mcus, n)
    modifies bw
    ensures bw.Valid() && ok == ScanBits(luma, chroma, mcus, Zeroes(n)).Some?
    ensures ok ==> bw.Content() == ScanBits(luma, chroma, mcus, Zeroes(n)).value
  {
    var dcLuma := HuffmanCodes(luma.dc);
    var acLuma := HuffmanCodes(luma.ac);
    var dcChroma := HuffmanCodes(chroma.dc);
    var acChroma := HuffmanCodes(chroma.ac);
    var codes := [dcLuma, acLuma, dcChroma, acChroma];
    var prev := Zeroes(n);
    ghost var all := ScanBits(luma, chroma, mcus, prev);
    ThenNothing(all);
    assert mcus[0..] == mcus;
    for m := 0 to |mcus|
      invariant bw.Valid() && |prev| == n
      invariant all == Then(Some(bw.Content()), ScanBits(luma, chroma, mcus[m..], prev))
    {
      assert mcus[m..][1..] == mcus[m + 1..];
      ghost var done := bw.Content();
      ThenAssoc(done, McuBits(luma, chroma, mcus[m], 0, prev), ScanBits(luma, chroma, mcus[m + 1..], DcOf(mcus[m])));
      var next := EncodeMcu(bw, luma, chroma, codes, mcus[m], prev);
      if next.None? { return false; }
      prev := next.value;
    }
    ok := true;
    assert bw.Content() + [] == bw.Content();
  }

  /** What a decoder with these tables makes of the padded bits of a scan. */
  lemma PaddedScan(luma: Tables, chroma: Tables, tables: seq<Tables>, mcus: seq<Mcu>, bits: Bits, padding: nat)
    requires LumaFirst(tables, luma, chroma) && Shaped(mcus, |tables|)
    requires ScanBits(luma, chroma, mcus, Zeroes(|tables|)) == Some(bits)
    ensures DecodeScan(tables, bits + Ones(padding), |mcus|, Zeroes(|tables|)) == Some(mcus) <==> Small(mcus)
  {
    var start := Zeroes(|tables|);
    if Small(mcus) {
      ScanRoundTrip(luma, chroma, tables, mcus, start, bits, Ones(padding));
    }
    if DecodeScan(tables, bits + Ones(padding), |mcus|, start) == Some(mcus) {
      DecodedScanIsSmall(tables, bits + Ones(padding), |mcus|, start);
    }
  }

  /**
   The entropy-coded segment of a scan; None is a KeyError. Read with the luminance tables for the first component
   and the chrominance tables for the others, it gives the blocks back exactly when every AC category fits four
   bits; no marker can appear in it.
   */
  method EncodeScan(luma: Tables, chroma: Tables, mcus: seq<Mcu>, n: nat) returns (r: Option<seq<byte>>)
    requires Shaped(mcus, n)
    ensures r.Some? <==> ScanBits(luma, chroma, mcus, Zeroes(n)).Some?
    ensures r.Some? ==> NoMarker(r.value)
    ensures r.Some? ==>
              forall tables: seq<Tables> | |tables| == n && LumaFirst(tables, luma, chroma) ::
                DecodeStream(tables, r.value, |mcus|) == Some(mcus) <==> Small(mcus)
    ensures r.Some? && n == 1 ==> (DecodeStream([luma], r.value, |mcus|) == Some(mcus) <==> Small(mcus))
    ensures r.Some? && n == 3 ==>
              (DecodeStream([luma, chroma, chroma], r.value, |mcus|) == Some(mcus) <==> Small(mcus))
  {
    var bw := new BitWriter();
    var ok := WriteScan(bw, luma, chroma, mcus, n);
    if !ok { return None; }
    ghost var bits := bw.Content();
    ghost var padding := bw.Flush();
    UnstuffsIffNoMarker(bw.out);
    r := Some(bw.out);
    assert ToBits(bw.acc, 0) == [];
    assert BytesToBits(Unstuff(bw.out).value) + [] == bits + Ones(padding);
    assert BytesToBits(Unstuff(bw.out).value) == bits + Ones(padding);
    forall tables: seq<Tables> | |tables| == n && LumaFirst(tables, luma, chroma)
      ensures DecodeStream(tables, r.value, |mcus|) == Some(mcus) <==> Small(mcus)
    {
      PaddedScan(luma, chroma, tables, mcus, bits, padding);
    }
    GreyAndColour(luma, chroma);
  }

  lemma GreyAndColour(luma: Tables, chroma: Tables)
    ensures LumaFirst([luma], luma, chroma) && LumaFirst([luma, chroma, chroma], luma, chroma)
  {
  }
}
