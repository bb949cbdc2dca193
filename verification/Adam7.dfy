/** Adam7 interlacing (section 2.6 of RFC 2083) and its inverse. */
module Adam7 {
  import opened Bits
  import opened Division
  import opened Options
  import opened Sequences

  import opened PngFilter

  type Pixel = seq<byte>

  // ---------------------------------------------------------------- the passes

  datatype Pass = Pass(xs: nat, ys: nat, xstep: nat, ystep: nat)

  function PassAt(p: nat): Pass {
    match p
    case 0 => Pass(0, 0, 8, 8)
    case 1 => Pass(4, 0, 8, 8)
    case 2 => Pass(0, 4, 4, 8)
    case 3 => Pass(2, 0, 4, 4)
    case 4 => Pass(0, 2, 2, 4)
    case 5 => Pass(1, 0, 2, 2)
    case _ => Pass(0, 1, 1, 2)
  }

  /** `v` is reached from `start` by some steps. */
  predicate OnGrid(v: nat, start: nat, step: nat) {
    v == start || (step > 0 && v >= start + step && OnGrid(v - step, start, step))
  }

  predicate InPass(p: nat, x: nat, y: nat) {
    OnGrid(x, PassAt(p).xs, PassAt(p).xstep) && OnGrid(y, PassAt(p).ys, PassAt(p).ystep)
  }

  /** The pass a pixel belongs to, from its place in an 8 by 8 block. */
  function PassOf(x: nat, y: nat): (p: nat)
    ensures p < 7
  {
    if y % 2 == 1 then 6
    else if x % 2 == 1 then 5
    else if y % 4 == 2 then 4
    else if x % 4 == 2 then 3
    else if y % 8 == 4 then 2
    else if x % 8 == 4 then 1
    else 0
  }

  /** Residues modulo 2 and 4 follow from the one modulo 8. */
  lemma Residues(v: nat)
    ensures v % 4 == if v % 8 < 4 then v % 8 else v % 8 - 4
    ensures v % 2 == v % 8 % 2
  {
    var q, r := v / 8, v % 8;
    assert v == 4 * (2 * q) + r;
    if r < 4 {
      QuotientIs(2 * q, r, 4);
    } else {
      QuotientIs(2 * q + 1, r - 4, 4);
    }
    QuotientIs(4 * q + r / 2, r % 2, 2);
  }

  predicate IsStep(step: nat) {
    step == 1 || step == 2 || step == 4 || step == 8
  }

  function Residue(v: nat, step: nat): nat
    requires IsStep(step)
  {
    match step { case 1 => 0 case 2 => v % 2 case 4 => v % 4 case _ => v % 8 }
  }

  lemma {:induction false} OnGridResidue(v: nat, start: nat, step: nat)
    requires IsStep(step) && start < step
    ensures OnGrid(v, start, step) <==> Residue(v, step) == start
    decreases v
  {
    ResidueStep(v, step);
    if v >= step {
      OnGridResidue(v - step, start, step);
    }
  }

  lemma ResidueStep(v: nat, step: nat)
    requires IsStep(step)
    ensures Residue(v, step) == if v < step then v else Residue(v - step, step)
  {
    RemainderStep(v, step);
  }

  /** Every pixel is in exactly one pass. */
  lemma PassesPartition(p: nat, x: nat, y: nat)
    requires p < 7
    ensures InPass(p, x, y) <==> p == PassOf(x, y)
  {
    var pass := PassAt(p);
    OnGridResidue(x, pass.xs, pass.xstep);
    OnGridResidue(y, pass.ys, pass.ystep);
    Residues(x);
    Residues(y);
    match p { case 0 => case 1 => case 2 => case 3 => case 4 => case 5 => case _ => }
  }

  // ---------------------------------------------------------------- pixels and rows

  datatype ImageData = ImageData(pixels: seq<Row>, w: nat, h: nat, bpp: nat)

  ghost predicate Shaped(im: ImageData) {
    |im.pixels| == im.h && im.bpp >= 1 && forall y | 0 <= y < im.h :: |im.pixels[y]| == im.w * im.bpp
  }

  /** `h` rows of `w` pixels of `bpp` bytes. */
  type Image = im: ImageData | Shaped(im) ghost witness ImageData([], 0, 0, 1)

  lemma PixelInside(x: nat, w: nat, bpp: nat)
    requires x < w
    ensures 0 <= x * bpp <= (x + 1) * bpp <= w * bpp
    ensures (x + 1) * bpp == x * bpp + bpp
  {
    var d := w - x - 1;
    assert w * bpp == (x + 1 + d) * bpp == x * bpp + bpp + d * bpp;
    assert d * bpp >= 0 && x * bpp >= 0;
  }

  function PixelAt(row: Row, x: nat, w: nat, bpp: nat): (r: Pixel)
    requires x < w && |row| == w * bpp
    ensures |r| == bpp
  {
    PixelInside(x, w, bpp);
    row[x * bpp..(x + 1) * bpp]
  }

  /** One row of a pass: the pixels from `x` on, a step apart. */
  function Gathered(row: Row, x: nat, step: nat, w: nat, bpp: nat): (r: Row)
    requires |row| == w * bpp && step > 0
    decreases w - x
  {
    if x >= w then [] else PixelAt(row, x, w, bpp) + Gathered(row, x + step, step, w, bpp)
  }

  /** How many columns (or rows) of a pass fall inside the image. */
  function Count(v: nat, step: nat, size: nat): nat
    requires step > 0
    decreases size - v
  {
    if v >= size then 0 else 1 + Count(v + step, step, size)
  }

  lemma {:induction false} GatheredLength(row: Row, x: nat, step: nat, w: nat, bpp: nat)
    requires |row| == w * bpp && step > 0
    ensures |Gathered(row, x, step, w, bpp)| == Count(x, step, w) * bpp
    decreases w - x
  {
    if x < w {
      GatheredLength(row, x + step, step, w, bpp);
      OneMore(Count(x + step, step, w), bpp);
    }
  }

  /** The row a pass takes from image row `y`. */
  function PassRow(im: Image, p: nat, y: nat): Row
    requires p < 7 && y < im.h
  {
    Gathered(im.pixels[y], PassAt(p).xs, PassAt(p).xstep, im.w, im.bpp)
  }

  ghost predicate PrevFits(prev: Row, p: nat, im: Image) {
    prev == [] || |prev| == Count(PassAt(p).xs, PassAt(p).xstep, im.w) * im.bpp
  }

  /** What a row of a pass adds to the stream: nothing if the pass has no columns. */
  function RowBytes(row: Row): seq<byte> {
    if row == [] then [] else [0] + row
  }

  function PassFrom(im: Image, p: nat, y: nat): seq<byte>
    requires p < 7
    decreases im.h - y
  {
    if y >= im.h then []
    else RowBytes(PassRow(im, p, y)) + PassFrom(im, p, y + PassAt(p).ystep)
  }

  function InterlacedFrom(im: Image, p: nat): seq<byte>
    requires p <= 7
    decreases 7 - p, im.w
  {
    if p == 7 then [] else PassFrom(im, p, PassAt(p).ys) + InterlacedFrom(im, p + 1)
  }

  // ---------------------------------------------------------------- the writer

  method GatherRow(row: Row, pass: Pass, w: nat, bpp: nat) returns (r: Row)
    requires |row| == w * bpp && pass.xstep > 0
    ensures r == Gathered(row, pass.xs, pass.xstep, w, bpp)
  {
    r := [];
    var x := pass.xs;
    assert r + Gathered(row, x, pass.xstep, w, bpp) == Gathered(row, x, pass.xstep, w, bpp);
    while x < w
      invariant r + Gathered(row, x, pass.xstep, w, bpp) == Gathered(row, pass.xs, pass.xstep, w, bpp)
      decreases w - x
    {
      ConcatAssoc(r, PixelAt(row, x, w, bpp), Gathered(row, x + pass.xstep, pass.xstep, w, bpp));
      r := r + PixelAt(row, x, w, bpp);
      x := x + pass.xstep;
    }
    assert r + [] == r;
  }

  /** Filter 0 leaves a row as it is. */
  lemma NoFilter(row: Row, prev: Row, bpp: nat)
    requires Above(prev, |row|)
    ensures Filtered(0, row, prev, bpp) == row
  {
  }

  /** A row of a pass with its filter byte; a pass without columns adds nothing. */
  method AppendRow(raw: seq<byte>, row: Row, prev: Row, bpp: nat) returns (out: seq<byte>, next: Row)
    requires Above(prev, |row|)
    ensures out == raw + RowBytes(row) && next == if row == [] then prev else row
  {
    if row == [] {
      assert raw + [] == raw;
      return raw, prev;
    }
    var f := FilterRow(0, row, prev, bpp);
    NoFilter(row, prev, bpp);
    ConcatAssoc(raw, [0], f);
    out := raw + [0];
    out := out + f;
    next := row;
  }

  method InterlaceRow(im: Image, p: nat, y: nat, raw: seq<byte>, prev: Row) returns (out: seq<byte>, next: Row)
    requires p < 7 && y < im.h && PrevFits(prev, p, im)
    ensures out == raw + RowBytes(PassRow(im, p, y)) && PrevFits(next, p, im)
  {
    var pass := PassAt(p);
    var row := GatherRow(im.pixels[y], pass, im.w, im.bpp);
    GatheredLength(im.pixels[y], pass.xs, pass.xstep, im.w, im.bpp);
    out, next := AppendRow(raw, row, prev, im.bpp);
  }

  method InterlacePass(im: Image, p: nat) returns (raw: seq<byte>)
    requires p < 7
    ensures raw == PassFrom(im, p, PassAt(p).ys)
  {
    raw := [];
    var prev: Row := [];
    var y := PassAt(p).ys;
    ghost var all := PassFrom(im, p, y);
    while y < im.h
      invariant Splits(all, raw, PassFrom(im, p, y)) && PrevFits(prev, p, im)
      decreases im.h - y
    {
      var below := y + PassAt(p).ystep;
      RowNext(im, p, y, below, raw, all);
      raw, prev := InterlaceRow(im, p, y, raw, prev);
      y := below;
    }
  }

  /** The row at `y` moves from what is left to what is written. */
  lemma RowNext(im: Image, p: nat, y: nat, below: nat, raw: seq<byte>, all: seq<byte>)
    requires p < 7 && y < im.h && below == y + PassAt(p).ystep && Splits(all, raw, PassFrom(im, p, y))
    ensures Splits(all, raw + RowBytes(PassRow(im, p, y)), PassFrom(im, p, below))
  {
    SplitsNext(all, raw, RowBytes(PassRow(im, p, y)), PassFrom(im, p, below));
  }

  method Interlace(im: Image) returns (raw: seq<byte>)
    ensures raw == InterlacedFrom(im, 0)
  {
    raw := [];
    ghost var all := InterlacedFrom(im, 0);
    for p := 0 to 7
      invariant Splits(all, raw, InterlacedFrom(im, p))
    {
      var one := InterlacePass(im, p);
      SplitsNext(all, raw, one, InterlacedFrom(im, p + 1));
      raw := raw + one;
    }
  }

  // ---------------------------------------------------------------- the reader

  /** Pixels found so far, by column and row. */
  type Canvas = map<(nat, nat), Pixel>

  /** Places a decoded row; None if a pixel would be written twice. */
  function Scatter(row: Row, x: nat, y: nat, step: nat, w: nat, bpp: nat, canvas: Canvas): Option<Canvas>
    requires step > 0
    decreases w - x
  {
    if x >= w then (if row == [] then Some(canvas) else None)
    else if |row| < bpp || (x, y) in canvas then None
    else Scatter(row[bpp..], x + step, y, step, w, bpp, canvas[(x, y) := row[..bpp]])
  }

  /** What reading a row leaves: the canvas, the row the next one is filtered against, and the rest of the stream. */
  datatype RowRead = RowRead(canvas: Canvas, last: Row, rest: seq<byte>)

  /** One row of a pass, with its own filter byte; none is stored for a pass without columns. */
  function ReadRow(raw: seq<byte>, prev: Row, pass: Pass, y: nat, w: nat, bpp: nat, canvas: Canvas)
    : (r: Option<RowRead>)
    requires bpp >= 1 && pass.xstep > 0 && (prev == [] || |prev| == Count(pass.xs, pass.xstep, w) * bpp)
    ensures r.Some? ==> r.value.last == [] || |r.value.last| == Count(pass.xs, pass.xstep, w) * bpp
  {
    var n := Count(pass.xs, pass.xstep, w) * bpp;
    if n == 0 then Some(RowRead(canvas, prev, raw))
    else if |raw| < n + 1 || raw[0] > 4 then None
    else
      var row := Unfiltered(raw[0], raw[1..n + 1], prev, bpp);
      match Scatter(row, pass.xs, y, pass.xstep, w, bpp, canvas)
      case None => None
      case Some(next) => Some(RowRead(next, row, raw[n + 1..]))
  }

  /** The rows of a pass from `y` on. */
  function ReadPass(raw: seq<byte>, prev: Row, p: nat, y: nat, w: nat, h: nat, bpp: nat, canvas: Canvas)
    : Option<(Canvas, seq<byte>)>
    requires bpp >= 1 && (prev == [] || |prev| == Count(PassAt(p).xs, PassAt(p).xstep, w) * bpp)
    decreases h - y
  {
    if y >= h then Some((canvas, raw))
    else
      match ReadRow(raw, prev, PassAt(p), y, w, bpp, canvas)
      case None => None
      case Some(r) => ReadPass(r.rest, r.last, p, y + PassAt(p).ystep, w, h, bpp, r.canvas)
  }

  function ReadFrom(raw: seq<byte>, p: nat, w: nat, h: nat, bpp: nat, canvas: Canvas): Option<Canvas>
    requires bpp >= 1 && p <= 7
    decreases 7 - p, w
  {
    if p == 7 then (if raw == [] then Some(canvas) else None)
    else
      match ReadPass(raw, [], p, PassAt(p).ys, w, h, bpp, canvas)
      case None => None
      case Some((next, rest)) => ReadFrom(rest, p + 1, w, h, bpp, next)
  }

  // ---------------------------------------------------------------- the inverse

  /** Read before: an earlier pass, or earlier in this one. */
  predicate Reached(k: (nat, nat), p: nat, y: nat, x: nat) {
    PassOf(k.0, k.1) < p || (PassOf(k.0, k.1) == p && (k.1 < y || (k.1 == y && k.0 < x)))
  }

  /** One place of the canvas: filled exactly when reached, and then with the image's own bytes. */
  ghost predicate Right(canvas: Canvas, im: Image, p: nat, y: nat, x: nat, k: (nat, nat)) {
    (k in canvas <==> k.0 < im.w && k.1 < im.h && Reached(k, p, y, x)) &&
    (k in canvas ==> canvas[k] == PixelAt(im.pixels[k.1], k.0, im.w, im.bpp))
  }

  ghost predicate Holds(canvas: Canvas, im: Image, p: nat, y: nat, x: nat) {
    forall k: (nat, nat) {:trigger Right(canvas, im, p, y, x, k)} :: Right(canvas, im, p, y, x, k)
  }

  lemma NextPixel(canvas: Canvas, im: Image, p: nat, y: nat, x: nat)
    requires p < 7 && x < im.w && y < im.h && InPass(p, x, y)
    requires Holds(canvas, im, p, y, x)
    ensures (x, y) !in canvas
    ensures Holds(canvas[(x, y) := PixelAt(im.pixels[y], x, im.w, im.bpp)], im, p, y, x + PassAt(p).xstep)
  {
    PassesPartition(p, x, y);
    assert Right(canvas, im, p, y, x, (x, y));
    var next, x' := canvas[(x, y) := PixelAt(im.pixels[y], x, im.w, im.bpp)], x + PassAt(p).xstep;
    forall k: (nat, nat) ensures Right(next, im, p, y, x', k) {
      assert Right(canvas, im, p, y, x, k);
      if k.1 == y && x < k.0 < x' {
        PassesPartition(p, k.0, k.1);
        BetweenSteps(x, k.0, PassAt(p).xs, PassAt(p).xstep);
      }
    }
  }

  lemma BetweenSteps(a: nat, b: nat, start: nat, step: nat)
    requires IsStep(step) && start < step && OnGrid(a, start, step) && a < b < a + step
    ensures !OnGrid(b, start, step)
  {
    OnGridResidue(a, start, step);
    OnGridResidue(b, start, step);
  }

  lemma ScatterStep(pixel: Pixel, more: Row, x: nat, y: nat, step: nat, w: nat, bpp: nat, canvas: Canvas)
    requires step > 0 && x < w && |pixel| == bpp && (x, y) !in canvas
    ensures Scatter(pixel + more, x, y, step, w, bpp, canvas)
            == Scatter(more, x + step, y, step, w, bpp, canvas[(x, y) := pixel])
  {
    assert (pixel + more)[..bpp] == pixel && (pixel + more)[bpp..] == more;
  }

  lemma {:induction false} ScatterInverts(im: Image, p: nat, y: nat, x: nat,
                                          canvas: Canvas, row: Row) returns (e: nat)
    requires p < 7 && y < im.h && InPass(p, x, y)
    requires Holds(canvas, im, p, y, x) && row == Gathered(im.pixels[y], x, PassAt(p).xstep, im.w, im.bpp)
    ensures Scatter(row, x, y, PassAt(p).xstep, im.w, im.bpp, canvas).Some?
    ensures e >= im.w && Holds(Scatter(row, x, y, PassAt(p).xstep, im.w, im.bpp, canvas).value, im, p, y, e)
    decreases im.w - x
  {
    var step := PassAt(p).xstep;
    if x >= im.w {
      e := x;
    } else {
      var pixel, more := PixelAt(im.pixels[y], x, im.w, im.bpp), Gathered(im.pixels[y], x + step, step, im.w, im.bpp);
      NextPixel(canvas, im, p, y, x);
      ScatterStep(pixel, more, x, y, step, im.w, im.bpp, canvas);
      e := ScatterInverts(im, p, y, x + step, canvas[(x, y) := pixel], more);
    }
  }

  /** After a row, the next row of the pass is next. */
  lemma NextRow(canvas: Canvas, im: Image, p: nat, y: nat, e: nat, below: nat)
    requires p < 7 && OnGrid(y, PassAt(p).ys, PassAt(p).ystep) && below == y + PassAt(p).ystep
    requires e >= im.w && Holds(canvas, im, p, y, e)
    ensures Holds(canvas, im, p, below, PassAt(p).xs)
  {
    var left := PassAt(p).xs;
    forall k: (nat, nat)
      ensures Right(canvas, im, p, below, left, k)
    {
      assert Right(canvas, im, p, y, e, k);
      PassesPartition(p, k.0, k.1);
      if y < k.1 < below {
        BetweenSteps(y, k.1, PassAt(p).ys, PassAt(p).ystep);
      }
    }
  }

  /** A pass without columns reaches nothing new. */
  lemma NoColumns(canvas: Canvas, im: Image, p: nat, y: nat, below: nat)
    requires p < 7 && OnGrid(y, PassAt(p).ys, PassAt(p).ystep) && below == y + PassAt(p).ystep && PassAt(p).xs >= im.w
    requires Holds(canvas, im, p, y, PassAt(p).xs)
    ensures Holds(canvas, im, p, below, PassAt(p).xs)
  {
    NextRow(canvas, im, p, y, PassAt(p).xs, below);
  }

  lemma ReadRowBack(row: Row, more: seq<byte>, prev: Row, pass: Pass, y: nat, w: nat, bpp: nat, canvas: Canvas,
                    next: Canvas)
    requires bpp >= 1 && pass.xstep > 0 && |row| == Count(pass.xs, pass.xstep, w) * bpp > 0
    requires prev == [] || |prev| == |row|
    requires Scatter(row, pass.xs, y, pass.xstep, w, bpp, canvas) == Some(next)
    ensures ReadRow([0] + row + more, prev, pass, y, w, bpp, canvas) == Some(RowRead(next, row, more))
  {
    var raw, n := [0] + row + more, |row|;
    assert raw[0] == 0 && raw[1..n + 1] == row && raw[n + 1..] == more;
    NoFilter(row, prev, bpp);
    UnfilterInverts(0, row, prev, bpp);
  }

  /** Reading one row of a pass, wherever the stream goes on. */
  lemma RowInverts(im: Image, p: nat, y: nat, below: nat, prev: Row, canvas: Canvas, stream: seq<byte>, more: seq<byte>)
    returns (r: RowRead)
    requires p < 7 && y < im.h && OnGrid(y, PassAt(p).ys, PassAt(p).ystep) && below == y + PassAt(p).ystep
    requires PrevFits(prev, p, im) && Holds(canvas, im, p, y, PassAt(p).xs)
    requires stream == RowBytes(PassRow(im, p, y)) + more
    ensures ReadRow(stream, prev, PassAt(p), y, im.w, im.bpp, canvas) == Some(r)
    ensures PrevFits(r.last, p, im) && r.rest == more && Holds(r.canvas, im, p, below, PassAt(p).xs)
  {
    var pass, row := PassAt(p), PassRow(im, p, y);
    GatheredLength(im.pixels[y], pass.xs, pass.xstep, im.w, im.bpp);
    if row == [] {
      assert stream == more;
      EmptyRow(im, p, y, below, prev, canvas, stream);
      r := RowRead(canvas, prev, more);
    } else {
      var next := FullRow(im, p, y, below, canvas, row);
      assert stream == [0] + row + more;
      ReadRowBack(row, more, prev, pass, y, im.w, im.bpp, canvas, next);
      r := RowRead(next, row, more);
    }
  }

  /** A row of a pass without columns takes nothing from the stream. */
  lemma EmptyRow(im: Image, p: nat, y: nat, below: nat, prev: Row, canvas: Canvas, stream: seq<byte>)
    requires p < 7 && y < im.h && OnGrid(y, PassAt(p).ys, PassAt(p).ystep) && below == y + PassAt(p).ystep
    requires PrevFits(prev, p, im) && Holds(canvas, im, p, y, PassAt(p).xs)
    requires Count(PassAt(p).xs, PassAt(p).xstep, im.w) * im.bpp == 0
    ensures ReadRow(stream, prev, PassAt(p), y, im.w, im.bpp, canvas) == Some(RowRead(canvas, prev, stream))
    ensures Holds(canvas, im, p, below, PassAt(p).xs)
  {
    ZeroColumns(PassAt(p).xs, PassAt(p).xstep, im.w, im.bpp);
    NoColumns(canvas, im, p, y, below);
  }

  /** The pixels of a row go to their places. */
  lemma FullRow(im: Image, p: nat, y: nat, below: nat, canvas: Canvas, row: Row) returns (next: Canvas)
    requires p < 7 && y < im.h && OnGrid(y, PassAt(p).ys, PassAt(p).ystep) && below == y + PassAt(p).ystep
    requires Holds(canvas, im, p, y, PassAt(p).xs) && row == PassRow(im, p, y)
    ensures Holds(next, im, p, below, PassAt(p).xs)
    ensures Scatter(row, PassAt(p).xs, y, PassAt(p).xstep, im.w, im.bpp, canvas) == Some(next)
  {
    var pass := PassAt(p);
    var x := ScatterInverts(im, p, y, pass.xs, canvas, row);
    next := Scatter(row, pass.xs, y, pass.xstep, im.w, im.bpp, canvas).value;
    NextRow(next, im, p, y, x, below);
  }

  lemma NextRowOf(p: nat, y: nat) returns (below: nat)
    requires p < 7 && OnGrid(y, PassAt(p).ys, PassAt(p).ystep)
    ensures below == y + PassAt(p).ystep > y && OnGrid(below, PassAt(p).ys, PassAt(p).ystep)
  {
    below := y + PassAt(p).ystep;
  }

  lemma StreamRow(im: Image, p: nat, y: nat, below: nat, rest: seq<byte>)
    requires p < 7 && y < im.h && below == y + PassAt(p).ystep
    ensures PassFrom(im, p, y) + rest == RowBytes(PassRow(im, p, y)) + (PassFrom(im, p, below) + rest)
  {
    var bytes, more := RowBytes(PassRow(im, p, y)), PassFrom(im, p, below);
    assert PassFrom(im, p, y) == bytes + more;
    ConcatAssoc(bytes, more, rest);
  }

  lemma ReadPassNext(raw: seq<byte>, prev: Row, p: nat, y: nat, below: nat, w: nat, h: nat, bpp: nat, canvas: Canvas,
                     r: RowRead)
    requires bpp >= 1 && y < h && below == y + PassAt(p).ystep
    requires prev == [] || |prev| == Count(PassAt(p).xs, PassAt(p).xstep, w) * bpp
    requires ReadRow(raw, prev, PassAt(p), y, w, bpp, canvas) == Some(r)
    ensures ReadPass(raw, prev, p, y, w, h, bpp, canvas) == ReadPass(r.rest, r.last, p, below, w, h, bpp, r.canvas)
  {
  }

  /** Reading the row at `y` leaves the rows from `below` on, whatever follows the pass. */
  lemma PassStep(im: Image, p: nat, y: nat, below: nat, prev: Row, canvas: Canvas, stream: seq<byte>, rest: seq<byte>)
    returns (r: RowRead)
    requires p < 7 && y < im.h && OnGrid(y, PassAt(p).ys, PassAt(p).ystep) && below == y + PassAt(p).ystep
    requires PrevFits(prev, p, im) && Holds(canvas, im, p, y, PassAt(p).xs) && stream == PassFrom(im, p, y) + rest
    ensures PrevFits(r.last, p, im) && r.rest == PassFrom(im, p, below) + rest &&
            Holds(r.canvas, im, p, below, PassAt(p).xs)
    ensures ReadPass(stream, prev, p, y, im.w, im.h, im.bpp, canvas)
            == ReadPass(r.rest, r.last, p, below, im.w, im.h, im.bpp, r.canvas)
  {
    var more := PassFrom(im, p, below) + rest;
    StreamRow(im, p, y, below, rest);
    r := RowInverts(im, p, y, below, prev, canvas, stream, more);
    ReadPassNext(stream, prev, p, y, below, im.w, im.h, im.bpp, canvas, r);
  }

  lemma PassDone(p: nat, y: nat, im: Image, prev: Row, canvas: Canvas, rest: seq<byte>)
    requires p < 7 && y >= im.h && PrevFits(prev, p, im)
    ensures PassFrom(im, p, y) + rest == rest
    ensures ReadPass(rest, prev, p, y, im.w, im.h, im.bpp, canvas) == Some((canvas, rest))
  {
  }

  lemma {:induction false} PassInverts(im: Image, p: nat, y: nat, prev: Row, canvas: Canvas,
                                       stream: seq<byte>, rest: seq<byte>) returns (e: nat, after: Canvas)
    requires p < 7 && OnGrid(y, PassAt(p).ys, PassAt(p).ystep)
    requires PrevFits(prev, p, im) && Holds(canvas, im, p, y, PassAt(p).xs) && stream == PassFrom(im, p, y) + rest
    ensures ReadPass(stream, prev, p, y, im.w, im.h, im.bpp, canvas) == Some((after, rest))
    ensures e >= im.h && Holds(after, im, p, e, PassAt(p).xs)
    decreases im.h - y
  {
    if y >= im.h {
      PassDone(p, y, im, prev, canvas, rest);
      return y, canvas;
    }
    var below := NextRowOf(p, y);
    var r := PassStep(im, p, y, below, prev, canvas, stream, rest);
    e, after := PassInverts(im, p, below, r.last, r.canvas, r.rest, rest);
  }

  lemma ZeroColumns(x: nat, step: nat, w: nat, bpp: nat)
    requires step > 0 && bpp >= 1 && Count(x, step, w) * bpp == 0
    ensures x >= w
  {
  }

  /** A whole pass read: the next pass is next. */
  lemma NextPass(canvas: Canvas, im: Image, p: nat, e: nat)
    requires p < 7 && e >= im.h && Holds(canvas, im, p, e, PassAt(p).xs)
    ensures Holds(canvas, im, p + 1, PassAt(p + 1).ys, PassAt(p + 1).xs)
  {
    var after, top, left := p + 1, PassAt(p + 1).ys, PassAt(p + 1).xs;
    forall k: (nat, nat)
      ensures Right(canvas, im, after, top, left, k)
    {
      assert Right(canvas, im, p, e, PassAt(p).xs, k);
      if PassOf(k.0, k.1) == p + 1 {
        PassesPartition(p + 1, k.0, k.1);
      }
    }
  }

  lemma {:induction false} ReadInverts(im: Image, p: nat, canvas: Canvas, raw: seq<byte>)
    requires p <= 7 && raw == InterlacedFrom(im, p)
    requires Holds(canvas, im, p, PassAt(p).ys, PassAt(p).xs)
    ensures var r := ReadFrom(raw, p, im.w, im.h, im.bpp, canvas);
            r.Some? && Holds(r.value, im, 7, 1, 0)
    decreases 7 - p
  {
    if p < 7 {
      var one, more := PassFrom(im, p, PassAt(p).ys), InterlacedFrom(im, p + 1);
      var e, next := PassInverts(im, p, PassAt(p).ys, [], canvas, one + more, more);
      NextPass(next, im, p, e);
      ReadInverts(im, p + 1, next, more);
    }
  }

  lemma StartEmpty(im: Image)
    ensures Holds(map[], im, 0, PassAt(0).ys, PassAt(0).xs)
  {
  }

  lemma Finished(canvas: Canvas, im: Image)
    requires Holds(canvas, im, 7, 1, 0)
    ensures forall k :: k in canvas <==> k.0 < im.w && k.1 < im.h
    ensures forall x, y | 0 <= x < im.w && 0 <= y < im.h :: canvas[(x, y)] == PixelAt(im.pixels[y], x, im.w, im.bpp)
  {
    forall k: (nat, nat)
      ensures k in canvas <==> k.0 < im.w && k.1 < im.h
      ensures k in canvas ==> canvas[k] == PixelAt(im.pixels[k.1], k.0, im.w, im.bpp)
    {
      assert Right(canvas, im, 7, 1, 0, k);
    }
  }

  /** Pixel (x, y) of the canvas is bytes x * bpp to x * bpp + bpp - 1 of image row y. */
  ghost predicate Recovered(canvas: Canvas, im: Image) {
    (forall k :: k in canvas <==> k.0 < im.w && k.1 < im.h) &&
    forall x, y, k | 0 <= x < im.w && 0 <= y < im.h && 0 <= k < im.bpp ::
      PixelInside(x, im.w, im.bpp);
      |canvas[(x, y)]| == im.bpp && canvas[(x, y)][k] == im.pixels[y][x * im.bpp + k]
  }

  lemma PixelsRestored(canvas: Canvas, im: Image)
    requires forall k :: k in canvas <==> k.0 < im.w && k.1 < im.h
    requires forall x, y | 0 <= x < im.w && 0 <= y < im.h :: canvas[(x, y)] == PixelAt(im.pixels[y], x, im.w, im.bpp)
    ensures Recovered(canvas, im)
  {
    forall x, y, k | 0 <= x < im.w && 0 <= y < im.h && 0 <= k < im.bpp
      ensures 0 <= x * im.bpp + k < |im.pixels[y]|
      ensures |canvas[(x, y)]| == im.bpp && canvas[(x, y)][k] == im.pixels[y][x * im.bpp + k]
    {
      PixelInside(x, im.w, im.bpp);
      assert canvas[(x, y)] == PixelAt(im.pixels[y], x, im.w, im.bpp);
    }
  }

  /** De-interlacing gives every byte of the image back, each pixel from exactly one place in the stream. */
  lemma InterlaceRoundTrip(im: Image)
    ensures var r := ReadFrom(InterlacedFrom(im, 0), 0, im.w, im.h, im.bpp, map[]);
            r.Some? && Recovered(r.value, im)
  {
    StartEmpty(im);
    ReadInverts(im, 0, map[], InterlacedFrom(im, 0));
    var canvas := ReadFrom(InterlacedFrom(im, 0), 0, im.w, im.h, im.bpp, map[]).value;
    Finished(canvas, im);
    PixelsRestored(canvas, im);
  }
}
