/** Row filters of the PNG writer, and their inverse (section 6 of RFC 2083). */
module PngFilter {
  import opened Bits
  import opened Options

  type Row = seq<byte>

  function Paeth(a: byte, b: byte, c: byte): byte {
    var p := a + b - c;
    if Abs(p - a) <= Abs(p - b) && Abs(p - a) <= Abs(p - c) then a
    else if Abs(p - b) <= Abs(p - c) then b else c
  }

  /** The neighbour nearest to a + b - c; on a tie left, then above, then upper left. */
  lemma PaethIsNearest(a: byte, b: byte, c: byte)
    ensures var p, r := a + b - c, Paeth(a, b, c);
            (r == a || r == b || r == c) &&
            Abs(p - r) <= Abs(p - a) && Abs(p - r) <= Abs(p - b) && Abs(p - r) <= Abs(p - c) &&
            (Abs(p - a) == Abs(p - r) ==> r == a) &&
            (Abs(p - a) > Abs(p - r) && Abs(p - b) == Abs(p - r) ==> r == b)
  {
  }

  function Predict(filter: byte, left: byte, up: byte, upperLeft: byte): byte {
    match filter
    case 0 => 0
    case 1 => left
    case 2 => up
    case 3 => (left + up) / 2
    case _ => Paeth(left, up, upperLeft)
  }

  /** An empty row before stands for no row before. */
  ghost predicate Above(prev: Row, n: nat) {
    prev == [] || |prev| >= n
  }

  function UpOf(prev: Row, i: nat): byte
    requires Above(prev, i + 1)
  {
    if prev == [] then 0 else prev[i]
  }

  function UpperLeftOf(prev: Row, i: nat, bpp: nat): byte
    requires Above(prev, i + 1)
  {
    if prev == [] || i < bpp then 0 else prev[i - bpp]
  }

  function LeftOf(row: Row, i: nat, bpp: nat): byte
    requires i < |row|
  {
    if i < bpp then 0 else row[i - bpp]
  }

  /** What is subtracted from byte `i`. */
  function PredictAt(filter: byte, row: Row, prev: Row, bpp: nat, i: nat): byte
    requires i < |row| && Above(prev, i + 1)
  {
    Predict(filter, LeftOf(row, i, bpp), UpOf(prev, i), UpperLeftOf(prev, i, bpp))
  }

  function Filtered(filter: byte, row: Row, prev: Row, bpp: nat): (r: Row)
    requires Above(prev, |row|)
    ensures |r| == |row|
  {
    seq(|row|, i requires 0 <= i < |row| => (row[i] - PredictAt(filter, row, prev, bpp, i)) % 256)
  }

  // ---------------------------------------------------------------- reconstruction

  /** The Paeth predictor by its distances: |p - a| is |b - c|, |p - b| is |a - c|. */
  function Nearest(a: byte, b: byte, c: byte): byte {
    if Abs(b - c) <= Abs(a - c) && Abs(b - c) <= Abs(a + b - 2 * c) then a
    else if Abs(a - c) <= Abs(a + b - 2 * c) then b
    else c
  }

  /** Sections 6.2 to 6.6 of RFC 2083: a byte from its filtered value and its left, upper and upper left neighbour. */
  function Restored(filter: byte, x: byte, a: byte, b: byte, c: byte): byte {
    match filter
    case 0 => x
    case 1 => (x + a) % 256
    case 2 => (x + b) % 256
    case 3 => (x + (a + b) / 2) % 256
    case _ => (x + Nearest(a, b, c)) % 256
  }

  /** Each byte from the filtered byte and the bytes already reconstructed; beyond the edges stand zeroes. */
  function Unfiltered(filter: byte, f: Row, prev: Row, bpp: nat): (r: Row)
    requires Above(prev, |f|) && bpp >= 1
    ensures |r| == |f|
  {
    if f == [] then []
    else
      var i := |f| - 1;
      var done := Unfiltered(filter, f[..i], prev, bpp);
      var a := if i < bpp then 0 else done[i - bpp];
      var b := if prev == [] then 0 else prev[i];
      var c := if prev == [] || i < bpp then 0 else prev[i - bpp];
      done + [Restored(filter, f[i], a, b, c)]
  }

  /** What each filter subtracts, its reconstruction adds back. */
  lemma RestoredInverts(filter: byte, v: byte, a: byte, b: byte, c: byte)
    ensures Restored(filter, (v - Predict(filter, a, b, c)) % 256, a, b, c) == v
  {
    if filter > 3 {
      assert Nearest(a, b, c) == Paeth(a, b, c);
    }
    AddBack(v, Predict(filter, a, b, c));
  }

  lemma AddBack(v: byte, p: byte)
    ensures ((v - p) % 256 + p) % 256 == v
  {
  }

  lemma FilteredPrefix(filter: byte, row: Row, prev: Row, bpp: nat, n: nat)
    requires Above(prev, |row|) && n <= |row|
    ensures Filtered(filter, row, prev, bpp)[..n] == Filtered(filter, row[..n], prev, bpp)
  {
    forall i | 0 <= i < n
      ensures LeftOf(row, i, bpp) == LeftOf(row[..n], i, bpp)
    {
    }
  }

  /** Reconstruction inverts every filter. */
  lemma {:induction false} UnfilterInverts(filter: byte, row: Row, prev: Row, bpp: nat)
    requires Above(prev, |row|) && bpp >= 1
    ensures Unfiltered(filter, Filtered(filter, row, prev, bpp), prev, bpp) == row
    decreases |row|
  {
    if row != [] {
      var n := |row| - 1;
      FilteredPrefix(filter, row, prev, bpp, n);
      UnfilterInverts(filter, row[..n], prev, bpp);
      LastByte(filter, Filtered(filter, row, prev, bpp), row, prev, bpp);
    }
  }

  lemma LastByte(filter: byte, f: Row, row: Row, prev: Row, bpp: nat)
    requires row != [] && Above(prev, |row|) && bpp >= 1 && f == Filtered(filter, row, prev, bpp)
    requires Unfiltered(filter, f[..|row| - 1], prev, bpp) == row[..|row| - 1]
    ensures Unfiltered(filter, f, prev, bpp) == row
  {
    var n := |row| - 1;
    LastRestored(filter, f, row, prev, bpp);
    UnfilteredLast(filter, f, prev, bpp, row[..n], LeftOf(row, n, bpp), UpOf(prev, n), UpperLeftOf(prev, n, bpp));
    assert row == row[..n] + [row[n]];
  }

  lemma LastRestored(filter: byte, f: Row, row: Row, prev: Row, bpp: nat)
    requires row != [] && Above(prev, |row|) && f == Filtered(filter, row, prev, bpp)
    ensures var n := |row| - 1;
            Restored(filter, f[n], LeftOf(row, n, bpp), UpOf(prev, n), UpperLeftOf(prev, n, bpp)) == row[n]
  {
    var n := |row| - 1;
    RestoredInverts(filter, row[n], LeftOf(row, n, bpp), UpOf(prev, n), UpperLeftOf(prev, n, bpp));
  }

  lemma UnfilteredLast(filter: byte, f: Row, prev: Row, bpp: nat, done: Row, a: byte, b: byte, c: byte)
    requires f != [] && Above(prev, |f|) && bpp >= 1 && done == Unfiltered(filter, f[..|f| - 1], prev, bpp)
    requires var i := |f| - 1;
             a == (if i < bpp then 0 else done[i - bpp]) && b == UpOf(prev, i) && c == UpperLeftOf(prev, i, bpp)
    ensures Unfiltered(filter, f, prev, bpp) == done + [Restored(filter, f[|f| - 1], a, b, c)]
  {
  }

  /** The loop of `filter_row`; reconstructing what it gives gives the row back. */
  method FilterRow(filter: byte, row: Row, prev: Row, bpp: nat) returns (out: Row)
    requires Above(prev, |row|)
    ensures out == Filtered(filter, row, prev, bpp)
    ensures bpp >= 1 ==> Unfiltered(filter, out, prev, bpp) == row
  {
    out := [];
    ghost var all := Filtered(filter, row, prev, bpp);
    for i := 0 to |row|
      invariant out == all[..i]
    {
      var v: int := row[i];
      var left: int := if i >= bpp then row[i - bpp] else 0;
      var up: int := if prev != [] then prev[i] else 0;
      var upperLeft: int := if prev != [] && i >= bpp then prev[i - bpp] else 0;
      var f: int;
      if filter == 0 { f := v; }
      else if filter == 1 { f := v - left; }
      else if filter == 2 { f := v - up; }
      else if filter == 3 { f := v - (left + up) / 2; }
      else { f := v - Paeth(left, up, upperLeft); }
      assert f == v - PredictAt(filter, row, prev, bpp, i);
      assert all[..i + 1] == all[..i] + [all[i]];
      out := out + [f % 256];
    }
    if bpp >= 1 {
      UnfilterInverts(filter, row, prev, bpp);
    }
  }

  // ---------------------------------------------------------------- whole images

  ghost predicate SameLength(rows: seq<Row>, n: nat) {
    forall i | 0 <= i < |rows| :: |rows[i]| == n
  }

  function Before(rows: seq<Row>, i: nat): Row
    requires i <= |rows|
  {
    if i == 0 then [] else rows[i - 1]
  }

  /** The raw stream of rows `i` on: a filter byte and the filtered row, with the filters in turn. */
  function RawFrom(rows: seq<Row>, filters: seq<byte>, bpp: nat, n: nat, i: nat): seq<byte>
    requires SameLength(rows, n) && |filters| > 0 && i <= |rows|
    decreases |rows| - i
  {
    if i == |rows| then []
    else
      var filter := filters[i % |filters|];
      [filter] + Filtered(filter, rows[i], Before(rows, i), bpp) + RawFrom(rows, filters, bpp, n, i + 1)
  }

  lemma Regroup<T>(a: seq<T>, b: seq<T>, c: seq<T>, d: seq<T>)
    ensures a + (b + c + d) == a + b + c + d
  {
  }

  method WriteRaw(rows: seq<Row>, filters: seq<byte>, bpp: nat, ghost n: nat) returns (raw: seq<byte>)
    requires SameLength(rows, n) && |filters| > 0
    ensures raw == RawFrom(rows, filters, bpp, n, 0)
  {
    raw := [];
    var prev: Row := [];
    for y := 0 to |rows|
      invariant prev == Before(rows, y)
      invariant raw + RawFrom(rows, filters, bpp, n, y) == RawFrom(rows, filters, bpp, n, 0)
    {
      var filter := filters[y % |filters|];
      var f := FilterRow(filter, rows[y], prev, bpp);
      Regroup(raw, [filter], f, RawFrom(rows, filters, bpp, n, y + 1));
      raw := raw + [filter];
      raw := raw + f;
      prev := rows[y];
    }
    assert raw + [] == raw;
  }

  /** A decoder: `count` rows of `n` bytes; None for a short stream or an unknown filter. */
  function Decode(raw: seq<byte>, prev: Row, bpp: nat, n: nat, count: nat): Option<seq<Row>>
    requires bpp >= 1 && Above(prev, n)
    decreases count
  {
    if count == 0 then Some([])
    else if |raw| < n + 1 || raw[0] > 4 then None
    else
      var row := Unfiltered(raw[0], raw[1..n + 1], prev, bpp);
      match Decode(raw[n + 1..], row, bpp, n, count - 1)
      case None => None
      case Some(rest) => Some([row] + rest)
  }

  /** The rows from `i` on use none but the five filters. */
  ghost predicate Known(filters: seq<byte>, count: nat, i: nat)
    requires |filters| > 0 && i <= count
    decreases count - i
  {
    i == count || (filters[i % |filters|] <= 4 && Known(filters, count, i + 1))
  }

  lemma {:induction false} KnownIff(filters: seq<byte>, count: nat, i: nat)
    requires |filters| > 0 && i <= count
    ensures Known(filters, count, i) <==> forall k | i <= k < count :: filters[k % |filters|] <= 4
    decreases count - i
  {
    if i < count {
      KnownIff(filters, count, i + 1);
    }
  }

  lemma {:induction false} DecodeInverts(rows: seq<Row>, filters: seq<byte>, bpp: nat, n: nat, i: nat, count: nat,
                                         raw: seq<byte>, prev: Row)
    requires SameLength(rows, n) && |filters| > 0 && bpp >= 1 && i + count == |rows|
    requires raw == RawFrom(rows, filters, bpp, n, i) && prev == Before(rows, i)
    ensures Decode(raw, prev, bpp, n, count) == if Known(filters, |rows|, i) then Some(rows[i..]) else None
    decreases count
  {
    if count == 0 {
      assert rows[i..] == [];
    } else {
      var filter, f := filters[i % |filters|], Filtered(filters[i % |filters|], rows[i], prev, bpp);
      var more := RawFrom(rows, filters, bpp, n, i + 1);
      DecodeInverts(rows, filters, bpp, n, i + 1, count - 1, more, rows[i]);
      UnfilterInverts(filter, rows[i], prev, bpp);
      assert raw == [filter] + f + more;
      DecodeRow(raw, filter, f, more, prev, rows[i], bpp, n, count);
      assert Known(filters, |rows|, i) == (filter <= 4 && Known(filters, |rows|, i + 1));
      assert [rows[i]] + rows[i + 1..] == rows[i..];
    }
  }

  lemma DecodeRow(raw: seq<byte>, filter: byte, f: Row, more: seq<byte>, prev: Row, row: Row, bpp: nat, n: nat,
                  count: nat)
    requires bpp >= 1 && Above(prev, n) && |f| == n && count > 0 && row == Unfiltered(filter, f, prev, bpp)
    requires raw == [filter] + f + more
    ensures Decode(raw, prev, bpp, n, count) ==
              if filter > 4 then None
              else match Decode(more, row, bpp, n, count - 1)
                   case None => None
                   case Some(rest) => Some([row] + rest)
  {
    assert raw[1..n + 1] == f && raw[n + 1..] == more;
  }

  /** The rows start `n + 1` bytes apart, each with its filter: the filters are used in turn. */
  lemma {:induction false} FilterBytes(rows: seq<Row>, filters: seq<byte>, bpp: nat, n: nat, i: nat, k: nat)
    requires SameLength(rows, n) && |filters| > 0 && i + k < |rows|
    ensures var raw := RawFrom(rows, filters, bpp, n, i);
            0 <= k * (n + 1) < |raw| && raw[k * (n + 1)] == filters[(i + k) % |filters|]
    decreases k
  {
    var filter := filters[i % |filters|];
    var first := [filter] + Filtered(filter, rows[i], Before(rows, i), bpp);
    var more := RawFrom(rows, filters, bpp, n, i + 1);
    assert RawFrom(rows, filters, bpp, n, i) == first + more;
    if k > 0 {
      FilterBytes(rows, filters, bpp, n, i + 1, k - 1);
      OneRowOn(first, more, n, k);
    }
  }

  lemma OneRowOn(first: seq<byte>, more: seq<byte>, n: nat, k: nat)
    requires k > 0 && |first| == n + 1 && 0 <= (k - 1) * (n + 1) < |more|
    ensures 0 <= k * (n + 1) < |first + more| && (first + more)[k * (n + 1)] == more[(k - 1) * (n + 1)]
  {
    assert k * (n + 1) == (k - 1) * (n + 1) + (n + 1);
  }

  /** The raw stream decodes to the image it was made from exactly when every filter used is one of the five. */
  lemma RawRoundTrip(rows: seq<Row>, filters: seq<byte>, bpp: nat, n: nat)
    requires SameLength(rows, n) && |filters| > 0 && bpp >= 1
    ensures Decode(RawFrom(rows, filters, bpp, n, 0), [], bpp, n, |rows|) == Some(rows)
            <==> forall k | 0 <= k < |rows| :: filters[k % |filters|] <= 4
  {
    DecodeInverts(rows, filters, bpp, n, 0, |rows|, RawFrom(rows, filters, bpp, n, 0), []);
    KnownIff(filters, |rows|, 0);
    assert rows[0..] == rows;
  }
}
