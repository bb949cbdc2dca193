/**
 The whole file `encode_jpeg` writes, and a reader for such files (annex B of ITU-T T.81) that knows nothing but what
 the markers tell it: which quantisation and Huffman tables there are, and which of them each component uses.
 */
module JpegFile {
  import opened Bits
  import opened Options
  import opened Sequences
  import opened JpegHuffman
  import opened JpegBitWriter
  import opened JpegBlock
  import opened JpegEncoder
  import opened JpegScan
  import opened JpegTables
  import opened JpegRange
  import opened JpegBaseline

  type Quant = q: seq<byte> | |q| == 64 witness seq(64, _ => 1)

  // ---------------------------------------------------------------- what the reader finds

  /** A component of the frame: its number, its sampling factors and its quantisation table. */
  datatype Part = Part(id: byte, sampling: byte, quant: byte)

  datatype Frame = Frame(w: nat, h: nat, parts: seq<Part>)

  /** What has been read so far: the tables by their numbers, and the frame. */
  datatype Known = Known(quants: map<byte, Quant>, dc: map<byte, ValidSpec>, ac: map<byte, ValidSpec>,
                         frame: Option<Frame>)

  /** A picture before dequantisation: a quantisation table for each component, and the quantised blocks. */
  datatype Picture = Picture(w: nat, h: nat, quants: seq<Quant>, mcus: seq<Mcu>)

  function Nothing(): Known {
    Known(map[], map[], map[], None)
  }

  /** How many blocks of eight cover a length. */
  function Blocks(v: nat): nat {
    (v + 7) / 8
  }

  // ---------------------------------------------------------------- the reader

  /** A marker segment: its tag, its payload, and what follows; the length counts its own two bytes. */
  function Take(s: seq<byte>): (r: Option<(byte, seq<byte>, seq<byte>)>)
    ensures r.Some? ==> |r.value.2| < |s|
  {
    if |s| < 4 || s[0] != 0xFF then None
    else
      var n: nat := 0x100 * s[2] as int + s[3];
      if n < 2 || |s| < n + 2 then None else Some((s[1], s[4..n + 2], s[n + 2..]))
  }

  /** DQT with one table of bytes. */
  function WithQuant(k: Known, payload: seq<byte>): Option<Known> {
    if |payload| != 65 || payload[0] > 3 then None
    else Some(k.(quants := k.quants[payload[0] := FromZigzag(payload[1..])]))
  }

  /** DHT with one table, of class 0 for DC or 1 for AC. */
  ghost function WithTable(k: Known, payload: seq<byte>): Option<Known> {
    if |payload| < 17 then None
    else
      var spec, class_, id := Spec(payload[1..17], payload[17..]), payload[0] / 16, payload[0] % 16;
      if !Valid(spec) || Total(spec.bits) != |spec.vals| || class_ > 1 || id > 3 then None
      else if class_ == 0 then Some(k.(dc := k.dc[id := spec]))
      else Some(k.(ac := k.ac[id := spec]))
  }

  function ReadParts(s: seq<byte>): seq<Part> {
    if |s| < 3 then [] else [Part(s[0], s[1], s[2])] + ReadParts(s[3..])
  }

  /** SOF0 with a precision of eight bits. */
  function WithFrame(k: Known, payload: seq<byte>): Option<Known> {
    if k.frame.Some? || |payload| < 6 || payload[0] != 8 || |payload| != 6 + 3 * payload[5] as int then None
    else Some(k.(frame := Some(Frame(0x100 * payload[3] as int + payload[4], 0x100 * payload[1] as int + payload[2],
                                     ReadParts(payload[6..])))))
  }

  /** What a segment before the scan adds; application data and comments add nothing. */
  ghost function Noted(k: Known, tag: byte, payload: seq<byte>): Option<Known> {
    if tag == 0xDB then WithQuant(k, payload)
    else if tag == 0xC4 then WithTable(k, payload)
    else if tag == 0xC0 then WithFrame(k, payload)
    else if 0xE0 <= tag <= 0xEF || tag == 0xFE then Some(k)
    else None
  }

  /** The first marker from `i` on. */
  function MarkerFrom(s: seq<byte>, i: nat): (r: nat)
    requires i <= |s|
    ensures i <= r <= |s|
    decreases |s| - i
  {
    if i + 1 >= |s| then |s| else if s[i] == 0xFF && s[i + 1] != 0x00 then i else MarkerFrom(s, i + 1)
  }

  /** Component `c` of the scan is component `c` of the frame, sampled once, and its tables are there. */
  predicate Usable(k: Known, parts: seq<Part>, names: seq<byte>, c: nat)
    requires c < |parts| && |names| == 2 * |parts|
  {
    names[2 * c] == parts[c].id && parts[c].sampling == 0x11 && parts[c].quant in k.quants &&
    names[2 * c + 1] / 16 in k.dc && names[2 * c + 1] % 16 in k.ac
  }

  predicate AllUsable(k: Known, parts: seq<Part>, names: seq<byte>)
    requires |names| == 2 * |parts|
  {
    forall c | 0 <= c < |parts| :: Usable(k, parts, names, c)
  }

  /** The Huffman tables the scan header names for each component. */
  function NamedTables(k: Known, parts: seq<Part>, names: seq<byte>): seq<Tables>
    requires |names| == 2 * |parts| && AllUsable(k, parts, names)
  {
    seq(|parts|, c requires 0 <= c < |parts| && |names| == 2 * |parts| && AllUsable(k, parts, names) =>
                   assert Usable(k, parts, names, c);
                   Tables(k.dc[names[2 * c + 1] / 16], k.ac[names[2 * c + 1] % 16]))
  }

  /** The quantisation tables the frame names. */
  function NamedQuants(k: Known, parts: seq<Part>, names: seq<byte>): seq<Quant>
    requires |names| == 2 * |parts| && AllUsable(k, parts, names)
  {
    seq(|parts|, c requires 0 <= c < |parts| && |names| == 2 * |parts| && AllUsable(k, parts, names) =>
                   assert Usable(k, parts, names, c);
                   k.quants[parts[c].quant])
  }

  /** The entropy-coded segment up to EOI. */
  function ReadBlocks(k: Known, frame: Frame, names: seq<byte>, rest: seq<byte>): Option<Picture>
    requires |names| == 2 * |frame.parts|
  {
    var i := MarkerFrom(rest, 0);
    if rest[i..] != [0xFF, 0xD9] || !AllUsable(k, frame.parts, names) then None
    else
      match DecodeStream(NamedTables(k, frame.parts, names), rest[..i], Blocks(frame.h) * Blocks(frame.w))
      case None => None
      case Some(mcus) => Some(Picture(frame.w, frame.h, NamedQuants(k, frame.parts, names), mcus))
  }

  /** SOS for all components at once and the whole spectrum. */
  function ReadScan(k: Known, payload: seq<byte>, rest: seq<byte>): Option<Picture> {
    if k.frame.None? || |payload| < 4 then None
    else
      var n := |k.frame.value.parts|;
      if payload[0] != n || |payload| != 2 * n + 4 || payload[2 * n + 1..] != [0, 63, 0] then None
      else ReadBlocks(k, k.frame.value, payload[1..2 * n + 1], rest)
  }

  ghost function ReadMarkers(s: seq<byte>, k: Known): Option<Picture>
    decreases |s|
  {
    match Take(s)
    case None => None
    case Some((tag, payload, rest)) =>
      if tag == 0xDA then ReadScan(k, payload, rest)
      else match Noted(k, tag, payload)
        case None => None
        case Some(next) => ReadMarkers(rest, next)
  }

  ghost function ReadJpeg(s: seq<byte>): Option<Picture> {
    if |s| < 2 || s[0] != 0xFF || s[1] != 0xD8 then None else ReadMarkers(s[2..], Nothing())
  }

  // ---------------------------------------------------------------- segments

  function Word16(v: nat): seq<byte>
    requires v < 0x1_0000
  {
    [v / 0x100, v % 0x100]
  }

  /** `marker`. */
  function Marker(tag: byte, payload: seq<byte>): seq<byte>
    requires |payload| + 2 < 0x1_0000
  {
    [0xFF, tag] + Word16(|payload| + 2) + payload
  }

  lemma TakeMarker(tag: byte, payload: seq<byte>, rest: seq<byte>)
    requires |payload| + 2 < 0x1_0000
    ensures Take(Marker(tag, payload) + rest) == Some((tag, payload, rest))
  {
    var s, n := Marker(tag, payload) + rest, |payload| + 2;
    assert s == [0xFF, tag, n / 0x100, n % 0x100] + payload + rest;
    assert 0x100 * (n / 0x100) + n % 0x100 == n;
    assert s[4..n + 2] == payload && s[n + 2..] == rest;
  }

  /** Whatever follows this beginning of a file, the reader comes to it with this knowledge. */
  ghost predicate Tells(body: seq<byte>, k: Known) {
    forall rest :: ReadJpeg(body + rest) == ReadMarkers(rest, k)
  }

  lemma StartTells()
    ensures Tells([0xFF, 0xD8], Nothing())
  {
    forall rest ensures ReadJpeg([0xFF, 0xD8] + rest) == ReadMarkers(rest, Nothing()) {
      assert ([0xFF, 0xD8] + rest)[2..] == rest;
    }
  }

  lemma NextTells(body: seq<byte>, k: Known, tag: byte, payload: seq<byte>, next: Known)
    requires Tells(body, k) && |payload| + 2 < 0x1_0000 && tag != 0xDA && Noted(k, tag, payload) == Some(next)
    ensures Tells(body + Marker(tag, payload), next)
  {
    forall rest ensures ReadJpeg(body + Marker(tag, payload) + rest) == ReadMarkers(rest, next) {
      ConcatAssoc(body, Marker(tag, payload), rest);
      TakeMarker(tag, payload, rest);
    }
  }

  // ---------------------------------------------------------------- what each segment tells

  lemma NotedQuant(k: Known, id: byte, q: Quant)
    requires id <= 3
    ensures Noted(k, 0xDB, [id] + ToZigzag(q)) == Some(k.(quants := k.quants[id := q]))
  {
    assert ([id] + ToZigzag(q))[1..] == ToZigzag(q);
    ZigzagRoundTrip(q);
  }

  /** A table `dht` can write: byte-sized counts and a symbol for every code. */
  ghost predicate Sendable(s: Spec) {
    |s.bits| == 16 && (forall i | 0 <= i < 16 :: s.bits[i] < 256) && Total(s.bits) == |s.vals| <= 256
  }

  /** The payload of `dht`. */
  function TablePayload(class_: nat, id: nat, bits: seq<byte>, vals: seq<byte>): seq<byte>
    requires class_ <= 1 && id <= 3
  {
    [16 * class_ + id] + bits + vals
  }

  lemma NotedTable(k: Known, class_: nat, id: nat, s: ValidSpec)
    requires class_ <= 1 && id <= 3 && Sendable(s)
    ensures Noted(k, 0xC4, TablePayload(class_, id, s.bits, s.vals)) ==
              Some(if class_ == 0 then k.(dc := k.dc[id := s]) else k.(ac := k.ac[id := s]))
  {
    var payload := TablePayload(class_, id, s.bits, s.vals);
    assert payload[1..17] == s.bits && payload[17..] == s.vals;
    assert Spec(payload[1..17], payload[17..]) == s;
  }

  function FrameParts(grey: bool): seq<byte> {
    if grey then [1, 0x11, 0] else [1, 0x11, 0, 2, 0x11, 1, 3, 0x11, 1]
  }

  function PartsOf(grey: bool): seq<Part> {
    if grey then [Part(1, 0x11, 0)] else [Part(1, 0x11, 0), Part(2, 0x11, 1), Part(3, 0x11, 1)]
  }

  lemma FramePartsRead(grey: bool)
    ensures ReadParts(FrameParts(grey)) == PartsOf(grey)
  {
    if grey {
      assert FrameParts(true)[3..] == [];
    } else {
      var s := FrameParts(false);
      assert s[3..] == [2, 0x11, 1, 3, 0x11, 1];
      assert s[3..][3..] == [3, 0x11, 1];
      assert s[3..][3..][3..] == [];
      assert ReadParts(s[3..][3..]) == [Part(3, 0x11, 1)];
      assert ReadParts(s[3..]) == [Part(2, 0x11, 1), Part(3, 0x11, 1)];
    }
  }

  function Components(grey: bool): nat {
    if grey then 1 else 3
  }

  function FramePayload(w: nat, h: nat, grey: bool): seq<byte>
    requires w < 0x1_0000 && h < 0x1_0000
  {
    [8] + Word16(h) + Word16(w) + [Components(grey)] + FrameParts(grey)
  }

  lemma NotedFrame(k: Known, w: nat, h: nat, grey: bool)
    requires w < 0x1_0000 && h < 0x1_0000 && k.frame == None
    ensures Noted(k, 0xC0, FramePayload(w, h, grey)) == Some(k.(frame := Some(Frame(w, h, PartsOf(grey)))))
  {
    var payload := FramePayload(w, h, grey);
    assert payload[6..] == FrameParts(grey);
    FramePartsRead(grey);
    assert 0x100 * (h / 0x100) + h % 0x100 == h && 0x100 * (w / 0x100) + w % 0x100 == w;
  }

  // ---------------------------------------------------------------- the scan

  function ScanNames(grey: bool): seq<byte> {
    if grey then [1, 0x00] else [1, 0x00, 2, 0x11, 3, 0x11]
  }

  function ScanPayload(grey: bool): seq<byte> {
    [Components(grey)] + ScanNames(grey) + [0, 63, 0]
  }

  /** The quantisation table and the Huffman tables with this number have been read. */
  ghost predicate Knows(k: Known, id: byte, q: Quant, t: Tables) {
    id in k.quants && k.quants[id] == q && id in k.dc && k.dc[id] == t.dc && id in k.ac && k.ac[id] == t.ac
  }

  lemma {:induction false} NoMarkerInside(segment: seq<byte>, i: nat)
    requires NoMarker(segment) && i <= |segment|
    ensures MarkerFrom(segment + [0xFF, 0xD9], i) == |segment|
    decreases |segment| - i
  {
    if i < |segment| {
      NoMarkerInside(segment, i + 1);
    }
  }

  lemma PayloadRead(k: Known, w: nat, h: nat, grey: bool, rest: seq<byte>)
    requires k.frame == Some(Frame(w, h, PartsOf(grey)))
    ensures ReadScan(k, ScanPayload(grey), rest) == ReadBlocks(k, Frame(w, h, PartsOf(grey)), ScanNames(grey), rest)
  {
    var payload, n := ScanPayload(grey), Components(grey);
    assert payload[1..2 * n + 1] == ScanNames(grey) && payload[2 * n + 1..] == [0, 63, 0];
  }

  lemma GreyNamed(k: Known, qy: Quant, luma: Tables)
    requires Knows(k, 0, qy, luma)
    ensures AllUsable(k, PartsOf(true), ScanNames(true))
    ensures NamedTables(k, PartsOf(true), ScanNames(true)) == [luma]
    ensures NamedQuants(k, PartsOf(true), ScanNames(true)) == [qy]
  {
    assert Usable(k, PartsOf(true), ScanNames(true), 0);
  }

  lemma Three<T>(s: seq<T>, a: T, b: T, c: T)
    requires |s| == 3 && s[0] == a && s[1] == b && s[2] == c
    ensures s == [a, b, c]
  {
  }

  lemma ColourUsable(k: Known, qy: Quant, qc: Quant, luma: Tables, chroma: Tables)
    requires Knows(k, 0, qy, luma) && Knows(k, 1, qc, chroma)
    ensures AllUsable(k, PartsOf(false), ScanNames(false))
  {
    var parts, names := PartsOf(false), ScanNames(false);
    assert Usable(k, parts, names, 0) && Usable(k, parts, names, 1) && Usable(k, parts, names, 2);
  }

  lemma TablesAt(k: Known, parts: seq<Part>, names: seq<byte>, c: nat, id: byte, t: Tables)
    requires c < |parts| && |names| == 2 * |parts| && AllUsable(k, parts, names)
    requires names[2 * c + 1] / 16 == id && names[2 * c + 1] % 16 == id
    requires id in k.dc && k.dc[id] == t.dc && id in k.ac && k.ac[id] == t.ac
    ensures NamedTables(k, parts, names)[c] == t
  {
  }

  lemma ColourTables(k: Known, qy: Quant, qc: Quant, luma: Tables, chroma: Tables)
    requires Knows(k, 0, qy, luma) && Knows(k, 1, qc, chroma) && AllUsable(k, PartsOf(false), ScanNames(false))
    ensures NamedTables(k, PartsOf(false), ScanNames(false)) == [luma, chroma, chroma]
  {
    var parts, names := PartsOf(false), ScanNames(false);
    TablesAt(k, parts, names, 0, 0, luma);
    TablesAt(k, parts, names, 1, 1, chroma);
    TablesAt(k, parts, names, 2, 1, chroma);
    Three(NamedTables(k, parts, names), luma, chroma, chroma);
  }

  lemma ColourQuants(k: Known, qy: Quant, qc: Quant, luma: Tables, chroma: Tables)
    requires Knows(k, 0, qy, luma) && Knows(k, 1, qc, chroma) && AllUsable(k, PartsOf(false), ScanNames(false))
    ensures NamedQuants(k, PartsOf(false), ScanNames(false)) == [qy, qc, qc]
  {
    Three(NamedQuants(k, PartsOf(false), ScanNames(false)), qy, qc, qc);
  }

  lemma BlocksRead(k: Known, frame: Frame, names: seq<byte>, segment: seq<byte>, tables: seq<Tables>,
                   quants: seq<Quant>)
    requires NoMarker(segment) && |names| == 2 * |frame.parts| && AllUsable(k, frame.parts, names)
    requires NamedTables(k, frame.parts, names) == tables && NamedQuants(k, frame.parts, names) == quants
    ensures ReadBlocks(k, frame, names, segment + [0xFF, 0xD9]) ==
              match DecodeStream(tables, segment, Blocks(frame.h) * Blocks(frame.w))
              case None => None
              case Some(mcus) => Some(Picture(frame.w, frame.h, quants, mcus))
  {
    var rest := segment + [0xFF, 0xD9];
    NoMarkerInside(segment, 0);
    assert rest[..|segment|] == segment && rest[|segment|..] == [0xFF, 0xD9];
  }

  /** A grey scan is decoded with the luminance tables alone. */
  lemma GreyRead(k: Known, w: nat, h: nat, qy: Quant, luma: Tables, segment: seq<byte>)
    requires NoMarker(segment) && k.frame == Some(Frame(w, h, PartsOf(true))) && Knows(k, 0, qy, luma)
    ensures ReadScan(k, ScanPayload(true), segment + [0xFF, 0xD9]) ==
              match DecodeStream([luma], segment, Blocks(h) * Blocks(w))
              case None => None
              case Some(mcus) => Some(Picture(w, h, [qy], mcus))
  {
    PayloadRead(k, w, h, true, segment + [0xFF, 0xD9]);
    GreyNamed(k, qy, luma);
    BlocksRead(k, Frame(w, h, PartsOf(true)), ScanNames(true), segment, [luma], [qy]);
  }

  /** A colour scan: the first component with the luminance tables, the others with the chrominance tables. */
  lemma ColourRead(k: Known, w: nat, h: nat, qy: Quant, qc: Quant, luma: Tables, chroma: Tables, segment: seq<byte>)
    requires NoMarker(segment) && k.frame == Some(Frame(w, h, PartsOf(false)))
    requires Knows(k, 0, qy, luma) && Knows(k, 1, qc, chroma)
    ensures ReadScan(k, ScanPayload(false), segment + [0xFF, 0xD9]) ==
              match DecodeStream([luma, chroma, chroma], segment, Blocks(h) * Blocks(w))
              case None => None
              case Some(mcus) => Some(Picture(w, h, [qy, qc, qc], mcus))
  {
    PayloadRead(k, w, h, false, segment + [0xFF, 0xD9]);
    ColourUsable(k, qy, qc, luma, chroma);
    ColourTables(k, qy, qc, luma, chroma);
    ColourQuants(k, qy, qc, luma, chroma);
    BlocksRead(k, Frame(w, h, PartsOf(false)), ScanNames(false), segment, [luma, chroma, chroma], [qy, qc, qc]);
  }

  // ---------------------------------------------------------------- the writer

  /** The payload of the JFIF header: version 1.1, no unit, a density of 1 by 1, no thumbnail. */
  const JFIF: seq<byte> := [0x4A, 0x46, 0x49, 0x46, 0x00, 1, 1, 0, 0, 1, 0, 1, 0, 0]

  lemma DcLumaSendable()
    ensures Sendable(DcLuma())
  {
    ValidFrom(DC_LUMA_BITS, DcVals());
  }

  lemma DcChromaSendable()
    ensures Sendable(DcChroma())
  {
    ValidFrom(DC_CHROMA_BITS, DcVals());
  }

  lemma AcLumaSendable()
    ensures Sendable(AcLuma())
  {
    AcLumaDistinct();
    ValidFrom(AC_LUMA_BITS, AcLumaVals());
  }

  lemma AcChromaSendable()
    ensures Sendable(AcChroma())
  {
    AcChromaDistinct();
    ValidFrom(AC_CHROMA_BITS, AcChromaVals());
  }

  lemma AnnexKSendable()
    ensures Sendable(Luma().dc) && Sendable(Luma().ac) && Sendable(Chroma().dc) && Sendable(Chroma().ac)
  {
    DcLumaSendable();
    DcChromaSendable();
    AcLumaSendable();
    AcChromaSendable();
  }

  /** The start of the file, and the quantisation tables. */
  method WriteQuants(qy: Quant, qc: Quant, grey: bool) returns (body: seq<byte>, ghost k: Known)
    ensures Tells(body, k)
    ensures 0 in k.quants && k.quants[0] == qy && (!grey ==> 1 in k.quants && k.quants[1] == qc)
    ensures k.frame == None
  {
    body, k := [0xFF, 0xD8], Nothing();
    StartTells();
    NextTells(body, k, 0xE0, JFIF, k);
    body := body + Marker(0xE0, JFIF);
    body, k := WriteQuant(body, k, 0, qy);
    if !grey {
      body, k := WriteQuant(body, k, 1, qc);
    }
  }

  method WriteQuant(body: seq<byte>, ghost k: Known, id: byte, q: Quant) returns (out: seq<byte>, ghost next: Known)
    requires Tells(body, k) && id <= 3
    ensures Tells(out, next) && next == k.(quants := k.quants[id := q])
  {
    next := k.(quants := k.quants[id := q]);
    NotedQuant(k, id, q);
    NextTells(body, k, 0xDB, [id] + ToZigzag(q), next);
    out := body + Marker(0xDB, [id] + ToZigzag(q));
  }

  method FrameHeader(w: nat, h: nat, grey: bool) returns (frame: seq<byte>)
    requires w < 0x1_0000 && h < 0x1_0000
    ensures frame == FramePayload(w, h, grey)
  {
    var n := Components(grey);
    frame := [8] + Word16(h) + Word16(w) + [n];
    ghost var start, all := frame, FrameParts(grey);
    for c := 0 to n
      invariant frame == start + all[..3 * c]
    {
      assert all[..3 * (c + 1)] == all[..3 * c] + [c + 1, 0x11, if c == 0 then 0 else 1];
      frame := frame + [c + 1, 0x11, if c == 0 then 0 else 1];
    }
  }

  method ScanHeader(grey: bool) returns (scan: seq<byte>)
    ensures scan == ScanPayload(grey)
  {
    var n := Components(grey);
    scan := [n];
    ghost var all := ScanNames(grey);
    for c := 0 to n
      invariant scan == [n] + all[..2 * c]
    {
      assert all[..2 * (c + 1)] == all[..2 * c] + [c + 1, if c == 0 then 0x00 else 0x11];
      scan := scan + [c + 1, if c == 0 then 0x00 else 0x11];
    }
    scan := scan + [0, 63, 0];
  }

  /** `dht`. */
  method WriteTable(body: seq<byte>, ghost k: Known, class_: nat, id: nat, s: ValidSpec)
    returns (out: seq<byte>, ghost next: Known)
    requires Tells(body, k) && class_ <= 1 && id <= 3 && Sendable(s)
    ensures Tells(out, next)
    ensures next == if class_ == 0 then k.(dc := k.dc[id := s]) else k.(ac := k.ac[id := s])
  {
    next := if class_ == 0 then k.(dc := k.dc[id := s]) else k.(ac := k.ac[id := s]);
    NotedTable(k, class_, id, s);
    NextTells(body, k, 0xC4, TablePayload(class_, id, s.bits, s.vals), next);
    out := body + Marker(0xC4, TablePayload(class_, id, s.bits, s.vals));
  }

  /** The Huffman tables; a grey file has no chrominance tables. */
  method WriteTables(body: seq<byte>, ghost k: Known, luma: Tables, chroma: Tables, grey: bool)
    returns (out: seq<byte>, ghost next: Known)
    requires Tells(body, k) && Sendable(luma.dc) && Sendable(luma.ac) && Sendable(chroma.dc) && Sendable(chroma.ac)
    requires 0 in k.quants && (!grey ==> 1 in k.quants)
    ensures Tells(out, next) && next.frame == k.frame && Knows(next, 0, k.quants[0], luma)
    ensures !grey ==> Knows(next, 1, k.quants[1], chroma)
  {
    out, next := WriteTable(body, k, 0, 0, luma.dc);
    out, next := WriteTable(out, next, 1, 0, luma.ac);
    if !grey {
      out, next := WriteTable(out, next, 0, 1, chroma.dc);
      out, next := WriteTable(out, next, 1, 1, chroma.ac);
    }
  }

  /** Everything before the scan header. */
  method WriteHeader(w: nat, h: nat, qy: Quant, qc: Quant, luma: Tables, chroma: Tables, grey: bool)
    returns (body: seq<byte>, ghost k: Known)
    requires w < 0x1_0000 && h < 0x1_0000
    requires Sendable(luma.dc) && Sendable(luma.ac) && Sendable(chroma.dc) && Sendable(chroma.ac)
    ensures Tells(body, k) && k.frame == Some(Frame(w, h, PartsOf(grey)))
    ensures Knows(k, 0, qy, luma) && (!grey ==> Knows(k, 1, qc, chroma))
  {
    body, k := WriteQuants(qy, qc, grey);
    var frame := FrameHeader(w, h, grey);
    NotedFrame(k, w, h, grey);
    NextTells(body, k, 0xC0, frame, k.(frame := Some(Frame(w, h, PartsOf(grey)))));
    body, k := body + Marker(0xC0, frame), k.(frame := Some(Frame(w, h, PartsOf(grey))));
    body, k := WriteTables(body, k, luma, chroma, grey);
  }

  /** The scan header, the segment and EOI, wherever they stand. */
  lemma RestRead(body: seq<byte>, k: Known, payload: seq<byte>, segment: seq<byte>)
    requires Tells(body, k) && |payload| + 2 < 0x1_0000
    ensures ReadJpeg(body + Marker(0xDA, payload) + segment + [0xFF, 0xD9]) ==
              ReadScan(k, payload, segment + [0xFF, 0xD9])
  {
    var rest := segment + [0xFF, 0xD9];
    ConcatAssoc(body + Marker(0xDA, payload), segment, [0xFF, 0xD9]);
    ConcatAssoc(body, Marker(0xDA, payload), rest);
    TakeMarker(0xDA, payload, rest);
  }

  /** With a header that tells these tables, the file reads back exactly when its segment does. */
  lemma FileRead(body: seq<byte>, k: Known, w: nat, h: nat, qy: Quant, qc: Quant, luma: Tables, chroma: Tables,
                 grey: bool, segment: seq<byte>, mcus: seq<Mcu>)
    requires Tells(body, k) && k.frame == Some(Frame(w, h, PartsOf(grey))) && NoMarker(segment)
    requires Knows(k, 0, qy, luma) && (!grey ==> Knows(k, 1, qc, chroma)) && |mcus| == Blocks(h) * Blocks(w)
    ensures ReadJpeg(body + Marker(0xDA, ScanPayload(grey)) + segment + [0xFF, 0xD9])
            == Some(Picture(w, h, if grey then [qy] else [qy, qc, qc], mcus))
            <==> DecodeStream(if grey then [luma] else [luma, chroma, chroma], segment, |mcus|) == Some(mcus)
  {
    RestRead(body, k, ScanPayload(grey), segment);
    if grey {
      GreyRead(k, w, h, qy, luma, segment);
    } else {
      ColourRead(k, w, h, qy, qc, luma, chroma, segment);
    }
  }

  /**
   The file for quantised blocks: None where packing the size or looking a symbol up raises. A reader that follows
   its markers gets the size, the quantisation table of each component and every block back exactly when the size
   fits sixteen bits and every DC difference and AC coefficient is in baseline range.
   */
  method EncodeJpeg(w: nat, h: nat, qy: Quant, qc: Quant, grey: bool, mcus: seq<Mcu>) returns (file: Option<seq<byte>>)
    requires Shaped(mcus, Components(grey)) && |mcus| == Blocks(h) * Blocks(w)
    ensures (file.Some? && ReadJpeg(file.value) == Some(Picture(w, h, if grey then [qy] else [qy, qc, qc], mcus)))
            <==> w < 0x1_0000 && h < 0x1_0000 && ScanInRange(mcus, Zeroes(Components(grey)))
  {
    if w >= 0x1_0000 || h >= 0x1_0000 {
      return None;
    }
    AnnexKSendable();
    ghost var k;
    var body;
    body, k := WriteHeader(w, h, qy, qc, Luma(), Chroma(), grey);
    var scan := ScanHeader(grey);
    var segment := EncodeBaselineScan(mcus, Components(grey));
    if segment.None? {
      return None;
    }
    FileRead(body, k, w, h, qy, qc, Luma(), Chroma(), grey, segment.value, mcus);
    body := body + Marker(0xDA, scan);
    body := body + segment.value;
    body := body + [0xFF, 0xD9];
    file := Some(body);
  }
}
