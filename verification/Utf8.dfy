/** UTF-8 as libnack reads and writes it, and well-formedness per section 4 of RFC 3629. */
module Utf8 {
  import opened Bits
  import opened Sequences

  const REPLACEMENT: nat := 0xFFFD

  /** A C string: past its last byte there is the terminator. */
  function ByteAt(text: seq<byte>, i: nat): byte {
    if i < |text| then text[i] else 0
  }

  predicate Continues(b: byte) {
    b / 64 == 2
  }

  /** How many continuation bytes a lead byte announces; none for a byte that cannot lead. */
  function Extra(lead: byte): nat {
    if lead / 32 == 6 then 1 else if lead / 16 == 14 then 2 else if lead / 8 == 30 then 3 else 0
  }

  function LeadBits(lead: byte): nat {
    if lead / 32 == 6 then lead % 32 else if lead / 16 == 14 then lead % 16 else lead % 8
  }

  /** The value of `n` continuation bytes from `i` on, appended to `high`; -1 when one is missing. */
  function Tail(text: seq<byte>, i: nat, n: nat, high: nat): int
    decreases n
  {
    if n == 0 then high
    else if !Continues(ByteAt(text, i)) then -1
    else Tail(text, i + 1, n - 1, 64 * high + ByteAt(text, i) % 64)
  }

  /** The codepoint at `i` and the position after it; a bad byte is U+FFFD and one byte long. */
  function Next(text: seq<byte>, i: nat): (r: (nat, nat))
    requires i < |text|
    ensures i < r.1 <= |text|
  {
    var lead := text[i];
    if lead < 0x80 then (lead, i + 1)
    else if Extra(lead) == 0 || Tail(text, i + 1, Extra(lead), LeadBits(lead)) < 0 then (REPLACEMENT, i + 1)
    else
      TailInside(text, i + 1, Extra(lead), LeadBits(lead));
      (Tail(text, i + 1, Extra(lead), LeadBits(lead)), i + 1 + Extra(lead))
  }

  /** The terminator is no continuation byte, so decoding never reads beyond it. */
  lemma {:induction false} TailInside(text: seq<byte>, i: nat, n: nat, high: nat)
    requires i <= |text| && Tail(text, i, n, high) >= 0
    ensures i + n <= |text|
    decreases n
  {
    if n > 0 {
      TailInside(text, i + 1, n - 1, 64 * high + ByteAt(text, i) % 64);
    }
  }

  // ---------------------------------------------------------------- what stands at a position, byte by byte

  /** `n` continuation bytes follow position `i`. */
  ghost predicate Continued(text: seq<byte>, i: nat, n: nat) {
    i + n < |text| && forall k | i < k <= i + n :: 0x80 <= text[k] <= 0xBF
  }

  /** A lead byte that announces one, two or three continuation bytes, with all of them. */
  ghost predicate Complete(text: seq<byte>, i: nat)
    requires i < |text|
  {
    (0xC0 <= text[i] <= 0xDF && Continued(text, i, 1)) || (0xE0 <= text[i] <= 0xEF && Continued(text, i, 2)) ||
    (0xF0 <= text[i] <= 0xF7 && Continued(text, i, 3))
  }

  /** Byte `i` without the marker in its upper bits. */
  function Payload(text: seq<byte>, i: nat, marker: nat): int
    requires i < |text|
  {
    text[i] as int - marker
  }

  /** Reading at `i` gives `cp` and goes on at `next`. */
  ghost predicate Reads(text: seq<byte>, i: nat, cp: nat, next: nat)
    requires i < |text|
  {
    if text[i] <= 0x7F then cp == text[i] && next == i + 1
    else if !Complete(text, i) then cp == 0xFFFD && next == i + 1
    else if text[i] <= 0xDF then
      next == i + 2 && cp == 0x40 * Payload(text, i, 0xC0) + Payload(text, i + 1, 0x80)
    else if text[i] <= 0xEF then
      next == i + 3 &&
      cp == 0x1000 * Payload(text, i, 0xE0) + 0x40 * Payload(text, i + 1, 0x80) + Payload(text, i + 2, 0x80)
    else
      next == i + 4 &&
      cp == 0x40000 * Payload(text, i, 0xF0) + 0x1000 * Payload(text, i + 1, 0x80) +
            0x40 * Payload(text, i + 2, 0x80) + Payload(text, i + 3, 0x80)
  }

  lemma LeadClass(lead: byte)
    ensures lead / 32 == 6 <==> 0xC0 <= lead <= 0xDF
    ensures lead / 16 == 14 <==> 0xE0 <= lead <= 0xEF
    ensures lead / 8 == 30 <==> 0xF0 <= lead <= 0xF7
    ensures Continues(lead) <==> 0x80 <= lead <= 0xBF
    ensures Continues(lead) ==> lead % 64 == lead - 0x80
    ensures Extra(lead) > 0 ==>
              LeadBits(lead) == lead - if lead <= 0xDF then 0xC0 else if lead <= 0xEF then 0xE0 else 0xF0
  {
  }

  /** A tail has a value exactly when all its continuation bytes are there. */
  lemma {:induction false} TailIff(text: seq<byte>, i: nat, n: nat, high: nat)
    requires i < |text|
    ensures Tail(text, i + 1, n, high) >= 0 <==> Continued(text, i, n)
    decreases n
  {
    if n > 0 {
      LeadClass(ByteAt(text, i + 1));
      if i + 1 < |text| {
        TailIff(text, i + 1, n - 1, 64 * high + text[i + 1] % 64);
        assert Continued(text, i, n) <==> Continues(text[i + 1]) && Continued(text, i + 1, n - 1);
      }
    }
  }

  /** One more continuation byte appends its six bits. */
  lemma TailNext(text: seq<byte>, i: nat, n: nat, high: nat)
    requires i < |text| && n > 0 && Continued(text, i, n)
    ensures Continued(text, i + 1, n - 1)
    ensures Tail(text, i + 1, n, high) == Tail(text, i + 2, n - 1, 0x40 * high + Payload(text, i + 1, 0x80))
  {
    LeadClass(text[i + 1]);
  }

  lemma TailValue(text: seq<byte>, i: nat, n: nat, high: nat)
    requires i < |text| && 1 <= n <= 3 && Continued(text, i, n)
    ensures Tail(text, i + 1, n, high) ==
              if n == 1 then 0x40 * high + Payload(text, i + 1, 0x80)
              else if n == 2 then 0x1000 * high + 0x40 * Payload(text, i + 1, 0x80) + Payload(text, i + 2, 0x80)
              else 0x40000 * high + 0x1000 * Payload(text, i + 1, 0x80) + 0x40 * Payload(text, i + 2, 0x80) +
                   Payload(text, i + 3, 0x80)
  {
    TailNext(text, i, n, high);
    var one := 0x40 * high + Payload(text, i + 1, 0x80);
    if n >= 2 {
      TailNext(text, i + 1, n - 1, one);
      var two := 0x40 * one + Payload(text, i + 2, 0x80);
      if n == 3 {
        TailNext(text, i + 2, 1, two);
      }
    }
  }

  /** Any byte string is read this way at any position, well formed or not. */
  lemma NextReads(text: seq<byte>, i: nat)
    requires i < |text|
    ensures Reads(text, i, Next(text, i).0, Next(text, i).1)
  {
    var lead := text[i];
    LeadClass(lead);
    if Extra(lead) > 0 {
      TailIff(text, i, Extra(lead), LeadBits(lead));
      if Continued(text, i, Extra(lead)) {
        TailValue(text, i, Extra(lead), LeadBits(lead));
      }
    }
  }

  /** A byte that cannot lead, or that is not followed by all it announces, costs itself and nothing else. */
  lemma MalformedIsOneByte(text: seq<byte>, i: nat)
    requires i < |text| && text[i] >= 0x80 && !Complete(text, i)
    ensures Next(text, i) == (0xFFFD, i + 1)
    ensures Decode(text, i) == [0xFFFD] + Decode(text, i + 1)
  {
    NextReads(text, i);
  }

  method DecodeNext(text: seq<byte>, cursor: nat) returns (codepoint: nat, next: nat)
    requires cursor < |text|
    ensures (codepoint, next) == Next(text, cursor)
    ensures Reads(text, cursor, codepoint, next)
  {
    codepoint, next := ScanNext(text, cursor);
    NextReads(text, cursor);
  }

  method ScanNext(text: seq<byte>, cursor: nat) returns (codepoint: nat, next: nat)
    requires cursor < |text|
    ensures (codepoint, next) == Next(text, cursor)
  {
    var lead := ByteAt(text, cursor);
    if lead < 0x80 {
      return lead, cursor + 1;
    }
    var extra;
    if lead / 32 == 6 { codepoint := lead % 32; extra := 1; }
    else if lead / 16 == 14 { codepoint := lead % 16; extra := 2; }
    else if lead / 8 == 30 { codepoint := lead % 8; extra := 3; }
    else { return REPLACEMENT, cursor + 1; }
    for i := 1 to extra + 1
      invariant Tail(text, cursor + i, extra + 1 - i, codepoint) == Tail(text, cursor + 1, extra, LeadBits(lead))
    {
      if !Continues(ByteAt(text, cursor + i)) {
        return REPLACEMENT, cursor + 1;
      }
      codepoint := 64 * codepoint + ByteAt(text, cursor + i) % 64;
    }
    next := cursor + extra + 1;
  }

  /** Every codepoint of a string, in order. */
  function Decode(text: seq<byte>, i: nat): seq<nat>
    requires i <= |text|
    decreases |text| - i
  {
    if i == |text| then [] else [Next(text, i).0] + Decode(text, Next(text, i).1)
  }

  // ---------------------------------------------------------------- encoding

  function Encode(cp: nat): (s: seq<byte>)
    requires cp < 0x20_0000
    ensures 1 <= |s| <= 4
  {
    if cp < 0x80 then [cp]
    else if cp < 0x800 then [0xC0 + cp / 64, 0x80 + cp % 64]
    else if cp < 0x10000 then [0xE0 + cp / 4096, 0x80 + cp / 64 % 64, 0x80 + cp % 64]
    else [0xF0 + cp / 0x40000, 0x80 + cp / 4096 % 64, 0x80 + cp / 64 % 64, 0x80 + cp % 64]
  }

  predicate InRange(b: byte, low: byte, high: byte) {
    low <= b <= high
  }

  /** UTF8-char of section 4 of RFC 3629. */
  predicate WellFormedChar(s: seq<byte>) {
    (|s| == 1 && s[0] <= 0x7F) ||
    (|s| == 2 && InRange(s[0], 0xC2, 0xDF) && InRange(s[1], 0x80, 0xBF)) ||
    (|s| == 3 && InRange(s[2], 0x80, 0xBF) &&
     ((s[0] == 0xE0 && InRange(s[1], 0xA0, 0xBF)) || (InRange(s[0], 0xE1, 0xEC) && InRange(s[1], 0x80, 0xBF)) ||
      (s[0] == 0xED && InRange(s[1], 0x80, 0x9F)) || (InRange(s[0], 0xEE, 0xEF) && InRange(s[1], 0x80, 0xBF)))) ||
    (|s| == 4 && InRange(s[2], 0x80, 0xBF) && InRange(s[3], 0x80, 0xBF) &&
     ((s[0] == 0xF0 && InRange(s[1], 0x90, 0xBF)) || (InRange(s[0], 0xF1, 0xF3) && InRange(s[1], 0x80, 0xBF)) ||
      (s[0] == 0xF4 && InRange(s[1], 0x80, 0x8F))))
  }

  lemma ThreeBytesWellFormed(cp: nat)
    requires 0x800 <= cp < 0x10000
    ensures WellFormedChar(Encode(cp)) <==> !(0xD800 <= cp <= 0xDFFF)
  {
    assert cp / 4096 == 13 && cp / 64 % 64 >= 32 <==> 0xD800 <= cp <= 0xDFFF;
  }

  lemma FourBytesWellFormed(cp: nat)
    requires 0x10000 <= cp < 0x20_0000
    ensures WellFormedChar(Encode(cp)) <==> cp <= 0x10FFFF
  {
    assert cp / 0x40000 == 4 && cp / 4096 % 64 < 16 <==> 0x100000 <= cp <= 0x10FFFF;
  }

  /** What is encoded is well formed exactly for Unicode scalar values. */
  lemma EncodeWellFormed(cp: nat)
    requires cp < 0x20_0000
    ensures WellFormedChar(Encode(cp)) <==> cp <= 0x10FFFF && !(0xD800 <= cp <= 0xDFFF)
  {
    if 0x800 <= cp < 0x10000 {
      ThreeBytesWellFormed(cp);
    } else if cp >= 0x10000 {
      FourBytesWellFormed(cp);
    }
  }

  ghost predicate StandsAt(text: seq<byte>, i: nat, e: seq<byte>) {
    i + |e| <= |text| && forall k | 0 <= k < |e| :: text[i + k] == e[k]
  }

  lemma NextOfTwo(text: seq<byte>, i: nat, cp: nat)
    requires 0x80 <= cp < 0x800 && StandsAt(text, i, Encode(cp))
    ensures Next(text, i) == (cp, i + 2)
  {
    var e := Encode(cp);
    assert text[i + 0] == e[0] && text[i + 1] == e[1];
    assert Tail(text, i + 2, 0, cp) == cp;
    assert Tail(text, i + 1, 1, cp / 64) == cp;
  }

  lemma NextOfThree(text: seq<byte>, i: nat, cp: nat)
    requires 0x800 <= cp < 0x10000 && StandsAt(text, i, Encode(cp))
    ensures Next(text, i) == (cp, i + 3)
  {
    var e := Encode(cp);
    assert text[i + 0] == e[0] && text[i + 1] == e[1] && text[i + 2] == e[2];
    assert Tail(text, i + 3, 0, cp) == cp;
    assert Tail(text, i + 2, 1, cp / 64) == cp;
    assert Tail(text, i + 1, 2, cp / 4096) == cp;
  }

  lemma SixBitDigits(cp: nat)
    ensures cp == 64 * (cp / 64) + cp % 64
    ensures cp / 64 == 64 * (cp / 4096) + cp / 64 % 64
    ensures cp / 4096 == 64 * (cp / 0x40000) + cp / 4096 % 64
  {
  }

  lemma NextOfFour(text: seq<byte>, i: nat, cp: nat)
    requires 0x10000 <= cp < 0x20_0000 && StandsAt(text, i, Encode(cp))
    ensures Next(text, i) == (cp, i + 4)
  {
    var e := Encode(cp);
    assert text[i + 0] == e[0] && text[i + 1] == e[1] && text[i + 2] == e[2] && text[i + 3] == e[3];
    SixBitDigits(cp);
    assert Tail(text, i + 4, 0, cp) == cp;
    assert Tail(text, i + 3, 1, cp / 64) == cp;
    assert Tail(text, i + 2, 2, cp / 4096) == cp;
    assert Tail(text, i + 1, 3, cp / 0x40000) == cp;
  }

  /** Reading back what was encoded, wherever it stands in a string. */
  lemma NextOfEncode(text: seq<byte>, i: nat, cp: nat)
    requires cp < 0x20_0000 && StandsAt(text, i, Encode(cp))
    ensures Next(text, i) == (cp, i + |Encode(cp)|)
  {
    if cp < 0x80 {
      assert text[i + 0] == Encode(cp)[0];
    } else if cp < 0x800 {
      NextOfTwo(text, i, cp);
    } else if cp < 0x10000 {
      NextOfThree(text, i, cp);
    } else {
      NextOfFour(text, i, cp);
    }
  }

  lemma StandsBetween(before: seq<byte>, e: seq<byte>, after: seq<byte>)
    ensures StandsAt(before + e + after, |before|, e)
  {
  }

  /** The range `Encode` accepts; Unicode stops at 0x10FFFF. */
  type Codepoint = n: nat | n < 0x20_0000

  function EncodeAll(cps: seq<Codepoint>): seq<byte> {
    if cps == [] then [] else Encode(cps[0]) + EncodeAll(cps[1..])
  }

  /** Reading back what was encoded between two other strings. */
  lemma CharFirst(before: seq<byte>, cp: Codepoint, rest: seq<byte>)
    ensures |before| < |before + Encode(cp) + rest|
    ensures Next(before + Encode(cp) + rest, |before|) == (cp, |before| + |Encode(cp)|)
  {
    StandsBetween(before, Encode(cp), rest);
    NextOfEncode(before + Encode(cp) + rest, |before|, cp);
  }

  lemma DecodeFirst(before: seq<byte>, cp: Codepoint, rest: seq<byte>)
    ensures |before + Encode(cp)| <= |before + Encode(cp) + rest|
    ensures Decode(before + Encode(cp) + rest, |before|)
            == [cp as nat] + Decode(before + Encode(cp) + rest, |before + Encode(cp)|)
  {
    CharFirst(before, cp, rest);
  }

  /** A reader gets back exactly the codepoints that were written, from any position on. */
  lemma {:induction false} DecodeOfEncodeAll(before: seq<byte>, cps: seq<Codepoint>)
    ensures Decode(before + EncodeAll(cps), |before|) == cps
    decreases |cps|
  {
    if cps == [] {
      assert before + [] == before;
    } else {
      var first, rest := Encode(cps[0]), EncodeAll(cps[1..]);
      assert before + EncodeAll(cps) == before + first + rest;
      DecodeFirst(before, cps[0], rest);
      DecodeOfEncodeAll(before + first, cps[1..]);
    }
  }

  // ---------------------------------------------------------------- stray bytes

  /** Part of a text: an encoded codepoint, or a byte that belongs to none. */
  datatype Piece = Char(cp: Codepoint) | Stray(b: byte)

  function Spelled(p: Piece): seq<byte> {
    match p case Char(cp) => Encode(cp) case Stray(b) => [b]
  }

  function BytesOf(pieces: seq<Piece>): seq<byte> {
    if pieces == [] then [] else Spelled(pieces[0]) + BytesOf(pieces[1..])
  }

  /** What a reader makes of a text: U+FFFD for each stray byte. */
  function SeenAs(pieces: seq<Piece>): seq<nat> {
    if pieces == [] then []
    else [match pieces[0] case Char(cp) => cp as nat case Stray(_) => 0xFFFD] + SeenAs(pieces[1..])
  }

  /** No stray byte is ASCII or is completed by what follows it. */
  ghost predicate Strayed(pieces: seq<Piece>) {
    pieces == [] ||
    ((pieces[0].Stray? ==> pieces[0].b >= 0x80 && !Complete(BytesOf(pieces), 0)) && Strayed(pieces[1..]))
  }

  lemma CompleteBehind(before: seq<byte>, s: seq<byte>)
    requires s != []
    ensures Complete(before + s, |before|) <==> Complete(s, 0)
  {
    assert forall n: nat :: Continued(before + s, |before|, n) <==> Continued(s, 0, n) by {
      forall n: nat
        ensures Continued(before + s, |before|, n) <==> Continued(s, 0, n)
      {
        ContinuedBehind(before, s, n);
      }
    }
  }

  lemma ContinuedBehind(before: seq<byte>, s: seq<byte>, n: nat)
    ensures Continued(before + s, |before|, n) <==> Continued(s, 0, n)
  {
    var t, m := before + s, |before|;
    if Continued(s, 0, n) {
      forall k | m < k <= m + n ensures 0x80 <= t[k] <= 0xBF {
        assert t[k] == s[k - m];
      }
    }
    if Continued(t, m, n) {
      forall k | 0 < k <= n ensures 0x80 <= s[k] <= 0xBF {
        assert s[k] == t[k + m];
      }
    }
  }

  lemma StrayFirst(before: seq<byte>, b: byte, rest: seq<byte>)
    requires b >= 0x80 && !Complete([b] + rest, 0)
    ensures Next(before + [b] + rest, |before|) == (0xFFFD, |before| + 1)
  {
    var text := before + [b] + rest;
    assert text == before + ([b] + rest);
    CompleteBehind(before, [b] + rest);
    MalformedIsOneByte(text, |before|);
  }

  /** One piece read, and the rest of the text from the byte after it on. */
  lemma PieceFirst(before: seq<byte>, pieces: seq<Piece>)
    requires pieces != [] && Strayed(pieces)
    ensures var text, first := before + BytesOf(pieces), Spelled(pieces[0]);
            |before| < |text| && text == before + first + BytesOf(pieces[1..]) &&
            Next(text, |before|) == (SeenAs(pieces)[0], |before + first|)
  {
    var first, rest := Spelled(pieces[0]), BytesOf(pieces[1..]);
    ConcatAssoc(before, first, rest);
    assert BytesOf(pieces) == first + rest;
    match pieces[0]
    case Char(cp) => CharFirst(before, cp, rest);
    case Stray(b) => StrayFirst(before, b, rest);
  }

  /**
   Stray bytes cost one U+FFFD each and nothing that follows them: a reader gets back every
   codepoint of a text, however many stray bytes stand between them.
   */
  lemma {:induction false} DecodeOfPieces(before: seq<byte>, pieces: seq<Piece>)
    requires Strayed(pieces)
    ensures Decode(before + BytesOf(pieces), |before|) == SeenAs(pieces)
    decreases |pieces|
  {
    if pieces == [] {
      assert before + [] == before;
    } else {
      PieceFirst(before, pieces);
      DecodeOfPieces(before + Spelled(pieces[0]), pieces[1..]);
    }
  }

  /** What is encoded never starts with a continuation byte. */
  lemma EncodeLeads(cps: seq<Codepoint>)
    ensures cps != [] ==> EncodeAll(cps) != [] && !(0x80 <= EncodeAll(cps)[0] <= 0xBF)
  {
  }

  /** Whatever bad byte stands before well-formed text, only it is lost. */
  lemma Resynchronises(before: seq<byte>, bad: byte, cps: seq<Codepoint>)
    requires bad >= 0x80
    ensures |before| <= |before + [bad] + EncodeAll(cps)|
    ensures Decode(before + [bad] + EncodeAll(cps), |before|) == [0xFFFD] + cps
  {
    var text := before + [bad] + EncodeAll(cps);
    EncodeLeads(cps);
    assert cps != [] ==> text[|before| + 1] == EncodeAll(cps)[0];
    assert !Complete(text, |before|);
    MalformedIsOneByte(text, |before|);
    DecodeOfEncodeAll(before + [bad], cps);
  }
}
