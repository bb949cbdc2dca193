/** Typed text: UTF-16 units recombined one message at a time or a string at a time. */
module Utf16 {
  import opened Bits
  import opened Sequences
  import opened Utf8

  type uint16 = x: int | 0 <= x < 0x10000

  predicate IsHigh(unit: int) {
    0xD800 <= unit <= 0xDBFF
  }

  predicate IsLow(unit: int) {
    0xDC00 <= unit <= 0xDFFF
  }

  function Pair(high: nat, low: nat): (cp: Codepoint)
    requires IsHigh(high) && IsLow(low)
    ensures 0x10000 <= cp <= 0x10FFFF
  {
    0x10000 + (high - 0xD800) * 1024 + (low - 0xDC00)
  }

  /** A control character, a lone surrogate or a macOS function key is a key event, not text. */
  predicate IsText(cp: nat) {
    !(cp < 0x20 || cp == 0x7F || 0x80 <= cp <= 0x9F || cp > 0x10FFFF || 0xD800 <= cp <= 0xDFFF ||
      0xF700 <= cp <= 0xF8FF)
  }

  // ---------------------------------------------------------------- what a string of units means

  predicate PairAt(units: seq<uint16>, i: nat) {
    i + 1 < |units| && IsHigh(units[i]) && IsLow(units[i + 1])
  }

  /** Surrogate pairs joined, unpaired surrogates dropped, from `i` on. */
  function Codepoints(units: seq<uint16>, i: nat): seq<Codepoint>
    decreases |units| - i
  {
    if i >= |units| then []
    else if PairAt(units, i) then [Pair(units[i], units[i + 1])] + Codepoints(units, i + 2)
    else if IsHigh(units[i]) || IsLow(units[i]) then Codepoints(units, i + 1)
    else [units[i]] + Codepoints(units, i + 1)
  }

  function Text(cps: seq<Codepoint>): seq<Codepoint> {
    if cps == [] then [] else (if IsText(cps[0]) then [cps[0]] else []) + Text(cps[1..])
  }

  /** One string for each codepoint. */
  function Strings(cps: seq<Codepoint>): seq<seq<byte>> {
    if cps == [] then [] else [Encode(cps[0])] + Strings(cps[1..])
  }

  function Shown(cp: Codepoint): seq<seq<byte>> {
    if IsText(cp) then [Encode(cp)] else []
  }

  /** The text events a string of units should give, from `i` on. */
  function TextEvents(units: seq<uint16>, i: nat): seq<seq<byte>>
    decreases |units| - i
  {
    if i >= |units| then []
    else if PairAt(units, i) then Shown(Pair(units[i], units[i + 1])) + TextEvents(units, i + 2)
    else Shown(units[i]) + TextEvents(units, i + 1)
  }

  /** The same, when a high surrogate may still be waiting for its other half. */
  function EventsAfter(high: nat, units: seq<uint16>, i: nat): seq<seq<byte>> {
    if IsHigh(high) && i < |units| && IsLow(units[i])
    then Shown(Pair(high, units[i])) + TextEvents(units, i + 1)
    else TextEvents(units, i)
  }

  lemma StringsOf(cp: Codepoint, cps: seq<Codepoint>)
    ensures Strings(Text([cp] + cps)) == Shown(cp) + Strings(Text(cps))
  {
    assert ([cp] + cps)[1..] == cps;
    assert Text([cp] + cps) == (if IsText(cp) then [cp] else []) + Text(cps);
    if IsText(cp) {
      assert ([cp] + Text(cps))[1..] == Text(cps);
    } else {
      assert [] + Text(cps) == Text(cps);
    }
  }

  /** The events are the text codepoints, one string each. */
  lemma {:induction false} EventsAreStrings(units: seq<uint16>, i: nat)
    ensures TextEvents(units, i) == Strings(Text(Codepoints(units, i)))
    decreases |units| - i
  {
    if i < |units| {
      if PairAt(units, i) {
        EventsAreStrings(units, i + 2);
        StringsOf(Pair(units[i], units[i + 1]), Codepoints(units, i + 2));
      } else {
        EventsAreStrings(units, i + 1);
        if !IsHigh(units[i]) && !IsLow(units[i]) {
          StringsOf(units[i], Codepoints(units, i + 1));
        }
      }
    }
  }

  // ---------------------------------------------------------------- the two programs

  /** The text event one unit completes, if any. */
  function Contribution(high: nat, unit: uint16): seq<seq<byte>>
    requires high == 0 || IsHigh(high)
  {
    if IsHigh(unit) || (IsLow(unit) && high == 0) then []
    else Shown(if IsLow(unit) then Pair(high, unit) else unit)
  }

  class Win32Window {
    /** The high surrogate waiting for its other half, or 0. */
    var high: nat
    var sent: seq<seq<byte>>

    constructor ()
      ensures high == 0 && sent == []
    {
      high, sent := 0, [];
    }

    ghost predicate Valid()
      reads this
    {
      high == 0 || IsHigh(high)
    }

    /** One WM_CHAR; `plain` says that neither Control nor the Windows key is down. */
    method WmChar(unit: uint16, plain: bool)
      requires Valid()
      modifies this
      ensures Valid()
      ensures high == if IsHigh(unit) then unit else 0
      ensures sent == old(sent) + if plain then Contribution(old(high), unit) else []
    {
      var codepoint: Codepoint;
      if 0xD800 <= unit <= 0xDBFF {
        high := unit;
        return;
      }
      if 0xDC00 <= unit <= 0xDFFF {
        if high == 0 {
          return;
        }
        codepoint := 0x10000 + (high - 0xD800) * 1024 + (unit - 0xDC00);
        high := 0;
      } else {
        high := 0;
        codepoint := unit;
      }
      if plain && IsText(codepoint) {
        sent := sent + [Encode(codepoint)];
      }
    }

    /** Messages one by one give the events of the whole string. */
    method Receive(units: seq<uint16>)
      requires Valid()
      modifies this
      ensures Valid() && sent == old(sent) + EventsAfter(old(high), units, 0)
    {
      ghost var all := sent + EventsAfter(high, units, 0);
      for i := 0 to |units|
        invariant Valid() && sent + EventsAfter(high, units, i) == all
      {
        StepEvents(high, units, i);
        ghost var before, e := sent, Contribution(high, units[i]);
        WmChar(units[i], true);
        ConcatAssoc(before, e, EventsAfter(high, units, i + 1));
      }
    }
  }

  /** What one unit contributes, and what is left to the rest. */
  lemma StepEvents(high: nat, units: seq<uint16>, i: nat)
    requires (high == 0 || IsHigh(high)) && i < |units|
    ensures EventsAfter(high, units, i) ==
              Contribution(high, units[i]) + EventsAfter(if IsHigh(units[i]) then units[i] else 0, units, i + 1)
  {
  }

  /** Recombines a surrogate pair into one codepoint. */
  method JoinPair(units: seq<uint16>, i: nat) returns (codepoint: Codepoint, next: nat)
    requires i < |units|
    ensures i < next <= |units|
    ensures TextEvents(units, i) == Shown(codepoint) + TextEvents(units, next)
  {
    codepoint, next := units[i], i + 1;
    if 0xD800 <= codepoint <= 0xDBFF && i + 1 < |units| {
      var low := units[i + 1];
      if 0xDC00 <= low <= 0xDFFF {
        codepoint := 0x10000 + (codepoint - 0xD800) * 1024 + (low - 0xDC00);
        next := i + 2;
      }
    }
  }

  method EmitText(before: seq<seq<byte>>, codepoint: Codepoint) returns (sent: seq<seq<byte>>)
    ensures sent == before + Shown(codepoint)
  {
    if !IsText(codepoint) {
      return before;
    }
    return before + [Encode(codepoint)];
  }

  /** The batch form, over a whole string at once. */
  method InsertText(units: seq<uint16>) returns (sent: seq<seq<byte>>)
    ensures sent == TextEvents(units, 0)
  {
    sent := [];
    var i := 0;
    while i < |units|
      invariant sent + TextEvents(units, i) == TextEvents(units, 0)
    {
      var codepoint, next := JoinPair(units, i);
      ConcatAssoc(sent, Shown(codepoint), TextEvents(units, next));
      i := next;
      sent := EmitText(sent, codepoint);
    }
  }

  // ---------------------------------------------------------------- nothing is lost

  /** Unicode scalar values: everything but the surrogates. */
  type Scalar = n: nat | n <= 0x10FFFF && !(0xD800 <= n <= 0xDFFF)

  /** UTF-16 of one character. */
  function Units(cp: Scalar): (units: seq<uint16>)
    ensures 1 <= |units| <= 2
  {
    if cp < 0x10000 then [cp] else [0xD800 + (cp - 0x10000) / 1024, 0xDC00 + (cp - 0x10000) % 1024]
  }

  function UnitsAll(cps: seq<Scalar>): seq<uint16> {
    if cps == [] then [] else Units(cps[0]) + UnitsAll(cps[1..])
  }

  lemma {:induction false} CodepointsOfUnits(before: seq<uint16>, cps: seq<Scalar>)
    ensures Codepoints(before + UnitsAll(cps), |before|) == cps
    decreases |cps|
  {
    if cps != [] {
      var units := before + UnitsAll(cps);
      assert units == (before + Units(cps[0])) + UnitsAll(cps[1..]);
      CodepointsOfUnits(before + Units(cps[0]), cps[1..]);
      if cps[0] >= 0x10000 {
        assert Pair(units[|before|], units[|before| + 1]) == cps[0];
      }
    }
  }

  function Concat(strings: seq<seq<byte>>): seq<byte> {
    if strings == [] then [] else strings[0] + Concat(strings[1..])
  }

  lemma {:induction false} ConcatStrings(cps: seq<Codepoint>)
    ensures Concat(Strings(cps)) == EncodeAll(cps)
  {
    if cps != [] {
      ConcatStrings(cps[1..]);
    }
  }

  lemma {:induction false} TextOnly(cps: seq<Codepoint>)
    ensures forall i | 0 <= i < |Text(cps)| :: IsText(Text(cps)[i])
  {
    if cps != [] {
      TextOnly(cps[1..]);
    }
  }

  lemma {:induction false} StringsAt(cps: seq<Codepoint>, i: nat)
    requires i < |cps|
    ensures |Strings(cps)| == |cps| && Strings(cps)[i] == Encode(cps[i])
    decreases |cps|
  {
    if i > 0 {
      StringsAt(cps[1..], i - 1);
    } else if |cps| > 1 {
      StringsAt(cps[1..], 0);
    }
  }

  lemma {:induction false} StringsLength(cps: seq<Codepoint>)
    ensures |Strings(cps)| == |cps|
  {
    if cps != [] {
      StringsLength(cps[1..]);
    }
  }

  /** Every text event is one well-formed character. */
  lemma EventsWellFormed(units: seq<uint16>, i: nat)
    requires i < |TextEvents(units, 0)|
    ensures WellFormedChar(TextEvents(units, 0)[i])
  {
    EventsAreStrings(units, 0);
    var cps := Text(Codepoints(units, 0));
    StringsLength(cps);
    StringsAt(cps, i);
    TextOnly(Codepoints(units, 0));
    EncodeWellFormed(cps[i]);
  }

  /** Reading all events back with the console's decoder gives the typed text, whatever the units were. */
  lemma EventsReadBack(units: seq<uint16>)
    ensures Decode(Concat(TextEvents(units, 0)), 0) == Text(Codepoints(units, 0))
  {
    EventsAreStrings(units, 0);
    var cps := Text(Codepoints(units, 0));
    ConcatStrings(cps);
    assert [] + EncodeAll(cps) == EncodeAll(cps);
    DecodeOfEncodeAll([], cps);
  }

  /** Text written as UTF-16 arrives unchanged, but for the codepoints that are not text. */
  lemma TypedTextArrives(cps: seq<Scalar>)
    ensures Decode(Concat(TextEvents(UnitsAll(cps), 0)), 0) == Text(cps)
  {
    EventsReadBack(UnitsAll(cps));
    assert [] + UnitsAll(cps) == UnitsAll(cps);
    CodepointsOfUnits([], cps);
  }

  /** Printable: no control character, no delete, none of the codes macOS uses for its function keys. */
  predicate Printable(cp: Scalar) {
    0x20 <= cp <= 0x7E || 0xA0 <= cp <= 0xF6FF || 0xF900 <= cp
  }

  lemma PrintableIsText(cp: Scalar)
    ensures Printable(cp) <==> IsText(cp)
  {
  }

  lemma {:induction false} TextAll(cps: seq<Scalar>)
    ensures |Text(cps)| <= |cps|
    ensures Text(cps) == cps <==> forall i | 0 <= i < |cps| :: Printable(cps[i])
  {
    if cps != [] {
      TextAll(cps[1..]);
      PrintableIsText(cps[0]);
      assert forall i | 1 <= i < |cps| :: cps[i] == cps[1..][i - 1];
      assert cps == [cps[0]] + cps[1..];
      assert Text(cps) == (if Printable(cps[0]) then [cps[0] as Codepoint] else []) + Text(cps[1..]);
    }
  }

  lemma TextOfOne(cp: Scalar)
    ensures Text([cp]) == if Printable(cp) then [cp] else []
  {
    PrintableIsText(cp);
  }

  /** Typing one character sends it exactly when it is printable. */
  lemma CharacterArrives(cp: Scalar)
    ensures Decode(Concat(TextEvents(Units(cp), 0)), 0) == if Printable(cp) then [cp] else []
  {
    TypedTextArrives([cp]);
    TextOfOne(cp);
    assert UnitsAll([cp]) == Units(cp);
  }

  /** Typed text arrives whole exactly when every character of it is printable. */
  lemma PrintableTextArrives(cps: seq<Scalar>)
    ensures Decode(Concat(TextEvents(UnitsAll(cps), 0)), 0) == cps <==>
              forall i | 0 <= i < |cps| :: Printable(cps[i])
  {
    TypedTextArrives(cps);
    TextAll(cps);
  }
}
