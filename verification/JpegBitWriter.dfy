/** The entropy-coded segment: byte stuffing, its inverse, and the bit writer. */
module JpegBitWriter {
  import opened Bits
  import opened Options
  import opened Sequences

  /** No 0xFF is followed by anything but 0x00, so no marker can be read into the stream. */
  ghost predicate NoMarker(s: seq<byte>) {
    forall i | 0 <= i < |s| && s[i] == 0xFF :: i + 1 < |s| && s[i + 1] == 0x00
  }

  function Prepend(x: byte, rest: Option<seq<byte>>): Option<seq<byte>> {
    if rest.None? then None else Some([x] + rest.value)
  }

  /** The decoder's side of byte stuffing: None where a marker (or the end) follows 0xFF. */
  function Unstuff(s: seq<byte>): Option<seq<byte>> {
    if s == [] then Some([])
    else if s[0] != 0xFF then Prepend(s[0], Unstuff(s[1..]))
    else if |s| == 1 || s[1] != 0x00 then None
    else Prepend(0xFF, Unstuff(s[2..]))
  }

  lemma {:induction false} UnstuffsIffNoMarker(s: seq<byte>)
    ensures Unstuff(s).Some? <==> NoMarker(s)
  {
    if s != [] {
      if s[0] != 0xFF {
        UnstuffsIffNoMarker(s[1..]);
        NoMarkerDrop(s, 1);
      } else if |s| > 1 && s[1] == 0x00 {
        UnstuffsIffNoMarker(s[2..]);
        NoMarkerDrop(s, 2);
      }
    }
  }

  lemma NoMarkerDrop(s: seq<byte>, k: nat)
    requires k <= |s| && forall i | 0 <= i < k && s[i] == 0xFF :: i + 1 < |s| && s[i + 1] == 0x00
    ensures NoMarker(s) <==> NoMarker(s[k..])
  {
    var t := s[k..];
    assert forall i | 0 <= i < |t| :: t[i] == s[k + i];
    if NoMarker(t) {
      forall i | 0 <= i < |s| && s[i] == 0xFF
        ensures i + 1 < |s| && s[i + 1] == 0x00
      {
        if i >= k { assert t[i - k] == 0xFF; }
      }
    }
  }

  lemma {:induction false} UnstuffAppend(a: seq<byte>, b: seq<byte>)
    requires Unstuff(a).Some? && Unstuff(b).Some?
    ensures Unstuff(a + b) == Some(Unstuff(a).value + Unstuff(b).value)
    decreases |a|
  {
    if a == [] {
      assert a + b == b;
      assert Unstuff(a).value + Unstuff(b).value == Unstuff(b).value;
    } else if a[0] != 0xFF {
      UnstuffAppend(a[1..], b);
      assert (a + b)[1..] == a[1..] + b;
      ConcatAssoc([a[0]], Unstuff(a[1..]).value, Unstuff(b).value);
    } else {
      UnstuffAppend(a[2..], b);
      assert (a + b)[2..] == a[2..] + b;
      ConcatAssoc([a[0]], Unstuff(a[2..]).value, Unstuff(b).value);
    }
  }

  /** What `write` appends for a finished byte. */
  function Escaped(x: byte): seq<byte> {
    if x == 0xFF then [x, 0x00] else [x]
  }

  lemma UnstuffEscaped(x: byte)
    ensures Unstuff(Escaped(x)) == Some([x])
  {
    var e := Escaped(x);
    assert [x] + [] == [x];
    if x == 0xFF {
      assert e[2..] == [];
    } else {
      assert e[1..] == [];
    }
  }

  lemma AppendByte(out: seq<byte>, x: byte)
    requires Unstuff(out).Some?
    ensures Unstuff(out + Escaped(x)).Some?
    ensures BytesToBits(Unstuff(out + Escaped(x)).value) == BytesToBits(Unstuff(out).value) + ToBits(x, 8)
  {
    UnstuffEscaped(x);
    UnstuffAppend(out, Escaped(x));
    BytesToBitsSnoc(Unstuff(out).value, x);
  }

  function Ones(n: nat): (b: Bits)
    ensures |b| == n && forall i | 0 <= i < n :: b[i]
  {
    seq(n, _ => true)
  }

  lemma OnesNext(n: nat)
    ensures Ones(n + 1) == Ones(n) + [true]
  {
  }

  lemma OneBit()
    ensures ToBits(1, 1) == [true]
  {
    assert ToBits(0, 0) == [];
  }

  /** The invariant of the writer's three fields. */
  ghost predicate Good(out: seq<byte>, acc: nat, nbits: nat) {
    nbits < 8 && acc < Pow2(nbits) && Unstuff(out).Some?
  }

  /** The bits written so far, as a decoder will read them back. */
  ghost function Written(out: seq<byte>, acc: nat, nbits: nat): Bits
    requires Good(out, acc, nbits)
  {
    BytesToBits(Unstuff(out).value) + ToBits(acc, nbits)
  }

  lemma AccStep(acc: nat, nbits: nat, bit: bool)
    requires acc < Pow2(nbits)
    ensures 2 * acc + Bit(bit) < Pow2(nbits + 1)
    ensures ToBits(2 * acc + Bit(bit), nbits + 1) == ToBits(acc, nbits) + [bit]
  {
  }

  lemma BitStep(out: seq<byte>, acc: nat, nbits: nat, bit: bool)
    requires Good(out, acc, nbits)
    ensures nbits < 7 ==>
              Good(out, 2 * acc + Bit(bit), nbits + 1) &&
              Written(out, 2 * acc + Bit(bit), nbits + 1) == Written(out, acc, nbits) + [bit]
    ensures nbits == 7 ==>
              2 * acc + Bit(bit) < 256 &&
              Good(out + Escaped(2 * acc + Bit(bit)), 0, 0) &&
              Written(out + Escaped(2 * acc + Bit(bit)), 0, 0) == Written(out, acc, nbits) + [bit]
  {
    var acc' := 2 * acc + Bit(bit);
    AccStep(acc, nbits, bit);
    ConcatAssoc(BytesToBits(Unstuff(out).value), ToBits(acc, nbits), [bit]);
    if nbits == 7 {
      assert Pow2(8) == 256;
      AppendByte(out, acc');
      assert ToBits(0, 0) == [];
    }
  }

  /** How many bits are pending once `length` more have been written. */
  function Wrapped(nbits: nat, length: nat): nat
    requires nbits < 8
    ensures Wrapped(nbits, length) < 8
  {
    if length == 0 then nbits
    else if Wrapped(nbits, length - 1) == 7 then 0 else Wrapped(nbits, length - 1) + 1
  }

  class BitWriter {
    var out: seq<byte>
    var acc: nat
    var nbits: nat

    ghost predicate Valid()
      reads this
    {
      Good(out, acc, nbits)
    }

    ghost function Content(): Bits
      reads this
      requires Valid()
    {
      Written(out, acc, nbits)
    }

    constructor ()
      ensures Valid() && Content() == [] && nbits == 0
    {
      out, acc, nbits := [], 0, 0;
    }

    /** The body of the write loop: one more bit, and the finished byte with its escape. */
    method PutBit(bit: nat)
      requires Valid() && bit < 2
      modifies this
      ensures Valid() && Content() == old(Content()) + [bit == 1]
      ensures nbits == if old(nbits) == 7 then 0 else old(nbits) + 1
    {
      BitStep(out, acc, nbits, bit == 1);
      acc := 2 * acc + bit;
      nbits := nbits + 1;
      if nbits == 8 {
        out := out + [acc];
        if acc == 0xFF {
          out := out + [0x00];
        }
        assert out == old(out) + Escaped(acc);
        acc := 0;
        nbits := 0;
      }
    }

    method Write(code: nat, length: nat)
      requires Valid()
      modifies this
      ensures Valid() && Content() == old(Content()) + ToBits(code, length)
      ensures nbits == Wrapped(old(nbits), length)
    {
      for i := length downto 0
        invariant Valid() && nbits == Wrapped(old(nbits), length - i)
        invariant Content() == old(Content()) + ToBits(Shr(code, i), length - i)
      {
        ConcatAssoc(old(Content()), ToBits(Shr(code, i + 1), length - i - 1), [Shr(code, i) % 2 == 1]);
        PutBit(Shr(code, i) % 2);
      }
    }

    /** Pads the last byte with ones. */
    method Flush() returns (ghost padding: nat)
      requires Valid()
      modifies this
      ensures Valid() && nbits == 0 && padding < 8
      ensures Content() == old(Content()) + Ones(padding)
    {
      padding := 0;
      while nbits != 0
        invariant Valid() && (nbits == 0 || old(nbits) + padding == nbits)
        invariant padding < 8 && (old(nbits) == 0 ==> nbits == 0)
        invariant Content() == old(Content()) + Ones(padding)
        decreases if nbits == 0 then 0 else 8 - nbits
      {
        OneBit();
        assert Wrapped(nbits, 1) == if nbits == 7 then 0 else nbits + 1;
        OnesNext(padding);
        ConcatAssoc(old(Content()), Ones(padding), [true]);
        Write(1, 1);
        padding := padding + 1;
      }
    }
  }
}
