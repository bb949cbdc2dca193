/**
 Canonical Huffman codes: their construction (`huffman_codes`) and, as an independent
 partner, the table-driven decoder of ITU-T T.81 (figures F.15 and F.16).
 */
module JpegHuffman {
  import opened Bits
  import opened Options

  datatype Code = Code(code: nat, length: nat)

  /** A DHT specification: `bits[i]` codes of length i + 1, whose symbols are listed in `vals`. */
  datatype Spec = Spec(bits: seq<nat>, vals: seq<byte>)

  /** How many codes are shorter than `length`. */
  function Before(bits: seq<nat>, length: nat): nat
    requires 1 <= length <= |bits| + 1
  {
    if length == 1 then 0 else Before(bits, length - 1) + bits[length - 2]
  }

  /** The first code of `length`, whether or not one is assigned. */
  function FirstCode(bits: seq<nat>, length: nat): nat
    requires 1 <= length <= |bits| + 1
  {
    if length == 1 then 0 else 2 * (FirstCode(bits, length - 1) + bits[length - 2])
  }

  function Total(bits: seq<nat>): nat
  {
    Before(bits, |bits| + 1)
  }

  /** What the source needs of its arguments: sixteen counts and a symbol for every code. */
  ghost predicate Complete(s: Spec) {
    |s.bits| == 16 && Total(s.bits) <= |s.vals|
  }

  lemma {:induction false} BeforeMonotone(bits: seq<nat>, a: nat, b: nat)
    requires 1 <= a <= b <= |bits| + 1
    ensures Before(bits, a) <= Before(bits, b)
    decreases b
  {
    if a < b {
      BeforeMonotone(bits, a, b - 1);
    }
  }

  /** The length of the k-th code: the HUFFSIZE table of figure C.1. */
  function LengthFrom(bits: seq<nat>, k: nat, length: nat): (r: nat)
    requires k < Total(bits) && 1 <= length <= |bits| && Before(bits, length) <= k
    ensures 1 <= r <= |bits| && Before(bits, r) <= k < Before(bits, r + 1)
    decreases |bits| - length
  {
    if k < Before(bits, length + 1) then length else LengthFrom(bits, k, length + 1)
  }

  function LengthOf(bits: seq<nat>, k: nat): (r: nat)
    requires k < Total(bits)
    ensures 1 <= r <= |bits| && Before(bits, r) <= k < Before(bits, r + 1)
  {
    LengthFrom(bits, k, 1)
  }

  lemma LengthOfUnique(bits: seq<nat>, k: nat, length: nat)
    requires 1 <= length <= |bits|
    requires Before(bits, length) <= k < Before(bits, length + 1)
    ensures k < Total(bits) && LengthOf(bits, k) == length
  {
    BeforeMonotone(bits, length + 1, |bits| + 1);
    var r := LengthOf(bits, k);
    if r < length {
      BeforeMonotone(bits, r + 1, length);
    } else if r > length {
      BeforeMonotone(bits, length + 1, r);
    }
  }

  /** The k-th code. */
  function CodeAt(bits: seq<nat>, k: nat): Code
    requires k < Total(bits)
  {
    var length := LengthOf(bits, k);
    Code(FirstCode(bits, length) + (k - Before(bits, length)), length)
  }

  /** The dictionary after the first `n` assignments; a repeated symbol keeps its last code. */
  function CodeTable(s: Spec, n: nat): map<byte, Code>
    requires Complete(s) && n <= Total(s.bits)
  {
    if n == 0 then map[] else CodeTable(s, n - 1)[s.vals[n - 1] := CodeAt(s.bits, n - 1)]
  }

  function Codes(s: Spec): map<byte, Code>
    requires Complete(s)
  {
    CodeTable(s, Total(s.bits))
  }

  method HuffmanCodes(s: Spec) returns (codes: map<byte, Code>)
    requires Complete(s)
    ensures codes == Codes(s)
  {
    codes := map[];
    var code, k := 0, 0;
    for length := 1 to 17
      invariant k == Before(s.bits, length) && code == FirstCode(s.bits, length)
      invariant k <= Total(s.bits) && codes == CodeTable(s, k)
    {
      BeforeMonotone(s.bits, length + 1, |s.bits| + 1);
      for j := 0 to s.bits[length - 1]
        invariant k == Before(s.bits, length) + j && code == FirstCode(s.bits, length) + j
        invariant k <= Total(s.bits) && codes == CodeTable(s, k)
      {
        LengthOfUnique(s.bits, k, length);
        codes := codes[s.vals[k] := Code(code, length)];
        code := code + 1;
        k := k + 1;
      }
      code := 2 * code;
    }
  }

  // ---------------------------------------------------------------- Kraft

  /** The Kraft sum of the codes shorter than `length`, scaled by 2^|bits|. */
  function KraftBefore(bits: seq<nat>, length: nat): nat
    requires 1 <= length <= |bits| + 1
  {
    if length == 1 then 0 else KraftBefore(bits, length - 1) + Shl(bits[length - 2], |bits| + 1 - length)
  }

  /** Kraft sum at most 1. */
  predicate Kraft(bits: seq<nat>)
  {
    KraftBefore(bits, |bits| + 1) <= Pow2(|bits|)
  }

  /** A canonical code is the Kraft sum of the codes before it, at its own scale. */
  lemma {:induction false} FirstCodeIsKraftSum(bits: seq<nat>, length: nat)
    requires 1 <= length <= |bits|
    ensures KraftBefore(bits, length) == Shl(FirstCode(bits, length), |bits| - length)
  {
    if length == 1 {
      ShlZero(|bits| - 1);
    } else {
      FirstCodeIsKraftSum(bits, length - 1);
      var f, b := FirstCode(bits, length - 1), bits[length - 2];
      ShlAdd(f, b, |bits| + 1 - length);
      ShlDouble(f + b, |bits| - length);
    }
  }

  lemma {:induction false} ShlZero(n: nat)
    ensures Shl(0, n) == 0
  {
    if n > 0 {
      ShlZero(n - 1);
    }
  }

  ghost predicate AllFit(bits: seq<nat>)
  {
    forall k | 0 <= k < Total(bits) :: CodeAt(bits, k).code < Pow2(CodeAt(bits, k).length)
  }

  lemma {:induction false} KraftMonotone(bits: seq<nat>, a: nat, b: nat)
    requires 1 <= a <= b <= |bits| + 1
    ensures KraftBefore(bits, a) <= KraftBefore(bits, b)
    decreases b
  {
    if a < b {
      KraftMonotone(bits, a, b - 1);
    }
  }

  /** Codes up to the end of `length` fit exactly when their Kraft sum leaves room. */
  lemma EndFitsIffKraft(bits: seq<nat>, length: nat)
    requires 1 <= length <= |bits|
    ensures FirstCode(bits, length) + bits[length - 1] <= Pow2(length)
            <==> KraftBefore(bits, length + 1) <= Pow2(|bits|)
  {
    var f, b, n := FirstCode(bits, length), bits[length - 1], |bits| - length;
    FirstCodeIsKraftSum(bits, length);
    assert KraftBefore(bits, length + 1) == KraftBefore(bits, length) + Shl(b, n);
    ShlAdd(f, b, n);
    ShlPow2(length, n);
    assert length + n == |bits|;
    ShlOrder(f + b, Pow2(length), n);
  }

  lemma {:induction false} FitGivesKraft(bits: seq<nat>, length: nat)
    requires 1 <= length <= |bits| + 1 && AllFit(bits)
    ensures KraftBefore(bits, length) <= Pow2(|bits|)
  {
    if length > 1 {
      FitGivesKraft(bits, length - 1);
      if bits[length - 2] > 0 {
        var k := Before(bits, length) - 1;
        LengthOfUnique(bits, k, length - 1);
        assert CodeAt(bits, k).code < Pow2(length - 1);
        EndFitsIffKraft(bits, length - 1);
      } else {
        ShlZero(|bits| + 1 - length);
      }
    }
  }

  /** Every code fits its length if and only if the Kraft sum is at most 1. */
  lemma CodesFitIffKraft(bits: seq<nat>)
    ensures AllFit(bits) <==> Kraft(bits)
  {
    if AllFit(bits) {
      FitGivesKraft(bits, |bits| + 1);
    }
    if Kraft(bits) {
      forall k | 0 <= k < Total(bits)
        ensures CodeAt(bits, k).code < Pow2(CodeAt(bits, k).length)
      {
        var length := LengthOf(bits, k);
        KraftMonotone(bits, length + 1, |bits| + 1);
        EndFitsIffKraft(bits, length);
      }
    }
  }

  // ---------------------------------------------------------------- decoding

  /** MAXCODE of figure F.15: -1 where no code has this length. */
  function MaxCode(bits: seq<nat>, length: nat): int
    requires 1 <= length <= |bits|
  {
    if bits[length - 1] == 0 then -1 else FirstCode(bits, length) + bits[length - 1] - 1
  }

  /**
   The DECODE procedure of figure F.16 after `length` bits with value `code`: it returns
   the index VALPTR + CODE - MINCODE of the symbol and the bits left over.
   */
  function DecodeIndex(bits: seq<nat>, b: Bits, length: nat, code: nat): (r: Option<(nat, Bits)>)
    requires length <= |bits|
    requires length > 0 ==> code >= FirstCode(bits, length)
    ensures r.Some? ==> r.value.0 < Total(bits)
    decreases |bits| - length
  {
    if length > 0 && code <= MaxCode(bits, length) then
      BeforeMonotone(bits, length + 1, |bits| + 1);
      Some((Before(bits, length) + (code - FirstCode(bits, length)), b))
    else if length == |bits| || b == [] then None
    else DecodeIndex(bits, b[1..], length + 1, 2 * code + Bit(b[0]))
  }

  function DecodeSymbol(s: Spec, b: Bits): Option<(byte, Bits)>
    requires Complete(s)
  {
    match DecodeIndex(s.bits, b, 0, 0)
    case None => None
    case Some((k, rest)) => Some((s.vals[k], rest))
  }

  /** Above the last code of a shorter length, every longer code starts with a larger number. */
  lemma {:induction false} PrefixTooLarge(bits: seq<nat>, c: nat, length: nat, i: nat)
    requires 1 <= i < length <= |bits| && c >= FirstCode(bits, length)
    ensures Shr(c, length - i) >= FirstCode(bits, i) + bits[i - 1]
    decreases length - i
  {
    if i + 1 < length {
      PrefixTooLarge(bits, c, length, i + 1);
    }
    assert Shr(c, length - i - 1) >= FirstCode(bits, i + 1);
  }

  lemma {:induction false} DecodeFromPrefix(bits: seq<nat>, c: nat, length: nat, i: nat, rest: Bits)
    requires 1 <= length <= |bits| && i <= length
    requires FirstCode(bits, length) <= c < FirstCode(bits, length) + bits[length - 1]
    ensures var code := Shr(c, length - i);
            (i > 0 ==> code >= FirstCode(bits, i)) &&
            DecodeIndex(bits, ToBits(c, length - i) + rest, i, code)
              == Some((Before(bits, length) + (c - FirstCode(bits, length)), rest))
    decreases length - i
  {
    var code, b := Shr(c, length - i), ToBits(c, length - i) + rest;
    if i == length {
      assert b == rest && code == c;
      DecodeAccept(bits, c, length, rest);
    } else {
      DecodeFromPrefix(bits, c, length, i + 1, rest);
      assert b[1..] == ToBits(c, length - i - 1) + rest && 2 * code + Bit(b[0]) == Shr(c, length - i - 1) by {
        ToBitsHead(c, length - i);
        NextCode(c, length - i);
      }
      if i > 0 {
        PrefixTooLarge(bits, c, length, i);
      }
      DecodeStep(bits, b, i, code);
    }
  }

  lemma DecodeAccept(bits: seq<nat>, c: nat, length: nat, rest: Bits)
    requires 1 <= length <= |bits|
    requires FirstCode(bits, length) <= c < FirstCode(bits, length) + bits[length - 1]
    ensures DecodeIndex(bits, rest, length, c)
            == Some((Before(bits, length) + (c - FirstCode(bits, length)), rest))
  {
  }

  lemma DecodeStep(bits: seq<nat>, b: Bits, i: nat, code: nat)
    requires i < |bits| && b != []
    requires i > 0 ==> code >= FirstCode(bits, i) + bits[i - 1]
    ensures 2 * code + Bit(b[0]) >= FirstCode(bits, i + 1)
    ensures DecodeIndex(bits, b, i, code) == DecodeIndex(bits, b[1..], i + 1, 2 * code + Bit(b[0]))
  {
  }

  lemma NextCode(c: nat, n: nat)
    requires n > 0
    ensures Shr(c, n - 1) == 2 * Shr(c, n) + Bit(Shr(c, n - 1) % 2 == 1)
  {
  }

  /** What the encoder writes for the k-th code. */
  function CodeBits(c: Code): (b: Bits)
    ensures |b| == c.length
  {
    ToBits(c.code, c.length)
  }

  lemma {:induction false} DecodeOfCode(bits: seq<nat>, k: nat, rest: Bits)
    requires Kraft(bits) && k < Total(bits)
    ensures DecodeIndex(bits, CodeBits(CodeAt(bits, k)) + rest, 0, 0) == Some((k, rest))
  {
    var c := CodeAt(bits, k);
    CodesFitIffKraft(bits);
    ShrZero(c.code, c.length);
    DecodeFromPrefix(bits, c.code, c.length, 0, rest);
  }

  /** No code is a prefix of another. */
  lemma PrefixFree(bits: seq<nat>, j: nat, k: nat)
    requires Kraft(bits) && j < Total(bits) && k < Total(bits)
    requires CodeBits(CodeAt(bits, j)) <= CodeBits(CodeAt(bits, k))
    ensures j == k
  {
    var a, b := CodeBits(CodeAt(bits, j)), CodeBits(CodeAt(bits, k));
    DecodeOfCode(bits, j, b[|a|..]);
    DecodeOfCode(bits, k, []);
    assert a + b[|a|..] == b == b + [];
  }

  // ---------------------------------------------------------------- symbols

  ghost predicate Distinct<T>(s: seq<T>) {
    forall i, j | 0 <= i < j < |s| :: s[i] != s[j]
  }

  /** The tables for which decoding is promised: complete, distinct symbols, Kraft sum at most 1. */
  ghost predicate Valid(s: Spec) {
    Complete(s) && Distinct(s.vals[..Total(s.bits)]) && Kraft(s.bits)
  }

  function NoCodes(): Spec {
    Spec(seq(16, _ => 0), [])
  }

  lemma {:induction false} NoCodesBefore(length: nat)
    requires 1 <= length <= 17
    ensures Before(NoCodes().bits, length) == 0 && KraftBefore(NoCodes().bits, length) == 0
  {
    if length > 1 {
      NoCodesBefore(length - 1);
      ShlZero(17 - length);
    }
  }

  lemma NoCodesValid()
    ensures Valid(NoCodes())
  {
    NoCodesBefore(17);
  }

  type ValidSpec = s: Spec | Valid(s) ghost witness (NoCodesValid(); NoCodes())

  lemma {:induction false} CodeTableKeys(s: Spec, n: nat)
    requires Complete(s) && n <= Total(s.bits)
    ensures forall v :: v in CodeTable(s, n) <==> v in s.vals[..n]
  {
    if n > 0 {
      CodeTableKeys(s, n - 1);
      assert s.vals[..n] == s.vals[..n - 1] + [s.vals[n - 1]];
    }
  }

  lemma {:induction false} CodeTableLookup(s: ValidSpec, n: nat, k: nat)
    requires k < n <= Total(s.bits)
    ensures s.vals[k] in CodeTable(s, n) && CodeTable(s, n)[s.vals[k]] == CodeAt(s.bits, k)
    decreases n
  {
    if k < n - 1 {
      CodeTableLookup(s, n - 1, k);
      var used := s.vals[..Total(s.bits)];
      assert used[k] != used[n - 1];
    }
  }

  /** Decoding the code of any symbol of the table gives the symbol back and stops after it. */
  lemma DecodeOfSymbol(s: ValidSpec, v: byte, rest: Bits)
    requires v in Codes(s)
    ensures DecodeSymbol(s, CodeBits(Codes(s)[v]) + rest) == Some((v, rest))
  {
    CodeTableKeys(s, Total(s.bits));
    var k :| 0 <= k < Total(s.bits) && s.vals[k] == v;
    CodeTableLookup(s, Total(s.bits), k);
    DecodeOfCode(s.bits, k, rest);
  }

  function Concat(s: Spec, symbols: seq<byte>): Bits
    requires Complete(s) && forall v | v in symbols :: v in Codes(s)
  {
    if symbols == [] then [] else CodeBits(Codes(s)[symbols[0]]) + Concat(s, symbols[1..])
  }

  /** Greedy decoding is unique: equal bit strings come from equal symbol strings. */
  lemma {:induction false} UniquelyDecodable(s: ValidSpec, x: seq<byte>, y: seq<byte>)
    requires forall v | v in x :: v in Codes(s)
    requires forall v | v in y :: v in Codes(s)
    requires Concat(s, x) == Concat(s, y)
    ensures x == y
    decreases |x| + |y|
  {
    if x != [] {
      DecodeOfSymbol(s, x[0], Concat(s, x[1..]));
    }
    if y != [] {
      DecodeOfSymbol(s, y[0], Concat(s, y[1..]));
    }
    if x != [] && y != [] {
      UniquelyDecodable(s, x[1..], y[1..]);
      assert x == [x[0]] + x[1..] && y == [y[0]] + y[1..];
    }
  }
}
