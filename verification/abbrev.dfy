/** Abbreviations of the LLVM bitstream: patterns, how DEFINE_ABBREV spells them, and the
    records written with them (section "DEFINE_ABBREV Encoding" of the LLVM Bitcode File
    Format). */
module Abbrev {
  import opened Wrappers
  import opened Bits
  import opened Bitstream

  const MAX_OPS: nat := 64
  const MAX_PER_BLOCK: nat := 64
  const MAX_RECORD_OPS: nat := 1024

  datatype Op = Literal(v: nat) | Fixed(w: nat) | Vbr(w: nat) | Array | Char6 | Blob

  type Pattern = seq<Op>

  // ----- patterns -----

  function OpAt(b: seq<bool>, p: nat): (r: Read<Op>)
    ensures r.Got? ==> p < r.next <= |b|
  {
    match BitsAt(b, p, 1)
    case Fail => Fail
    case Got(literal, q) =>
      if literal != 0 then
        match VbrAt(b, q, 8, 64)
        case Fail => Fail
        case Got(v, r) => Got(Literal(v), r)
      else EncodingAt(b, q)
  }

  function EncodingAt(b: seq<bool>, p: nat): (r: Read<Op>)
    ensures r.Got? ==> p < r.next <= |b|
  {
    match BitsAt(b, p, 3)
    case Fail => Fail
    case Got(e, q) =>
      if e == 1 || e == 2 then
        match VbrAt(b, q, 5, 32)
        case Fail => Fail
        case Got(w, r) => Got(if e == 1 then Fixed(w) else Vbr(w), r)
      else if e == 3 then Got(Array, q)
      else if e == 4 then Got(Char6, q)
      else if e == 5 then Got(Blob, q)
      else Fail
  }

  function PatternAt(b: seq<bool>, p: nat): (r: Read<Pattern>)
    ensures r.Got? ==> p < r.next <= |b|
  {
    match VbrAt(b, p, 5, 32)
    case Fail => Fail
    case Got(n, q) =>
      if n == 0 || n > MAX_OPS then Fail else
      ManyGrows(OpReader(b), q, n, []); ManyWithin(OpReader(b), q, n, [], |b|);
      Many(OpReader(b), q, n, [])
  }

  function OpReader(b: seq<bool>): nat -> Read<Op> { (p: nat) => OpAt(b, p) }

  function EncOp(op: Op): seq<bool> {
    if op.Literal? then BitsOf(1, 1) + EncVbr(op.v, 8) else BitsOf(0, 1) + EncEncoding(op)
  }

  function EncEncoding(op: Op): seq<bool>
    requires !op.Literal?
  {
    match op
    case Fixed(w) => BitsOf(1, 3) + EncVbr(w, 5)
    case Vbr(w) => BitsOf(2, 3) + EncVbr(w, 5)
    case Array => BitsOf(3, 3)
    case Char6 => BitsOf(4, 3)
    case Blob => BitsOf(5, 3)
  }

  function OpEncoder(): Op -> seq<bool> { (op: Op) => EncOp(op) }

  function EncPattern(ops: Pattern): seq<bool> { EncVbr(|ops|, 5) + EncAll(OpEncoder(), ops) }

  predicate OpOk(op: Op) {
    match op
    case Literal(v) => v < Pow2(64)
    case Fixed(w) => w < Pow2(32)
    case Vbr(w) => w < Pow2(32)
    case _ => true
  }

  predicate PatternOk(ops: Pattern) {
    0 < |ops| <= MAX_OPS && forall i :: 0 <= i < |ops| ==> OpOk(ops[i])
  }

  lemma EncodingRoundTrip(b: seq<bool>, p: nat, op: Op, e: nat, rest: seq<bool>)
    requires OpOk(op) && e < 8 && Has(b, p, BitsOf(e, 3) + rest)
    requires match op
             case Fixed(w) => e == 1 && rest == EncVbr(w, 5)
             case Vbr(w) => e == 2 && rest == EncVbr(w, 5)
             case Array => e == 3 && rest == []
             case Char6 => e == 4 && rest == []
             case Blob => e == 5 && rest == []
             case Literal(_) => false
    ensures EncodingAt(b, p) == Got(op, p + 3 + |rest|)
  {
    HasBoth(b, p, BitsOf(e, 3), rest);
    Pow2Small();
    BitsRoundTrip(b, p, e, 3);
    if op.Fixed? || op.Vbr? { VbrRoundTrip(b, p + 3, op.w, 5, 32); }
  }

  lemma OpRoundTrip(b: seq<bool>, p: nat, op: Op)
    requires OpOk(op) && Has(b, p, EncOp(op))
    ensures OpAt(b, p) == Got(op, p + |EncOp(op)|)
  {
    Pow2Small();
    if op.Literal? {
      HasBoth(b, p, BitsOf(1, 1), EncVbr(op.v, 8));
      BitsRoundTrip(b, p, 1, 1);
      VbrRoundTrip(b, p + 1, op.v, 8, 64);
    } else {
      HasBoth(b, p, BitsOf(0, 1), EncEncoding(op));
      BitsRoundTrip(b, p, 0, 1);
      ShapeRoundTrip(b, p + 1, op);
    }
  }

  lemma ShapeRoundTrip(b: seq<bool>, p: nat, op: Op)
    requires OpOk(op) && !op.Literal? && Has(b, p, EncEncoding(op))
    ensures EncodingAt(b, p) == Got(op, p + |EncEncoding(op)|)
  {
    match op
    case Fixed(w) => EncodingRoundTrip(b, p, op, 1, EncVbr(w, 5));
    case Vbr(w) => EncodingRoundTrip(b, p, op, 2, EncVbr(w, 5));
    case Array => NoWidth(b, p, op, 3);
    case Char6 => NoWidth(b, p, op, 4);
    case Blob => NoWidth(b, p, op, 5);
  }

  lemma NoWidth(b: seq<bool>, p: nat, op: Op, e: nat)
    requires Has(b, p, BitsOf(e, 3)) && ((op.Array? && e == 3) || (op.Char6? && e == 4) || (op.Blob? && e == 5))
    ensures EncodingAt(b, p) == Got(op, p + 3)
  {
    assert BitsOf(e, 3) + [] == BitsOf(e, 3);
    EncodingRoundTrip(b, p, op, e, []);
  }

  /** PATTERN ROUND TRIP: DEFINE_ABBREV reads back every pattern, wherever it stands. */
  lemma PatternRoundTrip(b: seq<bool>, p: nat, ops: Pattern)
    requires PatternOk(ops) && Has(b, p, EncPattern(ops))
    ensures PatternAt(b, p) == Got(ops, p + |EncPattern(ops)|)
  {
    Pow2Kilo();
    var q := CountStep(b, p, |ops|, 5, EncAll(OpEncoder(), ops));
    forall i | 0 <= i < |ops| ensures Undoes(b, OpReader(b), OpEncoder(), ops[i]) { OpUndone(b, ops[i]); }
    ManyRoundTrip(b, OpReader(b), OpEncoder(), q, ops, []);
    assert [] + ops == ops;
  }

  lemma OpUndone(b: seq<bool>, op: Op)
    requires OpOk(op)
    ensures Undoes(b, OpReader(b), OpEncoder(), op)
  {
    forall p: nat | Has(b, p, EncOp(op)) ensures OpAt(b, p) == Got(op, p + |EncOp(op)|) { OpRoundTrip(b, p, op); }
  }

  lemma Pow2Kilo()
    ensures 1024 < Pow2(32)
  {
    Pow2Small();
    assert Pow2(11) == 8 * Pow2(8);
    Pow2Mono(11, 32);
  }

  /** A count in front of something. */
  lemma CountStep(b: seq<bool>, p: nat, n: nat, w: nat, rest: seq<bool>) returns (q: nat)
    requires n < Pow2(32) && 2 <= w <= 32 && Has(b, p, EncVbr(n, w) + rest)
    ensures q == p + |EncVbr(n, w)| && Has(b, q, rest) && VbrAt(b, p, w, 32) == Got(n, q)
  {
    HasBoth(b, p, EncVbr(n, w), rest);
    VbrRoundTrip(b, p, n, w, 32);
    q := p + |EncVbr(n, w)|;
  }

  // ----- six-bit characters -----

  function Char6Decode(v: nat): nat {
    if v < 26 then 97 + v
    else if v < 52 then 65 + (v - 26)
    else if v < 62 then 48 + (v - 52)
    else if v == 62 then 46
    else 95
  }

  predicate IsChar6(c: nat) { 97 <= c <= 122 || 65 <= c <= 90 || 48 <= c <= 57 || c == 46 || c == 95 }

  function Char6Encode(c: nat): (v: nat)
    requires IsChar6(c)
    ensures v < 64 && Char6Decode(v) == c
  {
    if c >= 97 then c - 97 else if c == 95 then 63 else if c >= 65 then c - 65 + 26 else if c == 46 then 62
      else c - 48 + 52
  }

  /** The six-bit code is a bijection onto its alphabet. */
  lemma Char6Onto(v: nat)
    requires v < 64
    ensures IsChar6(Char6Decode(v)) && Char6Encode(Char6Decode(v)) == v
  {
  }

  // ----- values -----

  function ValueAt(b: seq<bool>, p: nat, op: Op): (r: Read<nat>)
    ensures r.Got? ==> p <= r.next
  {
    match op
    case Literal(v) => Got(v, p)
    case Fixed(w) =>
      if w == 0 then Got(0, p)
      else if w > 32 then
        match BitsAt(b, p, 32)
        case Fail => Fail
        case Got(lo, q) =>
          (match BitsAt(b, q, w - 32)
           case Fail => Fail
           case Got(hi, r) => Got(lo + Shl(hi, 32), r))
      else BitsAt(b, p, w)
    case Vbr(w) => VbrAt(b, p, w, 64)
    case Char6 =>
      (match BitsAt(b, p, 6)
       case Fail => Fail
       case Got(v, q) => Got(Char6Decode(v), q))
    case _ => Fail
  }

  /** The values an operation can carry. */
  predicate Carries(op: Op, v: nat) {
    match op
    case Literal(u) => v == u
    case Fixed(w) => w <= 64 && v < Pow2(w)
    case Vbr(w) => 2 <= w <= 32 && v < Pow2(64)
    case Char6 => IsChar6(v)
    case _ => false
  }

  function EncValue(op: Op, v: nat): seq<bool>
    requires Carries(op, v)
  {
    match op
    case Literal(_) => []
    case Fixed(w) => BitsOf(v, w)
    case Vbr(w) => EncVbr(v, w)
    case Char6 => BitsOf(Char6Encode(v), 6)
  }

  lemma WideFixed(b: seq<bool>, p: nat, w: nat, v: nat)
    requires 32 < w <= 64 && v < Pow2(w) && Has(b, p, BitsOf(v, w))
    ensures ValueAt(b, p, Fixed(w)) == Got(v, p + w)
  {
    var k := w - 32;
    var lo, hi := BitsOf(v, 32), BitsOf(Shr(v, 32), k);
    BitsOfAdd(v, 32, k);
    HasBoth(b, p, lo, hi);
    HalvesValue(v, 32, k);
    TwoHalves(b, p, k, lo, hi);
  }

  lemma HalvesValue(v: nat, a: nat, k: nat)
    requires v < Pow2(a + k)
    ensures Val(BitsOf(v, a)) + Shl(Val(BitsOf(Shr(v, a), k)), a) == v
  {
    BitsOfAdd(v, a, k);
    ValAppend(BitsOf(v, a), BitsOf(Shr(v, a), k));
    ValOfBits(v, a + k);
    FitsIff(v, a + k);
  }

  lemma TwoHalves(b: seq<bool>, p: nat, k: nat, lo: seq<bool>, hi: seq<bool>)
    requires 0 < k <= 32 && |lo| == 32 && |hi| == k && Has(b, p, lo) && Has(b, p + 32, hi)
    ensures ValueAt(b, p, Fixed(32 + k)) == Got(Val(lo) + Shl(Val(hi), 32), p + 32 + k)
  {
    assert BitsAt(b, p, 32) == Got(Val(lo), p + 32);
    assert BitsAt(b, p + 32, k) == Got(Val(hi), p + 32 + k);
  }

  lemma ValueRoundTrip(b: seq<bool>, p: nat, op: Op, v: nat)
    requires Carries(op, v) && Has(b, p, EncValue(op, v))
    ensures ValueAt(b, p, op) == Got(v, p + |EncValue(op, v)|)
  {
    match op
    case Literal(_) =>
    case Fixed(w) =>
      if w > 32 { WideFixed(b, p, w, v); } else if w > 0 { BitsRoundTrip(b, p, v, w); }
    case Vbr(w) => VbrRoundTrip(b, p, v, w, 64);
    case Char6 =>
      Pow2Small();
      BitsRoundTrip(b, p, Char6Encode(v), 6);
  }
}
