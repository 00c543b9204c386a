/** Bit strings, low bit first, the numbers they stand for, and shifts and masks on them. */
module Bits {

  function Pow2(n: nat): (r: nat)
    ensures r > 0
  {
    if n == 0 then 1 else 2 * Pow2(n - 1)
  }

  /** The little-endian value of a bit string. */
  function Val(bs: seq<bool>): (v: nat)
    ensures v < Pow2(|bs|)
  {
    if bs == [] then 0 else (if bs[0] then 1 else 0) + 2 * Val(bs[1..])
  }

  /** The low n bits of v. */
  function BitsOf(v: nat, n: nat): (bs: seq<bool>)
    ensures |bs| == n
  {
    if n == 0 then [] else [v % 2 == 1] + BitsOf(v / 2, n - 1)
  }

  function Shr(v: nat, n: nat): (r: nat)
    ensures r <= v
  {
    if n == 0 then v else Shr(v / 2, n - 1)
  }

  function Shl(v: nat, n: nat): nat {
    if n == 0 then v else 2 * Shl(v, n - 1)
  }

  /** v with all but its low n bits cleared. */
  function Mask(v: nat, n: nat): (r: nat)
    ensures r < Pow2(n)
  {
    if n == 0 then 0 else v % 2 + 2 * Mask(v / 2, n - 1)
  }

  lemma {:induction false} Pow2Add(a: nat, b: nat)
    ensures Pow2(a + b) == Shl(Pow2(b), a)
  {
    if a > 0 { Pow2Add(a - 1, b); }
  }

  lemma Pow2Small()
    ensures Pow2(1) == 2 && Pow2(2) == 4 && Pow2(3) == 8 && Pow2(5) == 32 && Pow2(6) == 64 && Pow2(8) == 256
  {
    assert Pow2(4) == 16;
  }

  lemma {:induction false} Pow2Mono(a: nat, b: nat)
    requires a <= b
    ensures Pow2(a) <= Pow2(b)
  {
    if a < b { Pow2Mono(a, b - 1); }
  }

  /** Bits of the value are the bits. */
  lemma {:induction false} BitsOfVal(bs: seq<bool>)
    ensures BitsOf(Val(bs), |bs|) == bs
  {
    if bs != [] {
      BitsOfVal(bs[1..]);
      assert bs == [bs[0]] + bs[1..];
    }
  }

  /** The value of the low bits is the masked value. */
  lemma {:induction false} ValOfBits(v: nat, n: nat)
    ensures Val(BitsOf(v, n)) == Mask(v, n)
  {
    if n > 0 { ValOfBits(v / 2, n - 1); }
  }

  /** A number fits in n bits exactly when nothing is left after n shifts. */
  lemma {:induction false} FitsIff(v: nat, n: nat)
    ensures v < Pow2(n) <==> Shr(v, n) == 0
    ensures v < Pow2(n) ==> Mask(v, n) == v
  {
    if n > 0 { FitsIff(v / 2, n - 1); }
  }

  lemma {:induction false} ShrAdd(v: nat, a: nat, b: nat)
    ensures Shr(v, a + b) == Shr(Shr(v, a), b)
  {
    if a > 0 { ShrAdd(v / 2, a - 1, b); }
  }

  /** Low bits, then the bits above them. */
  lemma {:induction false} BitsOfAdd(v: nat, a: nat, b: nat)
    ensures BitsOf(v, a + b) == BitsOf(v, a) + BitsOf(Shr(v, a), b)
  {
    if a > 0 { BitsOfAdd(v / 2, a - 1, b); }
  }

  lemma {:induction false} ShlDouble(v: nat, n: nat)
    ensures Shl(2 * v, n) == 2 * Shl(v, n)
  {
    if n > 0 { ShlDouble(v, n - 1); }
  }

  /** Placing b above a: the numbers add, b shifted by the width of a. */
  lemma {:induction false} ValAppend(a: seq<bool>, b: seq<bool>)
    ensures Val(a + b) == Val(a) + Shl(Val(b), |a|)
  {
    if a == [] {
      assert a + b == b;
    } else {
      assert (a + b)[1..] == a[1..] + b;
      ValAppend(a[1..], b);
    }
  }

  /** Shifting right drops low bits, masking keeps them. */
  lemma {:induction false} ValSplit(a: seq<bool>, b: seq<bool>)
    ensures Shr(Val(a + b), |a|) == Val(b) && Mask(Val(a + b), |a|) == Val(a)
  {
    if a == [] {
      assert a + b == b;
    } else {
      assert (a + b)[1..] == a[1..] + b;
      ValSplit(a[1..], b);
    }
  }

  // ----- bytes -----

  predicate AreBytes(buf: seq<nat>) { forall i :: 0 <= i < |buf| ==> buf[i] < 256 }

  /** The bits of a buffer: bytes in order, each low bit first. */
  function Stream(buf: seq<nat>): (bs: seq<bool>)
    ensures |bs| == 8 * |buf|
  {
    if buf == [] then [] else Stream(buf[..|buf| - 1]) + BitsOf(buf[|buf| - 1], 8)
  }

  /** Byte i occupies bits 8i to 8i + 8. */
  lemma {:induction false} StreamAt(buf: seq<nat>, i: nat)
    requires i < |buf|
    ensures Stream(buf)[8 * i..8 * i + 8] == BitsOf(buf[i], 8)
    decreases |buf|
  {
    var n := |buf| - 1;
    var head := Stream(buf[..n]);
    if i < n {
      StreamAt(buf[..n], i);
      assert Stream(buf)[8 * i..8 * i + 8] == head[8 * i..8 * i + 8];
    }
  }

  lemma ByteValue(buf: seq<nat>, i: nat)
    requires i < |buf| && AreBytes(buf)
    ensures Val(Stream(buf)[8 * i..8 * i + 8]) == buf[i]
  {
    StreamAt(buf, i);
    Pow2Small();
    ValOfBits(buf[i], 8);
    FitsIff(buf[i], 8);
  }

  lemma {:induction false} StreamAppend(x: seq<nat>, y: seq<nat>)
    ensures Stream(x + y) == Stream(x) + Stream(y)
    decreases |y|
  {
    if y == [] {
      assert x + y == x;
    } else {
      assert (x + y)[..|x + y| - 1] == x + y[..|y| - 1];
      StreamAppend(x, y[..|y| - 1]);
    }
  }
}
