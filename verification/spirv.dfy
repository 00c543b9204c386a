/** The binary form of a SPIR-V module: instructions, their 32-bit words, and the
    packed strings that some instructions carry (sections 2.2.1 and 2.3 of the
    Khronos SPIR-V Specification). */
module Spirv {
  import opened Wrappers

  const MAGIC: nat := 0x0723_0203
  const OP_VARIABLE: nat := 59
  const OP_DECORATE: nat := 71

  /** One instruction: an opcode and the words that follow the header word. */
  datatype Insn = Insn(op: nat, args: seq<nat>)

  /** The opcode and the word count each fit their half of the header word. */
  predicate Fits(x: Insn) {
    x.op < 0x1_0000 && |x.args| < 0xFFFF
  }

  predicate AllFit(xs: seq<Insn>) {
    forall i :: 0 <= i < |xs| ==> Fits(xs[i])
  }

  function EncodeInsn(x: Insn): seq<nat> {
    [(1 + |x.args|) * 0x1_0000 + x.op] + x.args
  }

  function Encode(xs: seq<Insn>): seq<nat> {
    if xs == [] then [] else EncodeInsn(xs[0]) + Encode(xs[1..])
  }

  /** Split a word stream into instructions; None when a word count is zero or
      runs past the end. */
  function Frame(ws: seq<nat>): Option<seq<Insn>>
    decreases |ws|
  {
    if ws == [] then Some([])
    else
      var wc := ws[0] / 0x1_0000 % 0x1_0000;
      if wc == 0 || wc > |ws| then None
      else
        match Frame(ws[wc..])
        case None => None
        case Some(rest) => Some([Insn(ws[0] % 0x1_0000, ws[1..wc])] + rest)
  }

  lemma {:induction false} EncodeAppend(xs: seq<Insn>, ys: seq<Insn>)
    ensures Encode(xs + ys) == Encode(xs) + Encode(ys)
  {
    if xs == [] {
      assert xs + ys == ys;
    } else {
      assert (xs + ys)[1..] == xs[1..] + ys;
      EncodeAppend(xs[1..], ys);
    }
  }

  lemma EncodeSingle(x: Insn)
    ensures Encode([x]) == EncodeInsn(x)
  {
    assert Encode([x][1..]) == [];
  }

  /** Framing undoes encoding. */
  lemma {:induction false} FrameEncode(xs: seq<Insn>)
    requires AllFit(xs)
    ensures Frame(Encode(xs)) == Some(xs)
  {
    if xs != [] {
      var x, ws := xs[0], Encode(xs);
      var wc := 1 + |x.args|;
      assert ws[0] == wc * 0x1_0000 + x.op;
      HeaderSplit(wc, x.op);
      assert ws[wc..] == Encode(xs[1..]);
      assert ws[1..wc] == x.args;
      FrameEncode(xs[1..]);
      assert xs == [x] + xs[1..];
    }
  }

  lemma HeaderSplit(wc: nat, op: nat)
    requires wc < 0x1_0000 && op < 0x1_0000
    ensures (wc * 0x1_0000 + op) / 0x1_0000 % 0x1_0000 == wc
    ensures (wc * 0x1_0000 + op) % 0x1_0000 == op
  {
  }

  lemma HeaderJoin(w: nat)
    requires w < 0x1_0000_0000
    ensures w / 0x1_0000 % 0x1_0000 * 0x1_0000 + w % 0x1_0000 == w
  {
  }

  /** Encoding undoes framing: a stream that frames is exactly the encoding of
      the instructions found, and each of them fits. */
  lemma {:induction false} EncodeFrame(ws: seq<nat>)
    requires forall i :: 0 <= i < |ws| ==> ws[i] < 0x1_0000_0000
    requires Frame(ws).Some?
    ensures Encode(Frame(ws).value) == ws && AllFit(Frame(ws).value)
    decreases |ws|
  {
    if ws != [] {
      var wc := ws[0] / 0x1_0000 % 0x1_0000;
      EncodeFrame(ws[wc..]);
      var rest := Frame(ws[wc..]).value;
      HeaderJoin(ws[0]);
      EncodeCons(Insn(ws[0] % 0x1_0000, ws[1..wc]), rest);
      Reassembled(ws, wc);
    }
  }

  lemma EncodeCons(x: Insn, rest: seq<Insn>)
    ensures Encode([x] + rest) == EncodeInsn(x) + Encode(rest)
  {
    assert ([x] + rest)[1..] == rest;
  }

  lemma Reassembled(ws: seq<nat>, wc: nat)
    requires 1 <= wc <= |ws|
    ensures [ws[0]] + ws[1..wc] + ws[wc..] == ws
  {
  }

  /** The words of one instruction sit at the offset of its predecessors. */
  lemma {:induction false} EncodeAt(xs: seq<Insn>, k: nat)
    requires k < |xs|
    ensures Encode(xs) == Encode(xs[..k]) + EncodeInsn(xs[k]) + Encode(xs[k + 1..])
    ensures Encode(xs[..k + 1]) == Encode(xs[..k]) + EncodeInsn(xs[k])
  {
    assert xs[..k + 1] == xs[..k] + [xs[k]];
    assert xs == xs[..k + 1] + xs[k + 1..];
    EncodeAppend(xs[..k], [xs[k]]);
    EncodeAppend(xs[..k + 1], xs[k + 1..]);
    EncodeSingle(xs[k]);
  }

  // ----- packed strings -----

  /** Byte j of the little-endian words ws. */
  function ByteAt(ws: seq<nat>, j: nat): nat
    requires j < 4 * |ws|
  {
    var w := ws[j / 4];
    match j % 4
    case 0 => w % 0x100
    case 1 => w / 0x100 % 0x100
    case 2 => w / 0x100 / 0x100 % 0x100
    case _ => w / 0x100 / 0x100 / 0x100 % 0x100
  }

  /** The name is a C string: bytes other than NUL. */
  predicate IsName(s: seq<nat>) {
    forall j :: 0 <= j < |s| ==> 0 < s[j] < 0x100
  }

  /** The words hold exactly s, followed by a NUL. */
  predicate Holds(ws: seq<nat>, s: seq<nat>) {
    |s| < 4 * |ws| &&
    (forall j :: 0 <= j < |s| ==> ByteAt(ws, j) == s[j]) &&
    ByteAt(ws, |s|) == 0
  }

  function CharOr0(s: seq<nat>, j: nat): nat {
    if j < |s| then s[j] else 0
  }

  /** Four characters per word, low byte first, NUL-terminated and zero-padded. */
  function PackString(s: seq<nat>): (ws: seq<nat>)
    ensures |ws| == |s| / 4 + 1
  {
    seq(|s| / 4 + 1, (i: nat) =>
      CharOr0(s, 4 * i) + 0x100 * CharOr0(s, 4 * i + 1)
      + 0x1_0000 * CharOr0(s, 4 * i + 2) + 0x100_0000 * CharOr0(s, 4 * i + 3))
  }

  lemma LowByte(a: nat, rest: nat)
    requires a < 0x100
    ensures (a + 0x100 * rest) % 0x100 == a && (a + 0x100 * rest) / 0x100 == rest
  {
  }

  lemma PackedBytes(a: nat, b: nat, c: nat, d: nat, w: nat)
    requires a < 0x100 && b < 0x100 && c < 0x100 && d < 0x100
    requires w == a + 0x100 * b + 0x1_0000 * c + 0x100_0000 * d
    ensures w < 0x1_0000_0000
    ensures w % 0x100 == a && w / 0x100 % 0x100 == b
    ensures w / 0x100 / 0x100 % 0x100 == c && w / 0x100 / 0x100 / 0x100 % 0x100 == d
  {
    LowByte(a, b + 0x100 * (c + 0x100 * d));
    LowByte(b, c + 0x100 * d);
    LowByte(c, d);
  }

  lemma PackStringAt(s: seq<nat>, j: nat)
    requires IsName(s) && j < 4 * |PackString(s)|
    ensures ByteAt(PackString(s), j) == CharOr0(s, j)
    ensures PackString(s)[j / 4] < 0x1_0000_0000
  {
    var i := j / 4;
    PackedBytes(CharOr0(s, 4 * i), CharOr0(s, 4 * i + 1), CharOr0(s, 4 * i + 2),
                CharOr0(s, 4 * i + 3), PackString(s)[i]);
    assert j == 4 * i + j % 4;
  }

  /** A packed string decodes to the original, and to nothing else. */
  lemma PackStringRoundTrip(s: seq<nat>, t: seq<nat>)
    requires IsName(s) && IsName(t)
    ensures Holds(PackString(s), t) <==> s == t
  {
    var ws := PackString(s);
    forall j | 0 <= j < 4 * |ws| ensures ByteAt(ws, j) == CharOr0(s, j) {
      PackStringAt(s, j);
    }
    if Holds(ws, t) {
      assert |s| == |t| by {
        assert ByteAt(ws, |t|) == CharOr0(s, |t|);
        assert ByteAt(ws, |s|) == CharOr0(s, |s|);
      }
      assert forall j :: 0 <= j < |s| ==> s[j] == ByteAt(ws, j) == t[j];
    }
  }

  /** Byte-by-byte comparison of a stored string with a C string. */
  method StringEquals(ws: seq<nat>, s: seq<nat>) returns (r: bool)
    requires IsName(s)
    ensures r == Holds(ws, s)
  {
    var j := 0;
    while j < 4 * |ws|
      invariant 0 <= j <= 4 * |ws| && j <= |s|
      invariant forall k :: 0 <= k < j ==> ByteAt(ws, k) == s[k]
    {
      var b := ByteAt(ws, j);
      var c := CharOr0(s, j);
      if b == 0 { return c == 0; }
      if c == 0 { return false; }
      if b != c { return false; }
      j := j + 1;
    }
    return false;
  }
}
