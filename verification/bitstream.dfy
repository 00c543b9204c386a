/** The bit cursor of the LLVM bitstream reader: fixed-width and variable-width reads
    (section "Variable Width Integers" of the LLVM Bitcode File Format). */
module Bitstream {
  import opened Bits

  /** The outcome of reading at a position: a value and the next position, or an error. */
  datatype Read<+T> = Fail | Got(value: T, next: nat)

  /** n bits at p, as a number. */
  function BitsAt(b: seq<bool>, p: nat, n: nat): Read<nat> {
    if n == 0 || n > 32 || p + n > |b| then Fail else Got(Val(b[p..p + n]), p + n)
  }

  /** Up to 64 bits at p. */
  function WideAt(b: seq<bool>, p: nat, n: nat): Read<nat> {
    if n == 0 || n > 64 || p + n > |b| then Fail else Got(Val(b[p..p + n]), p + n)
  }

  function Low(b: seq<bool>, n: nat): seq<bool> { if |b| <= n then b else b[..n] }

  /** A variable-width read in progress: acc holds the data bits so far.  Each chunk adds
      its bits below the flag; bits at or above the limit are lost. */
  function VbrFrom(b: seq<bool>, p: nat, n: nat, limit: nat, acc: seq<bool>): (r: Read<nat>)
    requires n >= 2 && |acc| < limit
    ensures r.Got? ==> p < r.next <= |b| && r.value < Pow2(limit)
    decreases limit - |acc|
  {
    if p + n > |b| then Fail else
    var data := acc + b[p..p + n - 1];
    if !b[p + n - 1] then Pow2Mono(|Low(data, limit)|, limit); Got(Val(Low(data, limit)), p + n)
    else if |data| >= limit then Fail
    else VbrFrom(b, p + n, n, limit, data)
  }

  /** A variable-width integer in chunks of n bits, for values below 2^limit. */
  function VbrAt(b: seq<bool>, p: nat, n: nat, limit: nat): (r: Read<nat>)
    requires limit > 0
    ensures r.Got? ==> p < r.next <= |b| && r.value < Pow2(limit)
  {
    if n < 2 || n > 32 then Fail else VbrFrom(b, p, n, limit, [])
  }

  function Align32(p: nat): (q: nat)
    ensures p <= q < p + 32 && q % 32 == 0
  {
    (p + 31) / 32 * 32
  }

  // ----- the encoder -----

  /** The chunks of v: n - 1 bits each, low ones first, all but the last flagged. */
  function EncVbr(v: nat, n: nat): (e: seq<bool>)
    requires n >= 2
    ensures |e| >= n
    decreases v
  {
    var rest := Shr(v, n - 1);
    if rest == 0 then BitsOf(v, n - 1) + [false]
    else ShrShrinks(v, n - 1); BitsOf(v, n - 1) + [true] + EncVbr(rest, n)
  }

  lemma ShrShrinks(v: nat, n: nat)
    requires v > 0 && n > 0
    ensures Shr(v, n) < v
  {
  }

  /** b holds e at position p. */
  predicate Has(b: seq<bool>, p: nat, e: seq<bool>) { p + |e| <= |b| && b[p..p + |e|] == e }

  lemma HasBoth(b: seq<bool>, p: nat, e: seq<bool>, f: seq<bool>)
    ensures Has(b, p, e + f) <==> Has(b, p, e) && Has(b, p + |e|, f)
  {
    if p + |e| + |f| <= |b| {
      assert b[p..p + |e + f|] == b[p..p + |e|] + b[p + |e|..p + |e| + |f|];
      if b[p..p + |e + f|] == e + f {
        assert b[p..p + |e|] == (e + f)[..|e|] && b[p + |e|..p + |e| + |f|] == (e + f)[|e|..];
      }
    }
  }

  /** Reading back what was written. */
  lemma BitsRoundTrip(b: seq<bool>, p: nat, v: nat, n: nat)
    requires 1 <= n <= 32 && v < Pow2(n) && Has(b, p, BitsOf(v, n))
    ensures BitsAt(b, p, n) == Got(v, p + n)
  {
    ValOfBits(v, n);
    FitsIff(v, n);
  }

  /** The low bits of v below the limit, when v fits. */
  lemma LowBits(v: nat, m: nat, limit: nat)
    requires v < Pow2(m) && v < Pow2(limit)
    ensures Val(Low(BitsOf(v, m), limit)) == v
  {
    ValOfBits(v, m);
    FitsIff(v, m);
    MaskLow(BitsOf(v, m), limit);
    FitsIff(v, limit);
  }

  /** After the low s bits of v, the encoding of the rest follows. */
  lemma {:induction false} VbrFromRoundTrip(b: seq<bool>, p: nat, n: nat, limit: nat, s: nat, v: nat, r: nat)
    requires 2 <= n <= 32 && s < limit && v < Pow2(limit) && r == Shr(v, s) && Has(b, p, EncVbr(r, n))
    ensures VbrFrom(b, p, n, limit, BitsOf(v, s)) == Got(v, p + |EncVbr(r, n)|)
    decreases limit - s
  {
    var rest := Shr(r, n - 1);
    if rest == 0 {
      VbrEnds(b, p, n, limit, s, v, r);
    } else {
      ghost var more := EncVbr(rest, n);
      assert EncVbr(r, n) == BitsOf(r, n - 1) + [true] + more;
      VbrGoesOn(b, p, n, limit, s, v, r, more);
      VbrFromRoundTrip(b, p + n, n, limit, s + (n - 1), v, rest);
    }
  }

  lemma VbrEnds(b: seq<bool>, p: nat, n: nat, limit: nat, s: nat, v: nat, r: nat)
    requires 2 <= n <= 32 && s < limit && v < Pow2(limit) && r == Shr(v, s) && Shr(r, n - 1) == 0
    requires Has(b, p, BitsOf(r, n - 1) + [false])
    ensures VbrFrom(b, p, n, limit, BitsOf(v, s)) == Got(v, p + n)
  {
    BitsOfAdd(v, s, n - 1);
    ShrAdd(v, s, n - 1);
    LastChunk(b, p, n, limit, BitsOf(v, s), BitsOf(r, n - 1));
    FitsIff(v, s + (n - 1));
    LowBits(v, s + (n - 1), limit);
  }

  lemma VbrGoesOn(b: seq<bool>, p: nat, n: nat, limit: nat, s: nat, v: nat, r: nat, more: seq<bool>)
    requires 2 <= n <= 32 && s < limit && v < Pow2(limit) && r == Shr(v, s) && Shr(r, n - 1) != 0
    requires Has(b, p, BitsOf(r, n - 1) + [true] + more)
    ensures s + (n - 1) < limit && Shr(v, s + (n - 1)) == Shr(r, n - 1) && Has(b, p + n, more)
    ensures VbrFrom(b, p, n, limit, BitsOf(v, s)) == VbrFrom(b, p + n, n, limit, BitsOf(v, s + (n - 1)))
  {
    BitsOfAdd(v, s, n - 1);
    ShrAdd(v, s, n - 1);
    FitsIff(v, s + (n - 1));
    Below(s + (n - 1), limit, v);
    FlaggedChunk(b, p, n, limit, BitsOf(v, s), BitsOf(r, n - 1), more);
  }

  lemma Below(a: nat, limit: nat, v: nat)
    requires Pow2(a) <= v < Pow2(limit)
    ensures a < limit
  {
    if limit <= a { Pow2Mono(limit, a); }
  }

  lemma LastChunk(b: seq<bool>, p: nat, n: nat, limit: nat, acc: seq<bool>, data: seq<bool>)
    requires n >= 2 && |data| == n - 1 && |acc| < limit && Has(b, p, data + [false])
    ensures VbrFrom(b, p, n, limit, acc) == Got(Val(Low(acc + data, limit)), p + n)
  {
    HasBoth(b, p, data, [false]);
    assert b[p + |data|] == b[p + |data|..p + n][0];
  }

  lemma FlaggedChunk(b: seq<bool>, p: nat, n: nat, limit: nat, acc: seq<bool>, data: seq<bool>, more: seq<bool>)
    requires n >= 2 && |data| == n - 1 && |acc + data| < limit && Has(b, p, data + [true] + more)
    ensures VbrFrom(b, p, n, limit, acc) == VbrFrom(b, p + n, n, limit, acc + data) && Has(b, p + n, more)
  {
    HasBoth(b, p, data + [true], more);
    HasBoth(b, p, data, [true]);
    assert b[p + |data|] == b[p + |data|..p + n][0];
  }

  /** VBR ROUND TRIP: for every chunk width and every value below the limit, reading the
      encoding gives the value back and consumes exactly its bits. */
  lemma VbrRoundTrip(b: seq<bool>, p: nat, v: nat, n: nat, limit: nat)
    requires 2 <= n <= 32 && limit > 0 && v < Pow2(limit) && Has(b, p, EncVbr(v, n))
    ensures VbrAt(b, p, n, limit) == Got(v, p + |EncVbr(v, n)|)
  {
    VbrFromRoundTrip(b, p, n, limit, 0, v, v);
  }

  // ----- repetition -----

  /** n reads in a row, after those already done. */
  function Many<T>(read: nat -> Read<T>, p: nat, n: nat, done: seq<T>): Read<seq<T>>
    decreases n
  {
    if n == 0 then Got(done, p) else
    match read(p)
    case Fail => Fail
    case Got(x, q) => Many(read, q, n - 1, done + [x])
  }

  /** A marker that makes a read at a position visible to a proof. */
  ghost predicate Mark(p: nat) { true }

  /** Two readers are the same; used where a proof must not look into one of them. */
  ghost predicate Same<T(!new)>(read: nat -> Read<T>, f: nat -> Read<T>) {
    forall p: nat {:trigger Mark(p)} :: read(p) == f(p)
  }

  /** One read of several: the rest follows it, or it fails for all. */
  lemma ManyStep<T>(read: nat -> Read<T>, p: nat, n: nat, done: seq<T>, r: Read<T>)
    requires n > 0 && read(p) == r
    ensures Many(read, p, n, done) == if r.Fail? then Fail else Many(read, r.next, n - 1, done + [r.value])
  {
  }

  lemma {:induction false} ManyGrows<T>(read: nat -> Read<T>, p: nat, n: nat, done: seq<T>)
    requires forall q: nat :: read(q).Got? ==> q <= read(q).next
    ensures Many(read, p, n, done).Got? ==> p <= Many(read, p, n, done).next
    decreases n
  {
    if n > 0 && read(p).Got? { ManyGrows(read, read(p).next, n - 1, done + [read(p).value]); }
  }

  lemma {:induction false} ManyWithin<T>(read: nat -> Read<T>, p: nat, n: nat, done: seq<T>, top: nat)
    requires p <= top && forall q: nat :: read(q).Got? ==> read(q).next <= top
    ensures Many(read, p, n, done).Got? ==> Many(read, p, n, done).next <= top
    decreases n
  {
    if n > 0 && read(p).Got? { ManyWithin(read, read(p).next, n - 1, done + [read(p).value], top); }
  }

  function EncAll<T>(enc: T -> seq<bool>, xs: seq<T>): seq<bool> {
    if xs == [] then [] else enc(xs[0]) + EncAll(enc, xs[1..])
  }

  /** The reader undoes the encoder on x, wherever it stands in b. */
  ghost predicate Undoes<T(!new)>(b: seq<bool>, read: nat -> Read<T>, enc: T -> seq<bool>, x: T) {
    forall p: nat :: Has(b, p, enc(x)) ==> read(p) == Got(x, p + |enc(x)|)
  }

  lemma {:induction false} ManyRoundTrip<T(!new)>(b: seq<bool>, read: nat -> Read<T>, enc: T -> seq<bool>, p: nat,
                                xs: seq<T>, done: seq<T>)
    requires (forall i :: 0 <= i < |xs| ==> Undoes(b, read, enc, xs[i])) && Has(b, p, EncAll(enc, xs))
    ensures Many(read, p, |xs|, done) == Got(done + xs, p + |EncAll(enc, xs)|)
    decreases |xs|
  {
    if xs == [] {
      assert done + xs == done;
    } else {
      var x, more := xs[0], xs[1..];
      assert Undoes(b, read, enc, x);
      HasBoth(b, p, enc(x), EncAll(enc, more));
      forall i | 0 <= i < |more| ensures Undoes(b, read, enc, more[i]) { assert more[i] == xs[i + 1]; }
      ManyRoundTrip(b, read, enc, p + |enc(x)|, more, done + [x]);
      assert done + [x] + more == done + xs;
    }
  }

  // ----- the cursor -----

  /** Five bytes and a shift: the bytes that cover bits p to p + n hold them. */
  lemma Window(b: seq<bool>, p: nat, n: nat, k: nat)
    requires p % 8 + n <= 8 * k && p / 8 * 8 + 8 * k <= |b|
    ensures Mask(Shr(Val(b[p / 8 * 8..p / 8 * 8 + 8 * k]), p % 8), n) == Val(b[p..p + n])
  {
    var o := p / 8 * 8;
    var w := b[o..o + 8 * k];
    var low, mid, high := b[o..p], b[p..p + n], b[p + n..o + 8 * k];
    assert w == low + (mid + high);
    ValSplit(low, mid + high);
    ValSplit(mid, high);
  }

  /** Adding a chunk's data bits to the accumulated value, by shifts and masks. */
  lemma ChunkValue(b: seq<bool>, p: nat, n: nat, limit: nat, acc: seq<bool>, chunk: nat)
    requires n >= 2 && BitsAt(b, p, n) == Got(chunk, p + n) && |acc| < limit
    ensures Mask(Val(acc) + Shl(Mask(chunk, n - 1), |acc|), limit) == Val(Low(acc + b[p..p + n - 1], limit))
    ensures Shr(chunk, n - 1) == 0 <==> !b[p + n - 1]
  {
    var data, flag := b[p..p + n - 1], b[p + n - 1];
    assert b[p..p + n] == data + [flag];
    ValSplit(data, [flag]);
    assert Val([flag]) == if flag then 1 else 0 by { assert [flag][1..] == []; }
    ValAppend(acc, data);
    MaskLow(acc + data, limit);
  }

  /** One turn of the variable-width read loop: data bits grow from acc to data. */
  ghost predicate Turn(b: seq<bool>, p: nat, n: nat, limit: nat, acc: seq<bool>, v: nat, more: bool, data: seq<bool>)
    requires 2 <= n && |acc| < limit
  {
    && |data| == |acc| + (n - 1) && (|data| < limit ==> v == Val(data))
    && VbrFrom(b, p, n, limit, acc) == if !more then Got(v, p + n)
                                       else if |data| >= limit then Fail else VbrFrom(b, p + n, n, limit, data)
  }

  /** Add a chunk's data bits above the value so far; test its flag. */
  method JoinChunk(v0: nat, chunk: nat, n: nat, limit: nat, shift: nat, ghost b: seq<bool>, ghost p: nat,
                   ghost acc: seq<bool>)
    returns (v: nat, more: bool, ghost data: seq<bool>)
    requires 2 <= n <= 32 && BitsAt(b, p, n) == Got(chunk, p + n) && shift == |acc| < limit && v0 == Val(acc)
    ensures Turn(b, p, n, limit, acc, v, more, data)
  {
    data := acc + b[p..p + n - 1];
    ChunkValue(b, p, n, limit, acc, chunk);
    v := Mask(v0 + Shl(Mask(chunk, n - 1), shift), limit);
    more := Shr(chunk, n - 1) != 0;
  }

  lemma ChunkMissing(b: seq<bool>, p: nat, n: nat, limit: nat, acc: seq<bool>)
    requires 2 <= n <= 32 && |acc| < limit && BitsAt(b, p, n) == Fail
    ensures VbrFrom(b, p, n, limit, acc) == Fail
  {
  }

  lemma MaskLow(b: seq<bool>, limit: nat)
    ensures Mask(Val(b), limit) == Val(Low(b, limit))
  {
    if |b| <= limit {
      Pow2Mono(|b|, limit);
      FitsIff(Val(b), limit);
    } else {
      assert b == b[..limit] + b[limit..];
      ValSplit(b[..limit], b[limit..]);
    }
  }

  class Cursor {
    const buf: seq<nat>
    var pos: nat

    ghost predicate Valid() { AreBytes(buf) }
    ghost function Bits(): (b: seq<bool>)
      ensures |b| == 8 * |buf|
    {
      Stream(buf)
    }

    constructor (bytes: seq<nat>)
      requires AreBytes(bytes)
      ensures Valid() && buf == bytes && pos == 0
    {
      buf, pos := bytes, 0;
    }

    /** The loop of the bit reader: k bytes from byte o, first byte lowest. */
    method Gather(o: nat, k: nat) returns (acc: nat)
      requires Valid() && o + k <= |buf|
      ensures acc == Val(Bits()[8 * o..8 * (o + k)])
    {
      acc := 0;
      var shift, i := 0, 0;
      while i < k
        invariant 0 <= i <= k && shift == 8 * i
        invariant acc == Val(Bits()[8 * o..8 * (o + i)])
      {
        GatherNext(o, i);
        acc := acc + Shl(buf[o + i], shift);
        shift := shift + 8;
        i := i + 1;
      }
    }

    lemma GatherNext(o: nat, i: nat)
      requires Valid() && o + i < |buf|
      ensures Val(Bits()[8 * o..8 * (o + i + 1)]) == Val(Bits()[8 * o..8 * (o + i)]) + Shl(buf[o + i], 8 * i)
    {
      var b, q := Bits(), 8 * (o + i);
      var low, byte := b[8 * o..q], b[q..q + 8];
      assert b[8 * o..q + 8] == low + byte;
      ValAppend(low, byte);
      assert |low| == 8 * i && Val(byte) == buf[o + i] by { ByteValue(buf, o + i); }
    }

    method ReadBits(n: nat) returns (v: nat, err: bool)
      requires Valid()
      modifies this`pos
      ensures BitsAt(Bits(), old(pos), n) == if err then Fail else Got(v, pos)
      ensures err ==> pos == old(pos) && v == 0
    {
      if n == 0 || n > 32 { return 0, true; }
      if pos + n > |buf| * 8 { return 0, true; }
      var off, bit := pos / 8, pos % 8;
      var k := (bit + n + 7) / 8;
      var acc := Gather(off, k);
      Window(Bits(), pos, n, k);
      v, err := Mask(Shr(acc, bit), n), false;
      pos := pos + n;
    }

    method ReadBits64(n: nat) returns (v: nat, err: bool)
      requires Valid()
      modifies this`pos
      ensures WideAt(Bits(), old(pos), n) == if err then Fail else Got(v, pos)
    {
      if n == 0 || n > 64 { return 0, true; }
      if n <= 32 { v, err := ReadBits(n); return; }
      var lo, hi;
      lo, err := ReadBits(32);
      if err { return 0, true; }
      hi, err := ReadBits(n - 32);
      if err { return 0, true; }
      ghost var b, p := Bits(), old(pos);
      assert b[p..p + n] == b[p..p + 32] + b[p + 32..p + n];
      ValAppend(b[p..p + 32], b[p + 32..p + n]);
      v := lo + Shl(hi, 32);
    }

    /** One chunk of a variable-width read. */
    method ReadChunk(n: nat, limit: nat, v0: nat, shift: nat, ghost acc0: seq<bool>)
      returns (v: nat, more: bool, err: bool, ghost acc: seq<bool>)
      requires Valid() && 2 <= n <= 32 && shift == |acc0| < limit && v0 == Val(acc0)
      modifies this`pos
      ensures err ==> VbrFrom(Bits(), old(pos), n, limit, acc0) == Fail
      ensures !err ==> Turn(Bits(), old(pos), n, limit, acc0, v, more, acc) && pos == old(pos) + n
    {
      v, more, acc := 0, false, [];
      var chunk;
      chunk, err := ReadBits(n);
      if err {
        ChunkMissing(Bits(), pos, n, limit, acc0);
      } else {
        v, more, acc := JoinChunk(v0, chunk, n, limit, shift, Bits(), pos - n, acc0);
      }
    }

    /** Both variable-width readers: limit is 32 or 64. */
    method ReadVbr(n: nat, limit: nat) returns (v: nat, err: bool)
      requires Valid() && limit > 0
      modifies this`pos
      ensures VbrAt(Bits(), old(pos), n, limit) == if err then Fail else Got(v, pos)
    {
      if n < 2 || n > 32 { return 0, true; }
      v := 0;
      var shift := 0;
      ghost var acc, whole := [], VbrAt(Bits(), pos, n, limit);
      while true
        invariant shift == |acc| < limit && v == Val(acc)
        invariant whole == VbrFrom(Bits(), pos, n, limit, acc)
        decreases limit - shift
      {
        var more;
        v, more, err, acc := ReadChunk(n, limit, v, shift, acc);
        if err { return 0, true; }
        if !more { return v, false; }
        shift := shift + (n - 1);
        if shift >= limit { return 0, true; }
      }
    }

    method AlignTo32()
      modifies this`pos
      ensures pos == Align32(old(pos))
    {
      pos := (pos + 31) / 32 * 32;
    }

    method Seek(p: nat) returns (ok: bool)
      modifies this`pos
      ensures ok == (p <= 8 * |buf|) && pos == if ok then p else old(pos)
    {
      ok := p <= |buf| * 8;
      if ok { pos := p; }
    }
  }
}
