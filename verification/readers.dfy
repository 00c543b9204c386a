/** The bitstream reader as a program: each procedure moves the shared cursor and is
    proved against the function that says what stands at a position. */
module Readers {
  import opened Wrappers
  import opened Bits
  import opened Bitstream
  import opened Abbrev
  import opened Records
  import opened Blocks

  // ----- patterns -----

  method ReadEncoding(c: Cursor) returns (op: Op, ok: bool)
    requires c.Valid()
    modifies c`pos
    ensures EncodingAt(c.Bits(), old(c.pos)) == if ok then Got(op, c.pos) else Fail
  {
    op := Array;
    var e, err := c.ReadBits(3);
    if err { return op, false; }
    if e == 1 || e == 2 {
      var w;
      w, err := c.ReadVbr(5, 32);
      return if e == 1 then Fixed(w) else Vbr(w), !err;
    }
    if e == 3 { return Array, true; }
    if e == 4 { return Char6, true; }
    if e == 5 { return Blob, true; }
    return op, false;
  }

  method ReadOp(c: Cursor) returns (op: Op, ok: bool)
    requires c.Valid()
    modifies c`pos
    ensures OpAt(c.Bits(), old(c.pos)) == if ok then Got(op, c.pos) else Fail
  {
    op := Array;
    var literal, err := c.ReadBits(1);
    if err { return op, false; }
    if literal != 0 {
      var v;
      v, err := c.ReadVbr(8, 64);
      return Literal(v), !err;
    }
    op, ok := ReadEncoding(c);
  }

  method ReadOpBy(c: Cursor, ghost read: nat -> Read<Op>) returns (op: Op, ok: bool)
    requires c.Valid() && Same(read, OpReader(c.Bits()))
    modifies c`pos
    ensures read(old(c.pos)) == if ok then Got(op, c.pos) else Fail
  {
    assert Mark(c.pos);
    op, ok := ReadOp(c);
  }

  method ReadOps(c: Cursor, n: nat, ghost read: nat -> Read<Op>) returns (ops: Pattern, ok: bool)
    requires c.Valid() && Same(read, OpReader(c.Bits()))
    modifies c`pos
    ensures Many(read, old(c.pos), n, []) == if ok then Got(ops, c.pos) else Fail
  {
    ops := [];
    ghost var p := c.pos;
    var i := 0;
    while i < n
      invariant i <= n
      invariant Many(read, p, n, []) == Many(read, c.pos, n - i, ops)
    {
      var op;
      op, ok := ReadOpBy(c, read);
      if !ok { return ops, false; }
      ops := ops + [op];
      i := i + 1;
    }
    return ops, true;
  }

  method ReadPattern(c: Cursor) returns (ops: Pattern, ok: bool)
    requires c.Valid()
    modifies c`pos
    ensures PatternAt(c.Bits(), old(c.pos)) == if ok then Got(ops, c.pos) else Fail
  {
    var n, err := c.ReadVbr(5, 32);
    if err || n == 0 || n > MAX_OPS { return [], false; }
    ops, ok := ReadOps(c, n, OpReader(c.Bits()));
  }

  /** The abbreviations of a block; abbreviation id 4 + i is entry i. */
  class Table {
    var entries: seq<Pattern>

    constructor ()
      ensures entries == []
    {
      entries := [];
    }

    method Define(c: Cursor) returns (ok: bool)
      requires c.Valid()
      modifies this, c`pos
      ensures ok == (|old(entries)| < MAX_PER_BLOCK && PatternAt(c.Bits(), old(c.pos)).Got?)
      ensures entries == old(entries) + if ok then [PatternAt(c.Bits(), old(c.pos)).value] else []
      ensures ok ==> c.pos == PatternAt(c.Bits(), old(c.pos)).next
    {
      if |entries| >= MAX_PER_BLOCK { return false; }
      var pat;
      pat, ok := ReadPattern(c);
      if ok { entries := entries + [pat]; }
    }

    method Copy(src: seq<Pattern>) returns (ok: bool)
      modifies this
      ensures ok == (|src| + |old(entries)| <= MAX_PER_BLOCK)
      ensures entries == if ok then old(entries) + src else old(entries)
    {
      if |src| + |entries| > MAX_PER_BLOCK { return false; }
      ghost var was := entries;
      var i := 0;
      while i < |src|
        invariant 0 <= i <= |src| && entries == was + src[..i]
      {
        entries := entries + [src[i]];
        i := i + 1;
      }
      return true;
    }
  }

  // ----- records -----

  method ReadFixed(w: nat, c: Cursor) returns (v: nat, ok: bool)
    requires c.Valid()
    modifies c`pos
    ensures ValueAt(c.Bits(), old(c.pos), Fixed(w)) == if ok then Got(v, c.pos) else Fail
  {
    if w == 0 { return 0, true; }
    var err;
    if w > 32 {
      var lo, hi;
      lo, err := c.ReadBits(32);
      if err { return 0, false; }
      hi, err := c.ReadBits(w - 32);
      if err { return 0, false; }
      return lo + Shl(hi, 32), true;
    }
    v, err := c.ReadBits(w);
    ok := !err;
  }

  method ReadValue(op: Op, c: Cursor) returns (v: nat, ok: bool)
    requires c.Valid()
    modifies c`pos
    ensures ValueAt(c.Bits(), old(c.pos), op) == if ok then Got(v, c.pos) else Fail
  {
    var err;
    match op
    case Literal(u) => return u, true;
    case Fixed(w) => v, ok := ReadFixed(w, c);
    case Vbr(w) =>
      v, err := c.ReadVbr(w, 64);
      ok := !err;
    case Char6 =>
      v, err := c.ReadBits(6);
      return Char6Decode(v), !err;
    case _ => return 0, false;
  }

  method ReadValueBy(op: Op, c: Cursor, ghost read: nat -> Read<nat>) returns (v: nat, ok: bool)
    requires c.Valid() && Same(read, ValueReader(c.Bits(), op))
    modifies c`pos
    ensures read(old(c.pos)) == if ok then Got(v, c.pos) else Fail
  {
    assert Mark(c.pos);
    v, ok := ReadValue(op, c);
  }

  method ReadValues(op: Op, n: nat, c: Cursor, a0: Acc, ghost read: nat -> Read<nat>)
    returns (a: Acc, ok: bool, ghost vs: seq<nat>)
    requires c.Valid() && Same(read, ValueReader(c.Bits(), op))
    modifies c`pos
    ensures Many(read, old(c.pos), n, []) == if ok then Got(vs, c.pos) else Fail
    ensures ok ==> a == PushAll(a0, vs)
  {
    a, vs := a0, [];
    ghost var p := c.pos;
    var i := 0;
    while i < n
      invariant i <= n && a == PushAll(a0, vs)
      invariant Many(read, p, n, []) == Many(read, c.pos, n - i, vs)
    {
      var v;
      v, ok := ReadValueBy(op, c, read);
      if !ok { return; }
      PushNext(a0, vs, v);
      a, vs := a.Push(v), vs + [v];
      i := i + 1;
    }
    ok := true;
  }

  lemma PushNext(a: Acc, vs: seq<nat>, v: nat)
    ensures PushAll(a, vs + [v]) == PushAll(a, vs).Push(v)
  {
    assert (vs + [v])[..|vs|] == vs;
  }

  method ReadList(elem: Op, c: Cursor, a0: Acc) returns (a: Acc, ok: bool)
    requires c.Valid()
    modifies c`pos
    ensures ListAt(c.Bits(), old(c.pos), LENGTH_WIDTH, elem, a0) == if ok then Got(a, c.pos) else Fail
  {
    var n, err := c.ReadVbr(LENGTH_WIDTH, 32);
    if err || (|a0.ops| + n) % WORD > MAX_RECORD_OPS {
      ListStops(c.Bits(), old(c.pos), LENGTH_WIDTH, elem, a0);
      return a0, false;
    }
    ghost var vs, q := [], c.pos;
    a, ok, vs := ReadValues(elem, n, c, a0, ValueReader(c.Bits(), elem));
    ListIs(c.Bits(), old(c.pos), LENGTH_WIDTH, elem, a0, n, q, if ok then Got(vs, c.pos) else Fail);
  }

  lemma ListStops(b: seq<bool>, p: nat, w: nat, elem: Op, a: Acc)
    requires VbrAt(b, p, w, 32).Got? ==> !Room(a, VbrAt(b, p, w, 32).value)
    ensures ListAt(b, p, w, elem, a) == Fail
  {
  }

  lemma ListIs(b: seq<bool>, p: nat, w: nat, elem: Op, a: Acc, n: nat, q: nat, r: Read<seq<nat>>)
    requires VbrAt(b, p, w, 32) == Got(n, q) && Room(a, n) && Many(ValueReader(b, elem), q, n, []) == r
    ensures ListAt(b, p, w, elem, a) == if r.Fail? then Fail else Got(PushAll(a, r.value), r.next)
  {
  }

  predicate ByteIs(b: seq<bool>, p: nat, v: nat) { p + 8 <= |b| && Val(b[p..p + 8]) == v }

  lemma SameBytes(buf: seq<nat>, o: nat, n: nat)
    requires AreBytes(buf) && o + n <= |buf|
    ensures BytesAt(Stream(buf), 8 * o, n) == buf[o..o + n]
  {
    var b, y := Stream(buf), buf[o..o + n];
    StreamHolds(buf, o, n);
    SliceHeld(b, buf, o, n, y);
    BytesFrom(b, 8 * o, n, y);
  }

  lemma SliceHeld(b: seq<bool>, buf: seq<nat>, o: nat, n: nat, y: seq<nat>)
    requires AreBytes(buf) && o + n <= |buf| && b == Stream(buf) && y == buf[o..o + n]
    ensures forall i {:trigger y[i]} :: 0 <= i < n ==> ByteIs(b, 8 * o + 8 * i, y[i])
  {
    forall i {:trigger y[i]} | 0 <= i < n ensures ByteIs(b, 8 * o + 8 * i, y[i]) { SameByte(buf, o, i); }
  }

  lemma BytesFrom(b: seq<bool>, p: nat, n: nat, ys: seq<nat>)
    requires |ys| == n && p + 8 * n <= |b| && forall i {:trigger ys[i]} :: 0 <= i < n ==> ByteIs(b, p + 8 * i, ys[i])
    ensures BytesAt(b, p, n) == ys
  {
  }

  lemma StreamHolds(buf: seq<nat>, o: nat, n: nat)
    requires o + n <= |buf|
    ensures 8 * o + 8 * n <= |Stream(buf)|
  {
  }

  lemma SameByte(buf: seq<nat>, o: nat, i: nat)
    requires AreBytes(buf) && o + i < |buf|
    ensures ByteIs(Stream(buf), 8 * o + 8 * i, buf[o + i])
  {
    ByteAt(buf, o + i, 8 * o + 8 * i);
  }

  lemma ByteAt(buf: seq<nat>, k: nat, j: nat)
    requires AreBytes(buf) && k < |buf| && j == 8 * k
    ensures ByteIs(Stream(buf), j, buf[k])
  {
    ByteValue(buf, k);
  }

  method ReadBlob(c: Cursor, a0: Acc) returns (a: Acc, ok: bool)
    requires c.Valid()
    modifies c`pos
    ensures BlobAt(c.Bits(), old(c.pos), LENGTH_WIDTH, a0) == if ok then Got(a, c.pos) else Fail
  {
    var n, err := c.ReadVbr(LENGTH_WIDTH, 32);
    if err { return a0, false; }
    ghost var q := c.pos;
    c.AlignTo32();
    var off := c.pos / 8;
    if off + n > |c.buf| {
      BlobTooLong(c.Bits(), old(c.pos), LENGTH_WIDTH, a0, n, q);
      return a0, false;
    }
    var bytes := c.buf[off..off + n];
    Aligned8(c.pos, off);
    SameBytes(c.buf, off, n);
    BlobOf(c.Bits(), old(c.pos), LENGTH_WIDTH, a0, q, c.pos, bytes);
    c.pos := c.pos + 8 * n;
    c.AlignTo32();
    return a0.(blob := Some(bytes)), true;
  }

  lemma Aligned8(s: nat, off: nat)
    requires s % 32 == 0 && off == s / 8
    ensures s == 8 * off
  {
  }

  lemma BlobTooLong(b: seq<bool>, p: nat, w: nat, a: Acc, n: nat, q: nat)
    requires VbrAt(b, p, w, 32) == Got(n, q) && Align32(q) / 8 + n > |b| / 8
    ensures BlobAt(b, p, w, a) == Fail
  {
  }

  method ReadField(pat: Pattern, i: nat, c: Cursor, a0: Acc) returns (a: Acc, ok: bool)
    requires c.Valid() && i < |pat|
    modifies c`pos
    ensures FieldAt(c.Bits(), pat, i, old(c.pos), a0) == if ok then Got(a, c.pos) else Fail
  {
    if pat[i].Array? {
      if i + 1 >= |pat| { return a0, false; }
      a, ok := ReadList(pat[i + 1], c, a0);
    } else if pat[i].Blob? {
      a, ok := ReadBlob(c, a0);
    } else {
      var v;
      v, ok := ReadValue(pat[i], c);
      if !ok || (a0.code.Some? && |a0.ops| >= MAX_RECORD_OPS) { return a0, false; }
      a := a0.Push(v);
    }
  }

  method ReadRecord(pat: Pattern, c: Cursor) returns (r: Record, ok: bool)
    requires c.Valid()
    modifies c`pos
    ensures RecordAt(c.Bits(), pat, old(c.pos)) == if ok then Got(r, c.pos) else Fail
  {
    r := Record(0, [], None);
    ghost var read, extra := FieldReader(c.Bits(), pat), Extra(pat);
    ghost var whole := RecordFrom(read, extra, |pat|, 0, c.pos, EMPTY);
    var a, i := EMPTY, 0;
    while i < |pat|
      invariant whole == RecordFrom(read, extra, |pat|, i, c.pos, a)
    {
      a, ok := ReadField(pat, i, c, a);
      if !ok { return r, false; }
      i := if pat[i].Array? then i + 2 else i + 1;
    }
    if a.code.None? { return r, false; }
    return Record(a.code.value, a.ops, a.blob), true;
  }

  // ----- blocks -----

  method ReadHeader(c: Cursor) returns (blk: Block, ok: bool)
    requires c.Valid()
    modifies c`pos
    ensures HeaderAt(PrimsOf(c.Bits()), old(c.pos)) == if ok then Got(blk, c.pos) else Fail
  {
    blk := Block(0, 0, 0, []);
    var id, err := c.ReadVbr(8, 32);
    if err { return blk, false; }
    var width;
    width, err := c.ReadVbr(4, 32);
    if err { return blk, false; }
    if width == 0 || width > MAX_ABBREV_WIDTH { return blk, false; }
    c.AlignTo32();
    var words;
    words, err := c.ReadBits(32);
    if err { return blk, false; }
    return Block(id, width, c.pos + 32 * words, []), true;
  }

  /** Give a fresh block the abbreviations that BLOCKINFO has for its id. */
  method InstallTable(blk: Block, info: Option<Info>) returns (out: Block, ok: bool)
    ensures Install(blk, info) == if ok then Some(out) else None
  {
    out, ok := blk, true;
    if info.Some? && blk.id < MAX_BLOCK_IDS {
      var t := new Table();
      ok := t.Copy(info.value(blk.id));
      assert [] + info.value(blk.id) == info.value(blk.id);
      out := blk.(table := t.entries);
    }
  }

  method Enter(c: Cursor, w: nat, info: Option<Info>) returns (blk: Block, ok: bool)
    requires c.Valid()
    modifies c`pos
    ensures EnterAt(PrimsOf(c.Bits()), old(c.pos), w, info) == if ok then Got(blk, c.pos) else Fail
  {
    blk := Block(0, 0, 0, []);
    var code, err := c.ReadBits(w);
    if err || code != ENTER_SUBBLOCK { return blk, false; }
    blk, ok := ReadHeader(c);
    if ok { blk, ok := InstallTable(blk, info); }
  }

  method Skip(c: Cursor, w: nat) returns (ok: bool)
    requires c.Valid()
    modifies c`pos
    ensures SkipAt(PrimsOf(c.Bits()), old(c.pos), w) == if ok then Got((), c.pos) else Fail
  {
    var blk;
    blk, ok := Enter(c, w, None);
    if ok { ok := c.Seek(blk.end); }
  }

  method ReadPlain(c: Cursor, w: nat) returns (r: Record, ok: bool)
    requires c.Valid()
    modifies c`pos
    ensures PlainAt(c.Bits(), old(c.pos), w) == if ok then Got(r, c.pos) else Fail
  {
    r := Record(0, [], None);
    var code, err := c.ReadVbr(w, 32);
    if err { return r, false; }
    var n;
    n, err := c.ReadVbr(w, 32);
    if err || n > MAX_RECORD_OPS { return r, false; }
    var ops;
    ops, ok := ReadVbrs(c, w, n);
    r := Record(code, ops, None);
  }

  method ReadVbrs(c: Cursor, w: nat, n: nat) returns (ops: seq<nat>, ok: bool)
    requires c.Valid()
    modifies c`pos
    ensures Many(VbrReader(c.Bits(), w), old(c.pos), n, []) == if ok then Got(ops, c.pos) else Fail
  {
    ops := [];
    ghost var read, p := VbrReader(c.Bits(), w), c.pos;
    var i := 0;
    while i < n
      invariant i <= n
      invariant Many(read, p, n, []) == Many(read, c.pos, n - i, ops)
    {
      ghost var q := c.pos;
      var v, err := c.ReadVbr(w, 64);
      ManyStep(read, q, n - i, ops, if err then Fail else Got(v, c.pos));
      if err { return ops, false; }
      ops := ops + [v];
      i := i + 1;
    }
    return ops, true;
  }

  /** The next thing in a block.  A sub-block is peeked at and the cursor put back. */
  method Next(c: Cursor, blk: Block) returns (s: Step)
    requires c.Valid()
    modifies c`pos
    ensures s == NextAt(PrimsOf(c.Bits()), blk, old(c.pos))
    ensures s.SubBlock? ==> c.pos == old(c.pos)
    ensures s.Ended? || s.Defined? || s.Rec? ==> c.pos == s.next
  {
    if c.pos >= blk.end { return Ended(c.pos); }
    var code, err := c.ReadBits(blk.width);
    if err { return Failed; }
    if code == END_BLOCK {
      c.AlignTo32();
      return Ended(c.pos);
    }
    if code == ENTER_SUBBLOCK {
      var back := c.pos;
      var id;
      id, err := c.ReadVbr(8, 32);
      if err { return Failed; }
      var ok := c.Seek(back - blk.width);
      return SubBlock(id);
    }
    s := NextLeaf(c, blk.table, code);
  }

  method NextLeaf(c: Cursor, table: seq<Pattern>, code: nat) returns (s: Step)
    requires c.Valid() && code >= 2
    modifies c`pos
    ensures s == CodeAt(PrimsOf(c.Bits()), table, code, old(c.pos))
    ensures !s.SubBlock? && !s.Ended? && (s.Defined? || s.Rec? ==> c.pos == s.next)
  {
    var ok: bool;
    if code == DEFINE_ABBREV {
      if |table| >= MAX_PER_BLOCK { return Failed; }
      var pat;
      pat, ok := ReadPattern(c);
      return if ok then Defined(pat, c.pos) else Failed;
    }
    var r;
    if code == UNABBREV_RECORD {
      r, ok := ReadPlain(c, 6);
    } else {
      if code - 4 >= |table| { return Failed; }
      r, ok := ReadRecord(table[code - 4], c);
    }
    return if ok then Rec(r, c.pos) else Failed;
  }
}
