/** The bitstream reader, rule by rule: exactly which bits are accepted, what they mean, and
    where the reader stops.  Numbers are those of the LLVM Bitcode File Format. */
module FormatRules {
  import opened Wrappers
  import opened Bits
  import opened Bitstream
  import opened Abbrev
  import opened Records
  import opened Blocks
  import opened Walking

  // ----- numbers -----

  /** A fixed-width field: 1 to 32 bits, all there. */
  lemma BitsExactly(b: seq<bool>, p: nat, n: nat)
    ensures BitsAt(b, p, n) == if 1 <= n <= 32 && p + n <= |b| then Got(Val(b[p..p + n]), p + n) else Fail
  {
  }

  /** A field of up to 64 bits, read in two halves. */
  lemma WideExactly(b: seq<bool>, p: nat, n: nat)
    ensures WideAt(b, p, n) == if 1 <= n <= 64 && p + n <= |b| then Got(Val(b[p..p + n]), p + n) else Fail
  {
  }

  /** Chunks of data bits: each with a bit behind it that says whether another follows. */
  function Chunks(ds: seq<seq<bool>>): seq<bool>
    requires ds != []
  {
    if |ds| == 1 then ds[0] + [false] else ds[0] + [true] + Chunks(ds[1..])
  }

  function Flat(ds: seq<seq<bool>>): seq<bool> { if ds == [] then [] else ds[0] + Flat(ds[1..]) }

  /** At least one chunk, each with n - 1 data bits, and fewer than `room` before the last. */
  predicate Cut(ds: seq<seq<bool>>, n: nat, room: nat) {
    && ds != [] && |Flat(ds[..|ds| - 1])| < room && forall i :: 0 <= i < |ds| ==> |ds[i]| + 1 == n
  }

  lemma {:induction false} ChunksRead(b: seq<bool>, p: nat, n: nat, limit: nat, acc: seq<bool>, ds: seq<seq<bool>>,
                                  room: nat)
    requires n >= 2 && |acc| < limit == |acc| + room && Cut(ds, n, room) && Has(b, p, Chunks(ds))
    ensures VbrFrom(b, p, n, limit, acc) == Got(Val(Low(acc + Flat(ds), limit)), p + |Chunks(ds)|)
    decreases |ds|
  {
    if |ds| == 1 {
      OnlyChunk(b, p, n, limit, acc, ds[0], ds);
    } else {
      var d, rest := CutRest(ds, n, room);
      var more := acc + d;
      ChunksStep(b, p, n, limit, acc, d, rest, ds, more);
      ChunksRead(b, p + n, n, limit, more, rest, room - |d|);
    }
  }

  lemma OnlyChunk(b: seq<bool>, p: nat, n: nat, limit: nat, acc: seq<bool>, d: seq<bool>, ds: seq<seq<bool>>)
    requires n >= 2 && |acc| < limit && |d| + 1 == n && ds == [d] && Has(b, p, Chunks(ds))
    ensures VbrFrom(b, p, n, limit, acc) == Got(Val(Low(acc + Flat(ds), limit)), p + |Chunks(ds)|)
  {
    assert ds[1..] == [] && d + [] == d;
    LastChunk(b, p, n, limit, acc, d);
  }

  lemma ChunksStep(b: seq<bool>, p: nat, n: nat, limit: nat, acc: seq<bool>, d: seq<bool>, rest: seq<seq<bool>>,
                   ds: seq<seq<bool>>, more: seq<bool>)
    requires n >= 2 && |acc + d| < limit && |d| + 1 == n && rest != [] && ds == [d] + rest && Has(b, p, Chunks(ds))
    requires more == acc + d
    ensures Has(b, p + n, Chunks(rest)) && |Chunks(ds)| == n + |Chunks(rest)|
    ensures VbrFrom(b, p, n, limit, acc) == VbrFrom(b, p + n, n, limit, more)
    ensures acc + Flat(ds) == more + Flat(rest)
  {
    assert ds[1..] == rest;
    HasBoth(b, p, d + [true], Chunks(rest));
    ChunkThen(b, p, n, limit, acc, d);
    Regroup(acc, d, Flat(rest));
  }

  lemma ChunkThen(b: seq<bool>, p: nat, n: nat, limit: nat, acc: seq<bool>, d: seq<bool>)
    requires n >= 2 && |acc + d| < limit && |d| + 1 == n && Has(b, p, d + [true])
    ensures VbrFrom(b, p, n, limit, acc) == VbrFrom(b, p + n, n, limit, acc + d)
  {
    FirstChunk(b, p, n, d);
  }

  lemma FirstChunk(b: seq<bool>, p: nat, n: nat, d: seq<bool>)
    requires |d| + 1 == n && Has(b, p, d + [true])
    ensures p + n <= |b| && b[p..p + n - 1] == d && b[p + n - 1]
  {
    HasBoth(b, p, d, [true]);
    assert b[p + |d|..p + |d| + 1] == [b[p + |d|]];
  }

  lemma CutRest(ds: seq<seq<bool>>, n: nat, room: nat) returns (d: seq<bool>, rest: seq<seq<bool>>)
    requires Cut(ds, n, room) && |ds| > 1
    ensures ds == [d] + rest && |rest| == |ds| - 1 && |d| + 1 == n && |d| < room && Cut(rest, n, room - |d|)
  {
    d, rest := ds[0], ds[1..];
    assert ds[..|ds| - 1][1..] == rest[..|rest| - 1];
  }

  lemma {:induction false} ReadChunks(b: seq<bool>, p: nat, n: nat, limit: nat, acc: seq<bool>)
    returns (ds: seq<seq<bool>>)
    requires n >= 2 && |acc| < limit && VbrFrom(b, p, n, limit, acc).Got?
    ensures Cut(ds, n, limit - |acc|) && Has(b, p, Chunks(ds))
    decreases limit - |acc|
  {
    var d := b[p..p + n - 1];
    if !b[p + n - 1] {
      ds := [d];
      assert b[p..p + n] == d + [false];
    } else {
      var rest := ReadChunks(b, p + n, n, limit, acc + d);
      ds := [d] + rest;
      Joined(b, p, n, d, rest);
      assert ds[1..] == rest && ds[..|ds| - 1] == [d] + rest[..|rest| - 1];
      assert ([d] + rest[..|rest| - 1])[1..] == rest[..|rest| - 1];
    }
  }

  lemma Joined(b: seq<bool>, p: nat, n: nat, d: seq<bool>, rest: seq<seq<bool>>)
    requires n >= 2 && p + n <= |b| && d == b[p..p + n - 1] && b[p + n - 1] && rest != []
    requires Has(b, p + n, Chunks(rest))
    ensures Has(b, p, Chunks([d] + rest))
  {
    var e := Chunks(rest);
    assert ([d] + rest)[1..] == rest;
    assert b[p..p + n] == d + [true];
    assert b[p..p + n + |e|] == b[p..p + n] + b[p + n..p + n + |e|];
  }

  /** A VARIABLE-WIDTH NUMBER, exactly: chunks of 2 to 32 bits, with fewer than `limit` data bits
      before the last; the value is the data bits of all of them, cut at the limit.  Whatever
      does not start with such chunks fails. */
  lemma VbrExactly(b: seq<bool>, p: nat, n: nat, limit: nat) returns (ds: seq<seq<bool>>)
    requires limit > 0
    ensures n < 2 || n > 32 ==> VbrAt(b, p, n, limit).Fail?
    ensures VbrAt(b, p, n, limit).Got? ==> Cut(ds, n, limit) && Has(b, p, Chunks(ds))
    ensures 2 <= n <= 32 ==> forall es :: Cut(es, n, limit) && Has(b, p, Chunks(es)) ==>
              VbrAt(b, p, n, limit) == Got(Val(Low(Flat(es), limit)), p + |Chunks(es)|)
  {
    ds := [];
    if 2 <= n <= 32 {
      if VbrAt(b, p, n, limit).Got? { ds := ReadChunks(b, p, n, limit, []); }
      forall es | Cut(es, n, limit) && Has(b, p, Chunks(es))
        ensures VbrAt(b, p, n, limit) == Got(Val(Low(Flat(es), limit)), p + |Chunks(es)|)
      {
        ChunksRead(b, p, n, limit, [], es, limit);
        assert [] + Flat(es) == Flat(es);
      }
    }
  }

  // ----- abbreviations -----

  /** One operand of an abbreviation: a bit 1 and a value in chunks of 8; or a bit 0, three bits
      1 to 5 for fixed, VBR, array, char6 and blob, and for the first two a width in chunks of 5. */
  lemma OpExactly(b: seq<bool>, p: nat)
    requires p + 4 <= |b|
    ensures b[p] ==> OpAt(b, p) == (match VbrAt(b, p + 1, 8, 64) case Fail => Fail case Got(v, r) => Got(Literal(v), r))
    ensures !b[p] ==>
              var e, w := Val(b[p + 1..p + 4]), VbrAt(b, p + 4, 5, 32);
              OpAt(b, p) == if e == 1 && w.Got? then Got(Fixed(w.value), w.next)
                            else if e == 2 && w.Got? then Got(Vbr(w.value), w.next)
                            else if e == 3 then Got(Array, p + 4)
                            else if e == 4 then Got(Char6, p + 4)
                            else if e == 5 then Got(Blob, p + 4)
                            else Fail
  {
    OneBit(b, p);
  }

  lemma OneBit(b: seq<bool>, p: nat)
    requires p < |b|
    ensures BitsAt(b, p, 1) == Got(if b[p] then 1 else 0, p + 1)
  {
    assert b[p..p + 1] == [b[p]] && [b[p]][1..] == [];
  }

  /** An abbreviation: 1 to 64 operands, the number in chunks of 5. */
  lemma PatternExactly(b: seq<bool>, p: nat)
    ensures var n := VbrAt(b, p, 5, 32);
            PatternAt(b, p) == if n.Got? && 1 <= n.value <= 64 then Many(OpReader(b), n.next, n.value, []) else Fail
  {
  }

  /** The characters of six bits: small letters, capitals, digits, dot and underscore. */
  function Character(v: nat): nat {
    if v < 26 then 'a' as nat + v
    else if v < 52 then 'A' as nat + (v - 26)
    else if v < 62 then '0' as nat + (v - 52)
    else if v == 62 then '.' as nat else '_' as nat
  }

  /** One value: a literal takes no bits, nor does a field of width 0; up to 64 fixed bits, the
      low ones first; VBR up to 64 bits; six bits for a character.  Arrays and blobs are not
      values. */
  lemma ValueExactly(b: seq<bool>, p: nat, op: Op)
    requires p <= |b|
    ensures match op
            case Literal(v) => ValueAt(b, p, op) == Got(v, p)
            case Fixed(w) =>
              (if w > 64 || p + w > |b| then ValueAt(b, p, op) == if w == 0 then Got(0, p) else Fail
               else ValueAt(b, p, op) == Got(Val(b[p..p + w]), p + w))
            case Vbr(w) => ValueAt(b, p, op) == VbrAt(b, p, w, 64)
            case Char6 =>
              (if p + 6 > |b| then ValueAt(b, p, op) == Fail
               else ValueAt(b, p, op) == Got(Character(Val(b[p..p + 6])), p + 6))
            case _ => ValueAt(b, p, op) == Fail
  {
    match op
    case Fixed(w) => FixedExactly(b, p, w);
    case _ =>
  }

  lemma FixedExactly(b: seq<bool>, p: nat, w: nat)
    requires p <= |b|
    ensures if w > 64 || p + w > |b| then ValueAt(b, p, Fixed(w)) == if w == 0 then Got(0, p) else Fail
            else ValueAt(b, p, Fixed(w)) == Got(Val(b[p..p + w]), p + w)
  {
    if w == 0 {
      assert b[p..p] == [];
    } else if 32 < w <= 64 && p + w <= |b| {
      assert b[p..p + w] == b[p..p + 32] + b[p + 32..p + w];
      ValAppend(b[p..p + 32], b[p + 32..p + w]);
    }
  }

  // ----- records -----

  /** One scalar field: the first is the code, cut to 32 bits; at most 1024 operands. */
  lemma ScalarExactly(b: seq<bool>, p: nat, op: Op, a: Acc)
    ensures var v := ValueAt(b, p, op);
            ScalarAt(b, p, op, a) ==
            if v.Fail? || (a.code.Some? && |a.ops| >= 1024) then Fail
            else if a.code.None? then Got(a.(code := Some(v.value % 0x1_0000_0000)), v.next)
            else Got(a.(ops := a.ops + [v.value]), v.next)
  {
  }

  /** An array: its length in chunks of 6, checked in 32 bits against 1024, then its elements. */
  lemma ListExactly(b: seq<bool>, pat: Pattern, i: nat, p: nat, a: Acc)
    requires i < |pat| && pat[i].Array?
    ensures var n := VbrAt(b, p, 6, 32);
            FieldAt(b, pat, i, p, a) ==
            if i + 1 >= |pat| || n.Fail? || (|a.ops| + n.value) % 0x1_0000_0000 > 1024 then Fail
            else var vs := Many(ValueReader(b, pat[i + 1]), n.next, n.value, []);
                 if vs.Fail? then Fail else Got(PushAll(a, vs.value), vs.next)
  {
  }

  /** A blob: its length in chunks of 6, then from the next multiple of 32 its bytes, all within
      the stream, up to the next multiple of 32. */
  lemma BlobExactly(b: seq<bool>, pat: Pattern, i: nat, p: nat, a: Acc)
    requires i < |pat| && pat[i].Blob?
    ensures var n := VbrAt(b, p, 6, 32);
            if n.Fail? then FieldAt(b, pat, i, p, a) == Fail else
            var s := (n.next + 31) / 32 * 32;
            if s / 8 + n.value > |b| / 8 then FieldAt(b, pat, i, p, a) == Fail
            else s + 8 * n.value <= |b|
                 && FieldAt(b, pat, i, p, a)
                    == Got(a.(blob := Some(BytesAt(b, s, n.value))), (s + 8 * n.value + 31) / 32 * 32)
  {
    var n := VbrAt(b, p, 6, 32);
    if n.Got? {
      var s := (n.next + 31) / 32 * 32;
      if s / 8 + n.value <= |b| / 8 { ByteRoom(s, n.value, |b|); }
    }
  }

  /** A record without a code is none; an array takes the operand behind it with it. */
  lemma RecordExactly(b: seq<bool>, pat: Pattern, i: nat, p: nat, a: Acc)
    ensures var read := FieldReader(b, pat);
            RecordFrom(read, Extra(pat), |pat|, i, p, a) ==
            if i >= |pat| then if a.code.None? then Fail else Got(Record(a.code.value, a.ops, a.blob), p)
            else if read(i, p, a).Fail? then Fail
            else RecordFrom(read, Extra(pat), |pat|, if pat[i].Array? then i + 2 else i + 1, read(i, p, a).next,
                            read(i, p, a).value)
  {
  }

  /** An unabbreviated record: code, number of operands (at most 1024) and operands in chunks
      of 6. */
  lemma PlainExactly(b: seq<bool>, p: nat)
    ensures var code := VbrAt(b, p, 6, 32);
            var n := if code.Fail? then Fail else VbrAt(b, code.next, 6, 32);
            PrimsOf(b).plain(p) ==
            if n.Fail? || n.value > 1024 then Fail
            else var ops := Many(VbrReader(b, 6), n.next, n.value, []);
                 if ops.Fail? then Fail else Got(Record(code.value, ops.value, None), ops.next)
  {
  }

  // ----- blocks -----

  /** What comes next in a block, by abbreviation id: 0 ends it, at the next multiple of 32; 1 is
      a sub-block, whose id is looked at; 2 defines an abbreviation, while there are fewer than
      64; 3 is an unabbreviated record; from 4 on, a record of the block's abbreviations. */
  lemma NextExactly(rs: Prims, blk: Block, p: nat)
    ensures p >= blk.end ==> NextAt(rs, blk, p) == Ended(p)
    ensures p < blk.end && rs.bits(p, blk.width).Fail? ==> NextAt(rs, blk, p) == Failed
    ensures p < blk.end && rs.bits(p, blk.width).Got? ==>
              var code, q := rs.bits(p, blk.width).value, rs.bits(p, blk.width).next;
              NextAt(rs, blk, p) ==
              if code == 0 then Ended((q + 31) / 32 * 32)
              else if code == 1 then if rs.vbr(q, 8).Fail? then Failed else SubBlock(rs.vbr(q, 8).value)
              else if code == 2 then
                if |blk.table| >= 64 || rs.pattern(q).Fail? then Failed
                else Defined(rs.pattern(q).value, rs.pattern(q).next)
              else if code == 3 then
                if rs.plain(q).Fail? then Failed else Rec(rs.plain(q).value, rs.plain(q).next)
              else if code - 4 >= |blk.table| || rs.record(blk.table[code - 4], q).Fail? then Failed
              else Rec(rs.record(blk.table[code - 4], q).value, rs.record(blk.table[code - 4], q).next)
  {
  }

  /** Entering a sub-block: abbreviation id 1, its block id in chunks of 8, a width of 1 to 8 in
      chunks of 4, and from the next multiple of 32 its length in 32-bit words.  Block ids below
      32 inherit up to 64 abbreviations. */
  lemma EnterExactly(rs: Prims, p: nat, w: nat, info: Option<Info>)
    ensures var code := rs.bits(p, w);
            var id := if code.Got? && code.value == 1 then rs.vbr(code.next, 8) else Fail;
            var width := if id.Got? then rs.vbr(id.next, 4) else Fail;
            var size := if width.Got? && 1 <= width.value <= 8 then rs.bits((width.next + 31) / 32 * 32, 32) else Fail;
            EnterAt(rs, p, w, info) ==
            if size.Fail? then Fail
            else if info.None? || id.value >= 32 then
              Got(Block(id.value, width.value, size.next + 32 * size.value, []), size.next)
            else if |info.value(id.value)| > 64 then Fail
            else Got(Block(id.value, width.value, size.next + 32 * size.value, info.value(id.value)), size.next)
  {
  }

  /** Skipping goes to the end that the header gives, if that is within the stream. */
  lemma SkipExactly(rs: Prims, p: nat, w: nat)
    ensures var blk := EnterAt(rs, p, w, None);
            SkipAt(rs, p, w) == if blk.Fail? || blk.value.end > rs.len then Fail else Got((), blk.value.end)
  {
  }
}
