/** The block reader delivers every well-formed item, and so every well-formed block. */
module Delivery {
  import opened Wrappers
  import opened Bits
  import opened Bitstream
  import opened Abbrev
  import opened Records
  import opened Blocks
  import opened Walking

  // ----- the reads undo the encodings -----

  lemma VbrUndone(b: seq<bool>, n: nat, v: nat)
    requires 2 <= n <= 32 && v < Pow2(64)
    ensures Undoes(b, VbrReader(b, n), VbrEncoder(n), v)
  {
    forall p: nat | Has(b, p, EncVbr(v, n)) ensures VbrAt(b, p, n, 64) == Got(v, p + |EncVbr(v, n)|) {
      VbrRoundTrip(b, p, v, n, 64);
    }
  }

  /** Unabbreviated records read back. */
  lemma PlainRoundTrip(b: seq<bool>, q: nat, w: nat, code: nat, ops: seq<nat>)
    requires 2 <= w <= 32 && PlainOk(code, ops) && Has(b, q, EncPlain(code, ops, w))
    ensures PlainAt(b, q, w) == Got(Record(code, ops, None), q + |EncPlain(code, ops, w)|)
  {
    Pow2Kilo();
    var all := EncAll(VbrEncoder(w), ops);
    var r := CountStep(b, q, code, w, EncVbr(|ops|, w) + all);
    var s := CountStep(b, r, |ops|, w, all);
    OpsRoundTrip(b, s, w, ops);
    PlainOf(b, q, w, code, ops, r, s, s + |all|);
  }

  lemma OpsRoundTrip(b: seq<bool>, s: nat, w: nat, ops: seq<nat>)
    requires 2 <= w <= 32 && (forall i :: 0 <= i < |ops| ==> ops[i] < Pow2(64)) && Has(b, s, EncAll(VbrEncoder(w), ops))
    ensures Many(VbrReader(b, w), s, |ops|, []) == Got(ops, s + |EncAll(VbrEncoder(w), ops)|)
  {
    forall i | 0 <= i < |ops| ensures Undoes(b, VbrReader(b, w), VbrEncoder(w), ops[i]) { VbrUndone(b, w, ops[i]); }
    ManyRoundTrip(b, VbrReader(b, w), VbrEncoder(w), s, ops, []);
    assert [] + ops == ops;
  }

  lemma PlainOf(b: seq<bool>, q: nat, w: nat, code: nat, ops: seq<nat>, r: nat, s: nat, t: nat)
    requires VbrAt(b, q, w, 32) == Got(code, r) && VbrAt(b, r, w, 32) == Got(|ops|, s) && |ops| <= MAX_RECORD_OPS
    requires Many(VbrReader(b, w), s, |ops|, []) == Got(ops, t)
    ensures PlainAt(b, q, w) == Got(Record(code, ops, None), t)
  {
  }

  ghost predicate BitsBack(rs: Prims, b: seq<bool>, p: nat, v: nat, n: nat) {
    1 <= n <= 32 && v < Pow2(n) && Has(b, p, BitsOf(v, n)) ==> rs.bits(p, n) == Got(v, p + n)
  }

  /** Id and width of a sub-block are read back at q. */
  ghost predicate NamesBack(rs: Prims, b: seq<bool>, q: nat, id: nat, width: nat, names: seq<bool>) {
    id < Pow2(32) && 1 <= width <= MAX_ABBREV_WIDTH && Has(b, q, names) ==>
      rs.vbr(q, 8).Got? && rs.vbr(q, 8).value == id && rs.vbr(rs.vbr(q, 8).next, 4) == Got(width, q + |names|)
  }

  ghost predicate PatternBack(rs: Prims, b: seq<bool>, sp: Spelling, p: nat, pat: Pattern) {
    sp.patternOk(pat) && Has(b, p, sp.pattern(pat)) ==> rs.pattern(p) == Got(pat, p + |sp.pattern(pat)|)
  }

  ghost predicate PlainBack(rs: Prims, b: seq<bool>, sp: Spelling, p: nat, code: nat, ops: seq<nat>) {
    sp.plainOk(code, ops) && Has(b, p, sp.plain(code, ops)) ==>
      rs.plain(p) == Got(Record(code, ops, None), p + |sp.plain(code, ops)|)
  }

  ghost predicate RecordBack(rs: Prims, b: seq<bool>, sp: Spelling, p: nat, pat: Pattern, fs: seq<Field>) {
    sp.recordOk(pat, fs) && Has(b, p, sp.record(pat, fs, p)) ==>
      rs.record(pat, p) == Got(sp.recordOf(pat, fs), p + |sp.record(pat, fs, p)|)
  }

  /** Every read gives back what was spelled, at any position of b. */
  ghost predicate Faithful(rs: Prims, b: seq<bool>, sp: Spelling) {
    && rs.len == |b|
    && (forall p: nat, v: nat, n: nat :: BitsBack(rs, b, p, v, n))
    && (forall q: nat, id: nat, width: nat :: NamesBack(rs, b, q, id, width, sp.names(id, width)))
    && (forall p: nat, pat :: PatternBack(rs, b, sp, p, pat))
    && (forall p: nat, code: nat, ops :: PlainBack(rs, b, sp, p, code, ops))
    && (forall p: nat, pat, fs :: RecordBack(rs, b, sp, p, pat, fs))
  }

  /** e is read as v in chunks of n bits, wherever it stands. */
  ghost predicate VbrBack(rs: Prims, b: seq<bool>, e: seq<bool>, v: nat, n: nat) {
    forall q: nat :: Has(b, q, e) ==> rs.vbr(q, n) == Got(v, q + |e|)
  }

  lemma VbrBackHolds(b: seq<bool>, v: nat, n: nat)
    requires v < Pow2(32) && 2 <= n <= 32
    ensures VbrBack(PrimsOf(b), b, EncVbr(v, n), v, n)
  {
    forall q: nat | Has(b, q, EncVbr(v, n))
      ensures PrimsOf(b).vbr(q, n) == Got(v, q + |EncVbr(v, n)|)
    {
      VbrRoundTrip(b, q, v, n, 32);
    }
  }

  lemma NamesBackFrom(rs: Prims, b: seq<bool>, q: nat, id: nat, width: nat, e: seq<bool>, f: seq<bool>)
    requires VbrBack(rs, b, e, id, 8) && VbrBack(rs, b, f, width, 4)
    ensures NamesBack(rs, b, q, id, width, e + f)
  {
    if Has(b, q, e + f) { HasBoth(b, q, e, f); }
  }

  lemma NamesRoundTrip(b: seq<bool>, q: nat, id: nat, width: nat, names: seq<bool>)
    requires names == EncNames(id, width)
    ensures NamesBack(PrimsOf(b), b, q, id, width, names)
  {
    if id < Pow2(32) && 1 <= width <= MAX_ABBREV_WIDTH {
      assert width < Pow2(32) by { Pow2Kilo(); }
      VbrBackHolds(b, id, 8);
      VbrBackHolds(b, width, 4);
      NamesBackFrom(PrimsOf(b), b, q, id, width, EncVbr(id, 8), EncVbr(width, 4));
    }
  }

  lemma PlainBackHolds(b: seq<bool>, p: nat, code: nat, ops: seq<nat>)
    ensures PlainBack(PrimsOf(b), b, LlvmSpelling(), p, code, ops)
  {
    if PlainOk(code, ops) && Has(b, p, EncPlain(code, ops, 6)) { PlainRoundTrip(b, p, 6, code, ops); }
  }

  lemma RecordBackHolds(b: seq<bool>, p: nat, pat: Pattern, fs: seq<Field>)
    ensures RecordBack(PrimsOf(b), b, LlvmSpelling(), p, pat, fs)
  {
    if Fits(pat, fs) && Has(b, p, EncRecord(pat, fs, p)) { RecordRoundTrip(b, pat, fs, p); }
  }

  lemma PatternBackHolds(b: seq<bool>, p: nat, pat: Pattern)
    ensures PatternBack(PrimsOf(b), b, LlvmSpelling(), p, pat)
  {
    if PatternOk(pat) && Has(b, p, EncPattern(pat)) { PatternRoundTrip(b, p, pat); }
  }

  lemma PrimsFaithful(b: seq<bool>)
    ensures Faithful(PrimsOf(b), b, LlvmSpelling())
  {
    var rs, sp := PrimsOf(b), LlvmSpelling();
    forall p: nat, v: nat, n: nat ensures BitsBack(rs, b, p, v, n) {
      if 1 <= n <= 32 && v < Pow2(n) && Has(b, p, BitsOf(v, n)) { BitsRoundTrip(b, p, v, n); }
    }
    forall q: nat, id: nat, width: nat ensures NamesBack(rs, b, q, id, width, sp.names(id, width)) {
      NamesRoundTrip(b, q, id, width, EncNames(id, width));
    }
    forall p: nat, pat ensures PatternBack(rs, b, sp, p, pat) { PatternBackHolds(b, p, pat); }
    forall p: nat, code: nat, ops ensures PlainBack(rs, b, sp, p, code, ops) { PlainBackHolds(b, p, code, ops); }
    forall p: nat, pat, fs ensures RecordBack(rs, b, sp, p, pat, fs) { RecordBackHolds(b, p, pat, fs); }
  }

  // ----- leaves -----

  /** A fixed-width number in front of something. */
  lemma FixedStep(rs: Prims, b: seq<bool>, sp: Spelling, p: nat, v: nat, n: nat, rest: seq<bool>)
    requires Faithful(rs, b, sp) && 1 <= n <= 32 && v < Pow2(n) && Has(b, p, BitsOf(v, n) + rest)
    ensures rs.bits(p, n) == Got(v, p + n) && Has(b, p + n, rest)
  {
    HasBoth(b, p, BitsOf(v, n), rest);
    assert BitsBack(rs, b, p, v, n);
  }

  /** A marker that makes the reader's answers at a position visible to a proof. */
  ghost predicate Look(blk: Block, p: nat) { true }

  /** rd is the block reader over these reads. */
  ghost predicate Uses(rd: Reader, rs: Prims, info: Info) {
    forall blk: Block, p: nat {:trigger Look(blk, p)} ::
      && rd.next(blk, p) == NextAt(rs, blk, p) && rd.enter(p, blk.width) == EnterAt(rs, p, blk.width, Some(info))
      && rd.skip(p, blk.width) == SkipAt(rs, p, blk.width)
  }

  lemma ReaderUses(rs: Prims, info: Info)
    ensures Uses(ReaderOf(rs, info), rs, info)
  {
  }

  /** The abbreviation id in front of an item is read first. */
  lemma CodeStep(rd: Reader, rs: Prims, b: seq<bool>, sp: Spelling, info: Info, blk: Block, p: nat, code: nat,
                 rest: seq<bool>)
    requires Uses(rd, rs, info) && Faithful(rs, b, sp) && 1 <= blk.width <= MAX_ABBREV_WIDTH && p < blk.end
    requires code < Pow2(blk.width)
    requires Has(b, p, BitsOf(code, blk.width) + rest)
    ensures Has(b, p + blk.width, rest) && rd.next(blk, p) == CodeAt(rs, blk.table, code, p + blk.width)
  {
    FixedStep(rs, b, sp, p, code, blk.width, rest);
    assert Look(blk, p);
  }

  /** What the reader makes of a leaf. */
  function Reading(sp: Spelling, it: Item, q: nat): Step {
    if it.Define? then Defined(it.pat, q) else Rec(RecordFor(sp, it), q)
  }

  lemma LeafDelivered(rd: Reader, rs: Prims, b: seq<bool>, sp: Spelling, info: Info, blk: Block, p: nat, it: Item)
    requires Uses(rd, rs, info) && Faithful(rs, b, sp) && 1 <= blk.width <= MAX_ABBREV_WIDTH && p < blk.end
    requires !it.Sub? && ItemFits(sp, it, blk.width, blk.table) && Has(b, p, EncLeaf(sp, it, blk.width, p))
    ensures rd.next(blk, p) == Reading(sp, it, p + |EncLeaf(sp, it, blk.width, p)|)
  {
    var q := p + blk.width;
    match it
    case Define(pat) =>
      CodeStep(rd, rs, b, sp, info, blk, p, DEFINE_ABBREV, sp.pattern(pat));
      assert PatternBack(rs, b, sp, q, pat);
    case Plain(code, ops) =>
      CodeStep(rd, rs, b, sp, info, blk, p, UNABBREV_RECORD, sp.plain(code, ops));
      assert PlainBack(rs, b, sp, q, code, ops);
    case Abbreviated(code, pat, fs) =>
      CodeStep(rd, rs, b, sp, info, blk, p, code, sp.record(pat, fs, q));
      assert RecordBack(rs, b, sp, q, pat, fs);
  }

  lemma EndDelivered(rd: Reader, rs: Prims, b: seq<bool>, sp: Spelling, info: Info, blk: Block, p: nat)
    requires Uses(rd, rs, info) && Faithful(rs, b, sp) && 1 <= blk.width <= MAX_ABBREV_WIDTH && p < blk.end
    requires Has(b, p, EncEnd(blk.width, p))
    ensures rd.next(blk, p) == Ended(Align32(p + blk.width))
  {
    CodeStep(rd, rs, b, sp, info, blk, p, END_BLOCK, Pad(p + blk.width));
  }

  // ----- sub-blocks -----

  lemma PadStep(b: seq<bool>, r: nat, rest: seq<bool>)
    requires Has(b, r, Pad(r) + rest)
    ensures Has(b, Align32(r), rest)
  {
    HasBoth(b, r, Pad(r), rest);
  }

  /** Padding, size field and contents. */
  lemma SizeField(rs: Prims, b: seq<bool>, sp: Spelling, r: nat, words: nat, body: seq<bool>)
    requires Faithful(rs, b, sp) && words < Pow2(32) && Has(b, r, Tail(r, words, body))
    ensures rs.bits(Align32(r), 32) == Got(words, Align32(r) + 32) && Has(b, Align32(r) + 32, body)
    ensures Align32(r) + 32 + |body| <= rs.len
  {
    PadStep(b, r, BitsOf(words, 32) + body);
    FixedStep(rs, b, sp, Align32(r), words, 32, body);
  }

  lemma HeaderOf(rs: Prims, q: nat, id: nat, m: nat, width: nat, r: nat, words: nat, start: nat)
    requires rs.vbr(q, 8) == Got(id, m) && rs.vbr(m, 4) == Got(width, r) && rs.bits(Align32(r), 32) == Got(words, start)
    requires 1 <= width <= MAX_ABBREV_WIDTH
    ensures HeaderAt(rs, q) == Got(Block(id, width, start + 32 * words, []), start)
  {
  }

  /** Contents that start at a 32-bit boundary take whole words. */
  lemma WholeWords(g: Grammar, items: seq<Item>, w: nat, start: nat)
    requires start % 32 == 0
    ensures 32 * (|EncBody(g, items, w, start)| / 32) == |EncBody(g, items, w, start)|
  {
    var e := EncItems(g, items, w, start);
    Aligned(start, |EncBody(g, items, w, start)|, start + |e| + w);
  }

  lemma Aligned(start: nat, n: nat, p: nat)
    requires start % 32 == 0 && start + n == Align32(p)
    ensures 32 * (n / 32) == n
  {
  }

  /** What the three operations do at a sub-block. */
  ghost predicate Opened(rd: Reader, info: Info, blk: Block, p: nat, id: nat, width: nat, start: nat, q: nat) {
    && rd.next(blk, p) == SubBlock(id)
    && rd.enter(p, blk.width) == Got(Block(id, width, q, TableOf(info, id)), start)
    && rd.skip(p, blk.width) == Got((), q)
  }

  lemma SubOpened(rd: Reader, rs: Prims, b: seq<bool>, sp: Spelling, info: Info, blk: Block, p: nat, it: Item,
                  body: seq<bool>)
    returns (start: nat)
    requires Uses(rd, rs, info) && Faithful(rs, b, sp) && 1 <= blk.width <= MAX_ABBREV_WIDTH && p < blk.end
    requires it.Sub? && ItemFits(sp, it, blk.width, blk.table) && |TableOf(info, it.id)| <= MAX_PER_BLOCK
    requires |body| / 32 < Pow2(32) && 32 * (|body| / 32) == |body| && Has(b, p, EncSub(sp, it, blk.width, p, body))
    ensures start == BodyStart(sp, it, blk.width, p) && Has(b, start, body)
    ensures p + |EncSub(sp, it, blk.width, p, body)| == start + |body|
    ensures Opened(rd, info, blk, p, it.id, it.width, start, start + |body|)
  {
    SubLength(sp, it, blk.width, p, body);
    start := SubAt(rd, rs, b, sp, info, blk, p, it.id, it.width, sp.names(it.id, it.width), |body| / 32, body);
  }

  lemma SubAt(rd: Reader, rs: Prims, b: seq<bool>, sp: Spelling, info: Info, blk: Block, p: nat, id: nat, width: nat,
              names: seq<bool>, words: nat, body: seq<bool>)
    returns (start: nat)
    requires Uses(rd, rs, info) && Faithful(rs, b, sp) && 1 <= blk.width <= MAX_ABBREV_WIDTH && p < blk.end
    requires ENTER_SUBBLOCK < Pow2(blk.width) && id < Pow2(32) && 1 <= width <= MAX_ABBREV_WIDTH
    requires |TableOf(info, id)| <= MAX_PER_BLOCK && names == sp.names(id, width)
    requires words < Pow2(32) && 32 * words == |body|
    requires Has(b, p, BitsOf(ENTER_SUBBLOCK, blk.width) + (names + Tail(p + blk.width + |names|, words, body)))
    ensures start == Align32(p + blk.width + |names|) + 32 && Has(b, start, body)
    ensures Opened(rd, info, blk, p, id, width, start, start + |body|)
  {
    var r := p + blk.width + |names|;
    SubSplit(rs, b, sp, p, blk.width, ENTER_SUBBLOCK, id, width, names, Tail(r, words, body));
    start := SubRest(rd, rs, b, sp, info, blk, p, id, rs.vbr(p + blk.width, 8).next, width, r, words, body);
  }

  lemma SubLength(sp: Spelling, it: Item, w: nat, p: nat, body: seq<bool>)
    requires it.Sub?
    ensures p + |EncSub(sp, it, w, p, body)| == BodyStart(sp, it, w, p) + |body|
  {
  }

  lemma SubSplit(rs: Prims, b: seq<bool>, sp: Spelling, p: nat, w: nat, v: nat, id: nat, width: nat, names: seq<bool>,
                 tail: seq<bool>)
    requires Faithful(rs, b, sp) && 1 <= w <= MAX_ABBREV_WIDTH && v < Pow2(w)
    requires id < Pow2(32) && 1 <= width <= MAX_ABBREV_WIDTH && names == sp.names(id, width)
    requires Has(b, p, BitsOf(v, w) + (names + tail))
    ensures rs.bits(p, w) == Got(v, p + w) && Has(b, p + w + |names|, tail)
    ensures rs.vbr(p + w, 8).Got? && rs.vbr(p + w, 8).value == id
    ensures rs.vbr(rs.vbr(p + w, 8).next, 4) == Got(width, p + w + |names|)
  {
    FixedStep(rs, b, sp, p, v, w, names + tail);
    NamesStep(rs, b, sp, p + w, id, width, tail);
  }

  lemma NamesStep(rs: Prims, b: seq<bool>, sp: Spelling, q: nat, id: nat, width: nat, tail: seq<bool>)
    requires Faithful(rs, b, sp) && id < Pow2(32) && 1 <= width <= MAX_ABBREV_WIDTH
    requires Has(b, q, sp.names(id, width) + tail)
    ensures Has(b, q + |sp.names(id, width)|, tail) && rs.vbr(q, 8).Got? && rs.vbr(q, 8).value == id
    ensures rs.vbr(rs.vbr(q, 8).next, 4) == Got(width, q + |sp.names(id, width)|)
  {
    HasBoth(b, q, sp.names(id, width), tail);
    assert NamesBack(rs, b, q, id, width, sp.names(id, width));
  }

  lemma SubRest(rd: Reader, rs: Prims, b: seq<bool>, sp: Spelling, info: Info, blk: Block, p: nat, id: nat, m: nat,
                width: nat, r: nat, words: nat, body: seq<bool>)
    returns (start: nat)
    requires Uses(rd, rs, info) && Faithful(rs, b, sp) && rs.bits(p, blk.width) == Got(ENTER_SUBBLOCK, p + blk.width)
    requires p < blk.end
    requires rs.vbr(p + blk.width, 8) == Got(id, m) && rs.vbr(m, 4) == Got(width, r)
    requires 1 <= width <= MAX_ABBREV_WIDTH && |TableOf(info, id)| <= MAX_PER_BLOCK && words < Pow2(32)
    requires 32 * words == |body|
    requires Has(b, r, Tail(r, words, body))
    ensures start == Align32(r) + 32 && Has(b, start, body)
    ensures Opened(rd, info, blk, p, id, width, start, start + |body|)
  {
    SizeField(rs, b, sp, r, words, body);
    start := Align32(r) + 32;
    HeaderOf(rs, p + blk.width, id, m, width, r, words, start);
    OpenedBy(rd, rs, info, blk, p, p + blk.width, Block(id, width, start + 32 * words, []), start);
  }

  lemma OpenedBy(rd: Reader, rs: Prims, info: Info, blk: Block, p: nat, q: nat, inner: Block, start: nat)
    requires Uses(rd, rs, info) && rs.bits(p, blk.width) == Got(ENTER_SUBBLOCK, q)
    requires HeaderAt(rs, q) == Got(inner, start) && p < blk.end
    requires rs.vbr(q, 8).Got? && rs.vbr(q, 8).value == inner.id
    requires inner.table == [] && |TableOf(info, inner.id)| <= MAX_PER_BLOCK && inner.end <= rs.len
    ensures Opened(rd, info, blk, p, inner.id, inner.width, start, inner.end)
  {
    assert Look(blk, p);
  }

  // ----- every item -----

  lemma SubItemDelivered(rd: Reader, rs: Prims, b: seq<bool>, sp: Spelling, info: Info, it: Item, blk: Block, p: nat)
    requires Uses(rd, rs, info) && Faithful(rs, b, sp) && Stands(GrammarOf(sp), b, info, it, blk, p) && it.Sub?
    ensures Delivered(GrammarOf(sp), rd, b, info, it, blk, p)
  {
    var start, body := SubStands(b, sp, info, it, blk, p);
    start := SubOpened(rd, rs, b, sp, info, blk, p, it, body);
  }

  lemma SubStands(b: seq<bool>, sp: Spelling, info: Info, it: Item, blk: Block, p: nat)
    returns (start: nat, body: seq<bool>)
    requires Stands(GrammarOf(sp), b, info, it, blk, p) && it.Sub?
    ensures start == BodyStart(sp, it, blk.width, p) && body == EncBody(GrammarOf(sp), it.items, it.width, start)
    ensures ItemFits(sp, it, blk.width, blk.table) && |TableOf(info, it.id)| <= MAX_PER_BLOCK
    ensures |body| / 32 < Pow2(32) && 32 * (|body| / 32) == |body|
    ensures EncItem(GrammarOf(sp), it, blk.width, p) == EncSub(sp, it, blk.width, p, body)
    ensures Has(b, p, EncSub(sp, it, blk.width, p, body))
  {
    var g := GrammarOf(sp);
    var e, body' := StandsSub(g, b, info, it, blk, p);
    body := body';
    SubSpelled(g, sp, it, blk.width, p, e, body);
    BodyWords(g, sp, it, blk.width, p, body);
    start := BodyStart(sp, it, blk.width, p);
  }

  lemma StandsSub(g: Grammar, b: seq<bool>, info: Info, it: Item, blk: Block, p: nat)
    returns (e: seq<bool>, body: seq<bool>)
    requires Stands(g, b, info, it, blk, p) && it.Sub?
    ensures g.fits(it, blk.width, blk.table) && |TableOf(info, it.id)| <= MAX_PER_BLOCK
    ensures body == EncBody(g, it.items, it.width, g.start(it, blk.width, p))
    ensures |body| / 32 < Pow2(32) && e == EncItem(g, it, blk.width, p) && Has(b, p, e)
  {
    e, body := EncItem(g, it, blk.width, p), EncBody(g, it.items, it.width, g.start(it, blk.width, p));
  }

  lemma BodyWords(g: Grammar, sp: Spelling, it: Item, w: nat, p: nat, body: seq<bool>)
    requires g == GrammarOf(sp) && it.Sub? && body == EncBody(g, it.items, it.width, g.start(it, w, p))
    ensures 32 * (|body| / 32) == |body|
  {
    WholeWords(g, it.items, it.width, g.start(it, w, p));
  }

  lemma SubSpelled(g: Grammar, sp: Spelling, it: Item, w: nat, p: nat, e: seq<bool>, body: seq<bool>)
    requires g == GrammarOf(sp) && it.Sub?
    requires e == EncItem(g, it, w, p) && body == EncBody(g, it.items, it.width, g.start(it, w, p))
    ensures g.start(it, w, p) == BodyStart(sp, it, w, p) && e == EncSub(sp, it, w, p, body)
  {
  }

  lemma LeafItemDelivered(rd: Reader, rs: Prims, b: seq<bool>, sp: Spelling, info: Info, it: Item, blk: Block, p: nat)
    requires Uses(rd, rs, info) && Faithful(rs, b, sp) && Stands(GrammarOf(sp), b, info, it, blk, p) && !it.Sub?
    ensures Delivered(GrammarOf(sp), rd, b, info, it, blk, p)
  {
    LeafDelivered(rd, rs, b, sp, info, blk, p, it);
  }

  /** The reader delivers every item that stands in the stream. */
  lemma ReaderDelivers(rd: Reader, rs: Prims, b: seq<bool>, sp: Spelling, info: Info)
    requires Uses(rd, rs, info) && Faithful(rs, b, sp)
    ensures Delivers(GrammarOf(sp), rd, b, info)
  {
    forall it: Item, blk: Block, p: nat | Stands(GrammarOf(sp), b, info, it, blk, p)
      ensures Delivered(GrammarOf(sp), rd, b, info, it, blk, p)
    {
      if it.Sub? {
        SubItemDelivered(rd, rs, b, sp, info, it, blk, p);
      } else {
        LeafItemDelivered(rd, rs, b, sp, info, it, blk, p);
      }
    }
    forall blk: Block, p: nat | 1 <= blk.width <= MAX_ABBREV_WIDTH && p < blk.end && Has(b, p, EncEnd(blk.width, p))
      ensures rd.next(blk, p) == Ended(Align32(p + blk.width))
    {
      EndDelivered(rd, rs, b, sp, info, blk, p);
    }
  }

  // ----- the theorem -----

  /** Looking at a sub-block peeks its id; entering it and reading to its end sees exactly
      its items, in order; the walk ends on the very bit where skipping lands, which is
      the bit after its encoding. */
  ghost predicate WalkedLikeSkipped(g: Grammar, rd: Reader, policy: nat -> bool, it: Item, blk: Block, p: nat)
    requires Advances(rd) && it.Sub?
  {
    var inner, q := rd.enter(p, blk.width), p + |EncItem(g, it, blk.width, p)|;
    && rd.next(blk, p) == SubBlock(it.id)
    && inner.Got? && inner.value.id == it.id
    && Walk(rd, policy, inner.value, inner.next) == Got(SeenItems(g, it.items, it.width, inner.next, policy), q)
    && rd.skip(p, blk.width) == Got((), q)
  }

  lemma WalkLikeSkip(g: Grammar, rd: Reader, b: seq<bool>, info: Info, policy: nat -> bool, it: Item, blk: Block,
                     p: nat)
    requires Advances(rd) && Delivers(g, rd, b, info) && it.Sub? && Stands(g, b, info, it, blk, p)
    ensures WalkedLikeSkipped(g, rd, policy, it, blk, p)
  {
    assert Delivered(g, rd, b, info, it, blk, p);
    var walk := WalkUnrolls(rd, policy);
    WalkInside(g, rd, b, info, policy, walk, it, blk, p, p + |EncItem(g, it, blk.width, p)|);
  }

  /** WALKING EQUALS SKIPPING, for every well-formed sub-block that stands in a stream,
      inside any block, and for any choice of which nested blocks to enter. */
  lemma WalkEqualsSkip(b: seq<bool>, info: Info, policy: nat -> bool, it: Item, blk: Block, p: nat)
    requires it.Sub? && Stands(Llvm(), b, info, it, blk, p)
    ensures Advances(ReaderOf(PrimsOf(b), info))
    ensures WalkedLikeSkipped(Llvm(), ReaderOf(PrimsOf(b), info), policy, it, blk, p)
  {
    PrimsMove(b);
    ReaderAdvances(PrimsOf(b), info);
    PrimsFaithful(b);
    ReaderUses(PrimsOf(b), info);
    ReaderDelivers(ReaderOf(PrimsOf(b), info), PrimsOf(b), b, LlvmSpelling(), info);
    WalkLikeSkip(Llvm(), ReaderOf(PrimsOf(b), info), b, info, policy, it, blk, p);
  }
}
