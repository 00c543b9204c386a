/** Nested blocks of the LLVM bitstream: entering, skipping and reading what is inside
    (sections "ENTER_SUBBLOCK Encoding", "END_BLOCK Encoding" and "UNABBREV_RECORD
    Encoding" of the LLVM Bitcode File Format). */
module Blocks {
  import opened Wrappers
  import opened Bits
  import opened Bitstream
  import opened Abbrev
  import opened Records

  const END_BLOCK: nat := 0
  const ENTER_SUBBLOCK: nat := 1
  const DEFINE_ABBREV: nat := 2
  const UNABBREV_RECORD: nat := 3
  const MAX_ABBREV_WIDTH: nat := 8
  const MAX_BLOCK_IDS: nat := 32

  /** A block being read: where it ends, how wide its abbreviation ids are, and what
      they mean (id 4 + i is entry i of the table). */
  datatype Block = Block(id: nat, width: nat, end: nat, table: seq<Pattern>)

  /** Abbreviations that BLOCKINFO gives to blocks of an id. */
  type Info = nat -> seq<Pattern>

  // ----- what a block is read with -----

  function VbrReader(b: seq<bool>, n: nat): nat -> Read<nat> { (p: nat) => VbrAt(b, p, n, 64) }

  /** An unabbreviated record: code, count and operands in chunks of w bits. */
  function PlainAt(b: seq<bool>, p: nat, w: nat): (r: Read<Record>)
    ensures r.Got? ==> p < r.next
  {
    match VbrAt(b, p, w, 32)
    case Fail => Fail
    case Got(code, q) =>
      match VbrAt(b, q, w, 32)
      case Fail => Fail
      case Got(n, r) =>
        if n > MAX_RECORD_OPS then Fail else
        ManyGrows(VbrReader(b, w), r, n, []);
        match Many(VbrReader(b, w), r, n, [])
        case Fail => Fail
        case Got(ops, s) => Got(Record(code, ops, None), s)
  }

  /** The reads that block traversal is made of, over a stream of `len` bits. */
  datatype Prims = Prims(len: nat, bits: (nat, nat) -> Read<nat>, vbr: (nat, nat) -> Read<nat>,
                         pattern: nat -> Read<Pattern>, plain: nat -> Read<Record>,
                         record: (Pattern, nat) -> Read<Record>)

  function PrimsOf(b: seq<bool>): Prims {
    Prims(|b|, (p: nat, n: nat) => BitsAt(b, p, n), (p: nat, n: nat) => VbrAt(b, p, n, 32),
          (p: nat) => PatternAt(b, p), (p: nat) => PlainAt(b, p, 6), (pat: Pattern, p: nat) => RecordAt(b, pat, p))
  }

  // ----- entering and skipping -----

  function SizeAt(rs: Prims, p: nat, id: nat, width: nat): Read<Block> {
    if width == 0 || width > MAX_ABBREV_WIDTH then Fail else
    match rs.bits(Align32(p), 32)
    case Fail => Fail
    case Got(words, r) => Got(Block(id, width, r + 32 * words, []), r)
  }

  function HeaderAt(rs: Prims, p: nat): Read<Block> {
    match rs.vbr(p, 8)
    case Fail => Fail
    case Got(id, q) =>
      match rs.vbr(q, 4)
      case Fail => Fail
      case Got(width, r) => SizeAt(rs, r, id, width)
  }

  function Install(blk: Block, info: Option<Info>): Option<Block> {
    if info.None? || blk.id >= MAX_BLOCK_IDS then Some(blk)
    else if |info.value(blk.id)| > MAX_PER_BLOCK then None
    else Some(blk.(table := info.value(blk.id)))
  }

  function EnterAt(rs: Prims, p: nat, w: nat, info: Option<Info>): Read<Block> {
    match rs.bits(p, w)
    case Fail => Fail
    case Got(code, q) =>
      if code != ENTER_SUBBLOCK then Fail else
      match HeaderAt(rs, q)
      case Fail => Fail
      case Got(blk, r) => if Install(blk, info).None? then Fail else Got(Install(blk, info).value, r)
  }

  function SkipAt(rs: Prims, p: nat, w: nat): Read<()> {
    match EnterAt(rs, p, w, None)
    case Fail => Fail
    case Got(blk, _) => if blk.end > rs.len then Fail else Got((), blk.end)
  }

  // ----- reading -----

  /** What the next thing in a block is; a sub-block is only looked at. */
  datatype Step =
    Failed | Ended(next: nat) | SubBlock(id: nat) | Defined(pat: Pattern, next: nat) | Rec(r: Record, next: nat)

  function CodeAt(rs: Prims, table: seq<Pattern>, code: nat, q: nat): Step {
    if code == END_BLOCK then Ended(Align32(q))
    else if code == ENTER_SUBBLOCK then
      match rs.vbr(q, 8)
      case Fail => Failed
      case Got(id, _) => SubBlock(id)
    else if code == DEFINE_ABBREV then
      if |table| >= MAX_PER_BLOCK then Failed else
      match rs.pattern(q)
      case Fail => Failed
      case Got(pat, r) => Defined(pat, r)
    else if code == UNABBREV_RECORD then
      match rs.plain(q)
      case Fail => Failed
      case Got(rec, r) => Rec(rec, r)
    else if code - 4 >= |table| then Failed
    else
      match rs.record(table[code - 4], q)
      case Fail => Failed
      case Got(rec, r) => Rec(rec, r)
  }

  function NextAt(rs: Prims, blk: Block, p: nat): Step {
    if p >= blk.end then Ended(p) else
    match rs.bits(p, blk.width)
    case Fail => Failed
    case Got(code, q) => CodeAt(rs, blk.table, code, q)
  }

  /** The peeked id is the id that entering reads, whatever the stream. */
  lemma PeekIsEnter(rs: Prims, blk: Block, p: nat, info: Option<Info>)
    requires NextAt(rs, blk, p).SubBlock? && EnterAt(rs, p, blk.width, info).Got?
    ensures EnterAt(rs, p, blk.width, info).value.id == NextAt(rs, blk, p).id
  {
  }

  // ----- walking -----

  /** A reader of blocks: next thing, enter, skip. */
  datatype Reader = Reader(top: nat, next: (Block, nat) -> Step, enter: (nat, nat) -> Read<Block>,
    skip: (nat, nat) -> Read<()>)

  function ReaderOf(rs: Prims, info: Info): Reader {
    Reader(rs.len, (blk: Block, p: nat) => NextAt(rs, blk, p), (p: nat, w: nat) => EnterAt(rs, p, w, Some(info)),
           (p: nat, w: nat) => SkipAt(rs, p, w))
  }

  ghost predicate StepAdvances(top: nat, p: nat, s: Step) {
    (s.Rec? || s.Defined? ==> p < s.next && p <= top) && (s.Ended? ==> p <= s.next)
  }

  /** Every step that is not a look at a sub-block moves forward, and so do enter and skip. */
  ghost predicate Advances(rd: Reader) {
    && (forall blk, p: nat :: StepAdvances(rd.top, p, rd.next(blk, p)))
    && (forall p: nat, w: nat :: rd.enter(p, w).Got? ==> p < rd.enter(p, w).next && p <= rd.top)
    && (forall p: nat, w: nat :: rd.skip(p, w).Got? ==> p < rd.skip(p, w).next && p <= rd.top)
  }

  /** The reads move forward within the stream. */
  ghost predicate Moving(rs: Prims) {
    && (forall p: nat, n: nat :: rs.bits(p, n).Got? ==> p < rs.bits(p, n).next <= rs.len)
    && (forall p: nat, n: nat :: rs.vbr(p, n).Got? ==> p < rs.vbr(p, n).next)
    && (forall p: nat :: rs.pattern(p).Got? ==> p < rs.pattern(p).next)
    && (forall p: nat :: rs.plain(p).Got? ==> p < rs.plain(p).next)
    && (forall pat, p: nat :: rs.record(pat, p).Got? ==> p <= rs.record(pat, p).next)
  }

  lemma NextMoves(rs: Prims, blk: Block, p: nat)
    requires Moving(rs)
    ensures StepAdvances(rs.len, p, NextAt(rs, blk, p))
  {
  }

  lemma EnterMoves(rs: Prims, p: nat, w: nat, info: Option<Info>)
    requires Moving(rs)
    ensures EnterAt(rs, p, w, info).Got? ==>
              p < EnterAt(rs, p, w, info).next <= EnterAt(rs, p, w, info).value.end && p <= rs.len
  {
  }

  lemma ReaderAdvances(rs: Prims, info: Info)
    requires Moving(rs)
    ensures Advances(ReaderOf(rs, info))
  {
    var rd := ReaderOf(rs, info);
    forall blk, p: nat ensures StepAdvances(rd.top, p, rd.next(blk, p)) { NextMoves(rs, blk, p); }
    forall p: nat, w: nat
      ensures rd.enter(p, w).Got? ==> p < rd.enter(p, w).next && p <= rd.top
    {
      EnterMoves(rs, p, w, Some(info));
    }
    forall p: nat, w: nat
      ensures rd.skip(p, w).Got? ==> p < rd.skip(p, w).next && p <= rd.top
    {
      EnterMoves(rs, p, w, None);
    }
  }

  /** Every step of the bitstream reader that is not a look at a sub-block moves forward. */
  lemma PrimsMove(b: seq<bool>)
    ensures Moving(PrimsOf(b))
  {
  }

  /** What a walk sees: for a sub-block, its contents if it was entered. */
  datatype Seen = SawPattern(pat: Pattern) | SawRecord(r: Record) | SawBlock(id: nat, inside: Option<seq<Seen>>)

  function Prepend(x: Seen, r: Read<seq<Seen>>): Read<seq<Seen>> {
    match r
    case Fail => Fail
    case Got(xs, q) => Got([x] + xs, q)
  }

  /** Read a block from p to its end, entering the sub-blocks at the positions that the
      policy picks and skipping the others. */
  ghost function Walk(rd: Reader, policy: nat -> bool, blk: Block, p: nat): (r: Read<seq<Seen>>)
    requires Advances(rd)
    ensures r.Got? ==> p <= r.next
    decreases if p <= rd.top then rd.top + 1 - p else 0
  {
    assert StepAdvances(rd.top, p, rd.next(blk, p));
    match rd.next(blk, p)
    case Failed => Fail
    case Ended(q) => Got([], q)
    case Defined(pat, q) => Prepend(SawPattern(pat), Walk(rd, policy, blk.(table := blk.table + [pat]), q))
    case Rec(rec, q) => Prepend(SawRecord(rec), Walk(rd, policy, blk, q))
    case SubBlock(id) =>
      if policy(p) then
        match rd.enter(p, blk.width)
        case Fail => Fail
        case Got(inner, q) =>
          (match Walk(rd, policy, inner, q)
           case Fail => Fail
           case Got(seen, r) => Prepend(SawBlock(id, Some(seen)), Walk(rd, policy, blk, r)))
      else
        match rd.skip(p, blk.width)
        case Fail => Fail
        case Got(_, r) => Prepend(SawBlock(id, None), Walk(rd, policy, blk, r))
  }

  // ----- the encoder -----

  datatype Item =
    | Define(pat: Pattern)
    | Plain(code: nat, ops: seq<nat>)
    | Abbreviated(code: nat, pat: Pattern, fs: seq<Field>)
    | Sub(id: nat, width: nat, items: seq<Item>)

  function VbrEncoder(n: nat): nat -> seq<bool>
    requires n >= 2
  {
    (v: nat) => EncVbr(v, n)
  }

  function EncPlain(code: nat, ops: seq<nat>, w: nat): seq<bool>
    requires w >= 2
  {
    EncVbr(code, w) + (EncVbr(|ops|, w) + EncAll(VbrEncoder(w), ops))
  }

  predicate PlainOk(code: nat, ops: seq<nat>) {
    code < Pow2(32) && |ops| <= MAX_RECORD_OPS && forall i :: 0 <= i < |ops| ==> ops[i] < Pow2(64)
  }

  /** The head of a sub-block after its abbreviation id, up to the size field. */
  function EncNames(id: nat, width: nat): seq<bool> { EncVbr(id, 8) + EncVbr(width, 4) }

  /** How the parts of a block are spelled, and which of them can be. */
  datatype Spelling = Spelling(
    names: (nat, nat) -> seq<bool>,
    pattern: Pattern -> seq<bool>, patternOk: Pattern -> bool,
    plain: (nat, seq<nat>) -> seq<bool>, plainOk: (nat, seq<nat>) -> bool,
    record: (Pattern, seq<Field>, nat) -> seq<bool>, recordOk: (Pattern, seq<Field>) -> bool,
    recordOf: (Pattern, seq<Field>) -> Record)

  function LlvmSpelling(): Spelling {
    Spelling((id: nat, width: nat) => EncNames(id, width),
             (pat: Pattern) => EncPattern(pat), (pat: Pattern) => PatternOk(pat),
             (code: nat, ops: seq<nat>) => EncPlain(code, ops, 6), (code: nat, ops: seq<nat>) => PlainOk(code, ops),
             (pat: Pattern, fs: seq<Field>, p: nat) => EncRecord(pat, fs, p),
             (pat: Pattern, fs: seq<Field>) => Fits(pat, fs),
             (pat: Pattern, fs: seq<Field>) => if Fits(pat, fs) then RecordOf(pat, fs) else Record(0, [], None))
  }

  /** Where the contents of a sub-block start, when its id is written at p. */
  function BodyStart(sp: Spelling, it: Item, w: nat, p: nat): nat {
    if it.Sub? then Align32(p + w + |sp.names(it.id, it.width)|) + 32 else p
  }

  /** A sub-block around its encoded body. */
  function EncSub(sp: Spelling, it: Item, w: nat, p: nat, body: seq<bool>): seq<bool> {
    if it.Sub? then
      var names := sp.names(it.id, it.width);
      BitsOf(ENTER_SUBBLOCK, w) + (names + Tail(p + w + |names|, |body| / 32, body))
    else []
  }

  /** Padding from r, the size in words, and the contents. */
  function Tail(r: nat, words: nat, body: seq<bool>): seq<bool> { Pad(r) + (BitsOf(words, 32) + body) }

  function EncLeaf(sp: Spelling, it: Item, w: nat, p: nat): seq<bool> {
    match it
    case Define(pat) => BitsOf(DEFINE_ABBREV, w) + sp.pattern(pat)
    case Plain(code, ops) => BitsOf(UNABBREV_RECORD, w) + sp.plain(code, ops)
    case Abbreviated(code, pat, fs) => BitsOf(code, w) + sp.record(pat, fs, p + w)
    case Sub(_, _, _) => []
  }

  /** The record an item stands for. */
  function RecordFor(sp: Spelling, it: Item): Record {
    match it
    case Plain(code, ops) => Record(code, ops, None)
    case Abbreviated(_, pat, fs) => sp.recordOf(pat, fs)
    case _ => Record(0, [], None)
  }

  /** Ids in range and defined, values within their encodings. */
  predicate ItemFits(sp: Spelling, it: Item, w: nat, table: seq<Pattern>) {
    match it
    case Define(pat) => DEFINE_ABBREV < Pow2(w) && sp.patternOk(pat) && |table| < MAX_PER_BLOCK
    case Plain(code, ops) => UNABBREV_RECORD < Pow2(w) && sp.plainOk(code, ops)
    case Abbreviated(code, pat, fs) =>
      4 <= code < Pow2(w) && code - 4 < |table| && table[code - 4] == pat && sp.recordOk(pat, fs)
    case Sub(id, width, items) => ENTER_SUBBLOCK < Pow2(w) && id < Pow2(32) && 1 <= width <= MAX_ABBREV_WIDTH
  }

  /** The grammar of a block's contents, at a position and with ids of a width. */
  datatype Grammar = Grammar(
    leaf: (Item, nat, nat) -> seq<bool>,
    sub: (Item, nat, nat, seq<bool>) -> seq<bool>,
    start: (Item, nat, nat) -> nat,
    record: Item -> Record,
    fits: (Item, nat, seq<Pattern>) -> bool)

  function GrammarOf(sp: Spelling): Grammar {
    Grammar((it: Item, w: nat, p: nat) => EncLeaf(sp, it, w, p),
            (it: Item, w: nat, p: nat, body: seq<bool>) => EncSub(sp, it, w, p, body),
            (it: Item, w: nat, p: nat) => BodyStart(sp, it, w, p),
            (it: Item) => RecordFor(sp, it),
            (it: Item, w: nat, table: seq<Pattern>) => ItemFits(sp, it, w, table))
  }

  function Llvm(): Grammar { GrammarOf(LlvmSpelling()) }

  function EncItem(g: Grammar, it: Item, w: nat, p: nat): seq<bool>
    decreases it, 0
  {
    if it.Sub? then g.sub(it, w, p, EncBody(g, it.items, it.width, g.start(it, w, p))) else g.leaf(it, w, p)
  }

  function EncItems(g: Grammar, items: seq<Item>, w: nat, p: nat): seq<bool>
    decreases items, 0
  {
    if items == [] then [] else
    var e := EncItem(g, items[0], w, p);
    e + EncItems(g, items[1..], w, p + |e|)
  }

  /** Contents, END_BLOCK and padding. */
  function EncBody(g: Grammar, items: seq<Item>, w: nat, p: nat): seq<bool>
    decreases items, 1
  {
    var e := EncItems(g, items, w, p);
    e + EncEnd(w, p + |e|)
  }

  function EncEnd(w: nat, p: nat): (e: seq<bool>)
    ensures p + |e| == Align32(p + w)
  {
    BitsOf(END_BLOCK, w) + Pad(p + w)
  }
}
