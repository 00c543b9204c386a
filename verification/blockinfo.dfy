/** The BLOCKINFO walker: SETBID records say to which block id the DEFINE_ABBREVs after
    them belong (section "#0 - BLOCKINFO Block" of the LLVM Bitcode File Format). */
module BlockInfo {
  import opened Wrappers
  import opened Bits
  import opened Bitstream
  import opened Abbrev
  import opened Records
  import opened Blocks
  import opened Walking
  import opened Delivery
  import opened Readers

  const SETBID: nat := 1
  const NO_TARGET: nat := 0xFFFF_FFFF

  predicate SetsTarget(x: Seen) { x.SawRecord? && x.r.code == SETBID && |x.r.ops| >= 1 }

  /** The block id that the latest SETBID among the first k things seen names. */
  function Target(seen: seq<Seen>, k: nat): nat
    requires k <= |seen|
  {
    if k == 0 then NO_TARGET
    else if SetsTarget(seen[k - 1]) then seen[k - 1].r.ops[0] % WORD
    else Target(seen, k - 1)
  }

  /** The patterns defined while id was the target, in order. */
  function PatternsFor(seen: seq<Seen>, k: nat, id: nat): seq<Pattern>
    requires k <= |seen|
  {
    if k == 0 then []
    else PatternsFor(seen, k - 1, id)
         + if seen[k - 1].SawPattern? && Target(seen, k - 1) == id then [seen[k - 1].pat] else []
  }

  function First<T>(s: seq<T>, n: nat): seq<T> { if |s| <= n then s else s[..n] }

  type Tables = seq<seq<Pattern>>

  /** One table per block id, within its capacity. */
  predicate Sound(tables: Tables) {
    |tables| == MAX_BLOCK_IDS && forall id :: 0 <= id < MAX_BLOCK_IDS ==> |tables[id]| <= MAX_PER_BLOCK
  }

  /** Each table holds what it held, then the patterns meant for its id, as many as fit. */
  ghost predicate Gathered(base: Tables, tables: Tables, seen: seq<Seen>) {
    && |base| == |tables| == MAX_BLOCK_IDS
    && forall id :: 0 <= id < MAX_BLOCK_IDS ==>
         tables[id] == First(base[id] + PatternsFor(seen, |seen|, id), MAX_PER_BLOCK)
  }

  lemma {:induction false} SamePrefix(seen: seq<Seen>, x: Seen, k: nat, id: nat)
    requires k <= |seen|
    ensures Target(seen + [x], k) == Target(seen, k) && PatternsFor(seen + [x], k, id) == PatternsFor(seen, k, id)
    decreases k
  {
    if k > 0 { SamePrefix(seen, x, k - 1, id); }
  }

  /** One more thing seen: a pattern goes to the target's table if there is room. */
  function Filed(tables: Tables, target: nat, x: Seen): Tables {
    if x.SawPattern? && target < |tables| && |tables[target]| < MAX_PER_BLOCK
    then tables[target := tables[target] + [x.pat]] else tables
  }

  lemma GatheredNext(base: Tables, tables: Tables, seen: seq<Seen>, x: Seen)
    requires Gathered(base, tables, seen)
    ensures Gathered(base, Filed(tables, Target(seen, |seen|), x), seen + [x])
    ensures Target(seen + [x], |seen| + 1) == if SetsTarget(x) then x.r.ops[0] % WORD else Target(seen, |seen|)
  {
    SamePrefix(seen, x, |seen|, 0);
    var now := Filed(tables, Target(seen, |seen|), x);
    forall id | 0 <= id < MAX_BLOCK_IDS
      ensures now[id] == First(base[id] + PatternsFor(seen + [x], |seen + [x]|, id), MAX_PER_BLOCK)
    {
      TableNext(base, tables, seen, x, id, Target(seen, |seen|), PatternsFor(seen, |seen|, id));
    }
  }

  lemma TableNext(base: Tables, tables: Tables, seen: seq<Seen>, x: Seen, id: nat, target: nat, ps: seq<Pattern>)
    requires id < |base| == |tables| && ps == PatternsFor(seen, |seen|, id) && target == Target(seen, |seen|)
    requires tables[id] == First(base[id] + ps, MAX_PER_BLOCK)
    ensures Filed(tables, target, x)[id] == First(base[id] + PatternsFor(seen + [x], |seen + [x]|, id), MAX_PER_BLOCK)
  {
    var more := if x.SawPattern? && target == id then [x.pat] else [];
    PatternsNext(seen, x, id);
    FiledAt(tables, target, x, id);
    Regroup(base[id], ps, more);
    FirstNext(base[id] + ps, more, MAX_PER_BLOCK);
  }

  lemma PatternsNext(seen: seq<Seen>, x: Seen, id: nat)
    ensures PatternsFor(seen + [x], |seen + [x]|, id)
         == PatternsFor(seen, |seen|, id) + if x.SawPattern? && Target(seen, |seen|) == id then [x.pat] else []
  {
    SamePrefix(seen, x, |seen|, id);
  }

  lemma FiledAt(tables: Tables, target: nat, x: Seen, id: nat)
    requires id < |tables|
    ensures Filed(tables, target, x)[id]
         == tables[id] + if x.SawPattern? && target == id && |tables[id]| < MAX_PER_BLOCK then [x.pat] else []
  {
  }

  lemma FirstNext<T>(ps: seq<T>, more: seq<T>, n: nat)
    requires |more| <= 1
    ensures First(ps + more, n) == First(ps, n) + if |First(ps, n)| < n then more else []
  {
  }

  // ----- the walk -----

  function SkipAll(): nat -> bool { _ => false }

  /** A walk in progress: what was seen, and what the rest of the walk will see. */
  function Joined(seen: seq<Seen>, r: Read<seq<Seen>>): Read<seq<Seen>> {
    match r
    case Fail => Fail
    case Got(xs, q) => Got(seen + xs, q)
  }

  lemma JoinedPrepend(seen: seq<Seen>, x: Seen, r: Read<seq<Seen>>)
    ensures Joined(seen, Prepend(x, r)) == Joined(seen + [x], r)
  {
    if r.Got? { assert seen + ([x] + r.value) == seen + [x] + r.value; }
  }

  function WithPattern(blk: Block, x: Seen): Block { if x.SawPattern? then blk.(table := blk.table + [x.pat]) else blk }

  lemma WalkOnce(rd: Reader, blk: Block, p: nat, x: Seen, q: nat)
    requires Advances(rd)
    requires match rd.next(blk, p)
             case Defined(pat, r) => x == SawPattern(pat) && q == r
             case Rec(rec, r) => x == SawRecord(rec) && q == r
             case SubBlock(id) => x == SawBlock(id, None) && rd.skip(p, blk.width) == Got((), q)
             case _ => false
    ensures Walk(rd, SkipAll(), blk, p) == Prepend(x, Walk(rd, SkipAll(), WithPattern(blk, x), q)) && p < q
    ensures p <= rd.top
  {
    assert StepAdvances(rd.top, p, rd.next(blk, p));
  }

  /** One turn of the walker's loop. */
  method SeeNext(c: Cursor, blk: Block, ghost info: Info) returns (x: Option<Seen>, ok: bool)
    requires c.Valid() && Advances(ReaderOf(PrimsOf(c.Bits()), info))
    modifies c`pos
    ensures var rd := ReaderOf(PrimsOf(c.Bits()), info);
            if !ok then Walk(rd, SkipAll(), blk, old(c.pos)) == Fail else
            match x
            case None => Walk(rd, SkipAll(), blk, old(c.pos)) == Got([], c.pos)
            case Some(y) =>
              && Walk(rd, SkipAll(), blk, old(c.pos)) == Prepend(y, Walk(rd, SkipAll(), WithPattern(blk, y), c.pos))
              && old(c.pos) < c.pos && old(c.pos) <= rd.top
  {
    ghost var rd := ReaderOf(PrimsOf(c.Bits()), info);
    ok := true;
    var s := Next(c, blk);
    match s
    case Failed => return None, false;
    case Ended(_) => return None, true;
    case Defined(pat, _) => x := Some(SawPattern(pat));
    case Rec(r, _) => x := Some(SawRecord(r));
    case SubBlock(id) =>
      ok := Skip(c, blk.width);
      if !ok { return None, false; }
      x := Some(SawBlock(id, None));
    WalkOnce(rd, blk, old(c.pos), x.value, c.pos);
  }

  /** Read a BLOCKINFO block from the cursor to its end and file its patterns by block id,
      behind those of earlier BLOCKINFO blocks.  If reading fails, what came before stays. */
  method ReadBlockInfo(c: Cursor, blk0: Block, base: Tables, ghost info: Info)
    returns (tables: Tables, ok: bool, ghost seen: seq<Seen>)
    requires c.Valid() && Advances(ReaderOf(PrimsOf(c.Bits()), info)) && Sound(base)
    modifies c`pos
    ensures Gathered(base, tables, seen)
    ensures Walk(ReaderOf(PrimsOf(c.Bits()), info), SkipAll(), blk0, old(c.pos))
            == if ok then Got(seen, c.pos) else Fail
  {
    ghost var rd := ReaderOf(PrimsOf(c.Bits()), info);
    ghost var whole := Walk(rd, SkipAll(), blk0, c.pos);
    tables, seen := base, [];
    var blk, target := blk0, NO_TARGET;
    assert Joined([], whole) == whole by { if whole.Got? { assert [] + whole.value == whole.value; } }
    assert Gathered(base, tables, []) by { NothingFiled(base); }
    while true
      invariant Gathered(base, tables, seen) && target == Target(seen, |seen|)
      invariant whole == Joined(seen, Walk(rd, SkipAll(), blk, c.pos))
      decreases if c.pos <= rd.top then rd.top + 1 - c.pos else 0
    {
      var x;
      x, ok := SeeNext(c, blk, info);
      if !ok { return; }
      if x.None? {
        assert seen + [] == seen;
        return;
      }
      JoinedPrepend(seen, x.value, Walk(rd, SkipAll(), WithPattern(blk, x.value), c.pos));
      GatheredNext(base, tables, seen, x.value);
      tables, blk, seen := Filed(tables, target, x.value), WithPattern(blk, x.value), seen + [x.value];
      if SetsTarget(x.value) { target := x.value.r.ops[0] % WORD; }
    }
  }

  lemma NothingFiled(base: Tables)
    requires Sound(base)
    ensures Gathered(base, base, [])
  {
    forall id | 0 <= id < MAX_BLOCK_IDS ensures base[id] == First(base[id] + PatternsFor([], 0, id), MAX_PER_BLOCK) {
      assert base[id] + [] == base[id];
    }
  }

  // ----- from an encoded BLOCKINFO to the blocks after it -----

  /** The block id that an item makes the target. */
  function TargetSet(g: Grammar, it: Item): Option<nat> {
    if it.Define? || it.Sub? || g.record(it).code != SETBID || |g.record(it).ops| == 0 then None
    else Some(g.record(it).ops[0] % WORD)
  }

  function TargetAt(g: Grammar, items: seq<Item>, k: nat): nat
    requires k <= |items|
  {
    if k == 0 then NO_TARGET
    else if TargetSet(g, items[k - 1]).Some? then TargetSet(g, items[k - 1]).value
    else TargetAt(g, items, k - 1)
  }

  /** The patterns that the first k items define for a block id. */
  function Meant(g: Grammar, items: seq<Item>, k: nat, id: nat): seq<Pattern>
    requires k <= |items|
  {
    if k == 0 then []
    else Meant(g, items, k - 1, id)
         + if items[k - 1].Define? && TargetAt(g, items, k - 1) == id then [items[k - 1].pat] else []
  }

  /** The tables after an encoded BLOCKINFO block. */
  function Installed(g: Grammar, base: Tables, items: seq<Item>): Tables
    requires |base| == MAX_BLOCK_IDS
  {
    seq(MAX_BLOCK_IDS, id requires 0 <= id < MAX_BLOCK_IDS =>
      First(base[id] + Meant(g, items, |items|, id), MAX_PER_BLOCK))
  }

  /** A record with code 1 makes its first operand, cut to 32 bits, the target. */
  lemma TargetExactly(g: Grammar, it: Item)
    ensures TargetSet(g, it) == if (it.Plain? || it.Abbreviated?) && g.record(it).code == 1 && |g.record(it).ops| >= 1
                                then Some(g.record(it).ops[0] % 0x1_0000_0000) else None
  {
  }

  /** Block ids below 32 have tables, of at most 64 patterns: what was there first. */
  lemma InstalledExactly(g: Grammar, base: Tables, items: seq<Item>, id: nat)
    requires |base| == 32
    ensures |Installed(g, base, items)| == 32
    ensures id < 32 ==> var all := base[id] + Meant(g, items, |items|, id);
                        Installed(g, base, items)[id] == all[..if |all| <= 64 then |all| else 64]
  {
    if id < 32 {
      var all := base[id] + Meant(g, items, |items|, id);
      assert all[..|all|] == all;
    }
  }

  function InfoOf(tables: Tables): Info { (id: nat) => if id < |tables| then tables[id] else [] }

  function NoInfo(): Info { (id: nat) => [] }

  /** What is seen of an item, as far as BLOCKINFO cares. */
  ghost predicate Matches(g: Grammar, it: Item, x: Seen) {
    && (it.Define? <==> x.SawPattern?) && (it.Define? ==> x.pat == it.pat)
    && (SetsTarget(x) <==> TargetSet(g, it).Some?) && (SetsTarget(x) ==> x.r.ops[0] % WORD == TargetSet(g, it).value)
  }

  lemma {:induction false} SeenMatches(g: Grammar, items: seq<Item>, w: nat, p: nat, policy: nat -> bool, k: nat)
    requires k < |items|
    ensures |SeenItems(g, items, w, p, policy)| == |items| && Matches(g, items[k], SeenItems(g, items, w, p, policy)[k])
    decreases |items|
  {
    var q := p + |EncItem(g, items[0], w, p)|;
    if k > 0 {
      SeenMatches(g, items[1..], w, q, policy, k - 1);
    } else if |items| > 1 {
      SeenMatches(g, items[1..], w, q, policy, 0);
    }
  }

  lemma {:induction false} SeenMeans(g: Grammar, items: seq<Item>, seen: seq<Seen>, k: nat, id: nat)
    requires k <= |items| == |seen| && forall i :: 0 <= i < |items| ==> Matches(g, items[i], seen[i])
    ensures Target(seen, k) == TargetAt(g, items, k) && PatternsFor(seen, k, id) == Meant(g, items, k, id)
  {
    if k > 0 {
      SeenMeans(g, items, seen, k - 1, id);
      assert Matches(g, items[k - 1], seen[k - 1]);
    }
  }

  lemma GatheredIs(g: Grammar, base: Tables, tables: Tables, items: seq<Item>, seen: seq<Seen>)
    requires Gathered(base, tables, seen) && |items| == |seen|
    requires forall i :: 0 <= i < |items| ==> Matches(g, items[i], seen[i])
    ensures tables == Installed(g, base, items)
  {
    forall id | 0 <= id < MAX_BLOCK_IDS ensures tables[id] == Installed(g, base, items)[id] {
      SeenMeans(g, items, seen, |items|, id);
    }
  }

  /** BLOCKINFO TAKES EFFECT.  An encoded BLOCKINFO block is read as its items; whatever
      tables are gathered from that are the installed ones: each id's earlier patterns, then
      those defined for it, as many as fit; and a block that is well formed under them is
      delivered item by item when it is read with them, for any choice of entering blocks. */
  lemma InfoTakesEffect(b: seq<bool>, base: Tables, info: Item, blk: Block, p: nat, later: Item, blk': Block, q: nat,
                        policy: nat -> bool)
    requires Sound(base) && info.Sub? && Stands(Llvm(), b, NoInfo(), info, blk, p)
    requires later.Sub? && Stands(Llvm(), b, InfoOf(Installed(Llvm(), base, info.items)), later, blk', q)
    ensures var rd := ReaderOf(PrimsOf(b), NoInfo());
            && Advances(rd) && WalkedLikeSkipped(Llvm(), rd, SkipAll(), info, blk, p)
            && forall tables :: Gathered(base, tables,
              SeenItems(Llvm(), info.items, info.width, rd.enter(p, blk.width).next, SkipAll()))
                                ==> tables == Installed(Llvm(), base, info.items)
    ensures var rd := ReaderOf(PrimsOf(b), InfoOf(Installed(Llvm(), base, info.items)));
            Advances(rd) && WalkedLikeSkipped(Llvm(), rd, policy, later, blk', q)
  {
    WalkEqualsSkip(b, NoInfo(), SkipAll(), info, blk, p);
    WalkEqualsSkip(b, InfoOf(Installed(Llvm(), base, info.items)), policy, later, blk', q);
    var start := ReaderOf(PrimsOf(b), NoInfo()).enter(p, blk.width).next;
    TablesAre(Llvm(), base, info.items, info.width, start, SkipAll());
  }

  lemma TablesAre(g: Grammar, base: Tables, items: seq<Item>, w: nat, start: nat, policy: nat -> bool)
    requires Sound(base)
    ensures forall tables :: Gathered(base, tables, SeenItems(g, items, w, start, policy)) ==>
            tables == Installed(g, base, items)
  {
    var seen := SeenItems(g, items, w, start, policy);
    forall i | 0 <= i < |items| ensures |seen| == |items| && Matches(g, items[i], seen[i]) {
      SeenMatches(g, items, w, start, policy, i);
    }
    assert items == [] ==> seen == [];
    forall tables | Gathered(base, tables, seen) ensures tables == Installed(g, base, items) {
      GatheredIs(g, base, tables, items, seen);
    }
  }

  lemma EnterWithNothing(rs: Prims, p: nat, w: nat)
    ensures EnterAt(rs, p, w, Some(NoInfo())) == EnterAt(rs, p, w, None)
  {
  }

  /** Enter a BLOCKINFO block at the cursor and read it.  Where the encoding of one stands,
      in whatever block, the cursor ends behind it and the tables are those its items spell. */
  method InstallInfo(c: Cursor, w: nat, base: Tables, ghost info: Item, ghost blk: Block)
    returns (tables: Tables, ok: bool)
    requires c.Valid() && Sound(base) && info.Sub? && blk.width == w
    modifies c`pos
    ensures Stands(Llvm(), c.Bits(), NoInfo(), info, blk, old(c.pos)) ==>
              ok && tables == Installed(Llvm(), base, info.items)
              && c.pos == old(c.pos) + |EncItem(Llvm(), info, w, old(c.pos))|
  {
    ghost var b, p := c.Bits(), c.pos;
    PrimsMove(b);
    ReaderAdvances(PrimsOf(b), NoInfo());
    EnterWithNothing(PrimsOf(b), p, w);
    if Stands(Llvm(), b, NoInfo(), info, blk, p) { WalkEqualsSkip(b, NoInfo(), SkipAll(), info, blk, p); }
    var inner;
    inner, ok := Enter(c, w, None);
    if !ok { return base, false; }
    ghost var start, seen := c.pos, [];
    tables, ok, seen := ReadBlockInfo(c, inner, base, NoInfo());
    if Stands(Llvm(), b, NoInfo(), info, blk, p) {
      TablesAre(Llvm(), base, info.items, info.width, start, SkipAll());
    }
  }

  // ----- the limit -----

  function Definitions(seen: seq<Seen>): nat {
    if seen == [] then 0 else (if seen[0].SawPattern? then 1 else 0) + Definitions(seen[1..])
  }

  /** A DEFINITION TOO MANY IS REFUSED, for any stream: a block that is read to its end has
      defined no more than its table holds beyond what it inherited.  A BLOCKINFO block thus
      defines at most MAX_PER_BLOCK abbreviations in all, for whatever block ids. */
  lemma {:induction false} DefinitionsCapped(rs: Prims, info: Info, policy: nat -> bool, blk: Block, p: nat)
    requires Advances(ReaderOf(rs, info)) && |blk.table| <= MAX_PER_BLOCK
    ensures var r := Walk(ReaderOf(rs, info), policy, blk, p);
            r.Got? ==> |blk.table| + Definitions(r.value) <= MAX_PER_BLOCK
    decreases if p <= rs.len then rs.len + 1 - p else 0
  {
    var rd := ReaderOf(rs, info);
    var r := Walk(rd, policy, blk, p);
    if r.Got? {
      assert StepAdvances(rd.top, p, rd.next(blk, p));
      match rd.next(blk, p)
      case Ended(q) =>
      case Defined(pat, q) => DefinitionsCapped(rs, info, policy, blk.(table := blk.table + [pat]), q);
      case Rec(_, q) => DefinitionsCapped(rs, info, policy, blk, q);
      case SubBlock(id) =>
        if policy(p) {
          DefinitionsCapped(rs, info, policy, blk, Walk(rd, policy, rd.enter(p, blk.width).value,
                                                        rd.enter(p, blk.width).next).next);
        } else {
          DefinitionsCapped(rs, info, policy, blk, rd.skip(p, blk.width).next);
        }
      assert r.value != [] ==> r.value == [r.value[0]] + r.value[1..];
    }
  }
}
