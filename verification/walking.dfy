/** Walking a block equals skipping it: for every well-formed tree of blocks, reading it
    item by item gives back what was encoded and ends where a skip lands. */
module Walking {
  import opened Wrappers
  import opened Bits
  import opened Bitstream
  import opened Abbrev
  import opened Records
  import opened Blocks

  // ----- well-formed trees -----

  function TableOf(info: Info, id: nat): seq<Pattern> { if id < MAX_BLOCK_IDS then info(id) else [] }

  /** The table after an item. */
  function Extended(table: seq<Pattern>, it: Item): seq<Pattern> {
    if it.Define? then table + [it.pat] else table
  }

  /** Items that fit the block they are in, all the way down; sizes fit the size field. */
  ghost predicate ItemOk(g: Grammar, it: Item, w: nat, p: nat, table: seq<Pattern>, info: Info)
    decreases it, 0
  {
    && g.fits(it, w, table)
    && (it.Sub? ==>
          var start := g.start(it, w, p);
          && 1 <= it.width <= MAX_ABBREV_WIDTH && |TableOf(info, it.id)| <= MAX_PER_BLOCK
          && |EncBody(g, it.items, it.width, start)| / 32 < Pow2(32)
          && ItemsOk(g, it.items, it.width, start, TableOf(info, it.id), info))
  }

  ghost predicate ItemsOk(g: Grammar, items: seq<Item>, w: nat, p: nat, table: seq<Pattern>, info: Info)
    decreases items, 0
  {
    items == [] ||
    (&& ItemOk(g, items[0], w, p, table, info)
     && ItemsOk(g, items[1..], w, p + |EncItem(g, items[0], w, p)|, Extended(table, items[0]), info))
  }

  /** What a walk with this policy should see. */
  function SeenItem(g: Grammar, it: Item, w: nat, p: nat, policy: nat -> bool): Seen
    decreases it, 0
  {
    match it
    case Define(pat) => SawPattern(pat)
    case Sub(id, width, items) =>
      SawBlock(id, if policy(p) then Some(SeenItems(g, items, width, g.start(it, w, p), policy)) else None)
    case _ => SawRecord(g.record(it))
  }

  function SeenItems(g: Grammar, items: seq<Item>, w: nat, p: nat, policy: nat -> bool): seq<Seen>
    decreases items, 0
  {
    if items == [] then [] else
    [SeenItem(g, items[0], w, p, policy)] + SeenItems(g, items[1..], w, p + |EncItem(g, items[0], w, p)|, policy)
  }

  // ----- the walk, one turn at a time -----

  type Walker = (Block, nat) -> Read<seq<Seen>>

  function Turn(rd: Reader, policy: nat -> bool, walk: Walker, blk: Block, p: nat): Read<seq<Seen>> {
    match rd.next(blk, p)
    case Failed => Fail
    case Ended(q) => Got([], q)
    case Defined(pat, q) => Prepend(SawPattern(pat), walk(blk.(table := blk.table + [pat]), q))
    case Rec(rec, q) => Prepend(SawRecord(rec), walk(blk, q))
    case SubBlock(id) =>
      if policy(p) then
        match rd.enter(p, blk.width)
        case Fail => Fail
        case Got(inner, q) =>
          (match walk(inner, q)
           case Fail => Fail
           case Got(seen, r) => Prepend(SawBlock(id, Some(seen)), walk(blk, r)))
      else
        match rd.skip(p, blk.width)
        case Fail => Fail
        case Got(_, r) => Prepend(SawBlock(id, None), walk(blk, r))
  }

  /** A marker that makes one turn of the walk visible to a proof. */
  ghost predicate At(blk: Block, p: nat) { true }

  ghost predicate Unrolls(rd: Reader, policy: nat -> bool, walk: Walker) {
    forall blk, p: nat {:trigger At(blk, p)} :: walk(blk, p) == Turn(rd, policy, walk, blk, p)
  }

  lemma WalkUnrolls(rd: Reader, policy: nat -> bool) returns (walk: Walker)
    requires Advances(rd)
    ensures Unrolls(rd, policy, walk) && forall blk, p: nat :: walk(blk, p) == Walk(rd, policy, blk, p)
  {
    walk := (blk: Block, p: nat) => Walk(rd, policy, blk, p);
    forall blk: Block, p: nat ensures walk(blk, p) == Turn(rd, policy, walk, blk, p) {
      assert StepAdvances(rd.top, p, rd.next(blk, p));
    }
  }

  lemma PatternStep(rd: Reader, policy: nat -> bool, walk: Walker, blk: Block, p: nat, pat: Pattern, q: nat,
                    rest: seq<Seen>)
    requires Unrolls(rd, policy, walk) && rd.next(blk, p) == Defined(pat, q)
    requires walk(blk.(table := blk.table + [pat]), q) == Got(rest, blk.end)
    ensures walk(blk, p) == Got([SawPattern(pat)] + rest, blk.end)
  {
    assert At(blk, p);
  }

  lemma RecordStep(rd: Reader, policy: nat -> bool, walk: Walker, blk: Block, p: nat, r: Record, q: nat,
                   rest: seq<Seen>)
    requires Unrolls(rd, policy, walk) && rd.next(blk, p) == Rec(r, q) && walk(blk, q) == Got(rest, blk.end)
    ensures walk(blk, p) == Got([SawRecord(r)] + rest, blk.end)
  {
    assert At(blk, p);
  }

  lemma EnterStep(rd: Reader, policy: nat -> bool, walk: Walker, blk: Block, p: nat, inner: Block, start: nat,
                  seen: seq<Seen>, q: nat, rest: seq<Seen>)
    requires Unrolls(rd, policy, walk) && policy(p) && rd.next(blk, p) == SubBlock(inner.id)
    requires rd.enter(p, blk.width) == Got(inner, start)
    requires walk(inner, start) == Got(seen, q) && walk(blk, q) == Got(rest, blk.end)
    ensures walk(blk, p) == Got([SawBlock(inner.id, Some(seen))] + rest, blk.end)
  {
    assert At(blk, p);
  }

  lemma SkipStep(rd: Reader, policy: nat -> bool, walk: Walker, blk: Block, p: nat, id: nat, q: nat, rest: seq<Seen>)
    requires Unrolls(rd, policy, walk) && !policy(p) && rd.next(blk, p) == SubBlock(id)
    requires rd.skip(p, blk.width) == Got((), q)
    requires walk(blk, q) == Got(rest, blk.end)
    ensures walk(blk, p) == Got([SawBlock(id, None)] + rest, blk.end)
  {
    assert At(blk, p);
  }

  // ----- one item -----

  /** The reader does with an item what it should. */
  ghost predicate Delivered(g: Grammar, rd: Reader, b: seq<bool>, info: Info, it: Item, blk: Block, p: nat) {
    var q := p + |EncItem(g, it, blk.width, p)|;
    match it
    case Define(pat) => rd.next(blk, p) == Defined(pat, q)
    case Sub(id, width, items) =>
      var start := g.start(it, blk.width, p);
      && rd.next(blk, p) == SubBlock(id)
      && rd.enter(p, blk.width) == Got(Block(id, width, q, TableOf(info, id)), start)
      && rd.skip(p, blk.width) == Got((), q)
      && Has(b, start, EncBody(g, items, width, start)) && q == start + |EncBody(g, items, width, start)|
    case _ => rd.next(blk, p) == Rec(g.record(it), q)
  }

  ghost predicate Stands(g: Grammar, b: seq<bool>, info: Info, it: Item, blk: Block, p: nat) {
    && ItemOk(g, it, blk.width, p, blk.table, info) && 1 <= blk.width <= MAX_ABBREV_WIDTH && p < blk.end
    && Has(b, p, EncItem(g, it, blk.width, p))
  }

  ghost predicate Delivers(g: Grammar, rd: Reader, b: seq<bool>, info: Info) {
    && (forall it: Item, blk: Block, p: nat {:trigger Delivered(g, rd, b, info, it, blk, p)} ::
          Stands(g, b, info, it, blk, p) ==> Delivered(g, rd, b, info, it, blk, p))
    && (forall blk: Block, p: nat {:trigger rd.next(blk, p)} ::
          1 <= blk.width <= MAX_ABBREV_WIDTH && p < blk.end && Has(b, p, EncEnd(blk.width, p))
          ==> rd.next(blk, p) == Ended(Align32(p + blk.width)))
  }

  lemma BodyCons(g: Grammar, items: seq<Item>, w: nat, p: nat)
    requires items != []
    ensures var e := EncItem(g, items[0], w, p);
            EncBody(g, items, w, p) == e + EncBody(g, items[1..], w, p + |e|)
  {
    var e := EncItem(g, items[0], w, p);
    var f := EncItems(g, items[1..], w, p + |e|);
    assert EncItems(g, items, w, p) == e + f;
    Regroup(e, f, EncEnd(w, p + |e| + |f|));
  }

  // ----- the whole block -----

  /** Walking the rest of a block. */
  lemma {:induction false} WalkItems(g: Grammar, rd: Reader, b: seq<bool>, info: Info, policy: nat -> bool,
                                walk: Walker, items: seq<Item>, blk: Block, p: nat)
    requires Unrolls(rd, policy, walk) && Delivers(g, rd, b, info) && 1 <= blk.width <= MAX_ABBREV_WIDTH
    requires ItemsOk(g, items, blk.width, p, blk.table, info)
    requires Has(b, p, EncBody(g, items, blk.width, p)) && blk.end == p + |EncBody(g, items, blk.width, p)|
    ensures walk(blk, p) == Got(SeenItems(g, items, blk.width, p, policy), blk.end)
    decreases items, 1
  {
    if items == [] {
      assert EncBody(g, items, blk.width, p) == EncEnd(blk.width, p);
      assert At(blk, p);
    } else {
      var q := FirstItem(g, rd, b, info, items, blk, p);
      WalkRest(g, rd, b, info, policy, walk, items, blk, p, q);
      if items[0].Sub? && policy(p) {
        WalkInside(g, rd, b, info, policy, walk, items[0], blk, p, q);
      }
      OneStep(g, rd, b, info, policy, walk, items[0], blk, p, q, SeenItems(g, items[1..], blk.width, q, policy));
      SeenCons(g, items, blk.width, p, policy, q);
    }
  }

  lemma SeenCons(g: Grammar, items: seq<Item>, w: nat, p: nat, policy: nat -> bool, q: nat)
    requires items != [] && q == p + |EncItem(g, items[0], w, p)|
    ensures SeenItems(g, items, w, p, policy) == [SeenItem(g, items[0], w, p, policy)]
            + SeenItems(g, items[1..], w, q, policy)
  {
  }

  /** Walking what follows the first item. */
  lemma {:induction false} WalkRest(g: Grammar, rd: Reader, b: seq<bool>, info: Info, policy: nat -> bool, walk: Walker,
                                items: seq<Item>, blk: Block, p: nat, q: nat)
    requires Unrolls(rd, policy, walk) && Delivers(g, rd, b, info) && 1 <= blk.width <= MAX_ABBREV_WIDTH && items != []
    requires ItemsOk(g, items, blk.width, p, blk.table, info) && q == p + |EncItem(g, items[0], blk.width, p)|
    requires Has(b, q, EncBody(g, items[1..], blk.width, q)) && blk.end == q + |EncBody(g, items[1..], blk.width, q)|
    ensures walk(blk.(table := Extended(blk.table, items[0])), q)
            == Got(SeenItems(g, items[1..], blk.width, q, policy), blk.end)
    decreases items, 0
  {
    WalkItems(g, rd, b, info, policy, walk, items[1..], blk.(table := Extended(blk.table, items[0])), q);
  }

  /** Walking an entered sub-block. */
  lemma {:induction false} WalkInside(g: Grammar, rd: Reader, b: seq<bool>, info: Info, policy: nat -> bool,
                                walk: Walker, it: Item, blk: Block, p: nat, q: nat)
    requires Unrolls(rd, policy, walk) && Delivers(g, rd, b, info) && it.Sub?
    requires ItemOk(g, it, blk.width, p, blk.table, info)
    requires Delivered(g, rd, b, info, it, blk, p) && q == p + |EncItem(g, it, blk.width, p)|
    ensures var start := g.start(it, blk.width, p);
            walk(Block(it.id, it.width, q, TableOf(info, it.id)), start)
              == Got(SeenItems(g, it.items, it.width, start, policy), q)
    decreases it, 0
  {
    WalkItems(g, rd, b, info, policy, walk, it.items, Block(it.id, it.width, q, TableOf(info, it.id)),
      g.start(it, blk.width, p));
  }

  /** The first item is delivered, and the rest of the body follows it. */
  lemma FirstItem(g: Grammar, rd: Reader, b: seq<bool>, info: Info, items: seq<Item>, blk: Block, p: nat)
    returns (q: nat)
    requires Delivers(g, rd, b, info) && 1 <= blk.width <= MAX_ABBREV_WIDTH && items != []
    requires ItemOk(g, items[0], blk.width, p, blk.table, info)
    requires Has(b, p, EncBody(g, items, blk.width, p)) && blk.end == p + |EncBody(g, items, blk.width, p)|
    ensures q == p + |EncItem(g, items[0], blk.width, p)| && Delivered(g, rd, b, info, items[0], blk, p)
    ensures Has(b, q, EncBody(g, items[1..], blk.width, q)) && blk.end == q + |EncBody(g, items[1..], blk.width, q)|
  {
    var e := EncItem(g, items[0], blk.width, p);
    q := p + |e|;
    BodyCons(g, items, blk.width, p);
    HasBoth(b, p, e, EncBody(g, items[1..], blk.width, q));
    BodyNonEmpty(g, items[1..], blk.width, q);
    assert Stands(g, b, info, items[0], blk, p);
  }

  lemma BodyNonEmpty(g: Grammar, items: seq<Item>, w: nat, p: nat)
    requires w >= 1
    ensures |EncBody(g, items, w, p)| >= 1
  {
  }

  /** One turn of the walk, when the rest is known. */
  lemma OneStep(g: Grammar, rd: Reader, b: seq<bool>, info: Info, policy: nat -> bool, walk: Walker, it: Item,
                blk: Block, p: nat, q: nat, rest: seq<Seen>)
    requires Unrolls(rd, policy, walk) && Delivered(g, rd, b, info, it, blk, p)
    requires q == p + |EncItem(g, it, blk.width, p)|
    requires walk(blk.(table := Extended(blk.table, it)), q) == Got(rest, blk.end)
    requires it.Sub? && policy(p) ==>
               var start := g.start(it, blk.width, p);
               walk(Block(it.id, it.width, q, TableOf(info, it.id)), start)
                 == Got(SeenItems(g, it.items, it.width, start, policy), q)
    ensures walk(blk, p) == Got([SeenItem(g, it, blk.width, p, policy)] + rest, blk.end)
  {
    match it
    case Define(pat) => PatternStep(rd, policy, walk, blk, p, pat, q, rest);
    case Sub(id, width, items) =>
      var start := g.start(it, blk.width, p);
      if policy(p) {
        EnterStep(rd, policy, walk, blk, p, Block(id, width, q, TableOf(info, id)), start,
          SeenItems(g, items, width, start, policy), q, rest);
      } else {
        SkipStep(rd, policy, walk, blk, p, id, q, rest);
      }
    case _ => RecordStep(rd, policy, walk, blk, p, g.record(it), q, rest);
  }
}
