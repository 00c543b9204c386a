/** The bump arena behind decoded function bodies.  Growing it moves it, so an address taken
    earlier may be stale; the last loop of the decoder derives every address again. */
module Arena {

  /** Where the arena is, bytes used and allocated, and the memory there: 64-bit cells by
      absolute address.  Nothing outside the allocation can be read. */
  datatype Arena = Arena(base: nat, used: nat, capacity: nat, mem: map<nat, nat>) {
    ghost predicate Valid() {
      used > 0 && used <= capacity && forall p :: p in mem ==> base <= p < base + used
    }
  }

  function Align8(n: nat): (r: nat)
    ensures n <= r < n + 8 && r % 8 == 0
  {
    (n + 7) / 8 * 8
  }

  /** The doubled capacity that holds `need` bytes. */
  function Grown(cap: nat, need: nat): (r: nat)
    requires cap > 0
    ensures r >= need && r >= cap
    decreases if cap < need then need - cap else 0
  {
    if cap >= need then cap else Grown(2 * cap, need)
  }

  /** cap doubled k times. */
  function Doubled(cap: nat, k: nat): nat { if k == 0 then cap else 2 * Doubled(cap, k - 1) }

  lemma {:induction false} DoubledFirst(cap: nat, k: nat)
    ensures Doubled(2 * cap, k) == Doubled(cap, k + 1)
  {
    if k > 0 { DoubledFirst(cap, k - 1); }
  }

  /** Doubled as often as needed and no more. */
  lemma {:induction false} GrownExactly(cap: nat, need: nat) returns (k: nat)
    requires cap > 0
    ensures Grown(cap, need) == Doubled(cap, k) && (k > 0 ==> Doubled(cap, k - 1) < need)
    decreases if cap < need then need - cap else 0
  {
    k := 0;
    if cap < need {
      var j := GrownExactly(2 * cap, need);
      k := j + 1;
      DoubledFirst(cap, j);
      if j > 0 { DoubledFirst(cap, j - 1); }
    }
  }

  /** The address in the present allocation that corresponds to p in one at `to`. */
  function Source(a: Arena, to: nat, p: nat): int { p - to + a.base }

  /** Reallocation: every cell of the old allocation is copied to the same offset of the new
      one, and the old one is gone. */
  function Moved(a: Arena, to: nat, capacity: nat): Arena {
    Arena(to, a.used, capacity,
          map p: nat | to <= p < to + a.capacity && Source(a, to, p) in a.mem :: a.mem[Source(a, to, p)])
  }

  /** n bytes at an aligned offset; if they do not fit, the arena grows and moves to `to`. */
  function Reserved(a: Arena, n: nat, to: nat): (r: (Arena, nat))
    requires a.capacity > 0
    ensures r.1 % 8 == 0 && a.used <= r.1 && r.0.used == r.1 + n && r.0.capacity > 0
  {
    var off := Align8(a.used);
    var b := if off + n > a.capacity then Moved(a, to, Grown(2 * a.capacity, off + n)) else a;
    (b.(used := off + n), off)
  }

  /** A reservation begins at the next multiple of 8 and moves nothing while it fits; otherwise
      the arena moves, with the least number of doublings that makes it fit. */
  lemma ReservedExactly(a: Arena, n: nat, to: nat) returns (k: nat)
    requires a.capacity > 0
    ensures var (b, off) := Reserved(a, n, to);
            && off == (a.used + 7) / 8 * 8 && b.used == off + n
            && (off + n <= a.capacity ==> b == a.(used := off + n))
            && (off + n > a.capacity ==>
                  b.base == to && k > 0 && b.capacity == Doubled(a.capacity, k) >= off + n
                  && (k > 1 ==> Doubled(a.capacity, k - 1) < off + n))
  {
    var off := (a.used + 7) / 8 * 8;
    var j := GrownExactly(2 * a.capacity, off + n);
    k := j + 1;
    DoubledFirst(a.capacity, j);
    if j > 0 { DoubledFirst(a.capacity, j - 1); }
  }

  function Store(mem: map<nat, nat>, at: nat, vs: seq<nat>): map<nat, nat>
    decreases |vs|
  {
    if vs == [] then mem else Store(mem, at, vs[..|vs| - 1])[at + 8 * (|vs| - 1) := vs[|vs| - 1]]
  }

  ghost predicate Reads(mem: map<nat, nat>, at: nat, vs: seq<nat>) {
    forall j :: 0 <= j < |vs| ==> at + 8 * j in mem && mem[at + 8 * j] == vs[j]
  }

  /** A decoded instruction: the address of its operands as it was when they were kept (0:
      none), their offset in the arena, and how many they are. */
  datatype Inst = Inst(ops: nat, off: nat, count: nat)

  datatype Body = Body(a: Arena, insts: seq<Inst>)

  /** The arena after n bytes were reserved and ws written there. */
  function Placed(a: Arena, n: nat, ws: seq<nat>, to: nat): Arena
    requires a.capacity > 0
  {
    var (b, off) := Reserved(a, n, to);
    b.(mem := Store(b.mem, b.base + off, ws))
  }

  /** What the decoder does: keep an instruction's operands, or reserve n bytes for something
      else and fill some of them. */
  datatype Op = Keep(vs: seq<nat>, to: nat) | Other(n: nat, ws: seq<nat>, to: nat)

  function Next(b: Body, op: Op): Body
    requires b.a.capacity > 0
  {
    match op
    case Other(n, ws, to) =>
      b.(a := Placed(b.a, if 8 * |ws| <= n then n else 8 * |ws|, ws, to))
    case Keep(vs, to) =>
      if vs == [] then b.(insts := b.insts + [Inst(0, 0, 0)]) else
      var (a, off) := Reserved(b.a, 8 * |vs|, to);
      Body(Placed(b.a, 8 * |vs|, vs, to), b.insts + [Inst(a.base + off, off, |vs|)])
  }

  function Decoded(start: Arena, ops: seq<Op>): (b: Body)
    requires start.capacity > 0
    ensures b.a.capacity > 0
  {
    if ops == [] then Body(start, []) else Next(Decoded(start, ops[..|ops| - 1]), ops[|ops| - 1])
  }

  /** The address of an instruction's operands in the arena as it is now. */
  function Derived(a: Arena, x: Inst): Inst { x.(ops := if x.off == 0 then 0 else a.base + x.off) }

  /** The last loop of the decoder. */
  function Resolved(b: Body): Body {
    b.(insts := seq(|b.insts|, i requires 0 <= i < |b.insts| => Derived(b.a, b.insts[i])))
  }

  function Kept(ops: seq<Op>): seq<seq<nat>> {
    if ops == [] then [] else Kept(ops[..|ops| - 1]) + if ops[|ops| - 1].Keep? then [ops[|ops| - 1].vs] else []
  }

  // ----- memory -----

  lemma {:induction false} StoreAt(mem: map<nat, nat>, at: nat, vs: seq<nat>)
    ensures Reads(Store(mem, at, vs), at, vs)
    ensures forall p :: p in mem && p < at ==> p in Store(mem, at, vs) && Store(mem, at, vs)[p] == mem[p]
    ensures forall p :: p in Store(mem, at, vs) ==> p in mem || at <= p < at + 8 * |vs|
    decreases |vs|
  {
    if vs != [] { StoreAt(mem, at, vs[..|vs| - 1]); }
  }

  lemma MovedReads(a: Arena, to: nat, capacity: nat, off: nat, vs: seq<nat>)
    requires off + 8 * |vs| <= a.capacity && Reads(a.mem, a.base + off, vs)
    ensures Reads(Moved(a, to, capacity).mem, to + off, vs)
  {
    var mem := Moved(a, to, capacity).mem;
    forall j | 0 <= j < |vs| ensures to + off + 8 * j in mem && mem[to + off + 8 * j] == vs[j] {
      var p := to + off + 8 * j;
      assert Source(a, to, p) == a.base + off + 8 * j;
    }
  }

  lemma MovedValid(a: Arena, to: nat, capacity: nat)
    requires a.Valid() && a.used <= capacity
    ensures Moved(a, to, capacity).Valid()
  {
  }

  /** Growing keeps the arena's contents by offset, wherever it moves. */
  lemma ReservedKeeps(a: Arena, n: nat, to: nat, off: nat, vs: seq<nat>)
    requires a.Valid() && off + 8 * |vs| <= a.used && Reads(a.mem, a.base + off, vs)
    ensures var b := Reserved(a, n, to).0; b.Valid() && Reads(b.mem, b.base + off, vs)
  {
    var end := Align8(a.used) + n;
    if end > a.capacity {
      MovedValid(a, to, Grown(2 * a.capacity, end));
      MovedReads(a, to, Grown(2 * a.capacity, end), off, vs);
    }
  }

  lemma StoreKeeps(mem: map<nat, nat>, at: nat, ws: seq<nat>, p: nat, vs: seq<nat>)
    requires p + 8 * |vs| <= at && Reads(mem, p, vs)
    ensures Reads(Store(mem, at, ws), p, vs)
  {
    StoreAt(mem, at, ws);
  }

  // ----- what holds after every step -----

  /** The operands of an instruction lie in what is used. */
  ghost predicate Inside(x: Inst, used: nat) {
    if x.count == 0 then x.off == 0 else x.off % 8 == 0 && 0 < x.off && x.off + 8 * x.count <= used
  }

  ghost predicate Apart(x: Inst, y: Inst) {
    x.count > 0 && y.count > 0 ==> x.off + 8 * x.count <= y.off
  }

  /** Instruction x can read vs at its offset from the arena's present base. */
  ghost predicate Holds(a: Arena, x: Inst, vs: seq<nat>) {
    x.count == |vs| && Inside(x, a.used) && Reads(a.mem, a.base + x.off, vs)
  }

  ghost predicate Intact(b: Body, kept: seq<seq<nat>>) {
    && b.a.Valid() && |b.insts| == |kept|
    && (forall i :: 0 <= i < |kept| ==> Holds(b.a, b.insts[i], kept[i]))
    && (forall i, j :: 0 <= i < j < |kept| ==> Apart(b.insts[i], b.insts[j]))
  }

  lemma StoredValid(b: Arena, off: nat, ws: seq<nat>)
    requires b.Valid() && off + 8 * |ws| <= b.used
    ensures b.(mem := Store(b.mem, b.base + off, ws)).Valid() && Reads(Store(b.mem, b.base + off, ws), b.base + off, ws)
  {
    StoreAt(b.mem, b.base + off, ws);
  }

  lemma PlacedReads(a: Arena, n: nat, ws: seq<nat>, to: nat)
    requires a.Valid() && 8 * |ws| <= n
    ensures var b := Placed(a, n, ws, to);
            b.Valid() && b.base == Reserved(a, n, to).0.base && Reads(b.mem, b.base + Reserved(a, n, to).1, ws)
  {
    var (b, off) := Reserved(a, n, to);
    ReservedKeeps(a, n, to, 0, []);
    StoredValid(b, off, ws);
  }

  lemma StoredKeeps(b: Arena, off: nat, ws: seq<nat>, x: Inst, vs: seq<nat>)
    requires Holds(b, x, vs) && x.off + 8 * x.count <= off
    ensures Holds(b.(mem := Store(b.mem, b.base + off, ws)), x, vs)
  {
    StoreKeeps(b.mem, b.base + off, ws, b.base + x.off, vs);
  }

  lemma ReservedHolds(a: Arena, n: nat, to: nat, x: Inst, vs: seq<nat>)
    requires a.Valid() && Holds(a, x, vs)
    ensures Holds(Reserved(a, n, to).0, x, vs) && x.off + 8 * x.count <= Reserved(a, n, to).1
  {
    ReservedKeeps(a, n, to, x.off, vs);
  }

  /** Reserving and storing keeps what an instruction holds. */
  lemma PlacedKeeps(a: Arena, n: nat, ws: seq<nat>, to: nat, x: Inst, vs: seq<nat>)
    requires a.Valid() && Holds(a, x, vs)
    ensures Holds(Placed(a, n, ws, to), x, vs)
  {
    ReservedHolds(a, n, to, x, vs);
    StoredKeeps(Reserved(a, n, to).0, Reserved(a, n, to).1, ws, x, vs);
  }

  lemma OtherIntact(b: Body, kept: seq<seq<nat>>, n: nat, ws: seq<nat>, to: nat)
    requires Intact(b, kept)
    ensures Intact(Next(b, Other(n, ws, to)), kept)
  {
    var m := if 8 * |ws| <= n then n else 8 * |ws|;
    PlacedReads(b.a, m, ws, to);
    PlacedIntact(b, kept, m, ws, to);
  }

  lemma PlacedIntact(b: Body, kept: seq<seq<nat>>, n: nat, ws: seq<nat>, to: nat)
    requires Intact(b, kept) && 8 * |ws| <= n
    ensures Intact(b.(a := Placed(b.a, n, ws, to)), kept)
  {
    PlacedReads(b.a, n, ws, to);
    forall i | 0 <= i < |kept| ensures Holds(Placed(b.a, n, ws, to), b.insts[i], kept[i]) {
      assert Holds(b.a, b.insts[i], kept[i]);
      PlacedKeeps(b.a, n, ws, to, b.insts[i], kept[i]);
    }
  }

  lemma KeepIntact(b: Body, kept: seq<seq<nat>>, vs: seq<nat>, to: nat)
    requires Intact(b, kept)
    ensures Intact(Next(b, Keep(vs, to)), kept + [vs])
  {
    if vs == [] {
      AddIntact(b, kept, Inst(0, 0, 0), vs);
    } else {
      var (a, off) := Reserved(b.a, 8 * |vs|, to);
      KeepNext(b, vs, to, Inst(a.base + off, off, |vs|));
      KeptIntact(b, kept, vs, to, Inst(a.base + off, off, |vs|));
    }
  }

  lemma KeepNext(b: Body, vs: seq<nat>, to: nat, x: Inst)
    requires vs != [] && b.a.capacity > 0
    requires var (a, off) := Reserved(b.a, 8 * |vs|, to); x == Inst(a.base + off, off, |vs|)
    ensures Next(b, Keep(vs, to)) == Body(Placed(b.a, 8 * |vs|, vs, to), b.insts + [x])
  {
  }

  lemma ApartFromAll(b: Body, kept: seq<seq<nat>>, x: Inst)
    requires Intact(b, kept) && x.off >= b.a.used
    ensures forall i :: 0 <= i < |kept| ==> Apart(b.insts[i], x)
  {
    forall i | 0 <= i < |kept| ensures Apart(b.insts[i], x) { assert Holds(b.a, b.insts[i], kept[i]); }
  }

  lemma KeptIntact(b: Body, kept: seq<seq<nat>>, vs: seq<nat>, to: nat, x: Inst)
    requires Intact(b, kept) && vs != []
    requires x.off == Reserved(b.a, 8 * |vs|, to).1 && x.count == |vs|
    ensures Intact(Body(Placed(b.a, 8 * |vs|, vs, to), b.insts + [x]), kept + [vs])
  {
    KeptHolds(b.a, vs, to, x);
    PlacedIntact(b, kept, 8 * |vs|, vs, to);
    ApartFromAll(b, kept, x);
    AddIntact(b.(a := Placed(b.a, 8 * |vs|, vs, to)), kept, x, vs);
  }

  lemma KeptHolds(a: Arena, vs: seq<nat>, to: nat, x: Inst)
    requires a.Valid() && vs != [] && x.off == Reserved(a, 8 * |vs|, to).1 && x.count == |vs|
    ensures Holds(Placed(a, 8 * |vs|, vs, to), x, vs) && x.off >= a.used
  {
    PlacedReads(a, 8 * |vs|, vs, to);
  }

  lemma AddIntact(b: Body, kept: seq<seq<nat>>, x: Inst, vs: seq<nat>)
    requires Intact(b, kept) && Holds(b.a, x, vs) && forall i :: 0 <= i < |kept| ==> Apart(b.insts[i], x)
    ensures Intact(b.(insts := b.insts + [x]), kept + [vs])
  {
    var insts := b.insts + [x];
    forall i, j | 0 <= i < j < |insts| ensures Apart(insts[i], insts[j]) {
      if j < |kept| { assert Apart(b.insts[i], b.insts[j]); }
    }
  }

  lemma {:induction false} AllIntact(start: Arena, ops: seq<Op>)
    requires start.Valid()
    ensures Intact(Decoded(start, ops), Kept(ops))
    decreases |ops|
  {
    if ops == [] {
    } else {
      var before := ops[..|ops| - 1];
      AllIntact(start, before);
      match ops[|ops| - 1]
      case Other(n, ws, to) =>
        OtherIntact(Decoded(start, before), Kept(before), n, ws, to);
        assert Kept(before) + [] == Kept(before);
      case Keep(vs, to) => KeepIntact(Decoded(start, before), Kept(before), vs, to);
    }
  }

  /** OPERANDS SURVIVE: whatever growth and moves occurred, once every address is derived
      again, each instruction reads the operands decoded for it at its address; the ranges
      are 8-aligned within the arena, inside it, and pairwise disjoint. */
  lemma OperandsSurvive(start: Arena, ops: seq<Op>)
    requires start.Valid()
    ensures var b, kept := Resolved(Decoded(start, ops)), Kept(ops);
            && |b.insts| == |kept|
            && (forall i :: 0 <= i < |kept| ==>
              b.insts[i].count == |kept[i]| && Reads(b.a.mem, b.insts[i].ops, kept[i]))
            && (forall i :: 0 <= i < |kept| && kept[i] != [] ==>
                  b.a.base < b.insts[i].ops <= b.a.base + b.a.used - 8 * |kept[i]|
                    && (b.insts[i].ops - b.a.base) % 8 == 0)
            && (forall i, j :: 0 <= i < j < |kept| && kept[i] != [] && kept[j] != [] ==>
                  b.insts[i].ops + 8 * |kept[i]| <= b.insts[j].ops)
  {
    var d, b, kept := Decoded(start, ops), Resolved(Decoded(start, ops)), Kept(ops);
    AllIntact(start, ops);
    forall i | 0 <= i < |kept|
      ensures Holds(d.a, d.insts[i], kept[i]) && b.insts[i] == Derived(d.a, d.insts[i])
    {
    }
    forall i, j | 0 <= i < j < |kept| && kept[i] != [] && kept[j] != []
      ensures b.insts[i].ops + 8 * |kept[i]| <= b.insts[j].ops
    {
      assert Apart(d.insts[i], d.insts[j]) && Holds(d.a, d.insts[i], kept[i]) && Holds(d.a, d.insts[j], kept[j]);
    }
  }

  // ----- without the last loop -----

  /** An instruction without operands has no address. */
  lemma NoOperands(start: Arena, ops: seq<Op>, i: nat)
    requires start.Valid() && i < |Kept(ops)| && Kept(ops)[i] == []
    ensures var b := Resolved(Decoded(start, ops)); |b.insts| == |Kept(ops)| && b.insts[i].ops == 0
  {
    AllIntact(start, ops);
    var d := Decoded(start, ops);
    assert Holds(d.a, d.insts[i], Kept(ops)[i]);
    assert Resolved(d).insts[i] == Derived(d.a, d.insts[i]);
  }

  ghost predicate Overlap(x: Arena, y: Arena) {
    x.base < y.base + y.capacity && y.base < x.base + x.capacity
  }

  /** The arena after the first k operations. */
  function Through(start: Arena, ops: seq<Op>, k: nat): Arena
    requires start.capacity > 0 && k <= |ops|
  {
    Decoded(start, ops[..k]).a
  }

  /** The allocator gave no part of an allocation that the arena left to its present one. */
  ghost predicate NotReused(start: Arena, ops: seq<Op>)
    requires start.capacity > 0
  {
    var last := Decoded(start, ops).a;
    forall k :: 0 <= k <= |ops| ==>
      Through(start, ops, k).base == last.base || !Overlap(Through(start, ops, k), last)
  }

  lemma DecodedNext(start: Arena, ops: seq<Op>, k: nat)
    requires start.capacity > 0 && k < |ops|
    ensures Decoded(start, ops[..k + 1]) == Next(Decoded(start, ops[..k]), ops[k])
    ensures Kept(ops[..k + 1]) == Kept(ops[..k]) + if ops[k].Keep? then [ops[k].vs] else []
  {
    assert ops[..k + 1][..k] == ops[..k];
  }

  lemma NextGrows(b: Body, op: Op)
    requires b.a.capacity > 0
    ensures b.insts <= Next(b, op).insts
  {
  }

  lemma {:induction false} ChainGrows<T>(f: nat -> seq<T>, k: nat, n: nat)
    requires k <= n && forall i: nat :: k <= i < n ==> f(i) <= f(i + 1)
    ensures f(k) <= f(n)
  {
    if k < n { ChainGrows(f, k, n - 1); }
  }

  /** Instructions decoded earlier are not touched while decoding. */
  lemma InstsGrow(start: Arena, ops: seq<Op>, k: nat, n: nat)
    requires start.capacity > 0 && k <= n <= |ops|
    ensures Decoded(start, ops[..k]).insts <= Decoded(start, ops[..n]).insts
    ensures Kept(ops[..k]) <= Kept(ops[..n])
  {
    var f: nat -> seq<Inst> := (i: nat) => if i <= |ops| then Decoded(start, ops[..i]).insts else [];
    var g: nat -> seq<seq<nat>> := (i: nat) => if i <= |ops| then Kept(ops[..i]) else [];
    forall i: nat | k <= i < n ensures f(i) <= f(i + 1) && g(i) <= g(i + 1) {
      DecodedNext(start, ops, i);
      NextGrows(Decoded(start, ops[..i]), ops[i]);
    }
    ChainGrows(f, k, n);
    ChainGrows(g, k, n);
  }

  /** The instruction that operation k decodes. */
  lemma InstOf(start: Arena, ops: seq<Op>, k: nat) returns (i: nat, x: Inst)
    requires start.Valid() && k < |ops| && ops[k].Keep? && ops[k].vs != []
    ensures i < |Kept(ops)| == |Decoded(start, ops).insts| && Kept(ops)[i] == ops[k].vs
    ensures x == Decoded(start, ops).insts[i] && x.ops == Through(start, ops, k + 1).base + x.off
    ensures x.count == |ops[k].vs|
    ensures x.off + 8 * x.count <= Through(start, ops, k + 1).used <= Through(start, ops, k + 1).capacity
    ensures Holds(Decoded(start, ops).a, x, ops[k].vs)
  {
    assert ops[..|ops|] == ops;
    AllIntact(start, ops);
    AllIntact(start, ops[..k]);
    AllIntact(start, ops[..k + 1]);
    DecodedNext(start, ops, k);
    InstsGrow(start, ops, k + 1, |ops|);
    i := |Kept(ops[..k])|;
    x := Decoded(start, ops[..k + 1]).insts[i];
    assert Kept(ops[..k + 1])[i] == ops[k].vs;
    assert Holds(Through(start, ops, k + 1), x, ops[k].vs);
    assert Holds(Decoded(start, ops).a, Decoded(start, ops).insts[i], Kept(ops)[i]);
  }

  /** STALE, EXACTLY WHEN: without the last loop, the address that operation k cached reads
      its operands at the end if and only if the arena ends where it was when the address was
      taken. */
  lemma StaleExactly(start: Arena, ops: seq<Op>, k: nat) returns (i: nat)
    requires start.Valid() && NotReused(start, ops)
    requires k < |ops| && ops[k].Keep? && ops[k].vs != []
    ensures i < |Kept(ops)| == |Decoded(start, ops).insts| && Kept(ops)[i] == ops[k].vs
    ensures Reads(Decoded(start, ops).a.mem, Decoded(start, ops).insts[i].ops, ops[k].vs) <==>
              Decoded(start, ops).a.base == Through(start, ops, k + 1).base
  {
    var x: Inst;
    i, x := InstOf(start, ops, k);
    AllIntact(start, ops);
    StaleCase(Decoded(start, ops).a, Through(start, ops, k + 1), x, ops[k].vs);
  }

  lemma StaleCase(last: Arena, earlier: Arena, x: Inst, vs: seq<nat>)
    requires last.Valid() && Holds(last, x, vs) && vs != []
    requires x.ops == earlier.base + x.off && x.off + 8 * x.count <= earlier.capacity
    requires earlier.base == last.base || !Overlap(earlier, last)
    ensures Reads(last.mem, x.ops, vs) <==> last.base == earlier.base
  {
    if last.base != earlier.base { Gone(last, earlier, x.ops, vs); }
  }

  lemma Gone(last: Arena, earlier: Arena, at: nat, vs: seq<nat>)
    requires last.Valid() && !Overlap(earlier, last) && vs != []
    requires earlier.base <= at < earlier.base + earlier.capacity
    ensures !Reads(last.mem, at, vs)
  {
    assert at + 8 * 0 !in last.mem;
  }

  /** The address of an instruction kept before a move is gone after it. */
  lemma WithoutTheLoop()
    ensures var start, ops := Arena(4096, 1, 16, map[]), [Keep([5], 0), Other(64, [], 65536)];
            && start.Valid() && Kept(ops) == [[5]] && Decoded(start, ops).insts == [Inst(4104, 8, 1)]
            && !Reads(Decoded(start, ops).a.mem, 4104, [5])
            && Reads(Decoded(start, ops).a.mem, Resolved(Decoded(start, ops)).insts[0].ops, [5])
  {
    var start, ops := Arena(4096, 1, 16, map[]), [Keep([5], 0), Other(64, [], 65536)];
    var d := Decoded(start, ops);
    var b := FirstKept();
    DecodedNext(start, ops, 0);
    DecodedNext(start, ops, 1);
    assert ops[..0] == [] && ops[..2] == ops;
    AllIntact(start, ops);
    assert d == b.(a := Placed(b.a, 64, [], 65536)) && d.a.base == 65536;
    Gone(d.a, b.a, 4104, [5]);
    assert Holds(d.a, d.insts[0], Kept(ops)[0]);
  }

  lemma FirstKept() returns (b: Body)
    ensures b == Next(Body(Arena(4096, 1, 16, map[]), []), Keep([5], 0))
    ensures b == Body(Arena(4096, 16, 16, map[4104 := 5]), [Inst(4104, 8, 1)])
  {
    assert Store(map[], 4104, [5]) == map[4104 := 5] by { assert [5][..0] == []; }
    b := Next(Body(Arena(4096, 1, 16, map[]), []), Keep([5], 0));
  }

  // ----- the decoder as a program -----

  class FunctionBody {
    var a: Arena
    var insts: seq<Inst>

    function State(): Body
      reads this
    {
      Body(a, insts)
    }

    /** A fresh arena whose offset 0 is taken, so that 0 can mean "none". */
    constructor (base: nat, capacity: nat)
      requires capacity > 0
      ensures a.Valid() && State() == Body(Arena(base, 1, capacity, map[]), [])
    {
      a, insts := Arena(base, 1, capacity, map[]), [];
    }

    /** The growth loop. */
    method GrowTo(need: nat) returns (r: nat)
      requires a.capacity > 0
      ensures r == Grown(2 * a.capacity, need)
    {
      r := 2 * a.capacity;
      while r < need
        invariant r > 0 && Grown(2 * a.capacity, need) == Grown(r, need)
        decreases if r < need then need - r else 0
      {
        r := 2 * r;
      }
    }

    method Reserve(n: nat, to: nat) returns (off: nat)
      requires a.capacity > 0
      modifies this`a
      ensures (a, off) == Reserved(old(a), n, to)
    {
      off := Align8(a.used);
      if off + n > a.capacity {
        var capacity := GrowTo(off + n);
        a := Moved(a, to, capacity);
      }
      a := a.(used := off + n);
    }

    /** Copy an instruction's operands into the arena and cache their address. */
    method KeepOperands(vs: seq<nat>, to: nat)
      requires a.capacity > 0
      modifies this
      ensures State() == Next(old(State()), Keep(vs, to))
    {
      if vs == [] {
        insts := insts + [Inst(0, 0, 0)];
        return;
      }
      var off := Reserve(8 * |vs|, to);
      assert Placed(old(a), 8 * |vs|, vs, to) == a.(mem := Store(a.mem, a.base + off, vs));
      a := a.(mem := Store(a.mem, a.base + off, vs));
      insts := insts + [Inst(a.base + off, off, |vs|)];
    }

    /** The last loop: every address anew, from the offset. */
    method ResolveAll()
      modifies this`insts
      ensures State() == Resolved(old(State()))
    {
      var i := 0;
      while i < |insts|
        invariant 0 <= i <= |insts| == |old(insts)|
        invariant forall j :: 0 <= j < i ==> insts[j] == Derived(a, old(insts)[j])
        invariant forall j :: i <= j < |insts| ==> insts[j] == old(insts)[j]
      {
        var x := insts[i];
        insts := insts[i := x.(ops := if x.off != 0 then a.base + x.off else 0)];
        i := i + 1;
      }
    }
  }
}
