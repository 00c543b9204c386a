/** How long the output of the signature transform is, and when it fits the buffer that
    the pass allocates for it. */
module SignatureSize {
  import opened Wrappers
  import opened Spirv
  import opened SignatureTransform
  import opened Machine
  import opened Meaning
  import opened MeaningTheorem
  import opened Emission

  function Words(x: Insn): nat { 1 + |x.args| }

  function Size(xs: seq<Insn>): nat { |Encode(xs)| }

  lemma SizeAppend(a: seq<Insn>, b: seq<Insn>)
    ensures Size(a + b) == Size(a) + Size(b)
  {
    EncodeAppend(a, b);
  }

  lemma SizeOne(x: Insn)
    ensures Size([x]) == Words(x)
  {
    EncodeSingle(x);
  }

  /** Instructions of n words each. */
  lemma {:induction false} SizeUniform(ys: seq<Insn>, n: nat)
    requires forall i :: 0 <= i < |ys| ==> Words(ys[i]) == n
    ensures Size(ys) == n * |ys|
    decreases |ys|
  {
    if ys != [] {
      var k := |ys| - 1;
      assert ys == ys[..k] + [ys[k]];
      SizeUniform(ys[..k], n);
      SizeAppend(ys[..k], [ys[k]]);
      SizeOne(ys[k]);
    }
  }

  // ----- the formula -----

  /** Whether the walk is inside the entry function, past its first ordinary instruction,
      and past the memory model. */
  datatype Place = Place(inFn: bool, past: bool, model: bool)

  predicate Ordinary(c: Ctx, p: Place, x: Insn) {
    p.inFn && x.op != OP_FUNCTION_END && !IsEntry(c.sig.fn)(x) && !Drop(x, true) && x.op != OP_LABEL
    && !Converted(c.scan, x) && (p.model || x.op != OP_MEMORY_MODEL)
  }

  function PlaceAt(c: Ctx, xs: seq<Insn>, k: nat): Place
    requires k <= |xs|
  {
    if k == 0 then Place(false, false, false) else
    var p, x := PlaceAt(c, xs, k - 1), xs[k - 1];
    if IsEntry(c.sig.fn)(x) then Place(true, false, p.model)
    else Place(p.inFn && x.op != OP_FUNCTION_END, p.past || (Ordinary(c, p, x) && x.op != OP_VARIABLE),
               p.model || x.op == OP_MEMORY_MODEL)
  }

  /** Instruction k is the one in front of which the parameter loads go. */
  predicate Prologue(c: Ctx, xs: seq<Insn>, k: nat)
    requires k < |xs|
  {
    !PlaceAt(c, xs, k).past && Ordinary(c, PlaceAt(c, xs, k), xs[k]) && xs[k].op != OP_VARIABLE
  }

  predicate IsReturn(c: Ctx, p: Place, x: Insn) { Ordinary(c, p, x) && x.op == OP_RETURN_VALUE && |x.args| >= 1 }

  predicate LiveCast(c: Ctx, x: Insn) { IsPointerBitcast(c.scan, x) && x.args[1] !in c.scan.lifetimes }

  /** What becomes of an instruction, as far as its length goes. */
  datatype Fate = Copied | Removed | Undefined | Rebased | Opened | Lowered

  function FateOf(c: Ctx, p: Place, x: Insn): Fate {
    if IsSpecBitcast(x) then Undefined
    else if IsPointerBitcast(c.scan, x) then (if LiveCast(c, x) then Rebased else Removed)
    else if IsEntry(c.sig.fn)(x) then Opened
    else if Drop(x, p.inFn) then Removed
    else if IsReturn(c, p, x) then Lowered
    else Copied
  }

  /** The words of one lowered value return. */
  function ReturnWords(c: Ctx): nat { if c.sig.isStruct then 8 * |c.sig.members| + 1 else 4 }

  /** By how many words an instruction grows (or shrinks). */
  function Delta(c: Ctx, p: Place, x: Insn): int {
    match FateOf(c, p, x)
    case Copied => 0
    case Removed => 0 - Words(x)
    case Undefined => 3 - Words(x)
    case Rebased => 5 - Words(x)
    case Opened => 5 - Words(x)
    case Lowered => ReturnWords(c) - Words(x)
  }

  /** Growth of the first k instructions, with the loads of each prologue. */
  function Growth(c: Ctx, xs: seq<Insn>, k: nat): int
    requires k <= |xs|
  {
    if k == 0 then 0 else
    Growth(c, xs, k - 1) + Delta(c, PlaceAt(c, xs, k - 1), xs[k - 1])
    + if Prologue(c, xs, k - 1) then 4 * |c.paramIds| else 0
  }

  function MetadataWords(c: Ctx): nat {
    (if c.scan.shader then 0 else 2) + 3 + (|c.name| / 4 + 1) + |c.ids.outVar| + |c.ids.inVar|
      + if c.stage.Fragment? then 3 else 0
  }

  function DecorationWords(c: Ctx): nat { 4 * (|c.ids.outVar| + |c.ids.inVar|) }

  function GlobalWords(c: Ctx): nat {
    (if c.scan.voidId == 0 then 2 else 0) + (if c.scan.uintTy == 0 then 4 else 0)
      + (if c.scan.uintZero == 0 then 4 else 0) + 3
    + 8 * |c.sig.members| + 8 * |c.sig.params|
  }

  // ----- the parts -----

  lemma MetadataSize(c: Ctx)
    ensures Size(EntryMetadata(c)) == MetadataWords(c)
  {
    var cap, mode := Insn(OP_CAPABILITY, [CAP_SHADER]), Insn(OP_EXECUTION_MODE, [c.sig.fn, MODE_ORIGIN_UPPER_LEFT]);
    var ep := Insn(OP_ENTRY_POINT, [c.stage.Model(), c.sig.fn] + PackString(c.name) + c.ids.outVar + c.ids.inVar);
    var a := if c.scan.shader then [] else [cap];
    var b := if c.stage.Fragment? then [mode] else [];
    SizeAppend(a + [ep], b);
    SizeAppend(a, [ep]);
    SizeOne(cap);
    SizeOne(ep);
    SizeOne(mode);
  }

  lemma DecorationsSize(c: Ctx)
    ensures Size(Decorations(c)) == DecorationWords(c)
  {
    SizeUniform(Decorations(c), 4);
  }

  lemma {:induction false} VarDeclsSize(ptrs: seq<nat>, vars: seq<nat>, types: seq<nat>, storage: nat, n: nat)
    requires n <= |ptrs| && n <= |vars| && n <= |types|
    ensures Size(VarDecls(ptrs, vars, types, storage, n)) == 8 * n
  {
    if n > 0 {
      VarDeclsSize(ptrs, vars, types, storage, n - 1);
      var two := [Insn(OP_TYPE_POINTER, [ptrs[n - 1], storage, types[n - 1]]),
        Insn(OP_VARIABLE, [ptrs[n - 1], vars[n - 1], storage])];
      SizeAppend(VarDecls(ptrs, vars, types, storage, n - 1), two);
      SizeUniform(two, 4);
    }
  }

  lemma NewTypesSize(c: Ctx)
    ensures Size(NewTypes(c)) == (if c.scan.voidId == 0 then 2 else 0) + (if c.scan.uintTy == 0 then 4 else 0)
                               + (if c.scan.uintZero == 0 then 4 else 0) + 3
  {
    var v, t := Insn(OP_TYPE_VOID, [c.ids.voidId]), Insn(OP_TYPE_INT, [c.ids.uintTy, 32, 0]);
    var z, f := Insn(OP_CONSTANT, [c.ids.uintTy, c.ids.uintZero, 0]),
      Insn(OP_TYPE_FUNCTION, [c.ids.voidFn, c.ids.voidId]);
    var p := if c.scan.voidId == 0 then [v] else [];
    var q := if c.scan.uintTy == 0 then [t] else [];
    var r := if c.scan.uintZero == 0 then [z] else [];
    SizeAppend(p, q);
    SizeAppend(p + q, r);
    SizeAppend(p + q + r, [f]);
    SizeOne(v);
    SizeOne(t);
    SizeOne(z);
    SizeOne(f);
  }

  lemma GlobalsSize(c: Ctx)
    requires c.Valid()
    ensures Size(NewGlobals(c)) == GlobalWords(c)
  {
    NewTypesSize(c);
    VarDeclsSize(c.ids.outPtr, c.ids.outVar, c.sig.members, STORAGE_OUTPUT, |c.sig.members|);
    VarDeclsSize(c.ids.inPtr, c.ids.inVar, c.sig.params, STORAGE_INPUT, |c.sig.params|);
    SizeAppend(NewTypes(c), OutDecls(c));
    SizeAppend(NewTypes(c) + OutDecls(c), InDecls(c));
  }

  lemma {:induction false} ExtractsSize(c: Ctx, v: nat, next: nat, n: nat)
    requires c.Valid() && n <= |c.sig.members|
    ensures Size(Extracts(c, v, next, n)) == 8 * n
  {
    if n > 0 {
      ExtractsSize(c, v, next, n - 1);
      var x, y := Insn(OP_COMPOSITE_EXTRACT, [c.sig.members[n - 1], next + (n - 1), v, n - 1]),
        Insn(OP_STORE, [c.ids.outVar[n - 1], next + (n - 1)]);
      assert [x, y] == [x] + [y];
      SizeAppend(Extracts(c, v, next, n - 1), [x, y]);
      SizeAppend([x], [y]);
      SizeOne(x);
      SizeOne(y);
    }
  }

  lemma ReturnSize(c: Ctx, v: nat, next: nat)
    requires c.Valid()
    ensures Size(LoweredReturn(c, v, next)) == if c.sig.isStruct then 8 * |c.sig.members| + 1 else 4
  {
    var r := Insn(OP_RETURN, []);
    SizeOne(r);
    if c.sig.isStruct {
      ExtractsSize(c, v, next, |c.sig.members|);
      SizeAppend(Extracts(c, v, next, |c.sig.members|), [r]);
    } else {
      var y := Insn(OP_STORE, [c.ids.outVar[0], v]);
      SizeOne(y);
      SizeAppend([y], [r]);
    }
  }

  lemma SpliceSize(c: Ctx, st: St, x: Insn)
    requires c.Valid()
    ensures Size(SplicePart(c, st, x)) == (if !st.preTypes && IsTypeOp(x.op) then DecorationWords(c) else 0)
                                        + (if !st.preFn && x.op == OP_FUNCTION then GlobalWords(c) else 0)
  {
    DecorationsSize(c);
    GlobalsSize(c);
  }

  lemma LoadsSize(c: Ctx)
    requires c.Valid()
    ensures Size(Loads(c)) == 4 * |c.paramIds|
  {
    SizeUniform(Loads(c), 4);
  }

  lemma OwnSize(c: Ctx, st: St, x: Insn, p: Place)
    requires c.Valid() && p.inFn == st.inFn && p.model == st.zoneA
    ensures Size(Own(c, st, x)) == Words(x) + Delta(c, p, x)
                                 + if !st.zoneA && x.op == OP_MEMORY_MODEL then MetadataWords(c) else 0
  {
    if Own(c, st, x) != [] { SizeOne(Own(c, st, x)[0]); }
    if Direct(c, st, x) && !Converted(c.scan, x) {
      MetadataSize(c);
      SizeOne(x);
      SizeAppend([x], EntryMetadata(c));
    } else if Lowers(c, st, x) && !Drop(x, st.inFn) {
      ReturnSize(c, x.args[0], st.next);
    }
  }

  // ----- the sum -----

  function Placed(st: St): Place { Place(st.inFn, st.loads, st.zoneA) }

  lemma PlaceStep(c: Ctx, st: St, x: Insn, f: St)
    requires Moves(c, st, x, f)
    ensures var p := Placed(st);
            Placed(f) == if IsEntry(c.sig.fn)(x) then Place(true, false, p.model)
                         else Place(p.inFn && x.op != OP_FUNCTION_END,
                                    p.past || (Ordinary(c, p, x) && x.op != OP_VARIABLE),
                                    p.model || x.op == OP_MEMORY_MODEL)
    ensures TakesLoads(c, st, x) <==> !st.loads && Ordinary(c, Placed(st), x) && x.op != OP_VARIABLE
  {
  }

  lemma {:induction false} PlaceHolds(z: Sim, k: nat)
    requires Traced(z) && k <= |z.xs|
    ensures Placed(z.st(k)) == PlaceAt(z.c, z.xs, k)
  {
    if k > 0 {
      PlaceHolds(z, k - 1);
      assert Emits(z, k - 1);
      StepState(z.c, z.st(k - 1), z.xs[k - 1]);
      PlaceStep(z.c, z.st(k - 1), z.xs[k - 1], z.st(k));
    }
  }

  /** What the splices done so far have added. */
  function SpliceWords(c: Ctx, st: St): nat {
    (if st.zoneA then MetadataWords(c) else 0) + (if st.preTypes then DecorationWords(c) else 0)
    + (if st.preFn then GlobalWords(c) else 0)
  }

  lemma PieceSize(c: Ctx, st: St, x: Insn, f: St)
    requires c.Valid() && Moves(c, st, x, f)
    ensures Size(SplicePart(c, st, x) + LoadPart(c, st, x) + Own(c, st, x)) + SpliceWords(c, st)
         == Words(x) + Delta(c, Placed(st), x) + SpliceWords(c, f)
            + if !st.loads && Ordinary(c, Placed(st), x) && x.op != OP_VARIABLE then 4 * |c.paramIds| else 0
  {
    SizeAppend(SplicePart(c, st, x) + LoadPart(c, st, x), Own(c, st, x));
    SizeAppend(SplicePart(c, st, x), LoadPart(c, st, x));
    SpliceSize(c, st, x);
    OwnSize(c, st, x, Placed(st));
    LoadsSize(c);
    PlaceStep(c, st, x, f);
  }

  lemma {:induction false} PrefixSize(z: Sim, k: nat)
    requires Traced(z) && k <= |z.xs|
    ensures Size(z.out(k)) == Size(z.xs[..k]) + Growth(z.c, z.xs, k) + SpliceWords(z.c, z.st(k))
  {
    if k > 0 {
      var i := k - 1;
      PrefixSize(z, i);
      assert Appends(z, i) && Emits(z, i);
      StepParts(z.c, z.st(i), z.xs[i]);
      StepState(z.c, z.st(i), z.xs[i]);
      PieceSize(z.c, z.st(i), z.xs[i], z.st(k));
      PlaceHolds(z, i);
      SizeAppend(z.out(i), z.piece(i));
      EncodeAt(z.xs, i);
    }
  }

  /** Everything inserted exactly once. */
  function Overhead(c: Ctx): nat { MetadataWords(c) + DecorationWords(c) + GlobalWords(c) }

  lemma {:induction false} FlagsSet(z: Sim, k: nat, i: nat)
    requires Traced(z) && i < k <= |z.xs|
    ensures IsTypeOp(z.xs[i].op) ==> z.st(k).preTypes
    ensures z.xs[i].op == OP_FUNCTION ==> z.st(k).preFn
  {
    assert Emits(z, k - 1);
    StepState(z.c, z.st(k - 1), z.xs[k - 1]);
    if i < k - 1 { FlagsSet(z, k - 1, i); }
  }

  lemma AnalysedHas(xs: seq<Insn>, a: Scan) returns (e: nat, f: nat)
    requires Analyse(xs, a).Ok?
    ensures e < |xs| && xs[e].op == OP_FUNCTION && f < |xs| && IsTypeOp(xs[f].op)
  {
    e := FirstIndex(xs, IsEntry(a.fn.value), 0);
    f := FirstIndex(xs, IsTypeFunction(xs[e].args[3]), 0);
  }

  lemma TraceSize(z: Sim, e: nat, f: nat)
    requires Traced(z) && e < |z.xs| && z.xs[e].op == OP_FUNCTION && f < |z.xs| && IsTypeOp(z.xs[f].op)
    requires z.st(|z.xs|).zoneA
    ensures Size(z.N()) == Size(z.xs) + Growth(z.c, z.xs, |z.xs|) + Overhead(z.c)
  {
    PrefixSize(z, |z.xs|);
    assert z.xs[..|z.xs|] == z.xs;
    FlagsSet(z, |z.xs|, e);
    FlagsSet(z, |z.xs|, f);
  }

  /** THE OUTPUT LENGTH, exactly: the input's length, the growth of each instruction, the
      loads, and everything that is inserted once. */
  lemma SizeExact(xs: seq<Insn>, bound: nat, name: seq<nat>, stage: Stage)
    requires Rewrite(xs, bound, name, stage).Ok?
    ensures var c := ContextOf(xs, bound, name, stage);
            Size(Rewrite(xs, bound, name, stage).value.out) == Size(xs) + Growth(c, xs, |xs|) + Overhead(c)
  {
    var z, e, f := TraceFor(xs, bound, name, stage);
    TraceSize(z, e, f);
  }

  lemma TraceFor(xs: seq<Insn>, bound: nat, name: seq<nat>, stage: Stage) returns (z: Sim, e: nat, f: nat)
    requires Rewrite(xs, bound, name, stage).Ok?
    ensures Traced(z) && z.xs == xs && z.c == ContextOf(xs, bound, name, stage) && z.st(|xs|).zoneA
    ensures z.N() == Rewrite(xs, bound, name, stage).value.out
    ensures e < |xs| && xs[e].op == OP_FUNCTION && f < |xs| && IsTypeOp(xs[f].op)
  {
    z := PassTrace(xs, ContextOf(xs, bound, name, stage));
    e, f := AnalysedHas(xs, ScanPrefix(xs, |xs|, name));
  }

  // ----- the buffer -----

  /** The words the pass allocates beyond the length of its input. */
  function Slack(name: seq<nat>): nat { 256 + 32 * (MAX_PARAMS + MAX_MEMBERS) + (|name| + 4) / 4 }

  /** How many of the first k instructions have this fate. */
  function Count(c: Ctx, xs: seq<Insn>, k: nat, f: Fate): nat
    requires k <= |xs|
  {
    if k == 0 then 0 else Count(c, xs, k - 1, f) + if FateOf(c, PlaceAt(c, xs, k - 1), xs[k - 1]) == f then 1 else 0
  }

  /** The words of those among the first k instructions that are not copied. */
  function Replaced(c: Ctx, xs: seq<Insn>, k: nat): nat
    requires k <= |xs|
  {
    if k == 0 then 0 else
    Replaced(c, xs, k - 1) + if FateOf(c, PlaceAt(c, xs, k - 1), xs[k - 1]).Copied? then 0 else Words(xs[k - 1])
  }

  /** How often loads are emitted: once per entry function that has an ordinary instruction. */
  function Prologues(c: Ctx, xs: seq<Insn>, k: nat): nat
    requires k <= |xs|
  {
    if k == 0 then 0 else Prologues(c, xs, k - 1) + if Prologue(c, xs, k - 1) then 1 else 0
  }

  /** The words that stand for what was not copied, and the loads. */
  function Written(c: Ctx, xs: seq<Insn>, k: nat): nat
    requires k <= |xs|
  {
    3 * Count(c, xs, k, Undefined) + 5 * Count(c, xs, k, Rebased) + 5 * Count(c, xs, k, Opened)
    + ReturnWords(c) * Count(c, xs, k, Lowered) + 4 * |c.paramIds| * Prologues(c, xs, k)
  }

  lemma Distribute(a: nat, b: nat)
    ensures a * (b + 1) == a * b + a && a * (b + 0) == a * b
  {
  }

  lemma {:induction false} GrowthIs(c: Ctx, xs: seq<Insn>, k: nat)
    requires k <= |xs|
    ensures Growth(c, xs, k) == Written(c, xs, k) - Replaced(c, xs, k)
  {
    if k > 0 {
      GrowthIs(c, xs, k - 1);
      Distribute(ReturnWords(c), Count(c, xs, k - 1, Lowered));
      Distribute(4 * |c.paramIds|, Prologues(c, xs, k - 1));
    }
  }

  /** THE OUTPUT FITS the allocation if and only if what is written in place of the
      instructions that are not copied, the loads and what is inserted once come to no more
      than the slack and the words of those instructions. */
  lemma FitsExactly(xs: seq<Insn>, bound: nat, name: seq<nat>, stage: Stage)
    requires Rewrite(xs, bound, name, stage).Ok?
    ensures var c := ContextOf(xs, bound, name, stage);
            Size(Rewrite(xs, bound, name, stage).value.out) <= Size(xs) + Slack(name) <==>
              Written(c, xs, |xs|) + Overhead(c) <= Slack(name) + Replaced(c, xs, |xs|)
  {
    SizeExact(xs, bound, name, stage);
    GrowthIs(ContextOf(xs, bound, name, stage), xs, |xs|);
  }

  /** Only value returns and live casts grow. */
  lemma DeltaBound(c: Ctx, p: Place, x: Insn)
    requires c.Valid() && |c.sig.members| <= MAX_MEMBERS
    ensures Delta(c, p, x) <= (if FateOf(c, p, x).Lowered? then 63 else 0) + if FateOf(c, p, x).Rebased? then 1 else 0
  {
  }

  /** Each value return grows by at most 63 words, each live cast by one, and loads come once. */
  lemma {:induction false} GrowthBound(c: Ctx, xs: seq<Insn>, e: nat, k: nat)
    requires c.Valid() && |c.sig.members| <= MAX_MEMBERS && |c.sig.params| <= MAX_PARAMS && k <= |xs|
    requires forall i :: 0 <= i < |xs| && i != e ==> !IsEntry(c.sig.fn)(xs[i])
    ensures Growth(c, xs, k) <= 63 * Count(c, xs, k, Lowered) + Count(c, xs, k, Rebased)
                                + if PlaceAt(c, xs, k).past then 32 else 0
    ensures k <= e ==> !PlaceAt(c, xs, k).past && !PlaceAt(c, xs, k).inFn
  {
    if k > 0 {
      GrowthBound(c, xs, e, k - 1);
      DeltaBound(c, PlaceAt(c, xs, k - 1), xs[k - 1]);
      if IsEntry(c.sig.fn)(xs[k - 1]) { assert k - 1 == e; }
    }
  }

  /** A bound in two counts: the output fits when the entry function is defined once and has
      few value returns and live pointer casts; eight returns, whatever else, are inside. */
  lemma OutputFits(xs: seq<Insn>, bound: nat, name: seq<nat>, stage: Stage, e: nat)
    requires Rewrite(xs, bound, name, stage).Ok?
    requires forall i :: 0 <= i < |xs| && i != e ==> !IsEntry(ContextOf(xs, bound, name, stage).sig.fn)(xs[i])
    requires var c := ContextOf(xs, bound, name, stage);
             63 * Count(c, xs, |xs|, Lowered) + Count(c, xs, |xs|, Rebased) <= 507
    ensures Size(Rewrite(xs, bound, name, stage).value.out) <= Size(xs) + Slack(name)
  {
    var c := ContextOf(xs, bound, name, stage);
    SizeExact(xs, bound, name, stage);
    assert c.name == name && |c.ids.outVar| == |c.sig.members| && |c.ids.inVar| == |c.sig.params|;
    GrowthBound(c, xs, e, |xs|);
  }
}
