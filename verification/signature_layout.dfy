/** When the signature transform keeps the logical layout of a module. */
module SignatureLayout {
  import opened Wrappers
  import opened Spirv
  import opened SignatureTransform
  import opened Machine
  import opened Meaning
  import opened MeaningTheorem
  import opened Emission
  import opened Layout
  import F = FunctionLayout

  /** The types section opens with one of the OpType instructions the pass looks for. */
  ghost predicate TypesFirst(xs: seq<Insn>) {
    forall k {:trigger xs[k]} :: 0 <= k < |xs| ==> Opens(xs, k) ==> IsTypeOp(xs[k].op)
  }

  /** Instruction k is the first of the types section or a later one. */
  ghost predicate Opens(xs: seq<Insn>, k: nat)
    requires k < |xs|
  {
    var a, b := Reached(xs, k), Reached(xs, k + 1);
    a.Some? && b.Some? && a.value < TYPES <= b.value
  }

  /** A trace over an ordered module with one memory model, at index mm. */
  ghost predicate Laid(z: Sim, mm: nat) {
    Traced(z) && InSections(z.xs) && Exactly(z.xs, IsMemoryModel(), mm)
  }

  ghost function OutReached(z: Sim, k: nat): Option<nat> { After(Some(1), z.out(k)) }

  lemma OutNext(z: Sim, k: nat)
    requires Traced(z) && k < |z.xs|
    ensures OutReached(z, k + 1) == After(OutReached(z, k), z.piece(k))
  {
    assert Appends(z, k);
    AfterAppend(Some(1), z.out(k), z.piece(k));
  }

  /** The flags of the emit pass, in terms of the section the input has reached. */
  ghost predicate Flags(z: Sim, mm: nat, k: nat)
    requires k <= |z.xs|
  {
    && Reached(z.xs, k).Some? && 1 <= Reached(z.xs, k).value <= FUNCTIONS
    && var a := Reached(z.xs, k).value;
    && (z.st(k).zoneA <==> mm < k) && (z.st(k).zoneA ==> 4 <= a)
    && (z.st(k).preFn <==> a == FUNCTIONS) && (z.st(k).inFn ==> a == FUNCTIONS)
    && (z.st(k).preTypes ==> TYPES <= a)
  }

  /** One turn, seen only through the flags and the three parts of what it emits. */
  lemma Turn(z: Sim, mm: nat, k: nat) returns (a: nat, a': nat)
    requires Laid(z, mm) && k < |z.xs| && Flags(z, mm, k)
    ensures Reached(z.xs, k) == Some(a) && Reached(z.xs, k + 1) == Some(a') && 1 <= a <= a' <= FUNCTIONS
    ensures Advance(Some(a), z.xs[k].op) == Some(a')
    ensures Moves(z.c, z.st(k), z.xs[k], z.st(k + 1))
    ensures z.piece(k) == SplicePart(z.c, z.st(k), z.xs[k]) + LoadPart(z.c, z.st(k), z.xs[k])
            + Own(z.c, z.st(k), z.xs[k])
    ensures z.xs[k].op == OP_MEMORY_MODEL <==> k == mm
  {
    assert Emits(z, k);
    StepParts(z.c, z.st(k), z.xs[k]);
    StepState(z.c, z.st(k), z.xs[k]);
    ReachedNext(z.xs, k);
    ReachedGrows(z.xs, k, k + 1);
    a, a' := Reached(z.xs, k).value, Reached(z.xs, k + 1).value;
    assert k == mm || !IsMemoryModel()(z.xs[k]);
  }

  lemma {:induction false} FlagsHold(z: Sim, mm: nat, k: nat)
    requires Laid(z, mm) && k <= |z.xs|
    ensures Flags(z, mm, k)
  {
    if k > 0 {
      FlagsHold(z, mm, k - 1);
      var a, a' := Turn(z, mm, k - 1);
      FlagsStep(z.c, z.st(k - 1), z.xs[k - 1], z.st(k), a, a');
    }
  }

  lemma FlagsStep(c: Ctx, st: St, x: Insn, f: St, a: nat, a': nat)
    requires Moves(c, st, x, f) && Advance(Some(a), x.op) == Some(a') && a <= FUNCTIONS
    requires (st.preFn <==> a == FUNCTIONS) && (st.inFn ==> a == FUNCTIONS) && (st.preTypes ==> TYPES <= a)
    ensures (f.preFn <==> a' == FUNCTIONS) && (f.inFn ==> a' == FUNCTIONS) && (f.preTypes ==> TYPES <= a')
    ensures f.zoneA == (st.zoneA || x.op == OP_MEMORY_MODEL)
  {
  }

  // ----- in place -----

  /** The conditions under which the splices land where they may. */
  ghost predicate Fits(z: Sim) {
    && z.c.scan.shader
    && (z.c.stage.Fragment? ==> forall i :: 0 <= i < |z.xs| ==> !IsEntryPoint()(z.xs[i]))
    && (Decorations(z.c) == [] || TypesFirst(z.xs))
  }

  ghost predicate InStep(z: Sim, k: nat)
    requires k <= |z.xs|
  {
    && Reached(z.xs, k).Some? && Trails(Reached(z.xs, k).value, OutReached(z, k), z.st(k).zoneA, z.c.stage)
    && (Decorations(z.c) == [] || (TYPES <= Reached(z.xs, k).value ==> z.st(k).preTypes))
  }

  lemma MetadataIs(c: Ctx, cur: Option<nat>, x: Insn)
    requires c.Valid() && x.op == OP_MEMORY_MODEL
    ensures After(cur, [x] + EntryMetadata(c))
            == if cur.None? || cur.value > 4 || !c.scan.shader then None else Some(Spliced(c.stage))
  {
    var ep := Insn(OP_ENTRY_POINT, [c.stage.Model(), c.sig.fn] + PackString(c.name) + c.ids.outVar + c.ids.inVar);
    assert EntryMetadata(c) == Metadata(c.scan.shader, c.stage, ep, c.sig.fn);
    MetadataAfter(cur, x, c.scan.shader, c.stage, ep, c.sig.fn);
  }

  lemma DecorationsAre(c: Ctx)
    ensures forall i :: 0 <= i < |Decorations(c)| ==> Home(Decorations(c)[i].op) == Some(10)
  {
  }

  lemma {:induction false} VarDeclsDeclare(ptrs: seq<nat>, vars: seq<nat>, types: seq<nat>, storage: nat, n: nat)
    requires n <= |ptrs| && n <= |vars| && n <= |types|
    ensures forall i :: 0 <= i < |VarDecls(ptrs, vars, types, storage, n)| ==>
            Declares(VarDecls(ptrs, vars, types, storage, n)[i].op)
  {
    if n > 0 { VarDeclsDeclare(ptrs, vars, types, storage, n - 1); }
  }

  lemma GlobalsDeclare(c: Ctx)
    requires c.Valid()
    ensures NewGlobals(c) != [] && forall i :: 0 <= i < |NewGlobals(c)| ==> Declares(NewGlobals(c)[i].op)
  {
    VarDeclsDeclare(c.ids.outPtr, c.ids.outVar, c.sig.members, STORAGE_OUTPUT, |c.sig.members|);
    VarDeclsDeclare(c.ids.inPtr, c.ids.inVar, c.sig.params, STORAGE_INPUT, |c.sig.params|);
    assert forall i :: 0 <= i < |NewTypes(c)| ==> Declares(NewTypes(c)[i].op);
  }

  lemma {:induction false} ExtractsBody(c: Ctx, v: nat, next: nat, n: nat)
    requires c.Valid() && n <= |c.sig.members|
    ensures forall i :: 0 <= i < |Extracts(c, v, next, n)| ==> InFunctions(Extracts(c, v, next, n)[i].op)
  {
    if n > 0 { ExtractsBody(c, v, next, n - 1); }
  }

  lemma ReturnBody(c: Ctx, v: nat, next: nat)
    requires c.Valid()
    ensures forall i :: 0 <= i < |LoweredReturn(c, v, next)| ==> InFunctions(LoweredReturn(c, v, next)[i].op)
  {
    if c.sig.isStruct { ExtractsBody(c, v, next, |c.sig.members|); }
  }

  /** After the splice the output is still in place for the instruction itself. */
  lemma SpliceTrails(c: Ctx, st: St, x: Insn, a: nat, b: Option<nat>, a': nat)
    requires c.Valid() && Trails(a, b, st.zoneA, c.stage) && Advance(Some(a), x.op) == Some(a') && a <= FUNCTIONS
    requires st.preFn <==> a == FUNCTIONS
    requires IsTypeOp(x.op) && !st.preTypes && Decorations(c) != [] ==> a < TYPES
    ensures var d := After(b, SplicePart(c, st, x));
            SplicePart(c, st, x) == [] || (d.Some? && d.value <= a' && d.value < FUNCTIONS && a < FUNCTIONS && a' > 10)
    ensures SplicePart(c, st, x) != [] ==> !Drop(x, st.inFn)
  {
    var ys := SplicePart(c, st, x);
    if ys != [] && IsTypeOp(x.op) {
      DecorationsAre(c);
      AfterUniform(b.value, ys, 10);
    } else if ys != [] {
      GlobalsDeclare(c);
      AfterDeclarations(b.value, ys);
    }
  }

  /** Inside the entry function everything emitted is body code. */
  lemma BodyTrails(c: Ctx, st: St, x: Insn)
    requires c.Valid() && Within(c, st, x) && InFunctions(x.op)
    ensures After(Some(FUNCTIONS), LoadPart(c, st, x) + Own(c, st, x)) == Some(FUNCTIONS)
  {
    if Lowers(c, st, x) { ReturnBody(c, x.args[0], st.next); }
    AfterBody(LoadPart(c, st, x) + Own(c, st, x));
  }

  lemma ConvertedTrails(c: Ctx, st: St, x: Insn, a: nat, b: Option<nat>, a': nat)
    requires c.Valid() && Trails(a, b, st.zoneA, c.stage) && Advance(Some(a), x.op) == Some(a') && a <= FUNCTIONS
    requires Converted(c.scan, x)
    ensures Trails(a', After(b, Own(c, st, x)), st.zoneA, c.stage)
  {
    if Own(c, st, x) != [] { AfterOne(b, Own(c, st, x)[0]); }
  }

  /** Outside the entry function, or at its head: a copy, a new OpFunction, or nothing. */
  lemma PlainTrails(c: Ctx, st: St, x: Insn, a: nat, b: Option<nat>, a': nat)
    requires c.Valid() && !Direct(c, st, x) && !Within(c, st, x) && Advance(Some(a), x.op) == Some(a') && a <= FUNCTIONS
    requires b.Some? && (a == FUNCTIONS ==> b.value == FUNCTIONS) && (st.inFn ==> a == FUNCTIONS)
    requires b.value <= a' && (a' < FUNCTIONS ==> b.value < FUNCTIONS)
    requires (Drop(x, st.inFn) ==> (b.value == FUNCTIONS <==> a == FUNCTIONS))
    ensures var d := After(b, LoadPart(c, st, x) + Own(c, st, x));
            d.Some? && d.value <= a' && (a' == FUNCTIONS <==> d.value == FUNCTIONS)
  {
    var ys := Own(c, st, x);
    assert LoadPart(c, st, x) + ys == ys;
    if ys != [] { AfterOne(b, ys[0]); }
  }

  lemma {:induction false} StaysInPlace(z: Sim, mm: nat, k: nat)
    requires Laid(z, mm) && Fits(z) && k <= |z.xs|
    ensures InStep(z, k)
  {
    if k == 0 {
      assert z.xs[..0] == [];
    } else {
      StaysInPlace(z, mm, k - 1);
      StepInPlace(z, mm, k - 1);
    }
  }

  lemma StepInPlace(z: Sim, mm: nat, k: nat)
    requires Laid(z, mm) && Fits(z) && k < |z.xs| && InStep(z, k)
    ensures InStep(z, k + 1)
  {
    FlagsHold(z, mm, k);
    var a, a' := Turn(z, mm, k);
    OutNext(z, k);
    assert Decorations(z.c) != [] ==> Opens(z.xs, k) ==> IsTypeOp(z.xs[k].op);
    assert z.c.stage.Fragment? ==> !IsEntryPoint()(z.xs[k]);
    PieceTrails(z.c, z.st(k), z.xs[k], a, OutReached(z, k), a');
  }

  lemma DirectPiece(c: Ctx, st: St, x: Insn)
    requires c.Valid() && Direct(c, st, x)
    ensures SplicePart(c, st, x) + LoadPart(c, st, x) + Own(c, st, x) == Own(c, st, x)
  {
  }

  lemma MetadataTrails(c: Ctx, st: St, x: Insn, a: nat, b: Option<nat>, a': nat)
    requires c.Valid() && Trails(a, b, st.zoneA, c.stage) && Advance(Some(a), x.op) == Some(a') && a <= FUNCTIONS
    requires c.scan.shader && Direct(c, st, x) && !Converted(c.scan, x)
    ensures Trails(a', After(b, Own(c, st, x)), true, c.stage)
  {
    MetadataIs(c, b, x);
  }

  /** One turn keeps the output in place. */
  lemma PieceTrails(c: Ctx, st: St, x: Insn, a: nat, b: Option<nat>, a': nat)
    requires c.Valid() && Trails(a, b, st.zoneA, c.stage) && Advance(Some(a), x.op) == Some(a') && a <= FUNCTIONS
    requires (st.preFn <==> a == FUNCTIONS) && (st.inFn ==> a == FUNCTIONS)
    requires IsTypeOp(x.op) && !st.preTypes && Decorations(c) != [] ==> a < TYPES
    requires st.zoneA ==> 4 <= a && x.op != OP_MEMORY_MODEL && (c.stage.Fragment? ==> x.op != OP_ENTRY_POINT)
    requires c.scan.shader
    ensures Trails(a', After(b, SplicePart(c, st, x) + LoadPart(c, st, x) + Own(c, st, x)),
                   st.zoneA || x.op == OP_MEMORY_MODEL, c.stage)
  {
    if Direct(c, st, x) {
      DirectPiece(c, st, x);
      if Converted(c.scan, x) {
        ConvertedTrails(c, st, x, a, b, a');
      } else {
        MetadataTrails(c, st, x, a, b, a');
      }
    } else {
      OrdinaryTrails(c, st, x, a, b, a');
      AfterParts(b, SplicePart(c, st, x), LoadPart(c, st, x), Own(c, st, x));
    }
  }

  lemma AfterParts(b: Option<nat>, p: seq<Insn>, q: seq<Insn>, r: seq<Insn>)
    ensures After(b, p + q + r) == After(After(b, p), q + r)
  {
    assert p + q + r == p + (q + r);
    AfterAppend(b, p, q + r);
  }

  lemma OrdinaryTrails(c: Ctx, st: St, x: Insn, a: nat, b: Option<nat>, a': nat)
    requires c.Valid() && Trails(a, b, st.zoneA, c.stage) && Advance(Some(a), x.op) == Some(a') && a <= FUNCTIONS
    requires !Direct(c, st, x) && (st.preFn <==> a == FUNCTIONS) && (st.inFn ==> a == FUNCTIONS)
    requires IsTypeOp(x.op) && !st.preTypes && Decorations(c) != [] ==> a < TYPES
    requires st.zoneA ==> 4 <= a && x.op != OP_MEMORY_MODEL && (c.stage.Fragment? ==> x.op != OP_ENTRY_POINT)
    ensures Trails(a', After(After(b, SplicePart(c, st, x)), LoadPart(c, st, x) + Own(c, st, x)), st.zoneA, c.stage)
  {
    SpliceTrails(c, st, x, a, b, a');
    var d := After(b, SplicePart(c, st, x));
    if Within(c, st, x) {
      BodyTrails(c, st, x);
    } else if SplicePart(c, st, x) != [] || IsEntry(c.sig.fn)(x) {
      PlainTrails(c, st, x, a, d, a');
    } else if Drop(x, st.inFn) {
      assert LoadPart(c, st, x) + Own(c, st, x) == [];
    } else {
      CopyTrails(a, b, st.zoneA, c.stage, x.op, a');
      AfterOne(b, x);
      assert LoadPart(c, st, x) + Own(c, st, x) == [x];
    }
  }

  // ----- out of place -----

  lemma {:induction false} OutGrows(z: Sim, i: nat, j: nat)
    requires Traced(z) && i <= j <= |z.xs|
    ensures OutReached(z, j).Some? ==> OutReached(z, i).Some? && OutReached(z, i).value <= OutReached(z, j).value
    decreases j
  {
    if i < j {
      OutGrows(z, i, j - 1);
      OutNext(z, j - 1);
      AfterGrows(OutReached(z, j - 1), z.piece(j - 1));
    }
  }

  lemma AtMemoryModel(z: Sim, mm: nat)
    requires Laid(z, mm)
    ensures OutReached(z, mm + 1).Some? ==> z.c.scan.shader && OutReached(z, mm + 1).value == Spliced(z.c.stage)
  {
    FlagsHold(z, mm, mm);
    var a, a' := Turn(z, mm, mm);
    OutNext(z, mm);
    DirectPiece(z.c, z.st(mm), z.xs[mm]);
    MetadataIs(z.c, OutReached(z, mm), z.xs[mm]);
    assert Own(z.c, z.st(mm), z.xs[mm]) == [z.xs[mm]] + EntryMetadata(z.c);
  }

  /** An instruction that was copied although its section is over breaks the layout. */
  lemma CopyBreaks(b: Option<nat>, pre: seq<Insn>, x: Insn)
    requires Home(x.op).Some? && (b.Some? ==> Home(x.op).value < b.value)
    ensures After(b, pre + [x]).None?
  {
    AfterBreaks(b, pre + [x], |pre|, Home(x.op).value);
  }

  lemma PastSplice(z: Sim, mm: nat, j: nat)
    requires Laid(z, mm) && j < |z.xs| && IsEntryPoint()(z.xs[j])
    ensures OutReached(z, j).Some? ==> OutReached(z, j).value >= Spliced(z.c.stage)
  {
    assert mm < j by { if j < mm { OrderedPairs(z.xs, j, mm); } }
    AtMemoryModel(z, mm);
    OutGrows(z, mm + 1, j);
  }

  lemma OwnCopies(c: Ctx, st: St, x: Insn)
    requires c.Valid() && x.op == OP_ENTRY_POINT
    ensures Own(c, st, x) == [x]
  {
  }

  lemma EntryPointPiece(z: Sim, mm: nat, j: nat) returns (pre: seq<Insn>)
    requires Laid(z, mm) && j < |z.xs| && IsEntryPoint()(z.xs[j])
    ensures z.piece(j) == pre + [z.xs[j]]
  {
    FlagsHold(z, mm, j);
    var a, a' := Turn(z, mm, j);
    OwnCopies(z.c, z.st(j), z.xs[j]);
    pre := SplicePart(z.c, z.st(j), z.xs[j]) + LoadPart(z.c, z.st(j), z.xs[j]);
  }

  lemma EntryPointBreaks(z: Sim, mm: nat, j: nat)
    requires Laid(z, mm) && z.c.stage.Fragment? && j < |z.xs| && IsEntryPoint()(z.xs[j])
    ensures OutReached(z, j + 1).None?
  {
    PastSplice(z, mm, j);
    OutNext(z, j);
    var pre := EntryPointPiece(z, mm, j);
    CopyBreaks(OutReached(z, j), pre, z.xs[j]);
  }

  /** Once the input is in the types section, so is the output. */
  lemma OpensReached(z: Sim, mm: nat, k: nat)
    requires Laid(z, mm) && k < |z.xs| && Opens(z.xs, k)
    ensures OutReached(z, k + 1).Some? ==> TYPES <= OutReached(z, k + 1).value
  {
    FlagsHold(z, mm, k);
    var a, a' := Turn(z, mm, k);
    OutNext(z, k);
    var pre, y := OpensPiece(z.c, z.st(k), z.xs[k], a, a', z.piece(k));
    LastReached(OutReached(z, k), pre, y);
  }

  lemma OpensPiece(c: Ctx, st: St, x: Insn, a: nat, a': nat, piece: seq<Insn>) returns (pre: seq<Insn>, y: Insn)
    requires c.Valid() && Advance(Some(a), x.op) == Some(a') && a < TYPES <= a' && !st.inFn
    requires piece == SplicePart(c, st, x) + LoadPart(c, st, x) + Own(c, st, x)
    ensures piece == pre + [y] && (Declares(y.op) || InFunctions(y.op))
  {
    OpensOwn(c, st, x, a, a');
    pre, y := SplicePart(c, st, x) + LoadPart(c, st, x), Own(c, st, x)[0];
    assert Own(c, st, x) == [y];
  }

  lemma LastReached(b: Option<nat>, pre: seq<Insn>, y: Insn)
    requires Declares(y.op) || InFunctions(y.op)
    ensures After(b, pre + [y]).Some? ==> TYPES <= After(b, pre + [y]).value
  {
    AfterAppend(b, pre, [y]);
    AfterOne(After(b, pre), y);
  }

  lemma OpensOwn(c: Ctx, st: St, x: Insn, a: nat, a': nat)
    requires c.Valid() && Advance(Some(a), x.op) == Some(a') && a < TYPES <= a' && !st.inFn
    ensures |Own(c, st, x)| == 1 && (Declares(Own(c, st, x)[0].op) || InFunctions(Own(c, st, x)[0].op))
  {
  }

  lemma PastOpening(z: Sim, mm: nat, k: nat, t: nat)
    requires Laid(z, mm) && k < |z.xs| && Opens(z.xs, k) && t < |z.xs| && t != k && IsTypeOp(z.xs[t].op)
    ensures OutReached(z, t).Some? ==> TYPES <= OutReached(z, t).value
  {
    assert k < t by {
      if t < k {
        ReachedNext(z.xs, t);
        ReachedGrows(z.xs, t + 1, k);
      }
    }
    OpensReached(z, mm, k);
    OutGrows(z, k + 1, t);
  }

  /** Decorations in front of a type that does not open its section break the layout. */
  lemma LateTypesBreak(z: Sim, mm: nat, k: nat, t: nat)
    requires Laid(z, mm) && k < |z.xs| && Opens(z.xs, k) && !IsTypeOp(z.xs[k].op) && Decorations(z.c) != []
    requires t < |z.xs| && IsTypeOp(z.xs[t].op) && forall i :: 0 <= i < t ==> !IsTypeOp(z.xs[i].op)
    ensures OutReached(z, t + 1).None?
  {
    PastOpening(z, mm, k, t);
    NoTypesYet(z, t);
    FlagsHold(z, mm, t);
    var a, a' := Turn(z, mm, t);
    OutNext(z, t);
    DecorationsAre(z.c);
    AfterBreaks(OutReached(z, t), z.piece(t), 0, 10);
  }

  lemma {:induction false} NoTypesYet(z: Sim, k: nat)
    requires Traced(z) && k <= |z.xs| && forall i :: 0 <= i < k ==> !IsTypeOp(z.xs[i].op)
    ensures !z.st(k).preTypes
  {
    if k > 0 {
      NoTypesYet(z, k - 1);
      assert Emits(z, k - 1);
      StepState(z.c, z.st(k - 1), z.xs[k - 1]);
    }
  }

  // ----- the theorem -----

  predicate IsShaderCapability(x: Insn) { x.op == OP_CAPABILITY && |x.args| >= 1 && x.args[0] == CAP_SHADER }

  lemma {:induction false} ShaderScanned(xs: seq<Insn>, k: nat, name: seq<nat>)
    requires k <= |xs|
    ensures ScanPrefix(xs, k, name).shader <==> exists i :: 0 <= i < k && IsShaderCapability(xs[i])
  {
    if k > 0 { ShaderScanned(xs, k - 1, name); }
  }

  lemma OutOrdered(z: Sim, mm: nat, t: nat)
    requires Laid(z, mm) && t < |z.xs| && IsTypeOp(z.xs[t].op) && forall i :: 0 <= i < t ==> !IsTypeOp(z.xs[i].op)
    ensures InSections(z.N()) <==> Fits(z)
  {
    if Fits(z) {
      StaysInPlace(z, mm, |z.xs|);
    } else if InSections(z.N()) {
      OrderedShader(z, mm);
      OrderedEntryPoints(z, mm);
      OrderedTypes(z, mm, t);
    }
  }

  lemma OrderedShader(z: Sim, mm: nat)
    requires Laid(z, mm) && InSections(z.N())
    ensures z.c.scan.shader
  {
    AtMemoryModel(z, mm);
    OutGrows(z, mm + 1, |z.xs|);
  }

  lemma OrderedEntryPoints(z: Sim, mm: nat)
    requires Laid(z, mm) && InSections(z.N())
    ensures z.c.stage.Fragment? ==> forall i :: 0 <= i < |z.xs| ==> !IsEntryPoint()(z.xs[i])
  {
    forall j | 0 <= j < |z.xs| && z.c.stage.Fragment? ensures !IsEntryPoint()(z.xs[j]) {
      OutGrows(z, j + 1, |z.xs|);
      if IsEntryPoint()(z.xs[j]) { EntryPointBreaks(z, mm, j); }
    }
  }

  lemma OrderedTypes(z: Sim, mm: nat, t: nat)
    requires Laid(z, mm) && t < |z.xs| && IsTypeOp(z.xs[t].op) && forall i :: 0 <= i < t ==> !IsTypeOp(z.xs[i].op)
    requires InSections(z.N())
    ensures Decorations(z.c) == [] || TypesFirst(z.xs)
  {
    OutGrows(z, t + 1, |z.xs|);
    forall k | 0 <= k < |z.xs| && Decorations(z.c) != [] ensures Opens(z.xs, k) ==> IsTypeOp(z.xs[k].op) {
      if Opens(z.xs, k) && !IsTypeOp(z.xs[k].op) { LateTypesBreak(z, mm, k, t); }
    }
  }

  /** The conditions under which the splices of the module's head and its new globals
      stay in their sections. */
  ghost predicate SectionsFit(xs: seq<Insn>, g: Sig, stage: Stage) {
    && (exists i :: 0 <= i < |xs| && IsShaderCapability(xs[i]))
    && (stage.Fragment? ==> forall i :: 0 <= i < |xs| ==> !IsEntryPoint()(xs[i]))
    && (|g.members| + |g.params| == 0 || TypesFirst(xs))
  }

  lemma SectionsKept(z: Sim, mm: nat, t: nat)
    requires Laid(z, mm) && t < |z.xs| && IsTypeOp(z.xs[t].op) && forall i :: 0 <= i < t ==> !IsTypeOp(z.xs[i].op)
    requires z.c.scan == ScanPrefix(z.xs, |z.xs|, z.c.name)
    ensures InSections(z.N()) <==> SectionsFit(z.xs, z.c.sig, z.c.stage)
  {
    ShaderScanned(z.xs, |z.xs|, z.c.name);
    assert |Decorations(z.c)| == |z.c.ids.outVar| + |z.c.ids.inVar|;
    OutOrdered(z, mm, t);
  }

  /** LAYOUT IS KEPT, EXACTLY WHEN.  Take a module laid out as section 2.4 says, with one
      OpMemoryModel.  The rewritten module is laid out so if and only if the input declares
      Shader, has no OpEntryPoint of its own when the stage is fragment, opens its types
      section with one of the OpType instructions the pass looks for (unless there are no
      interface variables to decorate), and has no line instruction in the header of the
      entry function or in front of one of its variables (unless there is nothing to load). */
  lemma LayoutKept(xs: seq<Insn>, bound: nat, name: seq<nat>, stage: Stage, mm: nat)
    requires Rewrite(xs, bound, name, stage).Ok? && Ordered(xs) && Exactly(xs, IsMemoryModel(), mm)
    ensures var g := ContextOf(xs, bound, name, stage).sig;
            Ordered(Rewrite(xs, bound, name, stage).value.out) <==>
              SectionsFit(xs, g, stage) && (ParamIds(xs, g) == [] || F.LinesWait(xs, g.fn))
  {
    var c := ContextOf(xs, bound, name, stage);
    var z := PassTrace(xs, c);
    var t := FirstType(xs, ScanPrefix(xs, |xs|, name));
    SectionsKept(z, mm, t);
    F.StructureKept(z);
  }

  lemma FirstType(xs: seq<Insn>, a: Scan) returns (t: nat)
    requires Analyse(xs, a).Ok?
    ensures t < |xs| && IsTypeOp(xs[t].op) && forall i :: 0 <= i < t ==> !IsTypeOp(xs[i].op)
  {
    var p := (x: Insn) => IsTypeOp(x.op);
    t := FirstIndex(xs, p, 0);
    var e := FirstIndex(xs, IsEntry(a.fn.value), 0);
    var f := FirstIndex(xs, IsTypeFunction(xs[e].args[3]), 0);
    assert p(xs[f]);
  }
}
