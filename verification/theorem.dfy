/** From the emit pass to the simulation, and the meaning theorem itself. */
module MeaningTheorem {
  import opened Wrappers
  import opened Spirv
  import opened SignatureTransform
  import opened Machine
  import opened Meaning

  // ----- where each original instruction ends up -----

  lemma {:induction false} PrefixGrows(z: Sim, k: nat, n: nat)
    requires Traced(z) && k <= n <= |z.xs|
    ensures z.out(k) <= z.out(n)
    decreases n
  {
    if k < n {
      PrefixGrows(z, k, n - 1);
      assert Appends(z, n - 1);
    }
  }

  lemma PieceAt(z: Sim, k: nat)
    requires Traced(z) && k < |z.xs|
    ensures z.Pos(k + 1) == z.Pos(k) + |z.piece(k)| && Slice(z.N(), z.Pos(k), z.piece(k))
  {
    PrefixGrows(z, k + 1, |z.xs|);
    assert Appends(z, k);
    var a, b, p := z.out(k), z.out(k + 1), z.piece(k);
    assert z.N()[..|b|] == b;
    assert z.N()[|a|..|b|] == z.N()[..|b|][|a|..] == p;
  }

  /** Splice flags are never cleared, and only functions touch the rest. */
  ghost predicate FlagsKept(st: St, x: Insn, f: St) {
    && (st.zoneA || x.op == OP_MEMORY_MODEL ==> f.zoneA)
    && (st.preTypes || IsTypeOp(x.op) ==> f.preTypes)
    && (st.preFn || x.op == OP_FUNCTION <==> f.preFn)
    && st.next <= f.next
    && (x.op != OP_FUNCTION && x.op != OP_FUNCTION_END ==> f.inFn == st.inFn)
    && (x.op == OP_FUNCTION_END ==> !f.inFn)
  }

  lemma StepFlags(c: Ctx, st: St, x: Insn)
    requires c.Valid()
    ensures FlagsKept(st, x, EmitStep(c, st, x).st)
  {
  }

  lemma FlagsAt(z: Sim, k: nat)
    requires Traced(z) && k < |z.xs|
    ensures FlagsKept(z.st(k), z.xs[k], z.st(k + 1))
  {
    assert Emits(z, k);
    StepFlags(z.c, z.st(k), z.xs[k]);
  }

  /** A flag that an instruction sets stays set. */
  lemma {:induction false} ZoneASet(z: Sim, i: nat, k: nat)
    requires Traced(z) && i < k <= |z.xs| && z.xs[i].op == OP_MEMORY_MODEL
    ensures z.st(k).zoneA
    decreases k
  {
    FlagsAt(z, k - 1);
    if i < k - 1 { ZoneASet(z, i, k - 1); }
  }

  lemma {:induction false} PreTypesSet(z: Sim, i: nat, k: nat)
    requires Traced(z) && i < k <= |z.xs| && IsTypeOp(z.xs[i].op)
    ensures z.st(k).preTypes
    decreases k
  {
    FlagsAt(z, k - 1);
    if i < k - 1 { PreTypesSet(z, i, k - 1); }
  }

  lemma {:induction false} NextGrows(z: Sim, k: nat)
    requires Traced(z) && k <= |z.xs|
    ensures z.c.ids.next <= z.st(k).next
  {
    if k > 0 {
      NextGrows(z, k - 1);
      FlagsAt(z, k - 1);
    }
  }

  /** Between the entry OpFunction and its end, the pass knows it is inside. */
  ghost predicate Inside(st: St) { st.inFn && st.zoneA && st.preTypes }

  lemma EntrySets(c: Ctx, st: St, x: Insn)
    requires c.Valid() && IsEntry(c.sig.fn)(x)
    ensures var f := EmitStep(c, st, x).st; f.inFn && !f.loads
  {
  }

  lemma {:induction false} InsideEntry(z: Sim, k: nat)
    requires Shaped(z) && z.e < k <= z.d
    ensures Inside(z.st(k))
    ensures k == z.e + 1 ==> !z.st(k).loads
    decreases k
  {
    var i :| 0 <= i < z.e && z.xs[i].op == OP_MEMORY_MODEL;
    ZoneASet(z, i, k);
    var j :| 0 <= j < z.e && IsTypeOp(z.xs[j].op);
    PreTypesSet(z, j, k);
    if k == z.e + 1 {
      assert Emits(z, z.e);
      EntrySets(z.c, z.st(z.e), z.xs[z.e]);
    } else {
      InsideEntry(z, k - 1);
      FlagsAt(z, k - 1);
      assert !IsFunctionEnd()(z.xs[k - 1]);
    }
  }

  /** A trace of the emit pass on a module whose entry function has the expected shape. */
  ghost predicate Shaped(z: Sim) {
    && Traced(z) && EntryShape(z.xs, z.c)
    && z.e == EntryIndex(z.xs, z.c) && z.d == EndIndex(z.xs, z.c) && z.dead == Dead(z.xs, z.c.scan, z.trusted)
  }

  // ----- the entry function -----

  /** What the emit step does with an instruction of the entry function. */
  ghost predicate Treated(c: Ctx, x: Insn, st: St, piece: seq<Insn>, f: St)
    requires c.Valid()
  {
    if Converted(c.scan, x) then
      f.loads == st.loads && piece == if Removed(c.scan, x) then [] else [Replacement(c, x)]
    else if Drop(x, true) then piece == [] && f.loads == st.loads
    else
      var pro := !st.loads && x.op != OP_VARIABLE && x.op != OP_LABEL;
      && f.loads == (st.loads || pro)
      && piece == (if pro then Loads(c) else [])
                  + if ReturnsValue(x) then LoweredReturn(c, x.args[0], st.next) else [x]
  }

  lemma BodyTreated(c: Ctx, st: St, x: Insn)
    requires c.Valid() && st.inFn && !Converted(c.scan, x)
    ensures Treated(c, x, st, EmitBody(c, st, x, []).out, EmitBody(c, st, x, []).st)
  {
    assert forall ys: seq<Insn> :: [] + ys == ys;
  }

  lemma StepTreated(c: Ctx, st: St, x: Insn)
    requires c.Valid() && Inside(st) && x.op != OP_FUNCTION && x.op != OP_FUNCTION_END
    ensures Treated(c, x, st, EmitStep(c, st, x).out, EmitStep(c, st, x).st)
  {
    if !Converted(c.scan, x) {
      var st1 := st.(preTypes := st.preTypes || IsTypeOp(x.op), preFn := st.preFn || x.op == OP_FUNCTION);
      assert st1 == st;
      assert EmitStep(c, st, x) == EmitBody(c, st, x, []);
      BodyTreated(c, st, x);
    }
  }

  lemma TreatedAt(z: Sim, k: nat)
    requires Shaped(z) && z.e < k < z.d
    ensures Treated(z.c, z.xs[k], z.st(k), z.piece(k), z.st(k + 1))
    ensures z.xs[k].op != OP_FUNCTION && z.xs[k].op != OP_FUNCTION_END
  {
    InsideEntry(z, k);
    assert !IsFunctionEnd()(z.xs[k]);
    assert Emits(z, k);
    StepTreated(z.c, z.st(k), z.xs[k]);
  }

  lemma ImageAt(z: Sim, k: nat)
    requires Shaped(z) && z.e < k < z.d
    ensures Image(z, k) && z.xs[k].op != OP_FUNCTION && z.xs[k].op != OP_FUNCTION_END
  {
    TreatedAt(z, k);
    PieceAt(z, k);
    ImageFrom(z, k);
  }

  lemma ImageFrom(z: Sim, k: nat)
    requires z.c.Valid() && k < |z.xs| && Treated(z.c, z.xs[k], z.st(k), z.piece(k), z.st(k + 1))
    requires z.Pos(k + 1) == z.Pos(k) + |z.piece(k)| && Slice(z.N(), z.Pos(k), z.piece(k))
    ensures Image(z, k)
  {
    var x := z.xs[k];
    if Copied(z, k) {
      var a := if Prologued(z, k) then Loads(z.c) else [];
      var b := if ReturnsValue(x) then LoweredReturn(z.c, x.args[0], z.st(k).next) else [x];
      assert z.piece(k) == a + b;
      SliceSplit(z.N(), z.Pos(k), a, b);
    }
  }

  lemma {:induction false} NoLoadsYet(z: Sim, k: nat)
    requires Shaped(z) && z.e < k <= z.e + 1 + |z.c.sig.params|
    ensures !z.st(k).loads
    decreases k
  {
    if k == z.e + 1 {
      InsideEntry(z, k);
    } else {
      NoLoadsYet(z, k - 1);
      TreatedAt(z, k - 1);
      assert IsParam(z.xs[k - 1]);
    }
  }

  lemma EndImage(z: Sim)
    requires Shaped(z)
    ensures Slice(z.N(), z.Pos(z.d), [z.xs[z.d]])
  {
    PieceAt(z, z.d);
    assert Emits(z, z.d);
    EndPiece(z.c, z.st(z.d), z.xs[z.d]);
  }

  lemma EndPiece(c: Ctx, st: St, x: Insn)
    requires c.Valid() && x.op == OP_FUNCTION_END
    ensures EmitStep(c, st, x).out == [x]
  {
  }

  /** What the simulation starts from. */
  ghost predicate Ready(z: Sim) {
    && Shaped(z) && Accepted(z.m, z.xs, z.c, z.bound, z.trusted) && Planned(z.c, z.bound)
    && z.c.paramIds == ParamIds(z.xs, z.c.sig) && |z.argv| == |z.c.sig.params|
  }

  lemma OkAt(z: Sim, k: nat)
    requires Ready(z) && k < |z.xs|
    ensures InsnOk(z.m, z.xs[k], z.c, z.bound, z.dead)
  {
    assert InsnOk(z.m, z.xs[k], z.c, z.bound, Dead(z.xs, z.c.scan, z.trusted));
  }

  lemma TrustAt(z: Sim, k: nat)
    requires Ready(z) && k < |z.xs|
    ensures TrustedOk(z.m, z.xs, z.c, z.bound, z.dead, k)
  {
    assert TrustedOk(z.m, z.xs, z.c, z.bound, Dead(z.xs, z.c.scan, z.trusted), k);
  }

  lemma DefinedOnce(m: Semantics, xs: seq<Insn>, j: nat, k: nat)
    requires SingleAssignment(m, xs) && j < k < |xs| && ResultId(m, xs[j]).Some?
    ensures ResultId(m, xs[k]) != ResultId(m, xs[j])
  {
    assert DefineDifferent(m, xs[j], xs[k]);
  }

  // ----- parameters -----

  lemma {:induction false} ParamRunFacts(xs: seq<Insn>, i: nat, n: nat)
    requires i + n <= |xs| && forall k :: i <= k < i + n ==> IsParam(xs[k])
    ensures |ParamRun(xs, i, n)| == n
    ensures forall j :: 0 <= j < n ==> IsParam(xs[i + j]) && ParamRun(xs, i, n)[j] == xs[i + j].args[1]
    decreases n
  {
    if n > 0 {
      assert IsParam(xs[i]);
      ParamRunFacts(xs, i + 1, n - 1);
    }
  }

  lemma ParamAt(z: Sim, j: nat)
    requires Shaped(z) && z.c.paramIds == ParamIds(z.xs, z.c.sig) && j < |z.c.sig.params|
    ensures |z.c.paramIds| == |z.c.sig.params|
    ensures IsParam(z.xs[z.e + 1 + j]) && z.xs[z.e + 1 + j].args[1] == z.c.paramIds[j]
    ensures ResultId(z.m, z.xs[z.e + 1 + j]) == Some(z.c.paramIds[j])
  {
    ParamRunFacts(z.xs, z.e + 1, |z.c.sig.params|);
    assert IsParam(z.xs[z.e + 1 + j]);
  }

  lemma ParamsDiffer(z: Sim)
    requires Shaped(z) && z.c.paramIds == ParamIds(z.xs, z.c.sig) && SingleAssignment(z.m, z.xs)
    ensures Distinct(z.c.paramIds)
  {
    forall i, j | 0 <= i < j < |z.c.paramIds| ensures z.c.paramIds[i] != z.c.paramIds[j] {
      ParamAt(z, i);
      ParamAt(z, j);
      assert DefineDifferent(z.m, z.xs[z.e + 1 + i], z.xs[z.e + 1 + j]);
    }
  }

  lemma ParamBelow(z: Sim, j: nat)
    requires Ready(z) && j < |z.c.sig.params|
    ensures |z.c.paramIds| == |z.c.sig.params| && z.c.paramIds[j] < z.bound
  {
    ParamAt(z, j);
    OkAt(z, z.e + 1 + j);
  }

  lemma ParamsClean(z: Sim)
    requires Ready(z)
    ensures |z.c.paramIds| == |z.c.sig.params| && Distinct(z.c.paramIds)
    ensures forall id :: id in z.c.paramIds ==> id < z.bound
  {
    if |z.c.sig.params| > 0 { ParamBelow(z, 0); }
    ParamsDiffer(z);
    forall j | 0 <= j < |z.c.paramIds| ensures z.c.paramIds[j] < z.bound { ParamBelow(z, j); }
  }

  lemma LateNotParam(z: Sim, k: nat)
    requires Shaped(z) && z.c.paramIds == ParamIds(z.xs, z.c.sig) && SingleAssignment(z.m, z.xs)
    requires z.e + |z.c.sig.params| < k < |z.xs|
    ensures NotParams(z.m, z.xs[k], z.c)
  {
    ParamRunFacts(z.xs, z.e + 1, |z.c.sig.params|);
    forall j | 0 <= j < |z.c.paramIds| ensures ResultId(z.m, z.xs[k]) != Some(z.c.paramIds[j]) {
      ParamAt(z, j);
      assert DefineDifferent(z.m, z.xs[z.e + 1 + j], z.xs[k]);
    }
  }

  // ----- conversions -----

  lemma {:induction false} LoadsStay(z: Sim, i: nat, k: nat)
    requires Shaped(z) && z.e < i < k <= z.d && Settles(z.c, z.xs[i])
    ensures z.st(k).loads
    decreases k
  {
    TreatedAt(z, k - 1);
    if i < k - 1 { LoadsStay(z, i, k - 1); }
  }

  /** The zero constant of the module: at module scope, and not a conversion's result. */
  lemma ZeroIndex(z: Sim) returns (j: nat)
    requires Ready(z) && z.trusted != {} && z.c.scan.uintZero != 0
    ensures j < FirstIndex(z.xs, IsFunction(), 0) <= z.e && IsZeroConstant(z.xs[j], z.c.ids.uintZero)
    ensures ResultId(z.m, z.xs[j]) == Some(z.c.ids.uintZero)
  {
    j := ZeroFound(z.m, z.xs, z.c);
    assert IsFunction()(z.xs[z.e]);
  }

  lemma ZeroFound(m: Semantics, xs: seq<Insn>, c: Ctx) returns (j: nat)
    requires ZeroStands(m, xs, c) && c.scan.uintZero != 0
    ensures j < FirstIndex(xs, IsFunction(), 0) && IsZeroConstant(xs[j], c.ids.uintZero)
    ensures ResultId(m, xs[j]) == Some(c.ids.uintZero)
  {
    j :| 0 <= j < FirstIndex(xs, IsFunction(), 0) && IsZeroConstant(xs[j], c.ids.uintZero);
  }

  /** No instruction of the entry function defines the zero constant. */
  lemma ZeroUnique(z: Sim, k: nat)
    requires Ready(z) && z.trusted != {} && z.e < k < |z.xs|
    ensures ResultId(z.m, z.xs[k]) != Some(z.c.ids.uintZero)
  {
    if z.c.scan.uintZero != 0 {
      var j := ZeroIndex(z);
      DefinedOnce(z.m, z.xs, j, k);
    } else {
      OkAt(z, k);
      assert z.c.ids.uintZero >= z.bound;
    }
  }

  lemma ParamIsNotZero(z: Sim, j: nat)
    requires Ready(z) && z.trusted != {} && j < |z.c.sig.params|
    ensures |z.c.paramIds| == |z.c.sig.params| && z.c.paramIds[j] != z.c.ids.uintZero
  {
    ParamAt(z, j);
    ZeroUnique(z, z.e + 1 + j);
  }

  lemma ParamsAreNotZero(z: Sim)
    requires Ready(z) && z.trusted != {} && |z.c.paramIds| == |z.c.sig.params|
    ensures z.c.ids.uintZero !in z.c.paramIds
  {
    forall j | 0 <= j < |z.c.paramIds| ensures z.c.paramIds[j] != z.c.ids.uintZero { ParamIsNotZero(z, j); }
  }

  lemma ConversionAt(z: Sim, k: nat)
    requires Ready(z) && z.e < k < z.d && Converted(z.c.scan, z.xs[k])
    ensures z.xs[k].args[1] in z.dead || Kept(z, k)
  {
    if z.xs[k].args[1] !in z.dead {
      TrustAt(z, k);
      assert IsFunction()(z.xs[z.e]);
      if Settled(z.xs, z.c, k) {
        var i :| z.e < i < k && Settles(z.c, z.xs[i]);
        LoadsStay(z, i, k);
      }
    }
  }

  lemma EarlyParam(z: Sim, k: nat)
    requires Shaped(z) && z.c.paramIds == ParamIds(z.xs, z.c.sig) && z.e < k <= z.e + |z.c.sig.params|
    ensures IsParam(z.xs[k]) && k - z.e - 1 < |z.c.paramIds| && z.xs[k].args[1] == z.c.paramIds[k - z.e - 1]
  {
    var j := k - z.e - 1;
    ParamAt(z, j);
    assert z.e + 1 + j == k;
  }

  /** Where parameters are, and that nothing later defines their ids. */
  lemma ParamPart(z: Sim, k: nat)
    requires Ready(z) && z.e < k < z.d
    ensures k <= z.e + |z.c.sig.params| ==>
              IsParam(z.xs[k]) && !z.st(k).loads && k - z.e - 1 < |z.c.paramIds|
                && z.xs[k].args[1] == z.c.paramIds[k - z.e - 1]
    ensures z.e + |z.c.sig.params| < k ==> NotParams(z.m, z.xs[k], z.c)
  {
    if k <= z.e + |z.c.sig.params| {
      EarlyParam(z, k);
      NoLoadsYet(z, k);
    } else {
      LateNotParam(z, k);
    }
  }

  lemma ConversionPart(z: Sim, k: nat)
    requires Ready(z) && z.e < k < z.d
    ensures Converted(z.c.scan, z.xs[k]) ==> z.xs[k].args[1] in z.dead || Kept(z, k)
    ensures z.trusted != {} ==> ResultId(z.m, z.xs[k]) != Some(z.c.ids.uintZero)
  {
    if Converted(z.c.scan, z.xs[k]) { ConversionAt(z, k); }
    if z.trusted != {} { ZeroUnique(z, k); }
  }

  lemma FineAt(z: Sim, k: nat)
    requires Ready(z) && z.e < k < z.d
    ensures Fine(z, k)
  {
    OkAt(z, k);
    ImageAt(z, k);
    NextGrows(z, k);
    ConversionPart(z, k);
    ParamPart(z, k);
  }

  lemma ReadyIsSound(z: Sim)
    requires Ready(z)
    ensures Sound(z)
  {
    ParamsClean(z);
    if z.trusted != {} { ParamsAreNotZero(z); }
    EndImage(z);
    forall k | z.e < k < z.d ensures Fine(z, k) {
      FineAt(z, k);
    }
  }

  // ----- module scope -----

  ghost predicate GlobalsAgree(g: Globals, h: Globals, bound: nat, dead: set<nat>) {
    Agree(g.env, h.env, bound, dead) && MemAgree(g.mem, h.mem, bound)
  }

  /** New inputs extend the old ones with ids at or above the bound. */
  ghost predicate Extends(inputs: map<nat, Value>, more: map<nat, Value>, bound: nat) {
    forall id: nat :: id < bound ==> Lookup(inputs, id) == Lookup(more, id)
  }

  lemma GlobalVariableAgree(m: Semantics, x: Insn, bound: nat, dead: set<nat>, inputs: map<nat, Value>,
                            more: map<nat, Value>,
                            g: Globals, h: Globals)
    requires GlobalsAgree(g, h, bound, dead) && Extends(inputs, more, bound) && x.op == OP_VARIABLE && |x.args| >= 3
    requires Below(m, x, bound) && Reads(m, x) !! dead
    ensures GlobalsAgree(GlobalStep(m, x, inputs, g), GlobalStep(m, x, more, h), bound, dead)
  {
    var id := x.args[1];
    assert ResultId(m, x) == Some(id);
    assert Lookup(inputs, id) == Lookup(more, id);
    if |x.args| >= 4 {
      assert x.args[3] in Reads(m, x);
      assert Lookup(g.env, x.args[3]) == Lookup(h.env, x.args[3]);
    }
  }

  lemma GlobalStepAgree(m: Semantics, x: Insn, bound: nat, dead: set<nat>, inputs: map<nat, Value>,
                        more: map<nat, Value>,
                        g: Globals, h: Globals)
    requires GlobalsAgree(g, h, bound, dead) && Extends(inputs, more, bound)
    requires Below(m, x, bound) && Reads(m, x) !! dead
    ensures GlobalsAgree(GlobalStep(m, x, inputs, g), GlobalStep(m, x, more, h), bound, dead)
  {
    if x.op == OP_VARIABLE && |x.args| >= 3 {
      GlobalVariableAgree(m, x, bound, dead, inputs, more, g, h);
    } else if x.op !in BodyOps() {
      BindAgree(m, x, g.env, h.env, 0, bound, dead);
    }
  }

  /** A conversion and what stands in its place bind the same id, dead or to the same value. */
  lemma ReplacedStep(m: Semantics, c: Ctx, x: Insn, bound: nat, dead: set<nat>, inputs: map<nat, Value>,
                     more: map<nat, Value>, g: Globals, h: Globals)
    requires GlobalsAgree(g, h, bound, dead) && Converted(c.scan, x)
    requires x.args[1] in dead || Equivalent(m, c, x, bound, dead, g.env)
    ensures GlobalsAgree(GlobalStep(m, x, inputs, g), GlobalStep(m, Replacement(c, x), more, h), bound, dead)
  {
    var y := Replacement(c, x);
    ReplacementResult(m, c, x);
    assert ResultId(m, x) == Some(x.args[1]);
    PureStep(m, x, inputs, g);
    PureStep(m, y, more, h);
    if x.args[1] !in dead { OperandsAgree(m, y, g.env, h.env, bound, dead); }
  }

  lemma PureStep(m: Semantics, x: Insn, inputs: map<nat, Value>, g: Globals)
    requires x.op !in BodyOps()
    ensures GlobalStep(m, x, inputs, g) == g.(env := Bind(m, x, g.env, 0))
  {
  }

  lemma RemovedStep(m: Semantics, c: Ctx, x: Insn, inputs: map<nat, Value>, g: Globals, h: Globals, bound: nat,
                    dead: set<nat>)
    requires GlobalsAgree(g, h, bound, dead) && Converted(c.scan, x) && x.args[1] in dead
    ensures GlobalsAgree(GlobalStep(m, x, inputs, g), h, bound, dead)
  {
    assert ResultId(m, x) == Some(x.args[1]);
  }

  ghost predicate Equivalent(m: Semantics, c: Ctx, x: Insn, bound: nat, dead: set<nat>, env: Env)
    requires Converted(c.scan, x)
  {
    && SameValue(m, x, Replacement(c, x), env, 0) && !Removed(c.scan, x)
    && Below(m, Replacement(c, x), bound) && Reads(m, Replacement(c, x)) !! dead
  }

  /** What the emit step does with a module-scope instruction. */
  ghost predicate GlobalTreated(m: Semantics, c: Ctx, x: Insn, piece: seq<Insn>) {
    if Converted(c.scan, x) then piece == if Removed(c.scan, x) then [] else [Replacement(c, x)]
    else
      || (piece == [] && FormOf(m, x.op) == NoResult)
      || (exists a, b :: piece == a + [x] + b && AllIdle(m, a) && AllIdle(m, b))
  }

  lemma StepGlobalTreated(m: Semantics, c: Ctx, st: St, x: Insn)
    requires c.Valid() && !st.inFn && x.op != OP_FUNCTION
    ensures GlobalTreated(m, c, x, EmitStep(c, st, x).out)
  {
    var out := EmitStep(c, st, x).out;
    assert AllIdle(m, []);
    if !Converted(c.scan, x) {
      if !st.zoneA && x.op == OP_MEMORY_MODEL {
        assert out == [] + [x] + EntryMetadata(c);
        assert AllIdle(m, EntryMetadata(c));
      } else if IsTypeOp(x.op) && !st.preTypes {
        assert out == Decorations(c) + [x] + [];
        assert AllIdle(m, Decorations(c));
      } else if Drop(x, false) {
        assert FormOf(m, x.op) == NoResult;
      } else {
        assert out == [] + [x] + [];
      }
    }
  }

  lemma GlobalSandwich(m: Semantics, g: Globals, a: seq<Insn>, x: Insn, b: seq<Insn>, inputs: map<nat, Value>)
    requires AllIdle(m, a) && AllIdle(m, b)
    ensures GlobalRun(m, g, a + [x] + b, inputs) == GlobalStep(m, x, inputs, g)
  {
    GlobalRunIdle(m, g, a, inputs);
    GlobalRunOne(m, g, x, inputs);
    GlobalRunAppend(m, g, a, [x], inputs);
    GlobalRunAppend(m, g, a + [x], b, inputs);
    GlobalRunIdle(m, GlobalStep(m, x, inputs, g), b, inputs);
  }

  /** One module-scope instruction and its image. */
  lemma GlobalPieceAgree(m: Semantics, x: Insn, c: Ctx, bound: nat, dead: set<nat>, inputs: map<nat, Value>,
                         more: map<nat, Value>, piece: seq<Insn>, g: Globals, h: Globals)
    requires Extends(inputs, more, bound) && GlobalsAgree(g, h, bound, dead)
    requires InsnOk(m, x, c, bound, dead) && GlobalTreated(m, c, x, piece)
    requires Converted(c.scan, x) ==> x.args[1] in dead || Equivalent(m, c, x, bound, dead, g.env)
    ensures GlobalsAgree(GlobalStep(m, x, inputs, g), GlobalRun(m, h, piece, more), bound, dead)
  {
    if Converted(c.scan, x) {
      if Removed(c.scan, x) {
        RemovedStep(m, c, x, inputs, g, h, bound, dead);
      } else {
        ReplacedStep(m, c, x, bound, dead, inputs, more, g, h);
        GlobalRunOne(m, h, piece[0], more);
      }
    } else if piece == [] && FormOf(m, x.op) == NoResult {
      assert GlobalStep(m, x, inputs, g) == g;
    } else {
      var a, b :| piece == a + [x] + b && AllIdle(m, a) && AllIdle(m, b);
      GlobalSandwich(m, h, a, x, b, more);
      GlobalStepAgree(m, x, bound, dead, inputs, more, g, h);
    }
  }

  lemma GlobalRunNext(m: Semantics, xs: seq<Insn>, k: nat, inputs: map<nat, Value>)
    requires k < |xs|
    ensures GlobalRun(m, NO_GLOBALS, xs[..k + 1], inputs)
         == GlobalStep(m, xs[k], inputs, GlobalRun(m, NO_GLOBALS, xs[..k], inputs))
  {
    assert xs[..k + 1][..k] == xs[..k];
  }

  lemma {:induction false} OutsideFunctions(z: Sim, k: nat)
    requires Traced(z) && k <= FirstIndex(z.xs, IsFunction(), 0)
    ensures !z.st(k).preFn && !z.st(k).inFn
  {
    if k > 0 {
      OutsideFunctions(z, k - 1);
      FlagsAt(z, k - 1);
      assert !IsFunction()(z.xs[k - 1]);
    }
  }

  lemma GlobalFrame(m: Semantics, x: Insn, inputs: map<nat, Value>, g: Globals, id: nat)
    requires ResultId(m, x) != Some(id)
    ensures Lookup(GlobalStep(m, x, inputs, g).env, id) == Lookup(g.env, id)
  {
  }

  /** What a module-scope operation bound stays bound. */
  lemma {:induction false} GlobalHolds(m: Semantics, xs: seq<Insn>, inputs: map<nat, Value>, j: nat, k: nat, id: nat)
    returns (os: seq<Operand>)
    requires j < k <= |xs| && SingleAssignment(m, xs) && xs[j].op !in BodyOps() && ResultId(m, xs[j]) == Some(id)
    ensures var g := GlobalRun(m, NO_GLOBALS, xs[..k], inputs);
            Lookup(g.env, id) == Some(m.eval(xs[j].op, os, 0))
    ensures exists env :: os == Operands(m, xs[j], env)
    decreases k
  {
    GlobalRunNext(m, xs, k - 1, inputs);
    if j == k - 1 {
      os := Operands(m, xs[j], GlobalRun(m, NO_GLOBALS, xs[..j], inputs).env);
    } else {
      os := GlobalHolds(m, xs, inputs, j, k - 1, id);
      assert DefineDifferent(m, xs[j], xs[k - 1]);
      GlobalFrame(m, xs[k - 1], inputs, GlobalRun(m, NO_GLOBALS, xs[..k - 1], inputs), id);
    }
  }

  lemma UndefHolds(m: Semantics, xs: seq<Insn>, inputs: map<nat, Value>, j: nat, k: nat, id: nat)
    requires j < k <= |xs| && SingleAssignment(m, xs) && IsUndef(xs[j], id)
    ensures Undefined(m, GlobalRun(m, NO_GLOBALS, xs[..k], inputs).env, id)
  {
    var os := GlobalHolds(m, xs, inputs, j, k, id);
  }

  lemma SpecMeans(m: Semantics, xs: seq<Insn>, c: Ctx, bound: nat, dead: set<nat>, inputs: map<nat, Value>, k: nat)
    requires k < |xs| && SingleAssignment(m, xs) && IsSpecBitcast(xs[k]) && SpecTrusted(m, xs, c, bound, dead, k)
    ensures Equivalent(m, c, xs[k], bound, dead, GlobalRun(m, NO_GLOBALS, xs[..k], inputs).env)
  {
    var j :| 0 <= j < k && IsUndef(xs[j], xs[k].args[3]);
    UndefHolds(m, xs, inputs, j, k, xs[k].args[3]);
  }

  /** A trusted OpSpecConstantOp means what OpUndef means. */
  lemma SpecEquivalent(z: Sim, inputs: map<nat, Value>, k: nat)
    requires Ready(z) && k < FirstIndex(z.xs, IsFunction(), 0)
    requires Converted(z.c.scan, z.xs[k]) && z.xs[k].args[1] !in z.dead
    ensures Equivalent(z.m, z.c, z.xs[k], z.bound, z.dead, GlobalRun(z.m, NO_GLOBALS, z.xs[..k], inputs).env)
  {
    TrustAt(z, k);
    SpecMeans(z.m, z.xs, z.c, z.bound, z.dead, inputs, k);
  }

  lemma {:induction false} GlobalsSim(z: Sim, inputs: map<nat, Value>, more: map<nat, Value>, k: nat)
    requires Ready(z) && Extends(inputs, more, z.bound) && k <= FirstIndex(z.xs, IsFunction(), 0)
    ensures GlobalsAgree(GlobalRun(z.m, NO_GLOBALS, z.xs[..k], inputs), GlobalRun(z.m, NO_GLOBALS, z.out(k), more),
            z.bound, z.dead)
  {
    if k > 0 {
      var i := k - 1;
      GlobalsSim(z, inputs, more, i);
      OutsideFunctions(z, i);
      assert !IsFunction()(z.xs[i]) && Emits(z, i) && Appends(z, i);
      StepGlobalTreated(z.m, z.c, z.st(i), z.xs[i]);
      OkAt(z, i);
      if Converted(z.c.scan, z.xs[i]) && z.xs[i].args[1] !in z.dead { SpecEquivalent(z, inputs, i); }
      GlobalRunNext(z.m, z.xs, i, inputs);
      GlobalPieceAgree(z.m, z.xs[i], z.c, z.bound, z.dead, inputs, more, z.piece(i),
                       GlobalRun(z.m, NO_GLOBALS, z.xs[..i], inputs), GlobalRun(z.m, NO_GLOBALS, z.out(i), more));
      GlobalRunAppend(z.m, NO_GLOBALS, z.out(i), z.piece(i), more);
    }
  }

  // ----- the new globals -----

  /** What the id planner guarantees about the context. */
  ghost predicate Planned(c: Ctx, bound: nat) {
    && Fresh(c, bound, c.ids.next)
    && (forall j :: 0 <= j < |c.ids.outPtr| ==> c.ids.outPtr[j] == c.ids.voidFn + 1 + 2 * j)
    && (forall j :: 0 <= j < |c.ids.inPtr| ==> c.ids.inPtr[j] == c.ids.voidFn + 1 + 2 * |c.sig.members| + 2 * j)
    && (c.scan.voidId == 0 ==> c.ids.voidId >= bound)
    && (c.scan.uintTy == 0 ==> c.ids.uintTy >= bound)
    && (c.scan.uintZero == 0 ==> c.ids.uintZero > c.ids.voidFn + 2 * |c.sig.members| + 2 * |c.sig.params|)
  }

  lemma MakeCtxPlanned(xs: seq<Insn>, a: Scan, g: Sig, bound: nat, name: seq<nat>, stage: Stage)
    requires g.isStruct || |g.members| == 1
    ensures Planned(MakeCtx(xs, a, g, bound, name, stage), bound)
  {
  }

  ghost predicate BindsHigh(m: Semantics, x: Insn, bound: nat) {
    x.op !in BodyOps() && (ResultId(m, x).Some? ==> ResultId(m, x).value >= bound)
  }

  lemma BindHigh(m: Semantics, x: Insn, g: Globals, inputs: map<nat, Value>, bound: nat)
    requires BindsHigh(m, x, bound)
    ensures var h := GlobalStep(m, x, inputs, g);
            h.mem == g.mem && forall id: nat :: id < bound ==> Lookup(h.env, id) == Lookup(g.env, id)
  {
  }

  /** New types and constants bind ids at or above the bound. */
  lemma {:induction false} GlobalRunHigh(m: Semantics, g: Globals, ys: seq<Insn>, inputs: map<nat, Value>, bound: nat)
    requires forall i :: 0 <= i < |ys| ==> BindsHigh(m, ys[i], bound)
    ensures var h := GlobalRun(m, g, ys, inputs);
            h.mem == g.mem && forall id: nat :: id < bound ==> Lookup(h.env, id) == Lookup(g.env, id)
    decreases |ys|
  {
    if ys != [] {
      var zs := ys[..|ys| - 1];
      GlobalRunHigh(m, g, zs, inputs, bound);
      BindHigh(m, ys[|ys| - 1], GlobalRun(m, g, zs, inputs), inputs, bound);
    }
  }

  lemma TypeBindsHigh(m: Semantics, x: Insn, bound: nat)
    requires IsTypeOp(x.op) && |x.args| >= 1 && x.args[0] >= bound
    ensures BindsHigh(m, x, bound)
  {
  }

  lemma NewTypesHigh(m: Semantics, c: Ctx, bound: nat)
    requires Planned(c, bound)
    ensures forall i :: 0 <= i < |NewTypes(c)| ==> BindsHigh(m, NewTypes(c)[i], bound)
  {
    forall x | x in NewTypes(c) ensures BindsHigh(m, x, bound) {
      if x.op == OP_CONSTANT {
        assert x == Insn(OP_CONSTANT, [c.ids.uintTy, c.ids.uintZero, 0]) && c.scan.uintZero == 0;
      } else {
        TypeBindsHigh(m, x, bound);
      }
    }
  }

  /** Ids outside [lo, hi) are as before. */
  ghost predicate Outside(g: Globals, h: Globals, lo: nat, hi: nat) {
    forall id: nat :: id < lo || id >= hi ==>
      Lookup(h.env, id) == Lookup(g.env, id) && Lookup(h.mem, id) == Lookup(g.mem, id)
  }

  ghost predicate Declared(h: Globals, v: nat, inputs: map<nat, Value>) {
    Lookup(h.env, v) == Some(Ptr(v, [])) && v in h.mem && (v in inputs ==> h.mem[v] == inputs[v])
  }

  /** Declaring one more variable p + 1, after zs. */
  lemma DeclareOne(m: Semantics, g: Globals, zs: seq<Insn>, h: Globals, p: nat, storage: nat, ty: nat,
                   inputs: map<nat, Value>)
    returns (k: Globals)
    requires h == GlobalRun(m, g, zs, inputs)
    ensures var two := [Insn(OP_TYPE_POINTER, [p, storage, ty]), Insn(OP_VARIABLE, [p, p + 1, storage])];
            k == GlobalRun(m, g, zs + two, inputs)
    ensures Outside(h, k, p, p + 2) && Declared(k, p + 1, inputs)
  {
    var x, y := Insn(OP_TYPE_POINTER, [p, storage, ty]), Insn(OP_VARIABLE, [p, p + 1, storage]);
    GlobalRunAppend(m, g, zs, [x, y], inputs);
    GlobalRunOne(m, h, x, inputs);
    GlobalRunOne(m, GlobalStep(m, x, inputs, h), y, inputs);
    GlobalRunAppend(m, h, [x], [y], inputs);
    assert [x] + [y] == [x, y];
    assert FormOf(m, OP_TYPE_POINTER) == Untyped;
    k := GlobalRun(m, h, [x, y], inputs);
  }

  lemma DeclareNext(g: Globals, h: Globals, k: Globals, vars: seq<nat>, n: nat, inputs: map<nat, Value>, base: nat)
    requires 0 < n <= |vars| && forall j :: 0 <= j < n ==> vars[j] == base + 2 * j + 1
    requires Outside(g, h, base, base + 2 * (n - 1)) && forall j :: 0 <= j < n - 1 ==> Declared(h, vars[j], inputs)
    requires Outside(h, k, base + 2 * (n - 1), base + 2 * n) && Declared(k, vars[n - 1], inputs)
    ensures Outside(g, k, base, base + 2 * n) && forall j :: 0 <= j < n ==> Declared(k, vars[j], inputs)
  {
    forall j | 0 <= j < n ensures Declared(k, vars[j], inputs) {
      if j < n - 1 {
        assert Declared(h, vars[j], inputs);
        assert Lookup(k.env, vars[j]) == Lookup(h.env, vars[j]) && Lookup(k.mem, vars[j]) == Lookup(h.mem, vars[j]);
      }
    }
  }

  lemma VarDeclsLast(ptrs: seq<nat>, vars: seq<nat>, types: seq<nat>, storage: nat, n: nat, p: nat)
    requires 0 < n && n <= |ptrs| && n <= |vars| && n <= |types| && ptrs[n - 1] == p && vars[n - 1] == p + 1
    ensures VarDecls(ptrs, vars, types, storage, n) == VarDecls(ptrs, vars, types, storage, n - 1)
              + [Insn(OP_TYPE_POINTER, [p, storage, types[n - 1]]), Insn(OP_VARIABLE, [p, p + 1, storage])]
  {
  }

  /** Declared variables point to themselves and start with their input value. */
  lemma {:induction false} VarDeclsRun(m: Semantics, g: Globals, ptrs: seq<nat>, vars: seq<nat>, types: seq<nat>,
                                       storage: nat, n: nat, inputs: map<nat, Value>, base: nat)
    requires n <= |ptrs| && n <= |vars| && n <= |types|
    requires forall j :: 0 <= j < n ==> ptrs[j] == base + 2 * j
    requires forall j :: 0 <= j < n ==> vars[j] == base + 2 * j + 1
    ensures var h := GlobalRun(m, g, VarDecls(ptrs, vars, types, storage, n), inputs);
            && Outside(g, h, base, base + 2 * n)
            && forall j :: 0 <= j < n ==> Declared(h, vars[j], inputs)
  {
    if n > 0 {
      VarDeclsRun(m, g, ptrs, vars, types, storage, n - 1, inputs, base);
      var p := base + 2 * (n - 1);
      VarDeclsLast(ptrs, vars, types, storage, n, p);
      var zs, h, k := DeclareAfter(m, g, VarDecls(ptrs, vars, types, storage, n - 1), p, storage, types[n - 1], inputs);
      DeclareNext(g, h, k, vars, n, inputs, base);
    }
  }

  lemma DeclareAfter(m: Semantics, g: Globals, zs: seq<Insn>, p: nat, storage: nat, ty: nat, inputs: map<nat, Value>)
    returns (all: seq<Insn>, h: Globals, k: Globals)
    ensures all == zs + [Insn(OP_TYPE_POINTER, [p, storage, ty]), Insn(OP_VARIABLE, [p, p + 1, storage])]
    ensures h == GlobalRun(m, g, zs, inputs) && k == GlobalRun(m, g, all, inputs)
    ensures Outside(h, k, p, p + 2) && Declared(k, p + 1, inputs)
  {
    h := GlobalRun(m, g, zs, inputs);
    all := zs + [Insn(OP_TYPE_POINTER, [p, storage, ty]), Insn(OP_VARIABLE, [p, p + 1, storage])];
    k := DeclareOne(m, g, zs, h, p, storage, ty, inputs);
  }

  ghost predicate Supplies(c: Ctx, argv: seq<Value>, more: map<nat, Value>) {
    |argv| == |c.ids.inVar| && forall j :: 0 <= j < |argv| ==> Lookup(more, c.ids.inVar[j]) == Some(argv[j])
  }

  lemma NewInterface(c: Ctx, bound: nat, a: Globals, b: Globals, h: Globals, more: map<nat, Value>, argv: seq<Value>)
    requires Planned(c, bound) && Supplies(c, argv, more)
    requires var i := c.ids.voidFn + 1 + 2 * |c.sig.members|;
             Outside(a, b, c.ids.voidFn + 1, i) && Outside(b, h, i, i + 2 * |c.sig.params|)
    requires forall j :: 0 <= j < |c.ids.outVar| ==> Declared(b, c.ids.outVar[j], more)
    requires forall j :: 0 <= j < |c.ids.inVar| ==> Declared(h, c.ids.inVar[j], more)
    ensures Interface(c, argv, h.env, h.mem)
    ensures forall id: nat :: id < bound ==>
              Lookup(h.env, id) == Lookup(a.env, id) && Lookup(h.mem, id) == Lookup(a.mem, id)
  {
    forall j | 0 <= j < |c.ids.inVar| ensures InputHolds(c.ids.inVar[j], argv[j], h.env, h.mem) {
      assert Declared(h, c.ids.inVar[j], more) && Lookup(more, c.ids.inVar[j]) == Some(argv[j]);
    }
    forall j | 0 <= j < |c.ids.outVar| ensures OutputBound(c.ids.outVar[j], h.env, h.mem) {
      var v := c.ids.outVar[j];
      assert Declared(b, v, more);
      assert Lookup(h.env, v) == Lookup(b.env, v) && Lookup(h.mem, v) == Lookup(b.mem, v);
    }
  }

  lemma ThreeParts(m: Semantics, g: Globals, a: seq<Insn>, b: seq<Insn>, c: seq<Insn>, inputs: map<nat, Value>)
    ensures GlobalRun(m, g, a + b + c, inputs)
         == GlobalRun(m, GlobalRun(m, GlobalRun(m, g, a, inputs), b, inputs), c, inputs)
  {
    GlobalRunAppend(m, g, a, b, inputs);
    GlobalRunAppend(m, g, a + b, c, inputs);
  }

  /** The new globals add the interface and change nothing the original can see. */
  lemma NewGlobalsRun(m: Semantics, c: Ctx, bound: nat, g: Globals, more: map<nat, Value>, argv: seq<Value>)
    requires Planned(c, bound) && Supplies(c, argv, more)
    ensures var h := GlobalRun(m, g, NewGlobals(c), more);
            && Interface(c, argv, h.env, h.mem)
            && (forall id: nat :: id < bound ==>
              Lookup(h.env, id) == Lookup(g.env, id) && Lookup(h.mem, id) == Lookup(g.mem, id))
  {
    NewTypesHigh(m, c, bound);
    GlobalRunHigh(m, g, NewTypes(c), more, bound);
    var a := GlobalRun(m, g, NewTypes(c), more);
    var b := OutDeclsRun(m, c, bound, a, more);
    var h := InDeclsRun(m, c, bound, b, more);
    ThreeParts(m, g, NewTypes(c), OutDecls(c), InDecls(c), more);
    NewInterface(c, bound, a, b, h, more, argv);
  }

  lemma OutDeclsRun(m: Semantics, c: Ctx, bound: nat, g: Globals, more: map<nat, Value>) returns (h: Globals)
    requires Planned(c, bound)
    ensures h == GlobalRun(m, g, OutDecls(c), more)
    ensures Outside(g, h, c.ids.voidFn + 1, c.ids.voidFn + 1 + 2 * |c.sig.members|)
    ensures forall j :: 0 <= j < |c.ids.outVar| ==> Declared(h, c.ids.outVar[j], more)
  {
    h := GlobalRun(m, g, OutDecls(c), more);
    VarDeclsRun(m, g, c.ids.outPtr, c.ids.outVar, c.sig.members, STORAGE_OUTPUT, |c.sig.members|, more,
                c.ids.voidFn + 1);
  }

  lemma InDeclsRun(m: Semantics, c: Ctx, bound: nat, g: Globals, more: map<nat, Value>) returns (h: Globals)
    requires Planned(c, bound)
    ensures h == GlobalRun(m, g, InDecls(c), more)
    ensures var i := c.ids.voidFn + 1 + 2 * |c.sig.members|; Outside(g, h, i, i + 2 * |c.sig.params|)
    ensures forall j :: 0 <= j < |c.ids.inVar| ==> Declared(h, c.ids.inVar[j], more)
  {
    h := GlobalRun(m, g, InDecls(c), more);
    VarDeclsRun(m, g, c.ids.inPtr, c.ids.inVar, c.sig.params, STORAGE_INPUT, |c.sig.params|, more,
                c.ids.voidFn + 1 + 2 * |c.sig.members|);
  }

  lemma ConstantIsZero(m: Semantics, x: Insn, env: Env, v: Value)
    requires x.op == OP_CONSTANT && |x.args| >= 3 && x.args[2] == 0 && !m.isId(OP_CONSTANT, 2)
    requires v == m.eval(OP_CONSTANT, Operands(m, x, env), 0)
    ensures IsZero(m, v)
  {
    assert Operands(m, x, env)[2] == Lit(0);
  }

  /** A new zero constant is among the new types. */
  lemma NewZero(m: Semantics, c: Ctx, bound: nat, g: Globals, more: map<nat, Value>)
    requires Planned(c, bound) && c.scan.uintZero == 0 && !m.isId(OP_CONSTANT, 2)
    ensures Zeroed(m, c, GlobalRun(m, g, NewGlobals(c), more).env)
  {
    var a := GlobalRun(m, g, NewTypes(c), more);
    NewTypesZero(m, c, bound, g, more);
    var b := OutDeclsRun(m, c, bound, a, more);
    var h := InDeclsRun(m, c, bound, b, more);
    ThreeParts(m, g, NewTypes(c), OutDecls(c), InDecls(c), more);
    assert Lookup(h.env, c.ids.uintZero) == Lookup(b.env, c.ids.uintZero) == Lookup(a.env, c.ids.uintZero);
  }

  lemma NewTypesZero(m: Semantics, c: Ctx, bound: nat, g: Globals, more: map<nat, Value>)
    requires Planned(c, bound) && c.scan.uintZero == 0 && !m.isId(OP_CONSTANT, 2)
    ensures Zeroed(m, c, GlobalRun(m, g, NewTypes(c), more).env)
  {
    var x, y := Insn(OP_CONSTANT, [c.ids.uintTy, c.ids.uintZero, 0]),
      Insn(OP_TYPE_FUNCTION, [c.ids.voidFn, c.ids.voidId]);
    var front := (if c.scan.voidId == 0 then [Insn(OP_TYPE_VOID, [c.ids.voidId])] else [])
                 + (if c.scan.uintTy == 0 then [Insn(OP_TYPE_INT, [c.ids.uintTy, 32, 0])] else []);
    assert NewTypes(c) == front + [x] + [y];
    ThreeParts(m, g, front, [x], [y], more);
    var p := GlobalRun(m, g, front, more);
    GlobalRunOne(m, p, x, more);
    var q := GlobalStep(m, x, more, p);
    GlobalRunOne(m, q, y, more);
    ConstantIsZero(m, x, p.env, q.env[c.ids.uintZero]);
    GlobalFrame(m, y, more, q, c.ids.uintZero);
  }

  // ----- where execution starts -----

  lemma FirstIndexIs(xs: seq<Insn>, p: Insn -> bool, k: nat)
    requires k < |xs| && p(xs[k]) && forall j :: 0 <= j < k ==> !p(xs[j])
    ensures FirstIndex(xs, p, 0) == k
  {
  }

  ghost predicate NoFunction(ys: seq<Insn>) {
    forall i :: 0 <= i < |ys| ==> ys[i].op != OP_FUNCTION
  }

  lemma {:induction false} NoFunctionInDecls(ptrs: seq<nat>, vars: seq<nat>, types: seq<nat>, storage: nat, n: nat)
    requires n <= |ptrs| && n <= |vars| && n <= |types|
    ensures NoFunction(VarDecls(ptrs, vars, types, storage, n))
  {
    if n > 0 { NoFunctionInDecls(ptrs, vars, types, storage, n - 1); }
  }

  lemma NoFunctionInGlobals(c: Ctx)
    requires c.Valid()
    ensures NoFunction(NewGlobals(c))
  {
    NoFunctionInDecls(c.ids.outPtr, c.ids.outVar, c.sig.members, STORAGE_OUTPUT, |c.sig.members|);
    NoFunctionInDecls(c.ids.inPtr, c.ids.inVar, c.sig.params, STORAGE_INPUT, |c.sig.params|);
  }

  lemma BodyPrefix(c: Ctx, st: St, x: Insn, pre: seq<Insn>)
    requires c.Valid()
    ensures EmitBody(c, st, x, pre).out == pre + EmitBody(c, st, x, []).out
  {
    var ls := if !st.loads && x.op != OP_VARIABLE then Loads(c) else [];
    assert pre + ([] + [x]) == pre + [x] && pre + [] == pre;
    assert pre + ([] + ls + [x]) == pre + ls + [x];
    if ReturnsValue(x) {
      var r := LoweredReturn(c, x.args[0], st.next);
      assert pre + ([] + ls + r) == pre + ls + r;
    }
  }

  lemma FunctionsOfBody(c: Ctx, st: St, x: Insn)
    requires c.Valid() && x.op != OP_FUNCTION
    ensures NoFunction(EmitBody(c, st, x, []).out)
  {
    if ReturnsValue(x) { ReturnPlain(c, x.args[0], st.next); }
  }

  /** Instructions that are not functions do not produce functions. */
  lemma NoFunctionsMade(c: Ctx, st: St, x: Insn)
    requires c.Valid() && x.op != OP_FUNCTION
    ensures NoFunction(EmitStep(c, st, x).out)
  {
    if !Converted(c.scan, x) && !(x.op == OP_MEMORY_MODEL && !st.zoneA) {
      var st1 := st.(preTypes := st.preTypes || IsTypeOp(x.op), preFn := st.preFn || x.op == OP_FUNCTION);
      var st2 := if x.op == OP_FUNCTION_END then st1.(inFn := false) else st1;
      BodyPrefix(c, st2, x, Splice(c, st, x.op));
      FunctionsOfBody(c, st2, x);
      assert EmitStep(c, st, x) == EmitBody(c, st2, x, Splice(c, st, x.op));
    }
  }

  /** A function other than the entry comes out as itself, behind the globals if first. */
  lemma FunctionPiece(c: Ctx, st: St, x: Insn)
    requires c.Valid() && x.op == OP_FUNCTION && (!st.inFn || IsEntry(c.sig.fn)(x))
    ensures EmitStep(c, st, x).out == (if st.preFn then [] else NewGlobals(c))
              + [if IsEntry(c.sig.fn)(x) then Insn(OP_FUNCTION, [c.ids.voidId, c.sig.fn, 0, c.ids.voidFn]) else x]
  {
  }

  lemma OtherFunctionPiece(c: Ctx, st: St, x: Insn, i: nat)
    requires c.Valid() && x.op == OP_FUNCTION && !IsFunctionNamed(c.sig.fn)(x) && i < |EmitStep(c, st, x).out|
    ensures !IsFunctionNamed(c.sig.fn)(EmitStep(c, st, x).out[i])
  {
    var st1 := st.(preFn := true);
    NoFunctionInGlobals(c);
    assert EmitStep(c, st, x) == EmitBody(c, st1, x, Splice(c, st, x.op));
    BodyPrefix(c, st1, x, Splice(c, st, x.op));
  }

  /** If no instruction before k is the function we look for, neither is any image. */
  lemma {:induction false} NoFunctionBefore(z: Sim, k: nat, p: Insn -> bool)
    requires Traced(z) && k <= |z.xs| && (p == IsFunction() || p == IsFunctionNamed(z.c.sig.fn))
    requires forall i :: 0 <= i < k ==> !p(z.xs[i])
    ensures forall i :: 0 <= i < |z.out(k)| ==> !p(z.out(k)[i])
  {
    if k > 0 {
      NoFunctionBefore(z, k - 1, p);
      assert Appends(z, k - 1) && Emits(z, k - 1);
      PieceLacks(z.c, z.st(k - 1), z.xs[k - 1], p);
    }
  }

  lemma PieceLacks(c: Ctx, st: St, x: Insn, p: Insn -> bool)
    requires c.Valid() && !p(x) && (p == IsFunction() || p == IsFunctionNamed(c.sig.fn))
    ensures forall i :: 0 <= i < |EmitStep(c, st, x).out| ==> !p(EmitStep(c, st, x).out[i])
  {
    if x.op != OP_FUNCTION {
      NoFunctionsMade(c, st, x);
    } else {
      forall i | 0 <= i < |EmitStep(c, st, x).out| ensures !p(EmitStep(c, st, x).out[i]) {
        OtherFunctionPiece(c, st, x, i);
      }
    }
  }

  lemma FirstAfter(N: seq<Insn>, a: seq<Insn>, b: seq<Insn>, y: Insn, p: Insn -> bool)
    requires a + (b + [y]) <= N && p(y)
    requires (forall i :: 0 <= i < |a| ==> !p(a[i])) && (forall i :: 0 <= i < |b| ==> !p(b[i]))
    ensures FirstIndex(N, p, 0) == |a| + |b| && N[..|a| + |b|] == a + b
  {
    var all, k := a + (b + [y]), |a| + |b|;
    assert N[..|all|] == all;
    assert N[k] == all[k] == y;
    forall j | 0 <= j < k ensures N[j] == (a + b)[j] && !p(N[j]) {
      assert N[j] == all[j];
    }
    FirstIndexIs(N, p, k);
  }

  lemma FunctionAt(z: Sim, k: nat, b: seq<Insn>, y: Insn)
    requires Traced(z) && k < |z.xs| && z.xs[k].op == OP_FUNCTION
    requires !z.st(k).inFn || IsEntry(z.c.sig.fn)(z.xs[k])
    requires b == if z.st(k).preFn then [] else NewGlobals(z.c)
    requires y == if !IsEntry(z.c.sig.fn)(z.xs[k]) then z.xs[k]
                  else Insn(OP_FUNCTION, [z.c.ids.voidId, z.c.sig.fn, 0, z.c.ids.voidFn])
    ensures z.out(k) + (b + [y]) <= z.N() && z.Pos(k) + |b| + 1 == z.Pos(k + 1)
  {
    assert Emits(z, k) && Appends(z, k);
    FunctionPiece(z.c, z.st(k), z.xs[k]);
    PrefixGrows(z, k + 1, |z.xs|);
  }

  /** The module-scope part of the output ends with the new globals. */
  lemma GlobalsEnd(z: Sim, f: nat)
    requires Traced(z) && f == FirstIndex(z.xs, IsFunction(), 0) < |z.xs|
    ensures z.N()[..FirstIndex(z.N(), IsFunction(), 0)] == z.out(f) + NewGlobals(z.c)
  {
    OutsideFunctions(z, f);
    var y := if IsEntry(z.c.sig.fn)(z.xs[f]) then Insn(OP_FUNCTION, [z.c.ids.voidId, z.c.sig.fn, 0, z.c.ids.voidFn])
      else z.xs[f];
    FunctionAt(z, f, NewGlobals(z.c), y);
    NoFunctionInGlobals(z.c);
    NoFunctionBefore(z, f, IsFunction());
    FirstAfter(z.N(), z.out(f), NewGlobals(z.c), y, IsFunction());
  }

  /** The rewritten entry function starts where the simulation starts. */
  lemma EntryStart(z: Sim)
    requires Shaped(z)
    ensures FirstIndex(z.N(), IsFunctionNamed(z.c.sig.fn), 0) < |z.N()|
    ensures FirstIndex(z.N(), IsFunctionNamed(z.c.sig.fn), 0) + 1 == z.Pos(z.e + 1)
  {
    EntryFirst(z);
    EntryAt(z, z.e);
  }

  lemma EntryFirst(z: Sim)
    requires Shaped(z)
    ensures z.e < |z.xs| && IsEntry(z.c.sig.fn)(z.xs[z.e])
    ensures forall i :: 0 <= i < z.e ==> !IsFunctionNamed(z.c.sig.fn)(z.xs[i])
  {
  }

  lemma EntryAt(z: Sim, e: nat)
    requires Traced(z) && e < |z.xs| && IsEntry(z.c.sig.fn)(z.xs[e])
    requires forall i :: 0 <= i < e ==> !IsFunctionNamed(z.c.sig.fn)(z.xs[i])
    ensures FirstIndex(z.N(), IsFunctionNamed(z.c.sig.fn), 0) < |z.N()|
    ensures FirstIndex(z.N(), IsFunctionNamed(z.c.sig.fn), 0) + 1 == z.Pos(e + 1)
  {
    var b := if z.st(e).preFn then [] else NewGlobals(z.c);
    var y := Insn(OP_FUNCTION, [z.c.ids.voidId, z.c.sig.fn, 0, z.c.ids.voidFn]);
    FunctionAt(z, e, b, y);
    NoFunctionInGlobals(z.c);
    NoFunctionBefore(z, e, IsFunctionNamed(z.c.sig.fn));
    FirstAfter(z.N(), z.out(e), b, y, IsFunctionNamed(z.c.sig.fn));
  }

  // ----- the theorem -----

  /** The first n arguments, as contents of the Input variables. */
  ghost function InputMap(vars: seq<nat>, argv: seq<Value>, n: nat): map<nat, Value>
    requires n <= |vars| && n <= |argv|
  {
    if n == 0 then map[] else InputMap(vars, argv, n - 1)[vars[n - 1] := argv[n - 1]]
  }

  lemma {:induction false} InputMapFacts(c: Ctx, bound: nat, argv: seq<Value>, n: nat)
    requires Planned(c, bound) && n <= |c.ids.inVar| && n <= |argv|
    ensures forall id :: id in InputMap(c.ids.inVar, argv, n) ==> id >= bound
    ensures forall j :: 0 <= j < n ==> Lookup(InputMap(c.ids.inVar, argv, n), c.ids.inVar[j]) == Some(argv[j])
  {
    if n > 0 { InputMapFacts(c, bound, argv, n - 1); }
  }

  /** The inputs of the original together with the arguments. */
  ghost function NewInputs(c: Ctx, argv: seq<Value>, inputs: map<nat, Value>): map<nat, Value>
    requires c.Valid() && |argv| == |c.sig.params|
  {
    inputs + InputMap(c.ids.inVar, argv, |argv|)
  }

  lemma NewInputsFacts(c: Ctx, bound: nat, argv: seq<Value>, inputs: map<nat, Value>)
    requires Planned(c, bound) && |argv| == |c.sig.params|
    ensures Extends(inputs, NewInputs(c, argv, inputs), bound)
    ensures Supplies(c, argv, NewInputs(c, argv, inputs))
  {
    InputMapFacts(c, bound, argv, |argv|);
    forall j | 0 <= j < |argv| ensures Lookup(NewInputs(c, argv, inputs), c.ids.inVar[j]) == Some(argv[j]) {
      assert Lookup(InputMap(c.ids.inVar, argv, |argv|), c.ids.inVar[j]) == Some(argv[j]);
    }
  }

  lemma StatesFrom(c: Ctx, argv: seq<Value>, bound: nat, dead: set<nat>, g: Globals, h0: Globals, h: Globals)
    requires GlobalsAgree(g, h0, bound, dead)
    requires forall id: nat :: id < bound ==>
             Lookup(h.env, id) == Lookup(h0.env, id) && Lookup(h.mem, id) == Lookup(h0.mem, id)
    ensures Data(bound, dead, State(g.env, g.mem, 0, 0, 0), State(h.env, h.mem, 0, 0, 0))
  {
    MemAgreeKept(g.mem, h0.mem, h.mem, bound);
  }

  lemma StartStates(z: Sim, inputs: map<nat, Value>, s: State, t: State)
    requires Ready(z) && Starting(z, inputs, s, t)
    ensures Data(z.bound, z.dead, s, t) && Interface(z.c, z.argv, t.env, t.mem) && s.arg == 0
  {
    var f, more := FirstIndex(z.xs, IsFunction(), 0), NewInputs(z.c, z.argv, inputs);
    var g := GlobalRun(z.m, NO_GLOBALS, z.xs[..f], inputs);
    var h0 := GlobalRun(z.m, NO_GLOBALS, z.out(f), more);
    NewInputsFacts(z.c, z.bound, z.argv, inputs);
    GlobalsSim(z, inputs, more, f);
    assert IsFunction()(z.xs[z.e]);
    GlobalsEnd(z, f);
    var h := GlobalRun(z.m, h0, NewGlobals(z.c), more);
    GlobalRunAppend(z.m, NO_GLOBALS, z.out(f), NewGlobals(z.c), more);
    NewGlobalsRun(z.m, z.c, z.bound, h0, more, z.argv);
    StatesFrom(z.c, z.argv, z.bound, z.dead, g, h0, h);
  }

  lemma ConstantHolds(m: Semantics, xs: seq<Insn>, inputs: map<nat, Value>, j: nat, k: nat, id: nat)
    requires j < k <= |xs| && SingleAssignment(m, xs) && IsZeroConstant(xs[j], id) && !m.isId(OP_CONSTANT, 2)
    ensures var env := GlobalRun(m, NO_GLOBALS, xs[..k], inputs).env; id in env && IsZero(m, env[id])
  {
    var os := GlobalHolds(m, xs, inputs, j, k, id);
    var env :| os == Operands(m, xs[j], env);
    ConstantIsZero(m, xs[j], env, m.eval(OP_CONSTANT, os, 0));
  }

  lemma CastIsNot(m: Semantics, a: Scan, xs: seq<Insn>, j: nat, i: nat, id: nat)
    requires SingleAssignment(m, xs) && j < |xs| && IsZeroConstant(xs[j], id) && i < |xs| && Converted(a, xs[i])
    ensures xs[i].args[1] != id
  {
    CastEffect(m, a, xs[i], [], State(map[], map[], 0, 0, 0));
    if i < j { DefinedOnce(m, xs, i, j); } else if j < i { DefinedOnce(m, xs, j, i); }
  }

  lemma ZeroIsAlive(z: Sim, j: nat)
    requires Ready(z) && j < |z.xs| && IsZeroConstant(z.xs[j], z.c.ids.uintZero)
    ensures z.c.ids.uintZero !in z.dead && z.c.ids.uintZero < z.bound
  {
    OkAt(z, j);
    forall i | 0 <= i < |z.xs| && Converted(z.c.scan, z.xs[i]) ensures z.xs[i].args[1] != z.c.ids.uintZero {
      CastIsNot(z.m, z.c.scan, z.xs, j, i, z.c.ids.uintZero);
    }
  }

  /** The zero constant found in the module is bound to a zero when functions start. */
  lemma FoundZero(z: Sim, inputs: map<nat, Value>, s: State, t: State)
    requires Ready(z) && z.trusted != {} && z.c.scan.uintZero != 0
    requires s == StartState(z.m, z.xs, inputs) && Data(z.bound, z.dead, s, t)
    ensures Zeroed(z.m, z.c, t.env)
  {
    var j := ZeroIndex(z);
    ConstantHolds(z.m, z.xs, inputs, j, FirstIndex(z.xs, IsFunction(), 0), z.c.ids.uintZero);
    ZeroIsAlive(z, j);
    assert Lookup(s.env, z.c.ids.uintZero) == Lookup(t.env, z.c.ids.uintZero);
  }

  lemma StartZero(z: Sim, inputs: map<nat, Value>, s: State, t: State)
    requires Ready(z) && Starting(z, inputs, s, t)
    requires Data(z.bound, z.dead, s, t)
    ensures ZeroKnown(z, t)
  {
    if z.trusted != {} {
      if z.c.scan.uintZero != 0 {
        FoundZero(z, inputs, s, t);
      } else {
        var f, more := FirstIndex(z.xs, IsFunction(), 0), NewInputs(z.c, z.argv, inputs);
        assert IsFunction()(z.xs[z.e]);
        GlobalsEnd(z, f);
        GlobalRunAppend(z.m, NO_GLOBALS, z.out(f), NewGlobals(z.c), more);
        NewZero(z.m, z.c, z.bound, GlobalRun(z.m, NO_GLOBALS, z.out(f), more), more);
      }
    }
  }

  /** The states in which the two entry functions start. */
  ghost predicate Starting(z: Sim, inputs: map<nat, Value>, s: State, t: State)
    requires z.c.Valid() && |z.argv| == |z.c.sig.params|
  {
    s == StartState(z.m, z.xs, inputs) && t == StartState(z.m, z.N(), NewInputs(z.c, z.argv, inputs))
  }

  /** They are related. */
  lemma Started(z: Sim, inputs: map<nat, Value>, s: State, t: State)
    requires Ready(z) && Starting(z, inputs, s, t)
    ensures Sound(z) && Rel(z, z.e + 1, s, t)
  {
    ReadyIsSound(z);
    StartStates(z, inputs, s, t);
    StartZero(z, inputs, s, t);
    Weaken(z.bound, z.dead, Except(z, z.st(z.e + 1).loads), s, t);
  }

  /** A stepper for function fn of a module, and the fact that executing is running it. */
  lemma ExecuteIsRun(m: Semantics, xs: seq<Insn>, fn: nat, argv: seq<Value>, inputs: map<nat, Value>, e: nat)
    returns (f: Stepper)
    requires e == FirstIndex(xs, IsFunctionNamed(fn), 0) < |xs|
    ensures Implements(f, m, xs, e + 1, argv)
    ensures forall n :: Execute(m, xs, fn, argv, inputs, n) == Run(f, e + 1, StartState(m, xs, inputs), n)
  {
    f := StepperOf(m, xs, e + 1, argv);
  }

  lemma RunPreserved(f: Stepper, g: Stepper, z: Sim, inputs: map<nat, Value>, s: State, t: State, n: nat)
    returns (n': nat)
    requires Ready(z) && Follows(g, z) && Implements(f, z.m, z.xs, z.e + 1, z.argv)
    requires Starting(z, inputs, s, t) && Run(f, z.e + 1, s, n).Returned?
    ensures Preserves(z.c, z.bound, Run(f, z.e + 1, s, n), Run(g, z.Pos(z.e + 1), t, n'))
  {
    Started(z, inputs, s, t);
    n' := RelatedReturn(f, g, z, s, t, n);
  }

  lemma RelatedReturn(f: Stepper, g: Stepper, z: Sim, s: State, t: State, n: nat) returns (n': nat)
    requires Sound(z) && Follows(g, z) && Implements(f, z.m, z.xs, z.e + 1, z.argv)
    requires Rel(z, z.e + 1, s, t) && Run(f, z.e + 1, s, n).Returned?
    ensures Preserves(z.c, z.bound, Run(f, z.e + 1, s, n), Run(g, z.Pos(z.e + 1), t, n'))
  {
    n' := SimRun(f, g, z, z.e + 1, s, t, n);
  }

  lemma {:induction false} RunStays(f: Stepper, pc: nat, s: State, a: nat, b: nat)
    requires Run(f, pc, s, a).Returned? && a <= b
    ensures Run(f, pc, s, b) == Run(f, pc, s, a)
    decreases a
  {
    var o := f(pc, s);
    if o.Running? { RunStays(f, o.pc, o.s, a - 1, b - 1); }
  }

  lemma RunStops(f: Stepper, g: Stepper, z: Sim, inputs: map<nat, Value>, s: State, t: State, n': nat) returns (n: nat)
    requires Ready(z) && Follows(g, z) && Implements(f, z.m, z.xs, z.e + 1, z.argv)
    requires Starting(z, inputs, s, t) && Run(g, z.Pos(z.e + 1), t, n').Returned?
    ensures !Run(f, z.e + 1, s, n).Running?
  {
    Started(z, inputs, s, t);
    n := StopsBy(f, g, z, s, t, n');
  }

  lemma Overtaken(b: nat, n': nat, w: nat)
    requires n' * w + w <= b * w + (w - 2) && w >= 2
    ensures n' <= b
  {
    calc {
      (n' + 1) * w;
      n' * w + w;
      <= b * w + (w - 2);
      < (b + 1) * w;
    }
  }

  lemma StopsBy(f: Stepper, g: Stepper, z: Sim, s: State, t: State, n': nat) returns (n: nat)
    requires Twins(f, g, z) && Rel(z, z.e + 1, s, t) && Run(g, z.Pos(z.e + 1), t, n').Returned?
    ensures !Run(f, z.e + 1, s, n).Running?
  {
    var w := z.d - z.e + 1;
    n := n' * w + w;
    if Run(f, z.e + 1, s, n).Running? {
      var b := SimProgress(f, g, z, z.e + 1, s, t, n);
      Overtaken(b, n', w);
      RunStays(g, z.Pos(z.e + 1), t, n', b);
    }
  }

  /** The context the pass builds for a module it accepts. */
  function ContextOf(xs: seq<Insn>, bound: nat, name: seq<nat>, stage: Stage): (c: Ctx)
    requires Rewrite(xs, bound, name, stage).Ok?
    ensures c.Valid()
  {
    var a := ScanPrefix(xs, |xs|, name);
    MakeCtx(xs, a, Analyse(xs, a).value, bound, name, stage)
  }

  ghost function PrefixOf(c: Ctx, xs: seq<Insn>, k: nat): Emitted
    requires c.Valid()
  {
    EmitPrefix(c, xs, if k <= |xs| then k else 0)
  }

  ghost function PieceOf(c: Ctx, xs: seq<Insn>, k: nat): seq<Insn>
    requires c.Valid()
  {
    if k < |xs| then EmitStep(c, PrefixOf(c, xs, k).st, xs[k]).out else []
  }

  lemma PrefixOfNext(c: Ctx, xs: seq<Insn>, k: nat)
    requires c.Valid() && k < |xs|
    ensures PrefixOf(c, xs, k + 1).out == PrefixOf(c, xs, k).out + PieceOf(c, xs, k)
    ensures EmitStep(c, PrefixOf(c, xs, k).st, xs[k]) == Emitted(PieceOf(c, xs, k), PrefixOf(c, xs, k + 1).st)
  {
  }

  /** The emit pass, as a trace. */
  lemma TraceOf(m: Semantics, xs: seq<Insn>, c: Ctx, bound: nat, argv: seq<Value>, trusted: set<nat>) returns (z: Sim)
    requires c.Valid()
    ensures Traced(z) && z.m == m && z.xs == xs && z.c == c && z.bound == bound && z.argv == argv
    ensures z.trusted == trusted
    ensures z.e == EntryIndex(xs, c) && z.d == EndIndex(xs, c) && z.dead == Dead(xs, c.scan, trusted)
    ensures z.N() == EmitPrefix(c, xs, |xs|).out && z.st(|xs|) == EmitPrefix(c, xs, |xs|).st
  {
    z := Sim(m, xs, c, bound, argv, EntryIndex(xs, c), EndIndex(xs, c), trusted, Dead(xs, c.scan, trusted),
             (k: nat) => PrefixOf(c, xs, k).out, (k: nat) => PieceOf(c, xs, k), (k: nat) => PrefixOf(c, xs, k).st);
    forall k | 0 <= k < |xs| ensures Appends(z, k) {
      PrefixOfNext(c, xs, k);
    }
    forall k | 0 <= k < |xs| ensures Emits(z, k) {
      PrefixOfNext(c, xs, k);
    }
  }

  /** The emit pass, as a trace, where no semantics matters. */
  lemma PassTrace(xs: seq<Insn>, c: Ctx) returns (z: Sim)
    requires c.Valid()
    ensures Traced(z) && z.xs == xs && z.c == c
    ensures z.N() == EmitPrefix(c, xs, |xs|).out && z.st(|xs|) == EmitPrefix(c, xs, |xs|).st
  {
    var m := Semantics((op: nat) => NoResult, (op: nat, i: nat) => false, (op: nat, os: seq<Operand>, p: nat) => Undef,
                       (v: Value) => true, (v: Value, ws: seq<nat>) => 0);
    z := TraceOf(m, xs, c, 0, [], {});
  }

  lemma ReadySim(m: Semantics, xs: seq<Insn>, bound: nat, name: seq<nat>, stage: Stage, argv: seq<Value>,
                 trusted: set<nat>)
    returns (z: Sim)
    requires Rewrite(xs, bound, name, stage).Ok?
    requires var c := ContextOf(xs, bound, name, stage); Accepted(m, xs, c, bound, trusted) && |argv| == |c.sig.params|
    ensures Ready(z) && z.m == m && z.xs == xs && z.c == ContextOf(xs, bound, name, stage) && z.bound == bound
    ensures z.argv == argv
    ensures z.N() == Rewrite(xs, bound, name, stage).value.out
  {
    var a := ScanPrefix(xs, |xs|, name);
    MakeCtxPlanned(xs, a, Analyse(xs, a).value, bound, name, stage);
    z := TraceOf(m, xs, ContextOf(xs, bound, name, stage), bound, argv, trusted);
  }

  /** Steppers for the two modules, and the fact that executing is running them. */
  lemma Steppers(z: Sim, inputs: map<nat, Value>) returns (f: Stepper, g: Stepper)
    requires Ready(z)
    ensures Follows(g, z) && Implements(f, z.m, z.xs, z.e + 1, z.argv)
    ensures forall n ::
              Execute(z.m, z.xs, z.c.sig.fn, z.argv, inputs, n) == Run(f, z.e + 1, StartState(z.m, z.xs, inputs), n)
    ensures var more := NewInputs(z.c, z.argv, inputs);
            forall n ::
              Execute(z.m, z.N(), z.c.sig.fn, [], more, n) == Run(g, z.Pos(z.e + 1), StartState(z.m, z.N(), more), n)
  {
    f := ExecuteIsRun(z.m, z.xs, z.c.sig.fn, z.argv, inputs, z.e);
    g := NewStepper(z, NewInputs(z.c, z.argv, inputs));
  }

  lemma NewStepper(z: Sim, more: map<nat, Value>) returns (g: Stepper)
    requires Shaped(z)
    ensures Follows(g, z)
    ensures forall n ::
              Execute(z.m, z.N(), z.c.sig.fn, [], more, n) == Run(g, z.Pos(z.e + 1), StartState(z.m, z.N(), more), n)
  {
    EntryStart(z);
    g := ExecuteIsRun(z.m, z.N(), z.c.sig.fn, [], more, z.Pos(z.e + 1) - 1);
  }

  lemma ExecutePreserved(z: Sim, inputs: map<nat, Value>, n: nat) returns (n': nat)
    requires Ready(z) && Execute(z.m, z.xs, z.c.sig.fn, z.argv, inputs, n).Returned?
    ensures Preserves(z.c, z.bound, Execute(z.m, z.xs, z.c.sig.fn, z.argv, inputs, n),
                      Execute(z.m, z.N(), z.c.sig.fn, [], NewInputs(z.c, z.argv, inputs), n'))
  {
    var f, g := Steppers(z, inputs);
    n' := RunPreserved(f, g, z, inputs, StartState(z.m, z.xs, inputs),
                       StartState(z.m, z.N(), NewInputs(z.c, z.argv, inputs)), n);
  }

  lemma ExecuteStops(z: Sim, inputs: map<nat, Value>, n': nat) returns (n: nat)
    requires Ready(z) && Execute(z.m, z.N(), z.c.sig.fn, [], NewInputs(z.c, z.argv, inputs), n').Returned?
    ensures !Execute(z.m, z.xs, z.c.sig.fn, z.argv, inputs, n).Running?
  {
    var f, g := Steppers(z, inputs);
    n := RunStops(f, g, z, inputs, StartState(z.m, z.xs, inputs),
                  StartState(z.m, z.N(), NewInputs(z.c, z.argv, inputs)), n');
  }

  /** MEANING IS PRESERVED.  For every semantics of the operations, every accepted module
      and every argument tuple: if the original entry function returns v, then the
      rewritten one, called with no arguments and with Input variable k holding argument
      k, returns too; Output variable k then holds member k of v (or v itself when v is
      not a struct), and every variable of the original has the contents it had.
      Results of conversions in `trusted` may be read: a pointer cast of which the semantics
      says that it addresses element 0, and a cast of an undefined value of which it says
      that it stays undefined. */
  lemma MeaningPreserved(m: Semantics, xs: seq<Insn>, bound: nat, name: seq<nat>, stage: Stage, argv: seq<Value>,
                         inputs: map<nat, Value>, trusted: set<nat>, n: nat)
    returns (n': nat)
    requires Rewrite(xs, bound, name, stage).Ok?
    requires var c := ContextOf(xs, bound, name, stage); Accepted(m, xs, c, bound, trusted) && |argv| == |c.sig.params|
    requires Execute(m, xs, ContextOf(xs, bound, name, stage).sig.fn, argv, inputs, n).Returned?
    ensures var c := ContextOf(xs, bound, name, stage);
            Preserves(c, bound, Execute(m, xs, c.sig.fn, argv, inputs, n),
              Execute(m, Rewrite(xs, bound, name, stage).value.out, c.sig.fn, [], NewInputs(c, argv, inputs), n'))
  {
    var z := ReadySim(m, xs, bound, name, stage, argv, trusted);
    n' := ExecutePreserved(z, inputs, n);
  }

  /** The rewritten module returns only if the original has stopped: once the former has
      returned, the latter is no longer running after a bounded number of steps. */
  lemma NoEarlyReturn(m: Semantics, xs: seq<Insn>, bound: nat, name: seq<nat>, stage: Stage, argv: seq<Value>,
                      inputs: map<nat, Value>, trusted: set<nat>, n': nat)
    returns (n: nat)
    requires Rewrite(xs, bound, name, stage).Ok?
    requires var c := ContextOf(xs, bound, name, stage); Accepted(m, xs, c, bound, trusted) && |argv| == |c.sig.params|
    requires var c := ContextOf(xs, bound, name, stage);
             var out := Rewrite(xs, bound, name, stage).value.out;
             Execute(m, out, c.sig.fn, [], NewInputs(c, argv, inputs), n').Returned?
    ensures !Execute(m, xs, ContextOf(xs, bound, name, stage).sig.fn, argv, inputs, n).Running?
  {
    var z := ReadySim(m, xs, bound, name, stage, argv, trusted);
    n := ExecuteStops(z, inputs, n');
  }

  lemma NoneTrusted(m: Semantics, xs: seq<Insn>, c: Ctx, bound: nat)
    requires EntryShape(xs, c) && SingleAssignment(m, xs)
    requires forall i :: 0 <= i < |xs| ==> InsnOk(m, xs[i], c, bound, Dead(xs, c.scan, {}))
    ensures Accepted(m, xs, c, bound, {})
  {
    var dead := Dead(xs, c.scan, {});
    forall i | 0 <= i < |xs| ensures TrustedOk(m, xs, c, bound, dead, i) {
      if Converted(c.scan, xs[i]) { assert xs[i].args[1] in dead; }
    }
  }

  /** In particular, for every semantics whatever, if nothing reads the result of a
      conversion (as when all of them feed lifetime markers only). */
  lemma MeaningWithoutConversions(m: Semantics, xs: seq<Insn>, bound: nat, name: seq<nat>, stage: Stage,
                                  argv: seq<Value>, inputs: map<nat, Value>, n: nat)
    returns (n': nat)
    requires Rewrite(xs, bound, name, stage).Ok?
    requires var c := ContextOf(xs, bound, name, stage);
             && EntryShape(xs, c) && SingleAssignment(m, xs) && |argv| == |c.sig.params|
             && forall i :: 0 <= i < |xs| ==> InsnOk(m, xs[i], c, bound, Dead(xs, c.scan, {}))
    requires Execute(m, xs, ContextOf(xs, bound, name, stage).sig.fn, argv, inputs, n).Returned?
    ensures var c := ContextOf(xs, bound, name, stage);
            Preserves(c, bound, Execute(m, xs, c.sig.fn, argv, inputs, n),
              Execute(m, Rewrite(xs, bound, name, stage).value.out, c.sig.fn, [], NewInputs(c, argv, inputs), n'))
  {
    NoneTrusted(m, xs, ContextOf(xs, bound, name, stage), bound);
    n' := MeaningPreserved(m, xs, bound, name, stage, argv, inputs, {}, n);
  }
}
