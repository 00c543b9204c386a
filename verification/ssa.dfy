/** The signature transform keeps single assignment: parameter ids are redefined exactly
    once, by loads; every other new id is fresh; the final bound exceeds them all. */
module SsaKept {
  import opened Wrappers
  import opened Spirv
  import opened SignatureTransform
  import opened Machine
  import opened Meaning
  import opened MeaningTheorem
  import opened Emission

  ghost predicate ResultIn(m: Semantics, x: Insn, s: iset<nat>) {
    ResultId(m, x).Some? ==> ResultId(m, x).value in s
  }

  ghost predicate ResultsIn(m: Semantics, ys: seq<Insn>, s: iset<nat>) {
    forall i :: 0 <= i < |ys| ==> ResultIn(m, ys[i], s)
  }

  lemma ResultsAppend(m: Semantics, a: seq<Insn>, b: seq<Insn>, s: iset<nat>)
    requires ResultsIn(m, a, s) && ResultsIn(m, b, s)
    ensures ResultsIn(m, a + b, s)
  {
  }

  lemma Widen(m: Semantics, ys: seq<Insn>, s: iset<nat>, t: iset<nat>)
    requires ResultsIn(m, ys, s) && s <= t
    ensures ResultsIn(m, ys, t)
  {
    forall i | 0 <= i < |ys| ensures ResultIn(m, ys[i], t) { assert ResultIn(m, ys[i], s); }
  }

  /** Two parts that each define ids once, from disjoint supplies, do so together. */
  lemma SingleAppend(m: Semantics, a: seq<Insn>, b: seq<Insn>, s: iset<nat>, t: iset<nat>)
    requires SingleAssignment(m, a) && SingleAssignment(m, b)
    requires ResultsIn(m, a, s) && ResultsIn(m, b, t) && s !! t
    ensures SingleAssignment(m, a + b)
  {
    var ab := a + b;
    forall i, j | 0 <= i < j < |ab| ensures DefineDifferent(m, ab[i], ab[j]) {
      if j < |a| {
        assert DefineDifferent(m, a[i], a[j]);
      } else if i >= |a| {
        assert DefineDifferent(m, b[i - |a|], b[j - |a|]);
      } else {
        assert ResultIn(m, a[i], s) && ResultIn(m, b[j - |a|], t);
      }
    }
  }

  lemma SingleOne(m: Semantics, x: Insn)
    ensures SingleAssignment(m, [x])
  {
  }

  // ----- the inserted parts -----

  predicate Between(r: nat, lo: nat, hi: nat) { lo <= r < hi }

  ghost function Range(lo: nat, hi: nat): iset<nat> { iset r: nat | Between(r, lo, hi) }

  lemma {:induction false} DeclsSingle(m: Semantics, ptrs: seq<nat>, vars: seq<nat>, types: seq<nat>, storage: nat,
                                n: nat, base: nat)
    requires n <= |ptrs| && n <= |vars| && n <= |types|
    requires forall j :: 0 <= j < n ==> ptrs[j] == base + 2 * j
    requires forall j :: 0 <= j < n ==> vars[j] == base + 2 * j + 1
    ensures var ys := VarDecls(ptrs, vars, types, storage, n);
            SingleAssignment(m, ys) && ResultsIn(m, ys, Range(base, base + 2 * n))
  {
    if n > 0 {
      DeclsSingle(m, ptrs, vars, types, storage, n - 1, base);
      DeclSingle(m, VarDecls(ptrs, vars, types, storage, n - 1), base, base + 2 * (n - 1), storage, types[n - 1]);
    }
  }

  lemma DeclSingle(m: Semantics, zs: seq<Insn>, base: nat, k: nat, storage: nat, ty: nat)
    requires base <= k && SingleAssignment(m, zs) && ResultsIn(m, zs, Range(base, k))
    ensures var ys := zs + [Insn(OP_TYPE_POINTER, [k, storage, ty]), Insn(OP_VARIABLE, [k, k + 1, storage])];
            SingleAssignment(m, ys) && ResultsIn(m, ys, Range(base, k + 2))
  {
    var p, v := Insn(OP_TYPE_POINTER, [k, storage, ty]), Insn(OP_VARIABLE, [k, k + 1, storage]);
    assert ResultId(m, p) == Some(k) && ResultId(m, v) == Some(k + 1);
    Widen(m, zs, Range(base, k), Range(base, k + 2));
    SingleAppend(m, zs, [p, v], Range(base, k), Range(k, k + 2));
    ResultsAppend(m, zs, [p, v], Range(base, k + 2));
  }

  /** The planned ids in the order the planner hands them out. */
  ghost predicate Laid(c: Ctx, bound: nat) {
    var u := c.ids.voidFn + 1 + 2 * |c.sig.members| + 2 * |c.sig.params|;
    && Planned(c, bound) && u <= c.ids.next
    && (c.scan.voidId == 0 ==> c.ids.voidId == bound < c.ids.voidFn)
    && (c.scan.uintTy == 0 ==> u <= c.ids.uintTy < c.ids.next)
    && (c.scan.uintZero == 0 ==> u <= c.ids.uintZero < c.ids.next)
    && (c.scan.uintTy == 0 && c.scan.uintZero == 0 ==> c.ids.uintTy < c.ids.uintZero)
  }

  lemma MakeCtxLaid(xs: seq<Insn>, a: Scan, g: Sig, bound: nat, name: seq<nat>, stage: Stage)
    requires g.isStruct || |g.members| == 1
    ensures Laid(MakeCtx(xs, a, g, bound, name, stage), bound)
  {
    MakeCtxPlanned(xs, a, g, bound, name, stage);
  }

  ghost function TypeIds(c: Ctx, bound: nat): iset<nat> {
    var u := c.ids.voidFn + 1 + 2 * |c.sig.members| + 2 * |c.sig.params|;
    Range(bound, c.ids.voidFn + 1) + Range(u, c.ids.next)
  }

  lemma NewTypesSingle(m: Semantics, c: Ctx, bound: nat)
    requires Laid(c, bound)
    ensures SingleAssignment(m, NewTypes(c)) && ResultsIn(m, NewTypes(c), TypeIds(c, bound))
  {
    var v := Insn(OP_TYPE_VOID, [c.ids.voidId]);
    var t := Insn(OP_TYPE_INT, [c.ids.uintTy, 32, 0]);
    var z := Insn(OP_CONSTANT, [c.ids.uintTy, c.ids.uintZero, 0]);
    var f := Insn(OP_TYPE_FUNCTION, [c.ids.voidFn, c.ids.voidId]);
    assert ResultId(m, v) == Some(c.ids.voidId) && ResultId(m, t) == Some(c.ids.uintTy);
    assert ResultId(m, z) == Some(c.ids.uintZero) && ResultId(m, f) == Some(c.ids.voidFn);
  }

  lemma NewGlobalsSingle(m: Semantics, c: Ctx, bound: nat)
    requires Laid(c, bound)
    ensures SingleAssignment(m, NewGlobals(c)) && ResultsIn(m, NewGlobals(c), Range(bound, c.ids.next))
  {
    var o := c.ids.voidFn + 1;
    var i := o + 2 * |c.sig.members|;
    var u := i + 2 * |c.sig.params|;
    NewTypesSingle(m, c, bound);
    DeclsSingle(m, c.ids.outPtr, c.ids.outVar, c.sig.members, STORAGE_OUTPUT, |c.sig.members|, o);
    DeclsSingle(m, c.ids.inPtr, c.ids.inVar, c.sig.params, STORAGE_INPUT, |c.sig.params|, i);
    Glue(m, NewTypes(c), OutDecls(c), InDecls(c), TypeIds(c, bound), Range(o, i), Range(i, u),
      Range(bound, c.ids.next));
  }

  lemma Glue(m: Semantics, a: seq<Insn>, b: seq<Insn>, c: seq<Insn>, s: iset<nat>, t: iset<nat>, r: iset<nat>,
             all: iset<nat>)
    requires SingleAssignment(m, a) && SingleAssignment(m, b) && SingleAssignment(m, c)
    requires ResultsIn(m, a, s) && ResultsIn(m, b, t) && ResultsIn(m, c, r)
    requires s !! t && (s + t) !! r && s + t + r <= all
    ensures SingleAssignment(m, a + b + c) && ResultsIn(m, a + b + c, all)
  {
    Widen(m, a, s, s + t);
    Widen(m, b, t, s + t);
    SingleAppend(m, a, b, s, t);
    ResultsAppend(m, a, b, s + t);
    SingleAppend(m, a + b, c, s + t, r);
    Widen(m, a + b, s + t, all);
    Widen(m, c, r, all);
    ResultsAppend(m, a + b, c, all);
  }

  lemma {:induction false} ExtractsSingle(m: Semantics, c: Ctx, v: nat, next: nat, n: nat)
    requires c.Valid() && n <= |c.sig.members|
    ensures SingleAssignment(m, Extracts(c, v, next, n)) && ResultsIn(m, Extracts(c, v, next, n), Range(next, next + n))
  {
    if n > 0 {
      ExtractsSingle(m, c, v, next, n - 1);
      var zs, k := Extracts(c, v, next, n - 1), next + (n - 1);
      var x, y := Insn(OP_COMPOSITE_EXTRACT, [c.sig.members[n - 1], k, v, n - 1]),
        Insn(OP_STORE, [c.ids.outVar[n - 1], k]);
      assert ResultId(m, x) == Some(k) && ResultId(m, y) == None;
      Widen(m, zs, Range(next, k), Range(next, k + 1));
      SingleAppend(m, zs, [x, y], Range(next, k), Range(k, k + 1));
      ResultsAppend(m, zs, [x, y], Range(next, k + 1));
    }
  }

  lemma ReturnSingle(m: Semantics, c: Ctx, v: nat, next: nat)
    requires c.Valid()
    ensures var ys := LoweredReturn(c, v, next);
            SingleAssignment(m, ys) && ResultsIn(m, ys,
              Range(next, next + if c.sig.isStruct then |c.sig.members| else 0))
  {
    var r, n := [Insn(OP_RETURN, [])], if c.sig.isStruct then |c.sig.members| else 0;
    assert ResultId(m, r[0]) == None;
    if c.sig.isStruct {
      ExtractsSingle(m, c, v, next, n);
      SingleAppend(m, Extracts(c, v, next, n), r, Range(next, next + n), iset{});
      ResultsAppend(m, Extracts(c, v, next, n), r, Range(next, next + n));
    } else {
      assert ResultId(m, Insn(OP_STORE, [c.ids.outVar[0], v])) == None;
    }
  }

  ghost function ParamSet(c: Ctx): iset<nat> { iset r: nat | r in c.paramIds }

  lemma LoadsSingle(m: Semantics, c: Ctx)
    requires c.Valid() && Distinct(c.paramIds)
    ensures SingleAssignment(m, Loads(c)) && ResultsIn(m, Loads(c), ParamSet(c))
  {
    forall i | 0 <= i < |Loads(c)| ensures ResultId(m, Loads(c)[i]) == Some(c.paramIds[i]) {}
  }

  lemma IdleSingle(m: Semantics, ys: seq<Insn>)
    requires AllIdle(m, ys)
    ensures SingleAssignment(m, ys) && ResultsIn(m, ys, iset{})
  {
    forall i | 0 <= i < |ys| ensures ResultId(m, ys[i]) == None { assert FormOf(m, ys[i].op) == NoResult; }
  }

  // ----- the whole run -----

  /** A module with one entry function of id fn, ids below the bound, defined once. */
  ghost predicate Clean(z: Sim) {
    && Traced(z) && Laid(z.c, z.bound) && z.c.paramIds == ParamIds(z.xs, z.c.sig)
    && SingleAssignment(z.m, z.xs)
    && (forall i :: 0 <= i < |z.xs| ==> ResultIn(z.m, z.xs[i], Range(0, z.bound)))
    && z.e == EntryIndex(z.xs, z.c) < |z.xs| && |z.xs[z.e].args| >= 4
  }

  /** Instruction i was dropped as a parameter of the entry function. */
  ghost predicate Withheld(z: Sim, i: nat)
    requires i < |z.xs|
  {
    z.xs[i].op == OP_FUNCTION_PARAMETER && z.st(i).inFn
  }

  ghost predicate Defines(z: Sim, i: nat, r: nat)
    requires i < |z.xs|
  {
    ResultId(z.m, z.xs[i]) == Some(r) && !Withheld(z, i)
  }

  /** Ids that may be defined by the output of the first k instructions. */
  ghost function Used(z: Sim, k: nat): iset<nat>
    requires k <= |z.xs|
  {
    iset r: nat |
      || (exists i :: 0 <= i < k && Defines(z, i, r))
      || (r in z.c.paramIds && z.st(k).loads)
      || (z.bound <= r < z.c.ids.next && z.st(k).preFn)
      || (z.c.ids.next <= r < z.st(k).next)
  }

  lemma OnlyEntry(z: Sim, i: nat)
    requires Clean(z) && i < |z.xs| && IsEntry(z.c.sig.fn)(z.xs[i])
    ensures i == z.e
  {
    forall j | z.e < j < |z.xs| ensures !IsEntry(z.c.sig.fn)(z.xs[j]) {
      assert DefineDifferent(z.m, z.xs[z.e], z.xs[j]);
    }
    assert IsFunctionNamed(z.c.sig.fn)(z.xs[i]);
  }

  lemma {:induction false} InFnAfterEntry(z: Sim, k: nat)
    requires Clean(z) && k <= |z.xs| && (z.st(k).inFn || z.st(k).loads)
    ensures z.e < k
  {
    if k > 0 {
      assert Emits(z, k - 1);
      StepState(z.c, z.st(k - 1), z.xs[k - 1]);
      if IsEntry(z.c.sig.fn)(z.xs[k - 1]) {
        OnlyEntry(z, k - 1);
      } else {
        InFnAfterEntry(z, k - 1);
      }
    }
  }

  lemma {:induction false} ParamRunAt(xs: seq<Insn>, i: nat, n: nat, j: nat)
    requires i <= |xs| && j < |ParamRun(xs, i, n)|
    ensures i + j < |xs| && IsParam(xs[i + j]) && ParamRun(xs, i, n)[j] == xs[i + j].args[1]
    decreases n
  {
    if j > 0 { ParamRunAt(xs, i + 1, n - 1, j - 1); }
  }

  lemma EntersAt(z: Sim)
    requires Clean(z)
    ensures z.st(z.e + 1).inFn
  {
    assert Emits(z, z.e);
    StepState(z.c, z.st(z.e), z.xs[z.e]);
    assert IsEntry(z.c.sig.fn)(z.xs[z.e]);
  }

  lemma StaysIn(z: Sim, k: nat)
    requires Clean(z) && k < |z.xs| && z.st(k).inFn && IsParam(z.xs[k])
    ensures z.st(k + 1).inFn
  {
    assert Emits(z, k);
    StepState(z.c, z.st(k), z.xs[k]);
  }

  lemma {:induction false} InFnThroughParams(z: Sim, k: nat)
    requires Clean(z) && z.e < k <= z.e + 1 + |z.c.paramIds|
    ensures k <= |z.xs| && z.st(k).inFn
    decreases k
  {
    if k == z.e + 1 {
      EntersAt(z);
    } else {
      InFnThroughParams(z, k - 1);
      ParamRunAt(z.xs, z.e + 1, |z.c.sig.params|, k - z.e - 2);
      StaysIn(z, k - 1);
    }
  }

  /** Parameter j is defined by the j-th instruction after the entry, and it is withheld. */
  lemma ParamOwner(z: Sim, j: nat)
    requires Clean(z) && j < |z.c.paramIds|
    ensures z.e + 1 + j < |z.xs| && Withheld(z, z.e + 1 + j)
    ensures ResultId(z.m, z.xs[z.e + 1 + j]) == Some(z.c.paramIds[j]) && z.c.paramIds[j] < z.bound
  {
    ParamRunAt(z.xs, z.e + 1, |z.c.sig.params|, j);
    InFnThroughParams(z, z.e + 1 + j);
    assert ResultIn(z.m, z.xs[z.e + 1 + j], Range(0, z.bound));
  }

  lemma OneOwner(z: Sim, i: nat, j: nat)
    requires Clean(z) && i < |z.xs| && j < |z.xs| && i != j
    ensures ResultId(z.m, z.xs[i]).Some? ==> ResultId(z.m, z.xs[i]) != ResultId(z.m, z.xs[j])
  {
    if i < j {
      assert DefineDifferent(z.m, z.xs[i], z.xs[j]);
    } else {
      assert DefineDifferent(z.m, z.xs[j], z.xs[i]);
    }
  }

  lemma ParamsDistinct(z: Sim)
    requires Clean(z)
    ensures Distinct(z.c.paramIds)
  {
    forall i, j | 0 <= i < j < |z.c.paramIds| ensures z.c.paramIds[i] != z.c.paramIds[j] {
      ParamOwner(z, i);
      ParamOwner(z, j);
      OneOwner(z, z.e + 1 + i, z.e + 1 + j);
    }
  }

  lemma CountersHigh(z: Sim, k: nat)
    requires Clean(z) && k <= |z.xs|
    ensures z.bound < z.c.ids.next <= z.st(k).next
  {
    NextGrows(z, k);
  }

  /** An instruction that defines r and was not withheld is the only source of r. */
  lemma OwnIsNew(z: Sim, k: nat, r: nat)
    requires Clean(z) && k < |z.xs| && Defines(z, k, r)
    ensures r !in Used(z, k) && r in Used(z, k + 1) && r < z.bound && r !in ParamSet(z.c)
  {
    CountersHigh(z, k);
    assert ResultIn(z.m, z.xs[k], Range(0, z.bound));
    forall i | 0 <= i < k ensures !Defines(z, i, r) { OneOwner(z, i, k); }
    forall j | 0 <= j < |z.c.paramIds| ensures z.c.paramIds[j] != r {
      ParamOwner(z, j);
      if z.e + 1 + j != k { OneOwner(z, z.e + 1 + j, k); }
    }
  }

  lemma ParamIsNew(z: Sim, k: nat, r: nat)
    requires Clean(z) && k < |z.xs| && r in z.c.paramIds && !z.st(k).loads
    ensures r !in Used(z, k) && r < z.bound
  {
    CountersHigh(z, k);
    var j :| 0 <= j < |z.c.paramIds| && z.c.paramIds[j] == r;
    ParamOwner(z, j);
    forall i | 0 <= i < k ensures !Defines(z, i, r) {
      if i != z.e + 1 + j { OneOwner(z, i, z.e + 1 + j); }
    }
  }

  lemma LowIds(z: Sim, k: nat, r: nat)
    requires Clean(z) && k <= |z.xs| && r in Used(z, k)
    ensures r < z.bound || (z.bound <= r < z.c.ids.next && z.st(k).preFn) || z.c.ids.next <= r < z.st(k).next
  {
    if i :| 0 <= i < k && Defines(z, i, r) {
      assert ResultIn(z.m, z.xs[i], Range(0, z.bound));
    } else if r in z.c.paramIds {
      var j :| 0 <= j < |z.c.paramIds| && z.c.paramIds[j] == r;
      ParamOwner(z, j);
    }
  }

  /** Ids do not become unused. */
  lemma UsedGrows(z: Sim, k: nat)
    requires Clean(z) && k < |z.xs|
    ensures Used(z, k) <= Used(z, k + 1)
  {
    assert Emits(z, k);
    StepState(z.c, z.st(k), z.xs[k]);
    if z.st(k).loads {
      InFnAfterEntry(z, k);
      if IsEntry(z.c.sig.fn)(z.xs[k]) { OnlyEntry(z, k); }
    }
    forall r | r in Used(z, k) ensures r in Used(z, k + 1) {
      if i :| 0 <= i < k && Defines(z, i, r) { assert Defines(z, i, r); }
    }
  }

  ghost predicate NewPart(z: Sim, k: nat, ys: seq<Insn>, s: iset<nat>)
    requires k < |z.xs|
  {
    SingleAssignment(z.m, ys) && ResultsIn(z.m, ys, s) && s !! Used(z, k) && s <= Used(z, k + 1)
  }

  /** Ids for the globals, as far as turn k makes them used. */
  ghost function SpliceIds(z: Sim, k: nat): iset<nat>
    requires k < |z.xs|
  {
    if z.st(k).preFn || !z.st(k + 1).preFn then iset{} else Range(z.bound, z.c.ids.next)
  }

  lemma SpliceUsed(z: Sim, k: nat)
    requires Clean(z) && k < |z.xs|
    ensures SpliceIds(z, k) !! Used(z, k) && SpliceIds(z, k) <= Used(z, k + 1)
  {
    CountersHigh(z, k);
    forall r | r in SpliceIds(z, k) ensures r !in Used(z, k) {
      if r in Used(z, k) { LowIds(z, k, r); }
    }
  }

  lemma SpliceSingle(m: Semantics, c: Ctx, st: St, x: Insn, bound: nat)
    requires Laid(c, bound)
    ensures SingleAssignment(m, SplicePart(c, st, x))
    ensures ResultsIn(m, SplicePart(c, st, x), if !st.preFn && x.op == OP_FUNCTION then Range(bound, c.ids.next)
            else iset{})
  {
    var ys := SplicePart(c, st, x);
    if ys != [] && x.op == OP_FUNCTION {
      NewGlobalsSingle(m, c, bound);
    } else {
      assert AllIdle(m, ys);
      IdleSingle(m, ys);
    }
  }

  lemma SpliceNew(z: Sim, k: nat)
    requires Clean(z) && k < |z.xs|
    ensures NewPart(z, k, SplicePart(z.c, z.st(k), z.xs[k]), SpliceIds(z, k))
  {
    assert Emits(z, k);
    StepState(z.c, z.st(k), z.xs[k]);
    SpliceSingle(z.m, z.c, z.st(k), z.xs[k], z.bound);
    SpliceUsed(z, k);
  }

  lemma LoadsNew(z: Sim, k: nat)
    requires Clean(z) && k < |z.xs| && TakesLoads(z.c, z.st(k), z.xs[k])
    ensures NewPart(z, k, Loads(z.c), ParamSet(z.c)) && ParamSet(z.c) !! Range(z.bound, z.c.ids.next)
  {
    assert Emits(z, k);
    StepState(z.c, z.st(k), z.xs[k]);
    ParamsDistinct(z);
    LoadsSingle(z.m, z.c);
    forall r | r in z.c.paramIds ensures r !in Used(z, k) && r < z.bound { ParamIsNew(z, k, r); }
  }

  /** The ids an instruction's own image may define. */
  ghost function OwnIds(z: Sim, k: nat): iset<nat>
    requires k < |z.xs| && z.c.Valid()
  {
    iset r: nat | Defines(z, k, r) || (z.st(k).next <= r < z.st(k + 1).next)
  }

  lemma OwnSingle(m: Semantics, c: Ctx, st: St, x: Insn, f: St)
    requires c.Valid() && f.next == st.next + (if Lowers(c, st, x) && c.sig.isStruct then |c.sig.members| else 0)
    ensures SingleAssignment(m, Own(c, st, x))
    ensures ResultsIn(m, Own(c, st, x),
              iset r: nat | (ResultId(m, x) == Some(r) && !(x.op == OP_FUNCTION_PARAMETER && st.inFn))
                || st.next <= r < f.next)
  {
    if Converted(c.scan, x) {
      assert ResultId(m, x) == Some(x.args[1]);
    } else if Direct(c, st, x) {
      assert AllIdle(m, [x] + EntryMetadata(c));
      IdleSingle(m, [x] + EntryMetadata(c));
    } else if IsEntry(c.sig.fn)(x) {
      assert ResultId(m, x) == Some(c.sig.fn);
    } else if Drop(x, st.inFn) {
    } else if Lowers(c, st, x) {
      ReturnSingle(m, c, x.args[0], st.next);
    } else {
      SingleOne(m, x);
    }
  }

  lemma OwnNew(z: Sim, k: nat)
    requires Clean(z) && k < |z.xs|
    ensures NewPart(z, k, Own(z.c, z.st(k), z.xs[k]), OwnIds(z, k))
    ensures OwnIds(z, k) !! ParamSet(z.c) && OwnIds(z, k) !! Range(z.bound, z.c.ids.next)
  {
    assert Emits(z, k);
    StepState(z.c, z.st(k), z.xs[k]);
    CountersHigh(z, k);
    OwnSingle(z.m, z.c, z.st(k), z.xs[k], z.st(k + 1));
    forall r | r in OwnIds(z, k)
      ensures r !in Used(z, k) && r in Used(z, k + 1) && r !in ParamSet(z.c) && r !in Range(z.bound, z.c.ids.next)
    {
      if Defines(z, k, r) {
        OwnIsNew(z, k, r);
      } else {
        if r in Used(z, k) { LowIds(z, k, r); }
        if r in z.c.paramIds {
          var j :| 0 <= j < |z.c.paramIds| && z.c.paramIds[j] == r;
          ParamOwner(z, j);
        }
      }
    }
  }

  /** One turn of the emit loop adds only ids that were not used before. */
  lemma PieceNew(z: Sim, k: nat)
    requires Clean(z) && k < |z.xs|
    ensures SingleAssignment(z.m, z.piece(k)) && ResultsIn(z.m, z.piece(k), Used(z, k + 1) - Used(z, k))
  {
    assert Emits(z, k);
    StepParts(z.c, z.st(k), z.xs[k]);
    SpliceNew(z, k);
    OwnNew(z, k);
    var s := SpliceIds(z, k);
    var t := if TakesLoads(z.c, z.st(k), z.xs[k]) then ParamSet(z.c) else iset{};
    if TakesLoads(z.c, z.st(k), z.xs[k]) {
      LoadsNew(z, k);
    } else {
      IdleSingle(z.m, []);
    }
    Glue(z.m, SplicePart(z.c, z.st(k), z.xs[k]), LoadPart(z.c, z.st(k), z.xs[k]), Own(z.c, z.st(k), z.xs[k]),
         s, t, OwnIds(z, k), Used(z, k + 1) - Used(z, k));
  }

  lemma {:induction false} PrefixSingle(z: Sim, k: nat)
    requires Clean(z) && k <= |z.xs|
    ensures SingleAssignment(z.m, z.out(k)) && ResultsIn(z.m, z.out(k), Used(z, k))
  {
    if k > 0 {
      var i := k - 1;
      PrefixSingle(z, i);
      PieceNew(z, i);
      UsedGrows(z, i);
      assert Appends(z, i);
      SingleAppend(z.m, z.out(i), z.piece(i), Used(z, i), Used(z, k) - Used(z, i));
      Widen(z.m, z.out(i), Used(z, i), Used(z, k));
      Widen(z.m, z.piece(i), Used(z, k) - Used(z, i), Used(z, k));
      ResultsAppend(z.m, z.out(i), z.piece(i), Used(z, k));
    }
  }

  lemma EntryIsNamed(z: Sim, a: Scan, g: Sig)
    requires Analyse(z.xs, a) == Ok(g) && g == z.c.sig && z.e == EntryIndex(z.xs, z.c)
    requires SingleAssignment(z.m, z.xs)
    ensures z.e < |z.xs| && |z.xs[z.e].args| >= 4
  {
    var i := FirstIndex(z.xs, IsEntry(g.fn), 0);
    assert IsFunctionNamed(g.fn)(z.xs[i]);
    forall j | z.e < j < |z.xs| ensures !IsEntry(g.fn)(z.xs[j]) {
      assert DefineDifferent(z.m, z.xs[z.e], z.xs[j]);
    }
  }

  /** SSA IS KEPT.  If ids of the input are below its bound and defined at most once, then
      every id of the output is defined at most once, and each defined id is one the input
      defined or a fresh one, at or above the old bound; all are below the new bound. */
  lemma SsaPreserved(m: Semantics, xs: seq<Insn>, bound: nat, name: seq<nat>, stage: Stage)
    requires Rewrite(xs, bound, name, stage).Ok? && SingleAssignment(m, xs)
    requires forall i :: 0 <= i < |xs| ==> ResultIn(m, xs[i], Range(0, bound))
    ensures var e := Rewrite(xs, bound, name, stage).value;
            && SingleAssignment(m, e.out) && bound < e.st.next
            && ResultsIn(m, e.out, iset r: nat | (exists x :: x in xs && ResultId(m, x) == Some(r))
              || bound <= r < e.st.next)
            && ResultsIn(m, e.out, Range(0, e.st.next))
  {
    var a := ScanPrefix(xs, |xs|, name);
    var g := Analyse(xs, a).value;
    MakeCtxLaid(xs, a, g, bound, name, stage);
    var z := TraceOf(m, xs, ContextOf(xs, bound, name, stage), bound, [], {});
    EntryIsNamed(z, a, g);
    var n := |xs|;
    PrefixSingle(z, n);
    CountersHigh(z, n);
    var sources := iset r: nat | (exists x :: x in xs && ResultId(m, x) == Some(r)) || bound <= r < z.st(n).next;
    forall r | r in Used(z, n) ensures r in sources && r < z.st(n).next {
      LowIds(z, n, r);
      if i :| 0 <= i < n && Defines(z, i, r) {
        assert xs[i] in xs;
      } else if r in z.c.paramIds {
        var j :| 0 <= j < |z.c.paramIds| && z.c.paramIds[j] == r;
        ParamOwner(z, j);
        assert xs[z.e + 1 + j] in xs;
      }
    }
    Widen(m, z.N(), Used(z, n), sources);
    Widen(m, z.N(), Used(z, n), Range(0, z.st(n).next));
  }
}
