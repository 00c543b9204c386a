/** What the output of the signature transform consists of, word by word: what became of each
    instruction, what is dropped, and what is added. */
module Composition {
  import opened Wrappers
  import opened Spirv
  import opened SignatureTransform
  import opened Meaning
  import opened MeaningTheorem
  import opened Emission
  import SignatureSize

  /** How often y occurs. */
  function Times(xs: seq<Insn>, y: Insn): nat {
    if xs == [] then 0 else Times(xs[..|xs| - 1], y) + One(xs[|xs| - 1] == y)
  }

  function One(b: bool): nat { if b then 1 else 0 }

  lemma TimesNext(xs: seq<Insn>, x: Insn, y: Insn)
    ensures Times(xs + [x], y) == Times(xs, y) + One(x == y)
  {
    assert (xs + [x])[..|xs|] == xs;
  }

  lemma TimesOne(x: Insn, y: Insn)
    ensures Times([x], y) == One(x == y)
  {
    TimesNext([], x, y);
    assert [] + [x] == [x];
  }

  lemma {:induction false} TimesAppend(xs: seq<Insn>, ys: seq<Insn>, y: Insn)
    ensures Times(xs + ys, y) == Times(xs, y) + Times(ys, y)
    decreases |ys|
  {
    if ys == [] {
      assert xs + ys == xs;
    } else {
      var n := |ys| - 1;
      TimesAppend(xs, ys[..n], y);
      TimesNext(xs + ys[..n], ys[n], y);
      assert xs + ys == xs + ys[..n] + [ys[n]];
    }
  }

  lemma {:induction false} TimesNone(xs: seq<Insn>, y: Insn)
    requires forall i :: 0 <= i < |xs| ==> xs[i].op != y.op
    ensures Times(xs, y) == 0
    decreases |xs|
  {
    if xs != [] { TimesNone(xs[..|xs| - 1], y); }
  }

  predicate Distinct(xs: seq<Insn>) { forall i, j :: 0 <= i < j < |xs| ==> xs[i] != xs[j] }

  lemma {:induction false} TimesDistinct(xs: seq<Insn>, y: Insn)
    requires Distinct(xs)
    ensures Times(xs, y) == One(y in xs)
    decreases |xs|
  {
    if xs != [] {
      var n := |xs| - 1;
      TimesDistinct(xs[..n], y);
      assert xs == xs[..n] + [xs[n]];
    }
  }

  lemma {:induction false} TimesIn(xs: seq<Insn>, y: Insn)
    ensures Times(xs, y) > 0 <==> y in xs
    decreases |xs|
  {
    if xs != [] {
      var n := |xs| - 1;
      TimesIn(xs[..n], y);
      assert xs == xs[..n] + [xs[n]];
    }
  }

  lemma {:induction false} TimesTwice(xs: seq<Insn>, i: nat, j: nat)
    requires i < j < |xs| && xs[i] == xs[j]
    ensures Times(xs, xs[i]) >= 2
    decreases |xs|
  {
    var n := |xs| - 1;
    if j < n {
      TimesTwice(xs[..n], i, j);
    } else {
      assert xs[..n][i] == xs[i];
      TimesIn(xs[..n], xs[i]);
    }
  }

  // ----- what becomes of an instruction -----

  /** Decorations that need the Kernel capability: CPacked, FPFastMathMode, LinkageAttributes,
      and MaxByteOffset; and the parameter attributes 5 to 7. */
  predicate Unwanted(d: seq<nat>) {
    d != [] && (d[0] in {10, 40, 41, 45} || (d[0] == 38 && |d| >= 2 && 5 <= d[1] <= 7))
  }

  /** Capabilities Linkage and Kernel, unwanted decorations, and lifetime markers. */
  predicate Dropped(x: Insn) {
    var n := |x.args|;
    || (x.op == 17 && n >= 1 && x.args[0] in {5, 6})
    || (x.op == 71 && n >= 2 && Unwanted(x.args[1..]))
    || (x.op == 72 && n >= 3 && Unwanted(x.args[2..]))
    || x.op == 256 || x.op == 257
  }

  predicate EntersAt(x: Insn, fn: nat) { x.op == 54 && |x.args| >= 4 && x.args[1] == fn }

  /** Instruction k is in the entry function. */
  predicate Inside(xs: seq<Insn>, fn: nat, k: nat)
    requires k <= |xs|
  {
    k > 0 && (EntersAt(xs[k - 1], fn) || (Inside(xs, fn, k - 1) && xs[k - 1].op != 56))
  }

  /** The one instruction that stands for x, if any; `inside` the entry function parameters
      are dropped and value returns become void returns. */
  function Image(c: Ctx, x: Insn, inside: bool): Option<Insn> {
    var n := |x.args|;
    if x.op == 52 && n >= 3 && x.args[2] == 124 then Some(Insn(1, [x.args[0], x.args[1]]))
    else if x.op == 124 && n >= 3 && x.args[0] in c.scan.ptrTypes then
      if x.args[1] in c.scan.lifetimes then None
      else Some(Insn(65, [x.args[0], x.args[1], x.args[2], c.ids.uintZero]))
    else if EntersAt(x, c.sig.fn) then Some(Insn(54, [c.ids.voidId, c.sig.fn, 0, c.ids.voidFn]))
    else if Dropped(x) || (x.op == 55 && inside) then None
    else if x.op == 254 && n >= 1 && inside then Some(Insn(253, []))
    else Some(x)
  }

  /** How often y stands for one of the first k instructions. */
  function Images(c: Ctx, xs: seq<Insn>, k: nat, y: Insn): nat
    requires k <= |xs|
  {
    if k == 0 then 0
    else Images(c, xs, k - 1, y) + One(Image(c, xs[k - 1], Inside(xs, c.sig.fn, k - 1)) == Some(y))
  }

  // ----- what is added -----

  /** The decoration of interface variable k: in a vertex shader the first output is Position
      and the first input VertexIndex; all others have locations, from 0 in order, where the
      first location of a vertex output is that of its second. */
  predicate Decorates(y: Insn, c: Ctx) {
    || (exists k :: 0 <= k < |c.ids.outVar| && y == Insn(71,
          if c.stage.Fragment? then [c.ids.outVar[k], 30, k]
          else if k == 0 then [c.ids.outVar[k], 11, 0]
          else [c.ids.outVar[k], 30, k - 1]))
    || (exists k :: 0 <= k < |c.ids.inVar| && y == Insn(71,
          if c.stage.Vertex? && k == 0 then [c.ids.inVar[k], 11, 42] else [c.ids.inVar[k], 30, k]))
  }

  /** Pointer type and variable of an Output (3) or Input (1). */
  predicate DeclaresVariable(y: Insn, c: Ctx)
    requires c.Valid()
  {
    || (exists k :: 0 <= k < |c.ids.outVar| && y == Insn(32, [c.ids.outPtr[k], 3, c.sig.members[k]]))
    || (exists k :: 0 <= k < |c.ids.outVar| && y == Insn(59, [c.ids.outPtr[k], c.ids.outVar[k], 3]))
    || (exists k :: 0 <= k < |c.ids.inVar| && y == Insn(32, [c.ids.inPtr[k], 1, c.sig.params[k]]))
    || (exists k :: 0 <= k < |c.ids.inVar| && y == Insn(59, [c.ids.inPtr[k], c.ids.inVar[k], 1]))
  }

  /** Shader if it is missing, the entry point with its interface, a fragment shader's origin. */
  predicate Introduces(y: Insn, c: Ctx) {
    || (!c.scan.shader && y == Insn(17, [1]))
    || y == Insn(15, [if c.stage.Vertex? then 0 else 4, c.sig.fn] + PackString(c.name) + c.ids.outVar + c.ids.inVar)
    || (c.stage.Fragment? && y == Insn(16, [c.sig.fn, 7]))
  }

  /** void, uint and 0 if they are missing, and the function type from nothing to void. */
  predicate DeclaresType(y: Insn, c: Ctx) {
    || (c.scan.voidId == 0 && y == Insn(19, [c.ids.voidId]))
    || (c.scan.uintTy == 0 && y == Insn(21, [c.ids.uintTy, 32, 0]))
    || (c.scan.uintZero == 0 && y == Insn(43, [c.ids.uintTy, c.ids.uintZero, 0]))
    || y == Insn(33, [c.ids.voidFn, c.ids.voidId])
  }

  /** What is added outside functions. */
  predicate Added(y: Insn, c: Ctx)
    requires c.Valid()
  {
    Introduces(y, c) || Decorates(y, c) || DeclaresType(y, c) || DeclaresVariable(y, c)
  }

  lemma MetadataTimes(c: Ctx, y: Insn)
    requires c.Valid()
    ensures Times(EntryMetadata(c), y) == One(Introduces(y, c))
  {
    var e := Insn(OP_ENTRY_POINT, [c.stage.Model(), c.sig.fn] + PackString(c.name) + c.ids.outVar + c.ids.inVar);
    var a := if c.scan.shader then [] else [Insn(OP_CAPABILITY, [CAP_SHADER])];
    var m := if c.stage.Fragment? then [Insn(OP_EXECUTION_MODE, [c.sig.fn, MODE_ORIGIN_UPPER_LEFT])] else [];
    TimesAppend(a + [e], m, y);
    TimesAppend(a, [e], y);
    TimesOne(e, y);
    if a != [] { TimesOne(a[0], y); }
    if m != [] { TimesOne(m[0], y); }
  }

  lemma DecorationsTimes(c: Ctx, bound: nat, y: Insn)
    requires c.Valid() && Planned(c, bound)
    ensures Times(Decorations(c), y) == One(Decorates(y, c))
  {
    var ds, n := Decorations(c), |c.ids.outVar|;
    forall i, j | 0 <= i < j < |ds| ensures ds[i] != ds[j] {
      assert ds[i].args[0] == if i < n then c.ids.outVar[i] else c.ids.inVar[i - n];
      assert ds[j].args[0] == if j < n then c.ids.outVar[j] else c.ids.inVar[j - n];
    }
    TimesDistinct(ds, y);
    DecorationsAre(c, y);
  }

  lemma DecorationsAre(c: Ctx, y: Insn)
    requires c.Valid()
    ensures y in Decorations(c) <==> Decorates(y, c)
  {
    var ds, n := Decorations(c), |c.ids.outVar|;
    if Decorates(y, c) {
      if k :| 0 <= k < n && y == Insn(71,
          if c.stage.Fragment? then [c.ids.outVar[k], 30, k]
          else if k == 0 then [c.ids.outVar[k], 11, 0]
          else [c.ids.outVar[k], 30, k - 1])
      {
        assert ds[k] == y;
      } else {
        var k :| 0 <= k < |c.ids.inVar| && y == Insn(71,
          if c.stage.Vertex? && k == 0 then [c.ids.inVar[k], 11, 42] else [c.ids.inVar[k], 30, k]);
        assert ds[n + k] == y;
      }
    }
    if y in ds {
      var i :| 0 <= i < |ds| && ds[i] == y;
      DecorationIs(c, i);
    }
  }

  lemma DecorationIs(c: Ctx, i: nat)
    requires c.Valid() && i < |Decorations(c)|
    ensures Decorates(Decorations(c)[i], c)
  {
    var n := |c.ids.outVar|;
    if i >= n {
      var k := i - n;
      assert Decorations(c)[i] == Insn(71, if c.stage.Vertex? && k == 0 then [c.ids.inVar[k], 11, 42]
                                           else [c.ids.inVar[k], 30, k]);
    }
  }

  lemma {:induction false} VarDeclsTimes(ptrs: seq<nat>, vars: seq<nat>, types: seq<nat>, storage: nat, n: nat, y: Insn)
    requires n <= |ptrs| && n <= |vars| && n <= |types|
    requires forall i, j :: 0 <= i < j < n ==> ptrs[i] != ptrs[j]
    ensures Times(VarDecls(ptrs, vars, types, storage, n), y)
         == One(exists k :: 0 <= k < n && y == Insn(32, [ptrs[k], storage, types[k]]))
            + One(exists k :: 0 <= k < n && y == Insn(59, [ptrs[k], vars[k], storage]))
  {
    if n > 0 {
      var k := n - 1;
      VarDeclsTimes(ptrs, vars, types, storage, k, y);
      var p, v := Insn(OP_TYPE_POINTER, [ptrs[k], storage, types[k]]), Insn(OP_VARIABLE, [ptrs[k], vars[k], storage]);
      TimesAppend(VarDecls(ptrs, vars, types, storage, k), [p, v], y);
      TimesNext([p], v, y);
      TimesOne(p, y);
      assert [p] + [v] == [p, v];
      OneMoreSlot(ptrs, vars, types, storage, k, y);
    }
  }

  lemma OneMoreSlot(ptrs: seq<nat>, vars: seq<nat>, types: seq<nat>, storage: nat, n: nat, y: Insn)
    requires n < |ptrs| && n < |vars| && n < |types|
    requires forall i, j :: 0 <= i < j < n + 1 ==> ptrs[i] != ptrs[j]
    ensures One(exists k :: 0 <= k < n + 1 && y == Insn(32, [ptrs[k], storage, types[k]]))
         == One(exists k :: 0 <= k < n && y == Insn(32, [ptrs[k], storage, types[k]]))
            + One(y == Insn(32, [ptrs[n], storage, types[n]]))
    ensures One(exists k :: 0 <= k < n + 1 && y == Insn(59, [ptrs[k], vars[k], storage]))
         == One(exists k :: 0 <= k < n && y == Insn(59, [ptrs[k], vars[k], storage]))
            + One(y == Insn(59, [ptrs[n], vars[n], storage]))
  {
    forall k | 0 <= k < n
      ensures Insn(32, [ptrs[k], storage, types[k]]) != Insn(32, [ptrs[n], storage, types[n]])
      ensures Insn(59, [ptrs[k], vars[k], storage]) != Insn(59, [ptrs[n], vars[n], storage])
    {
      assert [ptrs[k], storage, types[k]][0] != [ptrs[n], storage, types[n]][0];
      assert [ptrs[k], vars[k], storage][0] != [ptrs[n], vars[n], storage][0];
    }
  }

  lemma NewTypesTimes(c: Ctx, y: Insn)
    ensures Times(NewTypes(c), y) == One(DeclaresType(y, c))
  {
    var v := if c.scan.voidId == 0 then [Insn(OP_TYPE_VOID, [c.ids.voidId])] else [];
    var u := if c.scan.uintTy == 0 then [Insn(OP_TYPE_INT, [c.ids.uintTy, 32, 0])] else [];
    var z := if c.scan.uintZero == 0 then [Insn(OP_CONSTANT, [c.ids.uintTy, c.ids.uintZero, 0])] else [];
    var f := Insn(OP_TYPE_FUNCTION, [c.ids.voidFn, c.ids.voidId]);
    TimesAppend(v + u + z, [f], y);
    TimesAppend(v + u, z, y);
    TimesAppend(v, u, y);
    TimesOne(f, y);
    if v != [] { TimesOne(v[0], y); }
    if u != [] { TimesOne(u[0], y); }
    if z != [] { TimesOne(z[0], y); }
  }

  lemma GlobalsTimes(c: Ctx, bound: nat, y: Insn)
    requires c.Valid() && Planned(c, bound)
    ensures Times(NewGlobals(c), y) == Times(NewTypes(c), y) + One(DeclaresVariable(y, c))
  {
    VarDeclsTimes(c.ids.outPtr, c.ids.outVar, c.sig.members, STORAGE_OUTPUT, |c.sig.members|, y);
    VarDeclsTimes(c.ids.inPtr, c.ids.inVar, c.sig.params, STORAGE_INPUT, |c.sig.params|, y);
    TimesAppend(NewTypes(c) + OutDecls(c), InDecls(c), y);
    TimesAppend(NewTypes(c), OutDecls(c), y);
    OneKind(c, y);
  }

  /** A declaration of a variable is of one kind only. */
  lemma OneKind(c: Ctx, y: Insn)
    requires c.Valid()
    ensures One(DeclaresVariable(y, c))
         == One(exists k :: 0 <= k < |c.sig.members| && y == Insn(32, [c.ids.outPtr[k], 3, c.sig.members[k]]))
            + One(exists k :: 0 <= k < |c.sig.members| && y == Insn(59, [c.ids.outPtr[k], c.ids.outVar[k], 3]))
            + One(exists k :: 0 <= k < |c.sig.params| && y == Insn(32, [c.ids.inPtr[k], 1, c.sig.params[k]]))
            + One(exists k :: 0 <= k < |c.sig.params| && y == Insn(59, [c.ids.inPtr[k], c.ids.inVar[k], 1]))
  {
    forall k | 0 <= k < |c.sig.members|
      ensures y == Insn(32, [c.ids.outPtr[k], 3, c.sig.members[k]]) ==> y.op == 32 && y.args[1] == 3
      ensures y == Insn(59, [c.ids.outPtr[k], c.ids.outVar[k], 3]) ==> y.op == 59 && y.args[2] == 3
    {
    }
    forall k | 0 <= k < |c.sig.params|
      ensures y == Insn(32, [c.ids.inPtr[k], 1, c.sig.params[k]]) ==> y.op == 32 && y.args[1] == 1
      ensures y == Insn(59, [c.ids.inPtr[k], c.ids.inVar[k], 1]) ==> y.op == 59 && y.args[2] == 1
    {
    }
  }

  lemma AddedTimes(c: Ctx, bound: nat, y: Insn)
    requires c.Valid() && Planned(c, bound)
    ensures Times(EntryMetadata(c), y) + Times(Decorations(c), y) + Times(NewGlobals(c), y) == One(Added(y, c))
  {
    MetadataTimes(c, y);
    DecorationsTimes(c, bound, y);
    GlobalsTimes(c, bound, y);
    NewTypesTimes(c, y);
    Kinds(c, y);
  }

  lemma Kinds(c: Ctx, y: Insn)
    requires c.Valid()
    ensures Introduces(y, c) ==> y.op in {15, 16, 17}
    ensures Decorates(y, c) ==> y.op == 71
    ensures DeclaresType(y, c) ==> y.op in {19, 21, 33, 43}
    ensures DeclaresVariable(y, c) ==> y.op in {32, 59}
  {
  }

  // ----- turn by turn -----

  /** Instructions that the body of the rewritten entry function gets besides the images. */
  predicate Moving(op: nat) { op in {61, 62, 81} }

  lemma OwnTimes(c: Ctx, st: St, x: Insn, y: Insn)
    requires c.Valid() && !Moving(y.op)
    ensures Times(Own(c, st, x), y) == One(Image(c, x, st.inFn) == Some(y))
            + if !st.zoneA && x.op == 14 then Times(EntryMetadata(c), y) else 0
  {
    if Direct(c, st, x) && !Converted(c.scan, x) {
      TimesAppend([x], EntryMetadata(c), y);
      TimesOne(x, y);
    } else if Lowers(c, st, x) && !Drop(x, st.inFn) {
      ReturnTimes(c, x.args[0], st.next, y);
    } else if Own(c, st, x) != [] {
      TimesOne(Own(c, st, x)[0], y);
    }
    ImageIs(c, st, x);
  }

  lemma ImageIs(c: Ctx, st: St, x: Insn)
    requires c.Valid()
    ensures Converted(c.scan, x) || IsEntry(c.sig.fn)(x) || Drop(x, st.inFn) || !Lowers(c, st, x) ==>
              if Image(c, x, st.inFn).None? then Own(c, st, x) == []
              else Own(c, st, x) != [] && Own(c, st, x)[0] == Image(c, x, st.inFn).value
                   && (!Direct(c, st, x) || Converted(c.scan, x) ==> |Own(c, st, x)| == 1)
    ensures Lowers(c, st, x) && !Drop(x, st.inFn) ==> Image(c, x, st.inFn) == Some(Insn(253, []))
  {
    assert Drop(x, st.inFn) <==> Dropped(x) || (x.op == 55 && st.inFn) by { DropIs(x, st.inFn); }
  }

  lemma DropIs(x: Insn, inside: bool)
    ensures Drop(x, inside) <==> Dropped(x) || (x.op == 55 && inside)
  {
  }

  lemma ReturnTimes(c: Ctx, v: nat, next: nat, y: Insn)
    requires c.Valid() && !Moving(y.op)
    ensures Times(LoweredReturn(c, v, next), y) == One(y == Insn(253, []))
  {
    var r := Insn(OP_RETURN, []);
    TimesOne(r, y);
    if c.sig.isStruct {
      ExtractsTimes(c, v, next, |c.sig.members|, y);
      TimesAppend(Extracts(c, v, next, |c.sig.members|), [r], y);
    } else {
      var s := Insn(OP_STORE, [c.ids.outVar[0], v]);
      TimesOne(s, y);
      TimesAppend([s], [r], y);
    }
  }

  lemma {:induction false} ExtractsTimes(c: Ctx, v: nat, next: nat, n: nat, y: Insn)
    requires c.Valid() && n <= |c.sig.members| && !Moving(y.op)
    ensures Times(Extracts(c, v, next, n), y) == 0
  {
    if n > 0 {
      ExtractsTimes(c, v, next, n - 1, y);
      var pair := [Insn(OP_COMPOSITE_EXTRACT, [c.sig.members[n - 1], next + (n - 1), v, n - 1]),
                   Insn(OP_STORE, [c.ids.outVar[n - 1], next + (n - 1)])];
      TimesAppend(Extracts(c, v, next, n - 1), pair, y);
      TimesNone(pair, y);
    }
  }

  /** What the splices done so far have added. */
  function Spliced(c: Ctx, st: St, y: Insn): nat
    requires c.Valid()
  {
    (if st.zoneA then Times(EntryMetadata(c), y) else 0) + (if st.preTypes then Times(Decorations(c), y) else 0)
    + (if st.preFn then Times(NewGlobals(c), y) else 0)
  }

  lemma SpliceTimes(c: Ctx, st: St, x: Insn, y: Insn)
    requires c.Valid() && !Moving(y.op)
    ensures Times(SplicePart(c, st, x), y) == (if !st.preTypes && IsTypeOp(x.op) then Times(Decorations(c), y) else 0)
                                            + (if !st.preFn && x.op == OP_FUNCTION then Times(NewGlobals(c), y) else 0)
    ensures Times(LoadPart(c, st, x), y) == 0
  {
    TimesNone(LoadPart(c, st, x), y);
    assert Direct(c, st, x) ==> !IsTypeOp(x.op) && x.op != OP_FUNCTION;
  }

  lemma PieceTimes(c: Ctx, st: St, x: Insn, f: St, y: Insn)
    requires c.Valid() && Moves(c, st, x, f) && !Moving(y.op)
    ensures Times(SplicePart(c, st, x) + LoadPart(c, st, x) + Own(c, st, x), y) + Spliced(c, st, y)
         == One(Image(c, x, st.inFn) == Some(y)) + Spliced(c, f, y)
  {
    TimesAppend(SplicePart(c, st, x) + LoadPart(c, st, x), Own(c, st, x), y);
    TimesAppend(SplicePart(c, st, x), LoadPart(c, st, x), y);
    SpliceTimes(c, st, x, y);
    OwnTimes(c, st, x, y);
    assert x.op == OP_MEMORY_MODEL && !st.zoneA ==> Direct(c, st, x);
  }

  lemma {:induction false} InsideIs(z: Sim, k: nat)
    requires Traced(z) && k <= |z.xs|
    ensures z.st(k).inFn == Inside(z.xs, z.c.sig.fn, k)
  {
    if k > 0 {
      InsideIs(z, k - 1);
      assert Emits(z, k - 1);
      StepState(z.c, z.st(k - 1), z.xs[k - 1]);
    }
  }

  lemma TurnTimes(z: Sim, i: nat, y: Insn)
    requires Traced(z) && i < |z.xs| && !Moving(y.op)
    ensures Times(z.piece(i), y) + Spliced(z.c, z.st(i), y)
         == One(Image(z.c, z.xs[i], Inside(z.xs, z.c.sig.fn, i)) == Some(y)) + Spliced(z.c, z.st(i + 1), y)
  {
    assert Emits(z, i);
    StepParts(z.c, z.st(i), z.xs[i]);
    StepState(z.c, z.st(i), z.xs[i]);
    InsideIs(z, i);
    PieceTimes(z.c, z.st(i), z.xs[i], z.st(i + 1), y);
  }

  lemma {:induction false} PrefixTimes(z: Sim, k: nat, y: Insn)
    requires Traced(z) && k <= |z.xs| && !Moving(y.op)
    ensures Times(z.out(k), y) == Images(z.c, z.xs, k, y) + Spliced(z.c, z.st(k), y)
  {
    if k > 0 {
      PrefixTimes(z, k - 1, y);
      TurnTimes(z, k - 1, y);
      assert Appends(z, k - 1);
      TimesAppend(z.out(k - 1), z.piece(k - 1), y);
    }
  }

  /** THE OUTPUT, exactly, as a collection of instructions: each instruction but the loads,
      stores and extracts occurs as often as it stands for one of the input's, and once more
      if it is one that the pass adds. */
  lemma OutputConsistsOf(xs: seq<Insn>, bound: nat, name: seq<nat>, stage: Stage, y: Insn)
    requires Rewrite(xs, bound, name, stage).Ok? && !Moving(y.op)
    ensures var c := ContextOf(xs, bound, name, stage);
            Times(Rewrite(xs, bound, name, stage).value.out, y) == Images(c, xs, |xs|, y) + One(Added(y, c))
  {
    var z, e, f := SignatureSize.TraceFor(xs, bound, name, stage);
    ContextPlanned(xs, bound, name, stage);
    TraceTimes(z, bound, e, f, y);
  }

  lemma ContextPlanned(xs: seq<Insn>, bound: nat, name: seq<nat>, stage: Stage)
    requires Rewrite(xs, bound, name, stage).Ok?
    ensures Planned(ContextOf(xs, bound, name, stage), bound)
  {
    var a := ScanPrefix(xs, |xs|, name);
    MakeCtxPlanned(xs, a, Analyse(xs, a).value, bound, name, stage);
  }

  lemma TraceTimes(z: Sim, bound: nat, e: nat, f: nat, y: Insn)
    requires Traced(z) && Planned(z.c, bound) && !Moving(y.op) && z.st(|z.xs|).zoneA
    requires e < |z.xs| && z.xs[e].op == OP_FUNCTION && f < |z.xs| && IsTypeOp(z.xs[f].op)
    ensures Times(z.N(), y) == Images(z.c, z.xs, |z.xs|, y) + One(Added(y, z.c))
  {
    SignatureSize.FlagsSet(z, |z.xs|, e);
    SignatureSize.FlagsSet(z, |z.xs|, f);
    PrefixTimes(z, |z.xs|, y);
    AddedTimes(z.c, bound, y);
  }

  // ----- what follows -----

  lemma {:induction false} NoImage(c: Ctx, xs: seq<Insn>, k: nat, y: Insn)
    requires k <= |xs| && y.op == 71 && forall i :: 0 <= i < |xs| ==> xs[i] != y
    ensures Images(c, xs, k, y) == 0
  {
    if k > 0 { NoImage(c, xs, k - 1, y); }
  }

  /** An OpDecorate of `id`. */
  predicate Targets(x: Insn, id: nat) { x.op == 71 && |x.args| >= 1 && x.args[0] == id }

  function VariableId(c: Ctx, input: bool, k: nat): nat
    requires k < if input then |c.ids.inVar| else |c.ids.outVar|
  {
    if input then c.ids.inVar[k] else c.ids.outVar[k]
  }

  /** The decoration of the k-th Input or Output. */
  function Literal(stage: Stage, input: bool, k: nat): seq<nat> {
    if stage == Vertex && k == 0 then if input then [11, 42] else [11, 0]
    else if stage == Vertex && !input then [30, k - 1]
    else [30, k]
  }

  lemma DecoratesExactly(c: Ctx, bound: nat, y: Insn, input: bool, k: nat)
    requires c.Valid() && Planned(c, bound) && k < (if input then |c.ids.inVar| else |c.ids.outVar|)
    requires Targets(y, VariableId(c, input, k))
    ensures Decorates(y, c) <==> y == Insn(71, [VariableId(c, input, k)] + Literal(c.stage, input, k))
    ensures VariableId(c, input, k) >= bound
  {
    forall j | 0 <= j < |c.ids.outVar| ensures c.ids.outVar[j] == VariableId(c, input, k) <==> !input && j == k {
    }
    forall j | 0 <= j < |c.ids.inVar| ensures c.ids.inVar[j] == VariableId(c, input, k) <==> input && j == k {
    }
  }

  /** EVERY INTERFACE VARIABLE IS DECORATED ONCE.  Where the input decorates only ids below its
      bound: the first output of a vertex shader is Position, its first input VertexIndex; its
      further outputs have locations from 0, its further inputs from 1; in a fragment shader
      outputs and inputs have locations from 0. */
  lemma DecoratedOnce(xs: seq<Insn>, bound: nat, name: seq<nat>, stage: Stage, input: bool, k: nat) returns (i: nat)
    requires Rewrite(xs, bound, name, stage).Ok? && DecoratesBelow(xs, bound)
    requires var c := ContextOf(xs, bound, name, stage); k < if input then |c.ids.inVar| else |c.ids.outVar|
    ensures var id := VariableId(ContextOf(xs, bound, name, stage), input, k);
            var out := Rewrite(xs, bound, name, stage).value.out;
            && i < |out| && (forall j :: 0 <= j < |out| && Targets(out[j], id) ==> j == i)
            && out[i] == Insn(71, [id] + if stage == Vertex && k == 0 then if input then [11, 42] else [11, 0]
                                         else if stage == Vertex && !input then [30, k - 1]
                                         else [30, k])
  {
    var c := ContextOf(xs, bound, name, stage);
    ContextPlanned(xs, bound, name, stage);
    var id := VariableId(c, input, k);
    var y := Insn(71, [id] + Literal(stage, input, k));
    forall x | Targets(x, id)
      ensures Times(Rewrite(xs, bound, name, stage).value.out, x) == One(x == y)
    {
      DecoratesExactly(c, bound, x, input, k);
      OnlyTarget(xs, bound, name, stage, x);
    }
    i := FindOnly(Rewrite(xs, bound, name, stage).value.out, id, y);
  }

  ghost predicate DecoratesBelow(xs: seq<Insn>, bound: nat) {
    forall j :: 0 <= j < |xs| && xs[j].op == 71 && |xs[j].args| >= 1 ==> xs[j].args[0] < bound
  }

  lemma FindOnly(out: seq<Insn>, id: nat, y: Insn) returns (i: nat)
    requires Targets(y, id) && forall x :: Targets(x, id) ==> Times(out, x) == One(x == y)
    ensures i < |out| && out[i] == y && forall j :: 0 <= j < |out| && Targets(out[j], id) ==> j == i
  {
    TimesIn(out, y);
    i :| 0 <= i < |out| && out[i] == y;
    forall j | 0 <= j < |out| && Targets(out[j], id) ensures j == i {
      TimesIn(out, out[j]);
      if j < i { TimesTwice(out, j, i); }
      if i < j { TimesTwice(out, i, j); }
    }
  }

  /** A new id is decorated by the pass only. */
  lemma OnlyTarget(xs: seq<Insn>, bound: nat, name: seq<nat>, stage: Stage, y: Insn)
    requires Rewrite(xs, bound, name, stage).Ok? && y.op == 71 && |y.args| >= 1 && y.args[0] >= bound
    requires DecoratesBelow(xs, bound)
    ensures Times(Rewrite(xs, bound, name, stage).value.out, y) == One(Decorates(y, ContextOf(xs, bound, name, stage)))
  {
    OutputConsistsOf(xs, bound, name, stage, y);
    NoImage(ContextOf(xs, bound, name, stage), xs, |xs|, y);
    Kinds(ContextOf(xs, bound, name, stage), y);
  }

  // ----- what the entry function gets -----

  /** Each parameter is loaded from its Input variable; a value return stores each member, in
      order, in its Output variable, or the value in the only one, and returns nothing. */
  lemma BodyIs(c: Ctx, v: nat, next: nat)
    requires c.Valid()
    ensures |Loads(c)| == |c.paramIds| && forall p :: 0 <= p < |c.paramIds| ==>
              Loads(c)[p] == Insn(61, [c.sig.params[p], c.paramIds[p], c.ids.inVar[p]])
    ensures !c.sig.isStruct ==> LoweredReturn(c, v, next) == [Insn(62, [c.ids.outVar[0], v]), Insn(253, [])]
    ensures c.sig.isStruct ==>
              var r, n := LoweredReturn(c, v, next), |c.sig.members|;
              && |r| == 2 * n + 1 && r[2 * n] == Insn(253, [])
              && forall k :: 0 <= k < n ==> Extracted(c, r, v, next, k)
  {
    if c.sig.isStruct {
      forall k | 0 <= k < |c.sig.members| ensures Extracted(c, LoweredReturn(c, v, next), v, next, k) {
        ExtractsAre(c, v, next, |c.sig.members|, k);
      }
    }
  }

  /** Member k is extracted into a fresh id and stored. */
  predicate Extracted(c: Ctx, r: seq<Insn>, v: nat, next: nat, k: nat)
    requires c.Valid() && k < |c.sig.members|
  {
    && 2 * k + 1 < |r| && r[2 * k] == Insn(81, [c.sig.members[k], next + k, v, k])
    && r[2 * k + 1] == Insn(62, [c.ids.outVar[k], next + k])
  }

  lemma {:induction false} ExtractsAre(c: Ctx, v: nat, next: nat, n: nat, k: nat)
    requires c.Valid() && k < n <= |c.sig.members|
    ensures Extracted(c, Extracts(c, v, next, n), v, next, k)
    decreases n
  {
    if k < n - 1 { ExtractsAre(c, v, next, n - 1, k); }
  }

  // ----- the order of what is added -----

  /** The ids a new type, constant or variable refers to, and the one it defines. */
  predicate RefersTo(y: Insn, id: nat) {
    || (y.op == 33 && |y.args| >= 2 && id in y.args[1..])
    || (y.op == 32 && |y.args| == 3 && id == y.args[2])
    || ((y.op == 43 || y.op == 59) && |y.args| >= 2 && id == y.args[0])
  }

  predicate Defines(y: Insn, id: nat) {
    || ((y.op in {19, 21, 32, 33}) && |y.args| >= 1 && id == y.args[0])
    || ((y.op == 43 || y.op == 59) && |y.args| >= 2 && id == y.args[1])
  }

  /** What is referred to is old, or defined before. */
  ghost predicate Settled(ys: seq<Insn>, bound: nat) {
    forall i, id: nat :: 0 <= i < |ys| && RefersTo(ys[i], id) && id >= bound ==>
      exists j :: 0 <= j < i && Defines(ys[j], id)
  }

  lemma SettledAppend(xs: seq<Insn>, ys: seq<Insn>, bound: nat)
    requires Settled(xs, bound) && Settled(ys, bound)
    ensures Settled(xs + ys, bound)
  {
    var zs := xs + ys;
    forall i, id: nat | 0 <= i < |zs| && RefersTo(zs[i], id) && id >= bound
      ensures exists j :: 0 <= j < i && Defines(zs[j], id)
    {
      if i < |xs| {
        var j :| 0 <= j < i && Defines(xs[j], id);
        assert zs[j] == xs[j];
      } else {
        var j :| 0 <= j < i - |xs| && Defines(ys[j], id);
        assert zs[|xs| + j] == ys[j];
      }
    }
  }

  lemma {:induction false} VarDeclsSettled(ptrs: seq<nat>, vars: seq<nat>, types: seq<nat>, storage: nat, n: nat,
                                       bound: nat)
    requires n <= |ptrs| && n <= |vars| && n <= |types| && forall k :: 0 <= k < n ==> types[k] < bound
    ensures Settled(VarDecls(ptrs, vars, types, storage, n), bound)
  {
    if n > 0 {
      VarDeclsSettled(ptrs, vars, types, storage, n - 1, bound);
      var k := n - 1;
      var p, v := Insn(OP_TYPE_POINTER, [ptrs[k], storage, types[k]]), Insn(OP_VARIABLE, [ptrs[k], vars[k], storage]);
      assert Defines([p, v][0], ptrs[k]);
      SettledAppend(VarDecls(ptrs, vars, types, storage, k), [p, v], bound);
    }
  }

  /** NOTHING NEW IS USED BEFORE IT IS DECLARED: what the new globals refer to is an id below
      the old bound or defined by one of them that stands before. */
  lemma GlobalsInOrder(c: Ctx, bound: nat)
    requires c.Valid() && Planned(c, bound)
    requires forall k :: 0 <= k < |c.sig.members| ==> c.sig.members[k] < bound
    requires forall k :: 0 <= k < |c.sig.params| ==> c.sig.params[k] < bound
    requires (c.scan.voidId == 0 || c.ids.voidId < bound) && (c.scan.uintTy == 0 || c.ids.uintTy < bound)
    ensures Settled(NewGlobals(c), bound)
  {
    TypesSettled(c, bound);
    VarDeclsSettled(c.ids.outPtr, c.ids.outVar, c.sig.members, STORAGE_OUTPUT, |c.sig.members|, bound);
    VarDeclsSettled(c.ids.inPtr, c.ids.inVar, c.sig.params, STORAGE_INPUT, |c.sig.params|, bound);
    SettledAppend(NewTypes(c), OutDecls(c), bound);
    SettledAppend(NewTypes(c) + OutDecls(c), InDecls(c), bound);
  }

  lemma TypesSettled(c: Ctx, bound: nat)
    requires (c.scan.voidId == 0 || c.ids.voidId < bound) && (c.scan.uintTy == 0 || c.ids.uintTy < bound)
    ensures Settled(NewTypes(c), bound)
  {
    var ys := NewTypes(c);
    var u := if c.scan.voidId == 0 then 1 else 0;
    forall i, id: nat | 0 <= i < |ys| && RefersTo(ys[i], id) && id >= bound
      ensures exists j :: 0 <= j < i && Defines(ys[j], id)
    {
      if ys[i].op == 33 {
        assert id == c.ids.voidId && Defines(ys[0], id);
      } else {
        assert ys[i].op == 43 && id == c.ids.uintTy && Defines(ys[u], id);
      }
    }
  }
}
