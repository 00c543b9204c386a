/** Whether the signature transform declares a type twice: section 2.8 of the Khronos SPIR-V
    Specification allows no two non-aggregate types with the same opcode and operands. */
module UniqueTypes {
  import opened Wrappers
  import opened Spirv
  import opened SignatureTransform
  import opened Meaning
  import opened MeaningTheorem
  import opened Emission
  import SignatureSize

  /** Opcodes whose declarations must differ: non-aggregate types, with or without pointers. */
  predicate Strict(op: nat, pointers: bool) {
    19 <= op <= 27 || op == 31 || 33 <= op <= 38 || (pointers && op == OP_TYPE_POINTER)
  }

  predicate Declares(x: Insn, pointers: bool) { Strict(x.op, pointers) && |x.args| >= 1 }

  /** Opcode and operands, without the result id. */
  datatype Key = Key(op: nat, operands: seq<nat>)

  function KeyOf(x: Insn): Key
    requires |x.args| >= 1
  {
    Key(x.op, x.args[1..])
  }

  predicate Clash(x: Insn, y: Insn, pointers: bool) {
    Declares(x, pointers) && Declares(y, pointers) && KeyOf(x) == KeyOf(y)
  }

  predicate Unique(xs: seq<Insn>, pointers: bool) {
    forall i, j :: 0 <= i < j < |xs| ==> !Clash(xs[i], xs[j], pointers)
  }

  predicate Apart(xs: seq<Insn>, ys: seq<Insn>, pointers: bool) {
    forall i, j :: 0 <= i < |xs| && 0 <= j < |ys| ==> !Clash(xs[i], ys[j], pointers)
  }

  lemma UniqueAppend(xs: seq<Insn>, ys: seq<Insn>, pointers: bool)
    ensures Unique(xs + ys, pointers) <==> Unique(xs, pointers) && Unique(ys, pointers) && Apart(xs, ys, pointers)
  {
    var zs := xs + ys;
    if Unique(zs, pointers) {
      forall i, j | 0 <= i < j < |xs| ensures !Clash(xs[i], xs[j], pointers) {
        assert zs[i] == xs[i] && zs[j] == xs[j];
      }
      forall i, j | 0 <= i < j < |ys| ensures !Clash(ys[i], ys[j], pointers) {
        assert zs[|xs| + i] == ys[i] && zs[|xs| + j] == ys[j];
      }
      forall i, j | 0 <= i < |xs| && 0 <= j < |ys| ensures !Clash(xs[i], ys[j], pointers) {
        assert zs[i] == xs[i] && zs[|xs| + j] == ys[j];
      }
    }
  }

  // ----- counting declarations -----

  function CountOne(x: Insn, k: Key, pointers: bool): nat {
    if Declares(x, pointers) && KeyOf(x) == k then 1 else 0
  }

  /** How often a type is declared. */
  function Count(xs: seq<Insn>, k: Key, pointers: bool): nat {
    if xs == [] then 0 else Count(xs[..|xs| - 1], k, pointers) + CountOne(xs[|xs| - 1], k, pointers)
  }

  lemma CountNext(xs: seq<Insn>, x: Insn, k: Key, pointers: bool)
    ensures Count(xs + [x], k, pointers) == Count(xs, k, pointers) + CountOne(x, k, pointers)
  {
    assert (xs + [x])[..|xs|] == xs;
  }

  lemma {:induction false} CountAppend(xs: seq<Insn>, ys: seq<Insn>, k: Key, pointers: bool)
    ensures Count(xs + ys, k, pointers) == Count(xs, k, pointers) + Count(ys, k, pointers)
    decreases |ys|
  {
    if ys == [] {
      assert xs + ys == xs;
    } else {
      var n := |ys| - 1;
      CountAppend(xs, ys[..n], k, pointers);
      CountNext(xs + ys[..n], ys[n], k, pointers);
      assert xs + ys == xs + ys[..n] + [ys[n]];
    }
  }

  lemma {:induction false} CountNone(xs: seq<Insn>, k: Key, pointers: bool)
    requires forall i :: 0 <= i < |xs| ==> !Strict(xs[i].op, pointers)
    ensures Count(xs, k, pointers) == 0
    decreases |xs|
  {
    if xs != [] { CountNone(xs[..|xs| - 1], k, pointers); }
  }

  predicate Has(xs: seq<Insn>, k: Key, pointers: bool) {
    exists i :: 0 <= i < |xs| && CountOne(xs[i], k, pointers) == 1
  }

  lemma HasNext(xs: seq<Insn>, x: Insn, k: Key, pointers: bool)
    ensures Has(xs + [x], k, pointers) <==> Has(xs, k, pointers) || CountOne(x, k, pointers) == 1
  {
    var zs := xs + [x];
    assert zs[|xs|] == x;
    if Has(xs, k, pointers) {
      var i :| 0 <= i < |xs| && CountOne(xs[i], k, pointers) == 1;
      assert zs[i] == xs[i];
    }
  }

  lemma {:induction false} CountHas(xs: seq<Insn>, k: Key, pointers: bool)
    ensures Count(xs, k, pointers) > 0 <==> Has(xs, k, pointers)
    decreases |xs|
  {
    if xs != [] {
      var n := |xs| - 1;
      CountHas(xs[..n], k, pointers);
      HasNext(xs[..n], xs[n], k, pointers);
      assert xs == xs[..n] + [xs[n]];
    }
  }

  ghost predicate AtMostOnce(xs: seq<Insn>, pointers: bool) { forall k :: Count(xs, k, pointers) <= 1 }

  lemma {:induction false} UniqueCounts(xs: seq<Insn>, pointers: bool)
    ensures Unique(xs, pointers) <==> AtMostOnce(xs, pointers)
    decreases |xs|
  {
    if xs != [] {
      var n := |xs| - 1;
      UniqueCounts(xs[..n], pointers);
      assert xs == xs[..n] + [xs[n]];
      UniqueAppend(xs[..n], [xs[n]], pointers);
      ApartOne(xs[..n], xs[n], pointers);
      OnceNext(xs[..n], xs[n], pointers);
    }
  }

  lemma ApartOne(xs: seq<Insn>, x: Insn, pointers: bool)
    ensures Apart(xs, [x], pointers) <==> Declares(x, pointers) ==> !Has(xs, KeyOf(x), pointers)
  {
    if Declares(x, pointers) && Has(xs, KeyOf(x), pointers) {
      var i :| 0 <= i < |xs| && CountOne(xs[i], KeyOf(x), pointers) == 1;
      assert Clash(xs[i], [x][0], pointers);
    }
    if Declares(x, pointers) && !Has(xs, KeyOf(x), pointers) {
      forall i, j | 0 <= i < |xs| && 0 <= j < 1 ensures !Clash(xs[i], [x][j], pointers) {
        assert CountOne(xs[i], KeyOf(x), pointers) != 1;
      }
    }
  }

  lemma OnceNext(xs: seq<Insn>, x: Insn, pointers: bool)
    ensures AtMostOnce(xs + [x], pointers) <==>
              AtMostOnce(xs, pointers) && (Declares(x, pointers) ==> !Has(xs, KeyOf(x), pointers))
  {
    forall k ensures Count(xs + [x], k, pointers) == Count(xs, k, pointers) + CountOne(x, k, pointers) {
      CountNext(xs, x, k, pointers);
    }
    if Declares(x, pointers) { CountHas(xs, KeyOf(x), pointers); }
    if AtMostOnce(xs + [x], pointers) {
      forall k ensures Count(xs, k, pointers) <= 1 { assert Count(xs + [x], k, pointers) <= 1; }
    }
  }

  // ----- what a turn of the emit loop declares -----

  lemma OwnCount(c: Ctx, st: St, x: Insn, k: Key, pointers: bool)
    requires c.Valid()
    ensures Count(Own(c, st, x), k, pointers) == CountOne(x, k, pointers)
  {
    if Strict(x.op, pointers) {
      assert Own(c, st, x) == [] + [x];
      CountNext([], x, k, pointers);
    } else if Lowers(c, st, x) && !Drop(x, st.inFn) {
      ReturnCount(c, x.args[0], st.next, k, pointers);
    } else {
      CountNone(Own(c, st, x), k, pointers);
    }
  }

  lemma ReturnCount(c: Ctx, v: nat, next: nat, k: Key, pointers: bool)
    requires c.Valid()
    ensures Count(LoweredReturn(c, v, next), k, pointers) == 0
  {
    if c.sig.isStruct {
      ExtractsCount(c, v, next, |c.sig.members|, k, pointers);
      CountAppend(Extracts(c, v, next, |c.sig.members|), [Insn(OP_RETURN, [])], k, pointers);
      CountNone([Insn(OP_RETURN, [])], k, pointers);
    } else {
      CountNone(LoweredReturn(c, v, next), k, pointers);
    }
  }

  lemma {:induction false} ExtractsCount(c: Ctx, v: nat, next: nat, n: nat, k: Key, pointers: bool)
    requires c.Valid() && n <= |c.sig.members|
    ensures Count(Extracts(c, v, next, n), k, pointers) == 0
  {
    if n > 0 {
      ExtractsCount(c, v, next, n - 1, k, pointers);
      var pair := [Insn(OP_COMPOSITE_EXTRACT, [c.sig.members[n - 1], next + (n - 1), v, n - 1]),
                   Insn(OP_STORE, [c.ids.outVar[n - 1], next + (n - 1)])];
      CountAppend(Extracts(c, v, next, n - 1), pair, k, pointers);
      CountNone(pair, k, pointers);
    }
  }

  function Spliced(c: Ctx, st: St, k: Key, pointers: bool): nat
    requires c.Valid()
  {
    if st.preFn then Count(NewGlobals(c), k, pointers) else 0
  }

  lemma SpliceCount(c: Ctx, st: St, x: Insn, f: St, k: Key, pointers: bool)
    requires c.Valid() && Moves(c, st, x, f)
    ensures Count(SplicePart(c, st, x), k, pointers) + Spliced(c, st, k, pointers) == Spliced(c, f, k, pointers)
    ensures Count(LoadPart(c, st, x), k, pointers) == 0
  {
    CountNone(LoadPart(c, st, x), k, pointers);
    CountNone(Decorations(c), k, pointers);
  }

  lemma PieceCount(c: Ctx, st: St, x: Insn, f: St, k: Key, pointers: bool)
    requires c.Valid() && Moves(c, st, x, f)
    ensures Count(SplicePart(c, st, x) + LoadPart(c, st, x) + Own(c, st, x), k, pointers) + Spliced(c, st, k, pointers)
         == CountOne(x, k, pointers) + Spliced(c, f, k, pointers)
  {
    CountAppend(SplicePart(c, st, x) + LoadPart(c, st, x), Own(c, st, x), k, pointers);
    CountAppend(SplicePart(c, st, x), LoadPart(c, st, x), k, pointers);
    SpliceCount(c, st, x, f, k, pointers);
    OwnCount(c, st, x, k, pointers);
  }

  lemma TurnCount(z: Sim, i: nat, k: Key, pointers: bool)
    requires Traced(z) && i < |z.xs|
    ensures Count(z.piece(i), k, pointers) + Spliced(z.c, z.st(i), k, pointers)
         == CountOne(z.xs[i], k, pointers) + Spliced(z.c, z.st(i + 1), k, pointers)
  {
    assert Emits(z, i);
    StepParts(z.c, z.st(i), z.xs[i]);
    StepState(z.c, z.st(i), z.xs[i]);
    PieceCount(z.c, z.st(i), z.xs[i], z.st(i + 1), k, pointers);
  }

  lemma {:induction false} PrefixCount(z: Sim, n: nat, k: Key, pointers: bool)
    requires Traced(z) && n <= |z.xs|
    ensures Count(z.out(n), k, pointers) == Count(z.xs[..n], k, pointers) + Spliced(z.c, z.st(n), k, pointers)
  {
    if n > 0 {
      var i := n - 1;
      PrefixCount(z, i, k, pointers);
      TurnCount(z, i, k, pointers);
      assert Appends(z, i);
      CountAppend(z.out(i), z.piece(i), k, pointers);
      assert z.xs[..n] == z.xs[..i] + [z.xs[i]];
      CountNext(z.xs[..i], z.xs[i], k, pointers);
    }
  }

  /** The output declares what the input declares, and the new globals. */
  lemma SameAsAppended(xs: seq<Insn>, bound: nat, name: seq<nat>, stage: Stage, pointers: bool)
    requires Rewrite(xs, bound, name, stage).Ok?
    ensures Unique(Rewrite(xs, bound, name, stage).value.out, pointers) <==>
              Unique(xs + NewGlobals(ContextOf(xs, bound, name, stage)), pointers)
  {
    var z, e, _ := SignatureSize.TraceFor(xs, bound, name, stage);
    SignatureSize.FlagsSet(z, |xs|, e);
    assert xs[..|xs|] == xs;
    SameCounts(z, pointers);
  }

  lemma SameCounts(z: Sim, pointers: bool)
    requires Traced(z) && z.st(|z.xs|).preFn && z.xs[..|z.xs|] == z.xs
    ensures Unique(z.N(), pointers) <==> Unique(z.xs + NewGlobals(z.c), pointers)
  {
    forall k ensures Count(z.N(), k, pointers) == Count(z.xs + NewGlobals(z.c), k, pointers) {
      PrefixCount(z, |z.xs|, k, pointers);
      CountAppend(z.xs, NewGlobals(z.c), k, pointers);
    }
    UniqueCounts(z.N(), pointers);
    UniqueCounts(z.xs + NewGlobals(z.c), pointers);
  }

  // ----- what the new globals declare -----

  predicate Is(x: Insn, op: nat, operands: seq<nat>) { x.op == op && |x.args| >= 1 && x.args[1..] == operands }

  /** The input already has a type that the pass declares anew: a function type from nothing
      to void, or the void or unsigned type under an id that was taken for "not found". */
  predicate Redeclared(x: Insn, c: Ctx) {
    || Is(x, OP_TYPE_FUNCTION, [c.ids.voidId])
    || (c.scan.voidId == 0 && Is(x, OP_TYPE_VOID, []))
    || (c.scan.uintTy == 0 && Is(x, OP_TYPE_INT, [32, 0]))
  }

  /** The input already has a pointer to an interface variable of the pass. */
  predicate Repointed(x: Insn, c: Ctx) {
    PointsInto(x, STORAGE_OUTPUT, c.sig.members) || PointsInto(x, STORAGE_INPUT, c.sig.params)
  }

  predicate PointsInto(x: Insn, storage: nat, types: seq<nat>) {
    exists j :: 0 <= j < |types| && Is(x, OP_TYPE_POINTER, [storage, types[j]])
  }

  predicate Distinct(s: seq<nat>) { forall i, j :: 0 <= i < j < |s| ==> s[i] != s[j] }

  lemma ApartAppend(xs: seq<Insn>, a: seq<Insn>, b: seq<Insn>, pointers: bool)
    ensures Apart(xs, a + b, pointers) <==> Apart(xs, a, pointers) && Apart(xs, b, pointers)
  {
    if Apart(xs, a + b, pointers) {
      forall i, j | 0 <= i < |xs| && 0 <= j < |a| ensures !Clash(xs[i], a[j], pointers) { assert (a + b)[j] == a[j]; }
      forall i, j | 0 <= i < |xs| && 0 <= j < |b| ensures !Clash(xs[i], b[j], pointers) {
        assert (a + b)[|a| + j] == b[j];
      }
    }
  }

  lemma NewTypesApart(xs: seq<Insn>, c: Ctx, pointers: bool)
    ensures Apart(xs, NewTypes(c), pointers) <==> forall i :: 0 <= i < |xs| ==> !Redeclared(xs[i], c)
  {
    var v, u := Insn(OP_TYPE_VOID, [c.ids.voidId]), Insn(OP_TYPE_INT, [c.ids.uintTy, 32, 0]);
    var f := Insn(OP_TYPE_FUNCTION, [c.ids.voidFn, c.ids.voidId]);
    var ys := NewTypes(c);
    assert ys[|ys| - 1] == f && f.args[1..] == [c.ids.voidId] && v.args[1..] == [] && u.args[1..] == [32, 0];
    assert c.scan.voidId == 0 ==> ys[0] == v;
    assert c.scan.uintTy == 0 ==> ys[if c.scan.voidId == 0 then 1 else 0] == u;
    forall i | 0 <= i < |xs|
      ensures Redeclared(xs[i], c) <==> exists j :: 0 <= j < |ys| && Clash(xs[i], ys[j], pointers)
    {
      if Is(xs[i], OP_TYPE_FUNCTION, [c.ids.voidId]) { assert Clash(xs[i], ys[|ys| - 1], pointers); }
      if c.scan.voidId == 0 && Is(xs[i], OP_TYPE_VOID, []) { assert Clash(xs[i], ys[0], pointers); }
      if c.scan.uintTy == 0 && Is(xs[i], OP_TYPE_INT, [32, 0]) {
        assert Clash(xs[i], ys[if c.scan.voidId == 0 then 1 else 0], pointers);
      }
    }
  }

  lemma NewTypesUnique(c: Ctx, pointers: bool)
    ensures Unique(NewTypes(c), pointers)
  {
  }

  lemma PointerPair(p: nat, v: nat, storage: nat, ty: nat, xs: seq<Insn>, pointers: bool)
    ensures var ys := [Insn(OP_TYPE_POINTER, [p, storage, ty]), Insn(OP_VARIABLE, [p, v, storage])];
            && Unique(ys, pointers)
            && (Apart(xs, ys, pointers) <==>
                  pointers ==> forall i :: 0 <= i < |xs| ==> !Is(xs[i], OP_TYPE_POINTER, [storage, ty]))
  {
    var y := Insn(OP_TYPE_POINTER, [p, storage, ty]);
    var ys := [y, Insn(OP_VARIABLE, [p, v, storage])];
    assert y.args[1..] == [storage, ty];
    if pointers && Apart(xs, ys, pointers) {
      forall i | 0 <= i < |xs| ensures !Is(xs[i], OP_TYPE_POINTER, [storage, ty]) {
        assert !Clash(xs[i], ys[0], pointers);
      }
    }
  }

  lemma {:induction false} VarDeclsApart(xs: seq<Insn>, ptrs: seq<nat>, vars: seq<nat>, types: seq<nat>, storage: nat,
                                     n: nat, pointers: bool)
    requires n <= |ptrs| && n <= |vars| && n <= |types|
    ensures Apart(xs, VarDecls(ptrs, vars, types, storage, n), pointers) <==>
              pointers ==> forall i :: 0 <= i < |xs| ==> !PointsInto(xs[i], storage, types[..n])
  {
    if n > 0 {
      var k := n - 1;
      VarDeclsApart(xs, ptrs, vars, types, storage, k, pointers);
      PointerPair(ptrs[k], vars[k], storage, types[k], xs, pointers);
      ApartAppend(xs, VarDecls(ptrs, vars, types, storage, k),
        [Insn(OP_TYPE_POINTER, [ptrs[k], storage, types[k]]), Insn(OP_VARIABLE, [ptrs[k], vars[k], storage])],
        pointers);
      forall i | 0 <= i < |xs|
        ensures PointsInto(xs[i], storage, types[..n]) <==>
                  PointsInto(xs[i], storage, types[..k]) || Is(xs[i], OP_TYPE_POINTER, [storage, types[k]])
      {
        OneMoreType(xs[i], storage, types, k);
      }
    }
  }

  lemma OneMoreType(x: Insn, storage: nat, types: seq<nat>, k: nat)
    requires k < |types|
    ensures PointsInto(x, storage, types[..k + 1]) <==>
              PointsInto(x, storage, types[..k]) || Is(x, OP_TYPE_POINTER, [storage, types[k]])
  {
    if PointsInto(x, storage, types[..k]) {
      var j :| 0 <= j < k && Is(x, OP_TYPE_POINTER, [storage, types[..k][j]]);
      assert types[..k + 1][j] == types[..k][j];
    }
    if Is(x, OP_TYPE_POINTER, [storage, types[k]]) { assert types[..k + 1][k] == types[k]; }
    if PointsInto(x, storage, types[..k + 1]) {
      var j :| 0 <= j < k + 1 && Is(x, OP_TYPE_POINTER, [storage, types[..k + 1][j]]);
      assert j < k ==> types[..k][j] == types[..k + 1][j];
    }
  }

  /** The types to which the first n declarations point, whatever the storage class. */
  lemma {:induction false} DeclaredPointer(x: Insn, ptrs: seq<nat>, vars: seq<nat>, types: seq<nat>, storage: nat,
                                       n: nat, i: nat)
    requires n <= |ptrs| && n <= |vars| && n <= |types|
    requires i < |VarDecls(ptrs, vars, types, storage, n)| && x == VarDecls(ptrs, vars, types, storage, n)[i]
    ensures x.op == OP_VARIABLE || (i / 2 < n && x == Insn(OP_TYPE_POINTER, [ptrs[i / 2], storage, types[i / 2]]))
    ensures |VarDecls(ptrs, vars, types, storage, n)| == 2 * n
    decreases n
  {
    if n > 1 {
      DeclaredPointer(VarDecls(ptrs, vars, types, storage, n - 1)[0], ptrs, vars, types, storage, n - 1, 0);
      if i < 2 * (n - 1) { DeclaredPointer(x, ptrs, vars, types, storage, n - 1, i); }
    }
  }

  lemma {:induction false} VarDeclsUnique(ptrs: seq<nat>, vars: seq<nat>, types: seq<nat>, storage: nat, n: nat,
                                      pointers: bool)
    requires n <= |ptrs| && n <= |vars| && n <= |types|
    ensures Unique(VarDecls(ptrs, vars, types, storage, n), pointers) <==> pointers ==> Distinct(types[..n])
  {
    if n > 0 {
      var k := n - 1;
      var ys := VarDecls(ptrs, vars, types, storage, k);
      VarDeclsUnique(ptrs, vars, types, storage, k, pointers);
      PointerPair(ptrs[k], vars[k], storage, types[k], ys, pointers);
      UniqueAppend(ys,
        [Insn(OP_TYPE_POINTER, [ptrs[k], storage, types[k]]), Insn(OP_VARIABLE, [ptrs[k], vars[k], storage])],
        pointers);
      PointersDeclared(ptrs, vars, types, storage, k, types[k]);
      OneMoreDistinct(types, k);
    }
  }

  lemma PointersDeclared(ptrs: seq<nat>, vars: seq<nat>, types: seq<nat>, storage: nat, n: nat, ty: nat)
    requires n <= |ptrs| && n <= |vars| && n <= |types|
    ensures var ys := VarDecls(ptrs, vars, types, storage, n);
            (exists i :: 0 <= i < |ys| && Is(ys[i], OP_TYPE_POINTER, [storage, ty])) <==> ty in types[..n]
  {
    var ys := VarDecls(ptrs, vars, types, storage, n);
    forall i | 0 <= i < |ys| ensures Is(ys[i], OP_TYPE_POINTER, [storage, ty]) ==> ty in types[..n] {
      DeclaredPointer(ys[i], ptrs, vars, types, storage, n, i);
      if Is(ys[i], OP_TYPE_POINTER, [storage, ty]) {
        assert ys[i].args[1..] == [storage, types[i / 2]];
        assert [storage, types[i / 2]][1] == [storage, ty][1];
        assert types[..n][i / 2] == ty;
      }
    }
    if ty in types[..n] {
      var j :| 0 <= j < n && types[..n][j] == ty;
      PointerAt(ptrs, vars, types, storage, n, j);
    }
  }

  lemma {:induction false} PointerAt(ptrs: seq<nat>, vars: seq<nat>, types: seq<nat>, storage: nat, n: nat, j: nat)
    requires j < n && n <= |ptrs| && n <= |vars| && n <= |types|
    ensures |VarDecls(ptrs, vars, types, storage, n)| == 2 * n
    ensures Is(VarDecls(ptrs, vars, types, storage, n)[2 * j], OP_TYPE_POINTER, [storage, types[j]])
    decreases n
  {
    if n > 1 { PointerAt(ptrs, vars, types, storage, n - 1, if j < n - 1 then j else 0); }
  }

  lemma OneMoreDistinct(s: seq<nat>, k: nat)
    requires k < |s|
    ensures Distinct(s[..k + 1]) <==> Distinct(s[..k]) && s[k] !in s[..k]
  {
    if Distinct(s[..k + 1]) {
      forall i, j | 0 <= i < j < k ensures s[..k][i] != s[..k][j] { assert s[..k + 1][i] != s[..k + 1][j]; }
      forall i | 0 <= i < k ensures s[..k][i] != s[k] { assert s[..k + 1][i] != s[..k + 1][k]; }
    }
    if Distinct(s[..k]) && s[k] !in s[..k] {
      var t := s[..k + 1];
      forall i, j | 0 <= i < j < |t| ensures t[i] != t[j] {
        if j < k { assert s[..k][i] != s[..k][j]; } else { assert s[..k][i] in s[..k]; }
      }
    }
  }

  lemma StoragesDiffer(c: Ctx, pointers: bool)
    requires c.Valid()
    ensures Apart(OutDecls(c), InDecls(c), pointers)
    ensures Apart(NewTypes(c), OutDecls(c), pointers) && Apart(NewTypes(c), InDecls(c), pointers)
  {
    var outs, ins := OutDecls(c), InDecls(c);
    forall i | 0 <= i < |outs| ensures PointerOrVariable(outs[i], STORAGE_OUTPUT) {
      DeclaredPointer(outs[i], c.ids.outPtr, c.ids.outVar, c.sig.members, STORAGE_OUTPUT, |c.sig.members|, i);
    }
    forall i | 0 <= i < |ins| ensures PointerOrVariable(ins[i], STORAGE_INPUT) {
      DeclaredPointer(ins[i], c.ids.inPtr, c.ids.inVar, c.sig.params, STORAGE_INPUT, |c.sig.params|, i);
    }
    forall i, j | 0 <= i < |outs| && 0 <= j < |ins| ensures !Clash(outs[i], ins[j], pointers) {
      assert outs[i].op == OP_TYPE_POINTER ==> outs[i].args[1..][0] == STORAGE_OUTPUT;
      assert ins[j].op == OP_TYPE_POINTER ==> ins[j].args[1..][0] == STORAGE_INPUT;
    }
  }

  predicate PointerOrVariable(x: Insn, storage: nat) {
    x.op == OP_VARIABLE || (x.op == OP_TYPE_POINTER && |x.args| == 3 && x.args[1] == storage)
  }

  lemma NewGlobalsUnique(c: Ctx, pointers: bool)
    requires c.Valid()
    ensures Unique(NewGlobals(c), pointers) <==> pointers ==> Distinct(c.sig.members) && Distinct(c.sig.params)
  {
    NewTypesUnique(c, pointers);
    StoragesDiffer(c, pointers);
    VarDeclsUnique(c.ids.outPtr, c.ids.outVar, c.sig.members, STORAGE_OUTPUT, |c.sig.members|, pointers);
    VarDeclsUnique(c.ids.inPtr, c.ids.inVar, c.sig.params, STORAGE_INPUT, |c.sig.params|, pointers);
    assert c.sig.members[..|c.sig.members|] == c.sig.members && c.sig.params[..|c.sig.params|] == c.sig.params;
    UniqueAppend(NewTypes(c), OutDecls(c), pointers);
    UniqueAppend(NewTypes(c) + OutDecls(c), InDecls(c), pointers);
    assert Apart(NewTypes(c) + OutDecls(c), InDecls(c), pointers);
  }

  lemma NewGlobalsApart(xs: seq<Insn>, c: Ctx, pointers: bool)
    requires c.Valid()
    ensures Apart(xs, NewGlobals(c), pointers) <==>
              && (forall i :: 0 <= i < |xs| ==> !Redeclared(xs[i], c))
              && (pointers ==> forall i :: 0 <= i < |xs| ==> !Repointed(xs[i], c))
  {
    NewTypesApart(xs, c, pointers);
    VarDeclsApart(xs, c.ids.outPtr, c.ids.outVar, c.sig.members, STORAGE_OUTPUT, |c.sig.members|, pointers);
    VarDeclsApart(xs, c.ids.inPtr, c.ids.inVar, c.sig.params, STORAGE_INPUT, |c.sig.params|, pointers);
    assert c.sig.members[..|c.sig.members|] == c.sig.members && c.sig.params[..|c.sig.params|] == c.sig.params;
    ApartAppend(xs, NewTypes(c), OutDecls(c), pointers);
    ApartAppend(xs, NewTypes(c) + OutDecls(c), InDecls(c), pointers);
  }

  /** TYPES STAY UNIQUE, EXACTLY WHEN: no two type declarations of the output are the same if
      and only if no two of the input are, the input has none of the types that the pass adds
      and, where pointer types count, no two members and no two parameters have the same type
      and the input has no pointer to an interface variable. */
  lemma TypesStayUnique(xs: seq<Insn>, bound: nat, name: seq<nat>, stage: Stage, pointers: bool)
    requires Rewrite(xs, bound, name, stage).Ok?
    ensures var c := ContextOf(xs, bound, name, stage);
            Unique(Rewrite(xs, bound, name, stage).value.out, pointers) <==>
              && Unique(xs, pointers) && (forall i :: 0 <= i < |xs| ==> !Redeclared(xs[i], c))
              && (pointers ==> Distinct(c.sig.members) && Distinct(c.sig.params)
                               && forall i :: 0 <= i < |xs| ==> !Repointed(xs[i], c))
  {
    var c := ContextOf(xs, bound, name, stage);
    SameAsAppended(xs, bound, name, stage, pointers);
    UniqueAppend(xs, NewGlobals(c), pointers);
    NewGlobalsUnique(c, pointers);
    NewGlobalsApart(xs, c, pointers);
  }

  /** No type has the id 0. */
  predicate IdsSound(xs: seq<Insn>) { forall i :: 0 <= i < |xs| && Declares(xs[i], false) ==> xs[i].args[0] != 0 }

  lemma {:induction false} ScanFinds(xs: seq<Insn>, k: nat, name: seq<nat>, i: nat)
    requires IdsSound(xs) && i < k <= |xs|
    ensures Is(xs[i], OP_TYPE_VOID, []) ==> ScanPrefix(xs, k, name).voidId != 0
    ensures Is(xs[i], OP_TYPE_INT, [32, 0]) ==> ScanPrefix(xs, k, name).uintTy != 0
  {
    var x := xs[k - 1];
    assert Declares(x, false) ==> x.args[0] != 0;
    if i < k - 1 {
      ScanFinds(xs, k - 1, name, i);
    } else if Is(x, OP_TYPE_INT, [32, 0]) {
      assert x.args[1..][0] == 32 && x.args[1..][1] == 0;
    }
  }

  /** Where no type has the id 0, non-aggregate types other than pointers stay unique if and
      only if they were, and no function type takes nothing and returns void. */
  lemma TypesStayUniqueUnlessVoid(xs: seq<Insn>, bound: nat, name: seq<nat>, stage: Stage)
    requires Rewrite(xs, bound, name, stage).Ok? && IdsSound(xs)
    ensures Unique(Rewrite(xs, bound, name, stage).value.out, false) <==>
              Unique(xs, false) && forall i :: 0 <= i < |xs| ==>
                !Is(xs[i], OP_TYPE_FUNCTION, [ContextOf(xs, bound, name, stage).ids.voidId])
  {
    var c := ContextOf(xs, bound, name, stage);
    TypesStayUnique(xs, bound, name, stage, false);
    forall i | 0 <= i < |xs| ensures Redeclared(xs[i], c) <==> Is(xs[i], OP_TYPE_FUNCTION, [c.ids.voidId]) {
      ScanFinds(xs, |xs|, name, i);
    }
  }
}
