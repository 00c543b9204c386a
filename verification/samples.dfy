/** Concrete modules that show where the signature transform fails. */
module Samples {
  import opened Wrappers
  import opened Spirv
  import opened SignatureTransform
  import opened Layout
  import opened FunctionLayout
  import L = SignatureLayout
  import S = SignatureSize
  import P = LoadsFirst
  import T = UniqueTypes
  import opened Machine
  import opened Meaning
  import opened MeaningTheorem

  /** The name "m". */
  const NAME: seq<nat> := [109]

  /** A vertex module whose entry function has one parameter and, in front of its one
      variable, an OpNoLine. */
  function LineFirst(): seq<Insn> {
    [Insn(OP_CAPABILITY, [CAP_SHADER]),
     Insn(OP_MEMORY_MODEL, [0, 1]),
     Insn(OP_NAME, [1, 109]),
     Insn(OP_TYPE_FLOAT, [2, 32]),
     Insn(OP_TYPE_FUNCTION, [3, 2, 2]),
     Insn(OP_TYPE_POINTER, [4, 7, 2]),
     Insn(OP_FUNCTION, [2, 1, 0, 3]),
     Insn(OP_FUNCTION_PARAMETER, [2, 5]),
     Insn(OP_LABEL, [6]),
     Insn(317, []),
     Insn(OP_VARIABLE, [4, 7, 7]),
     Insn(OP_RETURN_VALUE, [5]),
     Insn(OP_FUNCTION_END, [])]
  }

  lemma PlaceStep(xs: seq<Insn>, k: nat)
    requires k < |xs| && PlaceOf(xs, k).Some?
    ensures PlaceOf(xs, k + 1) == Follow(PlaceOf(xs, k).value, xs[k].op)
  {
    assert xs[..k + 1][..k] == xs[..k];
  }

  lemma {:induction false} SectionsOf(xs: seq<Insn>, k: nat, s: seq<nat>)
    requires k <= |xs| && |s| == |xs| + 1 && s[0] == 1
    requires forall i :: 0 <= i < |xs| ==> Advance(Some(s[i]), xs[i].op) == Some(s[i + 1])
    ensures Reached(xs, k) == Some(s[k])
  {
    if k == 0 {
      assert xs[..0] == [];
    } else {
      SectionsOf(xs, k - 1, s);
      ReachedNext(xs, k - 1);
    }
  }

  lemma {:induction false} PlacesOf(xs: seq<Insn>, k: nat, s: seq<Place>)
    requires k <= |xs| && |s| == |xs| + 1 && s[0] == Ahead
    requires forall i :: 0 <= i < |xs| ==> Follow(s[i], xs[i].op) == Some(s[i + 1])
    ensures PlaceOf(xs, k) == Some(s[k])
  {
    if k == 0 {
      assert xs[..0] == [];
    } else {
      PlacesOf(xs, k - 1, s);
      PlaceStep(xs, k - 1);
    }
  }

  lemma LineFirstSection(k: nat) returns (s: seq<nat>)
    requires k <= 13
    ensures s == [1, 1, 4, 8, 11, 11, 11, 12, 12, 12, 12, 12, 12, 12] && Reached(LineFirst(), k) == Some(s[k])
  {
    s := [1, 1, 4, 8, 11, 11, 11, 12, 12, 12, 12, 12, 12, 12];
    SectionsOf(LineFirst(), k, s);
  }

  lemma LineFirstSections()
    ensures InSections(LineFirst())
  {
    var s := LineFirstSection(13);
    assert LineFirst()[..13] == LineFirst();
  }

  lemma LineFirstOrdered()
    ensures Ordered(LineFirst())
  {
    var xs := LineFirst();
    LineFirstSections();
    PlacesOf(xs, |xs|, [Ahead, Ahead, Ahead, Ahead, Ahead, Ahead, Ahead, Heading(false), Heading(false),
                        Opening, Opening, Opening, Between, Gap(true)]);
    assert xs[..|xs|] == xs;
  }

  lemma {:induction false} ScanOf(xs: seq<Insn>, k: nat, name: seq<nat>, s: seq<Scan>)
    requires k <= |xs| && |s| == |xs| + 1 && s[0] == Scan(false, None, 0, 0, 0, [], [])
    requires forall i :: 0 <= i < |xs| ==> ScanStep(s[i], xs[i], name) == s[i + 1]
    ensures ScanPrefix(xs, k, name) == s[k]
  {
    if k > 0 { ScanOf(xs, k - 1, name, s); }
  }

  lemma FirstIs(xs: seq<Insn>, p: Insn -> bool, k: nat)
    requires k < |xs| && p(xs[k]) && forall j :: 0 <= j < k ==> !p(xs[j])
    ensures FirstIndex(xs, p, 0) == k
  {
  }

  /** A module with a memory model and a signature is rewritten. */
  lemma Rewrites(xs: seq<Insn>, bound: nat, name: seq<nat>, stage: Stage, mm: nat)
    requires Analyse(xs, ScanPrefix(xs, |xs|, name)).Ok? && mm < |xs| && xs[mm].op == OP_MEMORY_MODEL
    ensures Rewrite(xs, bound, name, stage).Ok?
    ensures ContextOf(xs, bound, name, stage).sig == Analyse(xs, ScanPrefix(xs, |xs|, name)).value
  {
    var a := ScanPrefix(xs, |xs|, name);
    var z := PassTrace(xs, MakeCtx(xs, a, Analyse(xs, a).value, bound, name, stage));
    ZoneASet(z, mm, |xs|);
  }

  lemma NameHolds()
    ensures Holds([109], NAME)
  {
    PackStringAt(NAME, 0);
    PackStringAt(NAME, 1);
    PackStringRoundTrip(NAME, NAME);
    assert PackString(NAME) == [109];
  }

  lemma LineFirstScan()
    ensures ScanPrefix(LineFirst(), 13, NAME) == Scan(true, Some(1), 0, 0, 0, [4], [])
  {
    var xs := LineFirst();
    NameHolds();
    var a := Scan(false, None, 0, 0, 0, [], []);
    var b := a.(shader := true);
    var c := b.(fn := Some(1));
    var d := c.(ptrTypes := [4]);
    assert xs[2].args[1..] == [109];
    ScanOf(xs, 13, NAME, [a, b, b, c, c, c, d, d, d, d, d, d, d, d]);
  }

  lemma LineFirstSignature()
    ensures Analyse(LineFirst(), Scan(true, Some(1), 0, 0, 0, [4], [])) == Ok(Sig(1, false, [2], [2]))
  {
    var xs := LineFirst();
    FirstIs(xs, IsEntry(1), 6);
    FirstIs(xs, IsTypeFunction(3), 4);
    FirstIs(xs, IsReturnType(2), 3);
    assert xs[4].args[2..] == [2];
  }

  lemma LineFirstLoads()
    ensures ParamIds(LineFirst(), Sig(1, false, [2], [2])) != [] && !LinesWait(LineFirst(), 1)
  {
    var xs := LineFirst();
    FirstIs(xs, IsFunctionNamed(1), 6);
    assert VariableAfter(xs, 9, 10);
    assert IsEntry(1)(xs[6]) && EarlyLine(xs, 6, 9);
  }

  lemma LineFirstOpens(k: nat)
    requires k < 13 && L.Opens(LineFirst(), k)
    ensures IsTypeOp(LineFirst()[k].op)
  {
    var s := LineFirstSection(k);
    s := LineFirstSection(k + 1);
  }

  lemma LineFirstFits()
    ensures L.SectionsFit(LineFirst(), Sig(1, false, [2], [2]), Vertex)
  {
    var xs := LineFirst();
    assert L.IsShaderCapability(xs[0]);
    forall k | 0 <= k < |xs| ensures L.Opens(xs, k) ==> IsTypeOp(xs[k].op) {
      if L.Opens(xs, k) { LineFirstOpens(k); }
    }
  }

  lemma LineFirstModel()
    ensures Exactly(LineFirst(), IsMemoryModel(), 1)
  {
  }

  lemma Misplaced(xs: seq<Insn>, bound: nat, name: seq<nat>, stage: Stage, mm: nat, g: Sig)
    requires Ordered(xs) && Exactly(xs, IsMemoryModel(), mm)
    requires Analyse(xs, ScanPrefix(xs, |xs|, name)) == Ok(g) && ParamIds(xs, g) != [] && !LinesWait(xs, g.fn)
    ensures Rewrite(xs, bound, name, stage).Ok? && !Ordered(Rewrite(xs, bound, name, stage).value.out)
  {
    assert IsMemoryModel()(xs[mm]);
    Rewrites(xs, bound, name, stage, mm);
    L.LayoutKept(xs, bound, name, stage, mm);
  }

  /** LAYOUT IS LOST: a vertex module in order, which the splices of the module's head fit,
      and whose rewriting is not in order: OpNoLine takes the load, and OpVariable follows. */
  lemma LineFirstMisplaced(bound: nat)
    ensures Ordered(LineFirst()) && L.SectionsFit(LineFirst(), Sig(1, false, [2], [2]), Vertex)
    ensures Rewrite(LineFirst(), bound, NAME, Vertex).Ok?
    ensures !Ordered(Rewrite(LineFirst(), bound, NAME, Vertex).value.out)
  {
    LineFirstOrdered();
    LineFirstScan();
    LineFirstSignature();
    LineFirstLoads();
    LineFirstFits();
    LineFirstModel();
    Misplaced(LineFirst(), bound, NAME, Vertex, 1, Sig(1, false, [2], [2]));
  }

  // ----- a parameter used before its load -----

  /** A vertex module whose entry function begins by casting its pointer parameter. */
  function CastFirst(): seq<Insn> {
    [Insn(OP_CAPABILITY, [CAP_SHADER]),
     Insn(OP_MEMORY_MODEL, [0, 1]),
     Insn(OP_NAME, [1, 109]),
     Insn(OP_TYPE_FLOAT, [2, 32]),
     Insn(OP_TYPE_POINTER, [4, 7, 2]),
     Insn(OP_TYPE_FUNCTION, [3, 2, 4]),
     Insn(OP_FUNCTION, [2, 1, 0, 3]),
     Insn(OP_FUNCTION_PARAMETER, [4, 5]),
     Insn(OP_LABEL, [6]),
     Insn(OP_BITCAST, [4, 7, 5]),
     Insn(OP_LOAD, [2, 8, 7]),
     Insn(OP_RETURN_VALUE, [8]),
     Insn(OP_FUNCTION_END, [])]
  }

  lemma CastFirstScan()
    ensures ScanPrefix(CastFirst(), 13, NAME) == Scan(true, Some(1), 0, 0, 0, [4], [])
  {
    var xs := CastFirst();
    NameHolds();
    var a := Scan(false, None, 0, 0, 0, [], []);
    var b := a.(shader := true);
    var c := b.(fn := Some(1));
    var d := c.(ptrTypes := [4]);
    assert xs[2].args[1..] == [109];
    ScanOf(xs, 13, NAME, [a, b, b, c, c, d, d, d, d, d, d, d, d, d]);
  }

  lemma CastFirstSignature()
    ensures Analyse(CastFirst(), Scan(true, Some(1), 0, 0, 0, [4], [])) == Ok(Sig(1, false, [2], [4]))
  {
    var xs := CastFirst();
    FirstIs(xs, IsEntry(1), 6);
    FirstIs(xs, IsTypeFunction(3), 5);
    FirstIs(xs, IsReturnType(2), 3);
    assert xs[5].args[2..] == [4];
  }

  lemma CastFirstParams()
    ensures ParamIds(CastFirst(), Sig(1, false, [2], [4])) == [5]
    ensures FirstIndex(CastFirst(), IsFunctionNamed(1), 0) == 6 && FirstIndex(CastFirst(), IsFunctionEnd(), 6) == 12
  {
    var xs := CastFirst();
    FirstIs(xs, IsFunctionNamed(1), 6);
    assert ParamRun(xs, 8, 0) == [];
  }

  lemma CastFirstShape(c: Ctx)
    requires c.sig == Sig(1, false, [2], [4])
    ensures EntryShape(CastFirst(), c) && EntryIndex(CastFirst(), c) == 6 && EndIndex(CastFirst(), c) == 12
  {
    CastFirstParams();
    var xs := CastFirst();
    assert xs[1].op == OP_MEMORY_MODEL && IsTypeOp(xs[3].op) && IsParam(xs[7]);
  }

  lemma ChainReads(m: Semantics, y: Insn)
    requires y.op == OP_ACCESS_CHAIN && |y.args| == 4 && m.isId(OP_ACCESS_CHAIN, 2)
    ensures y.args[2] in Reads(m, y)
  {
    assert IsRef(m, y, 2);
  }

  lemma CastReads(m: Semantics, c: Ctx, x: Insn)
    requires x == Insn(OP_BITCAST, [4, 7, 5]) && IsPointerBitcast(c.scan, x) && c.scan.lifetimes == []
    requires c.paramIds == [5]
    requires m.isId(OP_ACCESS_CHAIN, 2)
    ensures P.ReadsOne(m, P.Ahead(c, x), Params(c))
  {
    var y := Replacement(c, x);
    ChainReads(m, y);
    assert P.Ahead(c, x) == [y] && y.args[2] == 5 && 5 in Params(c);
    assert P.Ahead(c, x)[0] == y;
  }

  lemma CastFirstEarly(m: Semantics, c: Ctx)
    requires c.sig == Sig(1, false, [2], [4]) && c.scan == Scan(true, Some(1), 0, 0, 0, [4], []) && c.paramIds == [5]
    requires m.isId(OP_ACCESS_CHAIN, 2)
    ensures P.UsesEarly(m, CastFirst(), c, 9)
  {
    CastFirstParams();
    var xs := CastFirst();
    CastReads(m, c, xs[9]);
    assert forall i :: 6 < i < 9 ==> !Settles(c, xs[i]);
  }

  lemma UsedEarly(m: Semantics, xs: seq<Insn>, bound: nat, name: seq<nat>, stage: Stage, c: Ctx, k: nat)
    requires Rewrite(xs, bound, name, stage).Ok? && c == ContextOf(xs, bound, name, stage) && EntryShape(xs, c)
    requires (forall p :: p in Params(c) ==> p < bound) && EntryIndex(xs, c) < k < EndIndex(xs, c)
    requires P.UsesEarly(m, xs, c, k)
    ensures !P.AllReadsLoaded(m, Rewrite(xs, bound, name, stage).value.out, c)
  {
    P.ParametersLoadedFirst(m, xs, bound, name, stage);
  }

  lemma CastFirstContext(bound: nat) returns (c: Ctx)
    ensures Rewrite(CastFirst(), bound, NAME, Vertex).Ok? && c == ContextOf(CastFirst(), bound, NAME, Vertex)
    ensures c.sig == Sig(1, false, [2], [4]) && c.scan == Scan(true, Some(1), 0, 0, 0, [4], []) && c.paramIds == [5]
  {
    CastFirstScan();
    CastFirstSignature();
    Rewrites(CastFirst(), bound, NAME, Vertex, 1);
    c := ContextOf(CastFirst(), bound, NAME, Vertex);
    CastFirstParams();
  }

  /** DEFINITION BEFORE USE IS LOST: the cast becomes an OpAccessChain of the parameter in
      front of the parameter's load. */
  lemma CastFirstMisplaced(m: Semantics, bound: nat) returns (c: Ctx)
    requires m.isId(OP_ACCESS_CHAIN, 2) && bound > 8
    ensures Rewrite(CastFirst(), bound, NAME, Vertex).Ok? && c == ContextOf(CastFirst(), bound, NAME, Vertex)
    ensures EntryShape(CastFirst(), c) && !P.AllReadsLoaded(m, Rewrite(CastFirst(), bound, NAME, Vertex).value.out, c)
  {
    c := CastFirstContext(bound);
    CastFirstShape(c);
    CastFirstEarly(m, c);
    UsedEarly(m, CastFirst(), bound, NAME, Vertex, c, 9);
  }

  // ----- a type declared twice -----

  /** A vertex module that already has the function type from nothing to void. */
  function VoidTwice(): seq<Insn> {
    [Insn(OP_CAPABILITY, [CAP_SHADER]),
     Insn(OP_MEMORY_MODEL, [0, 1]),
     Insn(OP_NAME, [1, 109]),
     Insn(OP_TYPE_FLOAT, [2, 32]),
     Insn(OP_TYPE_VOID, [4]),
     Insn(OP_TYPE_FUNCTION, [3, 2]),
     Insn(OP_TYPE_FUNCTION, [5, 4]),
     Insn(OP_CONSTANT, [2, 6, 0]),
     Insn(OP_FUNCTION, [2, 1, 0, 3]),
     Insn(OP_LABEL, [7]),
     Insn(OP_RETURN_VALUE, [6]),
     Insn(OP_FUNCTION_END, [])]
  }

  lemma VoidTwiceScan()
    ensures ScanPrefix(VoidTwice(), 12, NAME) == Scan(true, Some(1), 4, 0, 0, [], [])
  {
    var xs := VoidTwice();
    NameHolds();
    var a := Scan(false, None, 0, 0, 0, [], []);
    var b := a.(shader := true);
    var c := b.(fn := Some(1));
    var d := c.(voidId := 4);
    assert xs[2].args[1..] == [109];
    ScanOf(xs, 12, NAME, [a, b, b, c, c, d, d, d, d, d, d, d, d]);
  }

  lemma VoidTwiceSignature()
    ensures Analyse(VoidTwice(), Scan(true, Some(1), 4, 0, 0, [], [])) == Ok(Sig(1, false, [2], []))
  {
    var xs := VoidTwice();
    FirstIs(xs, IsEntry(1), 8);
    FirstIs(xs, IsTypeFunction(3), 5);
    FirstIs(xs, IsReturnType(2), 3);
    assert xs[5].args[2..] == [];
  }

  lemma VoidTwiceUnique()
    ensures T.Unique(VoidTwice(), true)
  {
    var xs := VoidTwice();
    assert xs[5].args[1..][0] == 2 && xs[6].args[1..][0] == 4;
  }

  /** A TYPE IS DECLARED TWICE: every type of the input is declared once, even counting
      pointers; the function type to void that the pass adds is there already. */
  lemma VoidTwiceRepeats(bound: nat)
    ensures T.Unique(VoidTwice(), true) && Rewrite(VoidTwice(), bound, NAME, Vertex).Ok?
    ensures !T.Unique(Rewrite(VoidTwice(), bound, NAME, Vertex).value.out, false)
  {
    var xs := VoidTwice();
    VoidTwiceUnique();
    VoidTwiceScan();
    VoidTwiceSignature();
    Rewrites(xs, bound, NAME, Vertex, 1);
    RepeatedType(xs, bound, 6);
  }

  lemma RepeatedType(xs: seq<Insn>, bound: nat, k: nat)
    requires Rewrite(xs, bound, NAME, Vertex).Ok? && k < |xs|
    requires var v := ScanPrefix(xs, |xs|, NAME).voidId; v != 0 && T.Is(xs[k], OP_TYPE_FUNCTION, [v])
    ensures !T.Unique(Rewrite(xs, bound, NAME, Vertex).value.out, false)
  {
    T.TypesStayUnique(xs, bound, NAME, Vertex, false);
    assert T.Redeclared(xs[k], ContextOf(xs, bound, NAME, Vertex));
  }

  // ----- too many returns -----

  /** A vertex module whose entry function returns a struct of eight floats. */
  function ReturnsHead(): seq<Insn> {
    [Insn(OP_CAPABILITY, [CAP_SHADER]),
     Insn(OP_MEMORY_MODEL, [0, 1]),
     Insn(OP_NAME, [1, 109]),
     Insn(OP_TYPE_FLOAT, [2, 32]),
     Insn(OP_TYPE_STRUCT, [3, 2, 2, 2, 2, 2, 2, 2, 2]),
     Insn(OP_TYPE_FUNCTION, [4, 3]),
     Insn(OP_UNDEF, [3, 5]),
     Insn(OP_FUNCTION, [3, 1, 0, 4])]
  }

  /** n blocks that each return the struct. */
  function ReturnBlocks(n: nat): (r: seq<Insn>)
    ensures |r| == 2 * n
    ensures forall i :: 0 <= i < n ==> r[2 * i] == Insn(OP_LABEL, [6 + i]) && r[2 * i + 1] == Insn(OP_RETURN_VALUE, [5])
    ensures forall i :: 0 <= i < |r| ==> Unscanned(r[i].op)
  {
    if n == 0 then [] else ReturnBlocks(n - 1) + [Insn(OP_LABEL, [6 + (n - 1)]), Insn(OP_RETURN_VALUE, [5])]
  }

  function ManyReturns(n: nat): seq<Insn> { ReturnsHead() + ReturnBlocks(n) + [Insn(OP_FUNCTION_END, [])] }

  lemma ManyReturnsAt(n: nat, i: nat)
    requires i < n
    ensures |ManyReturns(n)| == 9 + 2 * n
    ensures ManyReturns(n)[8 + 2 * i] == Insn(OP_LABEL, [6 + i])
    ensures ManyReturns(n)[9 + 2 * i] == Insn(OP_RETURN_VALUE, [5])
  {
  }

  /** Instructions that no scan looks at. */
  predicate Unscanned(op: nat) { op in {OP_LABEL, OP_RETURN_VALUE, OP_FUNCTION_END} }

  lemma {:induction false} ScanRest(xs: seq<Insn>, h: nat, k: nat, name: seq<nat>)
    requires h <= k <= |xs| && forall i :: h <= i < |xs| ==> Unscanned(xs[i].op)
    ensures ScanPrefix(xs, k, name) == ScanPrefix(xs, h, name)
    decreases k
  {
    if h < k { ScanRest(xs, h, k - 1, name); }
  }

  lemma {:induction false} ScanShared(xs: seq<Insn>, ys: seq<Insn>, k: nat, name: seq<nat>)
    requires k <= |xs| && xs <= ys
    ensures ScanPrefix(ys, k, name) == ScanPrefix(xs, k, name)
  {
    if k > 0 { ScanShared(xs, ys, k - 1, name); }
  }

  function ReturnsScan(): Scan { Scan(true, Some(1), 0, 0, 0, [], []) }

  lemma ReturnsHeadScan()
    ensures ScanPrefix(ReturnsHead(), 8, NAME) == ReturnsScan()
  {
    var xs := ReturnsHead();
    NameHolds();
    var a := Scan(false, None, 0, 0, 0, [], []);
    var b := a.(shader := true);
    var c := b.(fn := Some(1));
    assert xs[2].args[1..] == [109];
    ScanOf(xs, 8, NAME, [a, b, b, c, c, c, c, c, c]);
  }

  function ReturnsSig(): Sig { Sig(1, true, [2, 2, 2, 2, 2, 2, 2, 2], []) }

  lemma ReturnsSignature(xs: seq<Insn>)
    requires ReturnsHead() <= xs
    ensures Analyse(xs, ReturnsScan()) == Ok(ReturnsSig())
  {
    var h := ReturnsHead();
    assert forall i :: 0 <= i < |h| ==> xs[i] == h[i];
    FirstIs(xs, IsEntry(1), 7);
    FirstIs(xs, IsTypeFunction(4), 5);
    FirstIs(xs, IsReturnType(3), 4);
    assert h[5].args[2..] == [] && h[4].args[1..] == [2, 2, 2, 2, 2, 2, 2, 2];
  }

  lemma ManyReturnsRewrites(n: nat, bound: nat) returns (c: Ctx)
    ensures Rewrite(ManyReturns(n), bound, NAME, Vertex).Ok? && c == ContextOf(ManyReturns(n), bound, NAME, Vertex)
    ensures c.scan == ReturnsScan() && c.sig == ReturnsSig() && c.paramIds == []
    ensures c.stage == Vertex && c.name == NAME
  {
    var xs := ManyReturns(n);
    ReturnsHeadScan();
    ScanShared(ReturnsHead(), xs, 8, NAME);
    assert forall i :: 8 <= i < |xs| ==> Unscanned(xs[i].op);
    ScanRest(xs, 8, |xs|, NAME);
    ReturnsSignature(xs);
    Rewrites(xs, bound, NAME, Vertex, 1);
    c := ContextOf(xs, bound, NAME, Vertex);
  }

  lemma {:induction false} HeadGrowth(c: Ctx, xs: seq<Insn>, k: nat)
    requires k <= 8 && ReturnsHead() <= xs && c.scan == ReturnsScan() && c.sig == ReturnsSig()
    ensures S.PlaceAt(c, xs, k) == S.Place(k > 7, false, k > 1) && S.Growth(c, xs, k) == 0
  {
    if k > 0 {
      HeadGrowth(c, xs, k - 1);
      assert xs[k - 1] == ReturnsHead()[k - 1];
    }
  }

  lemma {:induction false} BlocksGrowth(c: Ctx, n: nat, i: nat)
    requires i <= n && c.scan == ReturnsScan() && c.sig == ReturnsSig() && c.paramIds == []
    ensures |ManyReturns(n)| == 9 + 2 * n
    ensures S.PlaceAt(c, ManyReturns(n), 8 + 2 * i) == S.Place(true, i > 0, true)
    ensures S.Growth(c, ManyReturns(n), 8 + 2 * i) == 63 * i
  {
    var xs := ManyReturns(n);
    if i == 0 {
      HeadGrowth(c, xs, 8);
    } else {
      BlocksGrowth(c, n, i - 1);
      ManyReturnsAt(n, i - 1);
      BlockGrowth(c, xs, 6 + 2 * i);
    }
  }

  /** A label grows by nothing, a value return by 63 words. */
  lemma BlockGrowth(c: Ctx, xs: seq<Insn>, k: nat)
    requires k + 2 <= |xs| && c.scan == ReturnsScan() && c.sig == ReturnsSig() && c.paramIds == []
    requires S.PlaceAt(c, xs, k).inFn && S.PlaceAt(c, xs, k).model
    requires xs[k].op == OP_LABEL && xs[k + 1] == Insn(OP_RETURN_VALUE, [5])
    ensures S.PlaceAt(c, xs, k + 2) == S.Place(true, true, true)
    ensures S.Growth(c, xs, k + 2) == S.Growth(c, xs, k) + 63
  {
    assert S.PlaceAt(c, xs, k + 1) == S.PlaceAt(c, xs, k);
    assert S.Growth(c, xs, k + 1) == S.Growth(c, xs, k);
  }

  /** THE ALLOCATION IS EXCEEDED: a module that passes every check of the pass, with n value
      returns of eight members, fits exactly when n is at most ten. */
  lemma ManyReturnsOverflow(n: nat, bound: nat)
    ensures Rewrite(ManyReturns(n), bound, NAME, Vertex).Ok?
    ensures S.Size(Rewrite(ManyReturns(n), bound, NAME, Vertex).value.out) == S.Size(ManyReturns(n)) + 63 * n + 121
    ensures S.Size(Rewrite(ManyReturns(n), bound, NAME, Vertex).value.out) > S.Size(ManyReturns(n)) + S.Slack(NAME) <==>
            n >= 11
  {
    var xs := ManyReturns(n);
    var c := ManyReturnsRewrites(n, bound);
    S.SizeExact(xs, bound, NAME, Vertex);
    BlocksGrowth(c, n, n);
    assert xs[8 + 2 * n] == Insn(OP_FUNCTION_END, []);
    assert S.Growth(c, xs, 9 + 2 * n) == S.Growth(c, xs, 8 + 2 * n);
  }
}
