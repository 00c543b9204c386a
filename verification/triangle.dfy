/** The vertex module of the triangle example, as its disassembly lists it: the meaning
    theorem covers it, with both of its conversions whose results are read. */
module Triangle {
  import opened Wrappers
  import opened Spirv
  import opened SignatureTransform
  import opened Machine
  import opened Meaning
  import opened MeaningTheorem
  import opened Samples

  /** "triangle_vertex" and "reg2mem alloca point". */
  const ENTRY_NAME: seq<nat> := [116, 114, 105, 97, 110, 103, 108, 101, 95, 118, 101, 114, 116, 101, 120]
  const LOCAL_NAME: seq<nat> := [114, 101, 103, 50, 109, 101, 109, 32, 97, 108, 108, 111, 99, 97, 32, 112, 111, 105,
    110, 116]

  const BOUND: nat := 87

  function Preamble(): seq<Insn> {
    [Insn(OP_CAPABILITY, [CAP_SHADER]), Insn(OP_CAPABILITY, [11]), Insn(OP_CAPABILITY, [39]), Insn(OP_CAPABILITY, [5]),
     Insn(OP_MEMORY_MODEL, [0, 1]), Insn(3, [0, 0]),
     Insn(OP_NAME, [29] + PackString(ENTRY_NAME)), Insn(OP_NAME, [16] + PackString(LOCAL_NAME)),
     Insn(OP_DECORATE, [3, 10]), Insn(OP_DECORATE, [29, 41] + PackString(ENTRY_NAME) + [0])]
  }

  /** Ids 1 to 14, in order. */
  function Types(): seq<Insn> {
    [Insn(OP_TYPE_FLOAT, [1, 32]), Insn(OP_TYPE_VECTOR, [2, 1, 4]), Insn(OP_TYPE_STRUCT, [3, 2]),
     Insn(OP_TYPE_VECTOR, [4, 1, 2]), Insn(OP_TYPE_POINTER, [5, 7, 4]), Insn(OP_TYPE_INT, [6, 64, 0]),
     Insn(OP_TYPE_INT, [7, 32, 0]), Insn(OP_CONSTANT, [7, 8, 3]), Insn(28, [9, 4, 8]),
     Insn(OP_TYPE_POINTER, [10, 7, 9]), Insn(OP_CONSTANT, [6, 11, 2, 0]), Insn(OP_CONSTANT, [6, 12, 1, 0]),
     Insn(OP_TYPE_INT, [13, 8, 0]), Insn(OP_TYPE_POINTER, [14, 7, 13])]
  }

  /** Ids 15 to 28, in order. */
  function Constants(): seq<Insn> {
    [Insn(OP_TYPE_FUNCTION, [15, 3, 7]),
     Insn(OP_CONSTANT, [7, 16, 0]), Insn(OP_CONSTANT, [1, 17, 0]), Insn(OP_CONSTANT, [1, 18, 0x3F40_0000]),
     Insn(44, [4, 19, 17, 18]), Insn(OP_CONSTANT, [1, 20, 0xBF40_0000]), Insn(44, [4, 21, 20, 20]),
     Insn(44, [4, 22, 18, 20]), Insn(OP_UNDEF, [4, 23]), Insn(OP_UNDEF, [1, 24]),
     Insn(OP_CONSTANT, [1, 25, 0x3F80_0000]), Insn(OP_SPEC_CONSTANT_OP, [1, 26, OP_BITCAST, 24]),
     Insn(44, [2, 27, 26, 26, 17, 25]), Insn(OP_UNDEF, [3, 28])]
  }

  function Opening(): seq<Insn> {
    [Insn(OP_FUNCTION, [3, 29, 4, 15]), Insn(OP_FUNCTION_PARAMETER, [7, 30]), Insn(OP_LABEL, [43]),
     Insn(OP_VARIABLE, [10, 31, 7]), Insn(OP_BITCAST, [14, 32, 31]), Insn(OP_LIFETIME_START, [32, 24]),
     Insn(OP_BITCAST, [5, 33, 31])]
  }

  function Middle(): seq<Insn> {
    [Insn(OP_STORE, [33, 19, 2, 8]), Insn(66, [5, 34, 31, 12]),
     Insn(OP_STORE, [34, 21, 2, 8]), Insn(66, [5, 35, 31, 11]), Insn(OP_STORE, [35, 22, 2, 8]),
     Insn(113, [6, 36, 30]), Insn(66, [5, 37, 31, 36]), Insn(OP_LOAD, [4, 38, 37, 2, 8])]
  }

  function Closing(): seq<Insn> {
    [Insn(79, [2, 39, 38, 23, 0, 1, 0xFFFF_FFFF, 0xFFFF_FFFF]), Insn(79, [2, 40, 39, 27, 0, 1, 6, 7]),
     Insn(OP_BITCAST, [14, 41, 31]), Insn(OP_LIFETIME_STOP, [41, 24]), Insn(82, [3, 42, 40, 28, 0]),
     Insn(OP_RETURN_VALUE, [42]), Insn(OP_FUNCTION_END, [])]
  }

  function VertexModule(): seq<Insn> { Preamble() + Types() + Constants() + Opening() + Middle() + Closing() }

  // ----- the grammar that is used -----

  /** Operands that are not ids. */
  predicate Literal(op: nat, i: nat) {
    (op, i) in {(OP_TYPE_FLOAT, 1), (OP_TYPE_INT, 1), (OP_CONSTANT, 2), (OP_SPEC_CONSTANT_OP, 2)}
      || (op == 79 && i >= 4)
  }

  /** What the theorem needs to know of the operand grammar: OpSource and OpName have no
      result, composites and pointer and value operations have a typed one. */
  ghost predicate Grammar(m: Semantics) {
    && m.form(3) == NoResult && m.form(OP_NAME) == NoResult
    && (forall op :: op in {44, 66, 79, 82, 113} ==> m.form(op) == Typed)
    && (forall op: nat, i: nat :: Literal(op, i) ==> !m.isId(op, i))
  }

  const DEAD: set<nat> := {32, 41}

  /** Every operand is a literal or an id below the bound that is not dead. */
  predicate Tidy(x: Insn) {
    forall i :: 0 <= i < |x.args| ==> Literal(x.op, i) || (x.args[i] < BOUND && x.args[i] !in DEAD)
  }

  /** The id an instruction defines, under the grammar. */
  function Defines(x: Insn): Option<nat> {
    if x.op in {3, OP_NAME, OP_CAPABILITY, OP_MEMORY_MODEL, OP_DECORATE, OP_STORE, OP_FUNCTION_END, OP_RETURN_VALUE,
                OP_LIFETIME_START, OP_LIFETIME_STOP} then None
    else if 19 <= x.op <= 38 || x.op == OP_LABEL then if |x.args| >= 1 then Some(x.args[0]) else None
    else if |x.args| >= 2 then Some(x.args[1]) else None
  }

  predicate Used(op: nat) {
    op in {3, OP_NAME, OP_CAPABILITY, OP_MEMORY_MODEL, OP_DECORATE, OP_STORE, OP_FUNCTION_END, OP_RETURN_VALUE,
           OP_LIFETIME_START, OP_LIFETIME_STOP, OP_LABEL, OP_UNDEF, OP_CONSTANT, OP_SPEC_CONSTANT_OP, OP_FUNCTION,
           OP_FUNCTION_PARAMETER, OP_VARIABLE, OP_LOAD, OP_BITCAST, 44, 66, 79, 82, 113}
    || 19 <= op <= 38
  }

  lemma DefinesIs(m: Semantics, x: Insn)
    requires Grammar(m) && Used(x.op)
    ensures ResultId(m, x) == Defines(x)
  {
  }

  // ----- instruction by instruction -----

  lemma VertexAt()
    ensures |VertexModule()| == 60
    ensures forall i :: 0 <= i < 10 ==> VertexModule()[i] == Preamble()[i]
    ensures forall i :: 10 <= i < 24 ==> VertexModule()[i] == Types()[i - 10]
    ensures forall i :: 24 <= i < 38 ==> VertexModule()[i] == Constants()[i - 24]
    ensures forall i :: 38 <= i < 45 ==> VertexModule()[i] == Opening()[i - 38]
    ensures forall i :: 45 <= i < 53 ==> VertexModule()[i] == Middle()[i - 45]
    ensures forall i :: 53 <= i < 60 ==> VertexModule()[i] == Closing()[i - 53]
  {
  }

  function VertexScan(): Scan { Scan(true, Some(29), 0, 7, 16, [5, 10, 14], [32, 41]) }

  /** Instructions that look at nothing. */
  predicate Blind(op: nat) {
    op in {3, OP_NAME, OP_CAPABILITY, OP_MEMORY_MODEL, OP_DECORATE, OP_LIFETIME_START, OP_LIFETIME_STOP, OP_LABEL,
      OP_FUNCTION, OP_FUNCTION_PARAMETER, OP_FUNCTION_END, OP_VARIABLE}
  }

  predicate Low(x: Insn) { forall i :: 0 <= i < |x.args| ==> Literal(x.op, i) || x.args[i] < BOUND }

  predicate Fine(x: Insn) {
    && Used(x.op) && (Defines(x).Some? ==> Defines(x).value < BOUND)
    && (Blind(x.op) || (Low(x) && (Tidy(x) || (IsPointerBitcast(VertexScan(), x) && x.args[1] in DEAD))))
    && (x.op == OP_VARIABLE ==> |x.args| == 3)
  }

  /** Where each id is defined. */
  function Where(id: nat): nat {
    if id <= 28 then id + 9
    else if id == 43 then 40
    else if id == 31 || id == 32 then id + 10
    else if id == 33 then 44
    else if id == 34 then 46
    else if id == 35 then 48
    else if 36 <= id <= 41 then id + 14
    else if id == 42 then 57
    else id + 9
  }

  /** What is needed of the instruction at index k. */
  predicate Placed(x: Insn, k: nat) {
    && Fine(x) && (Defines(x).Some? ==> Where(Defines(x).value) == k) && !Calls(x, 29)
    && (x.op == OP_FUNCTION ==> k == 38) && (k > 38 && x.op == OP_FUNCTION_END ==> k == 59)
  }

  lemma PreambleFine(i: nat)
    requires i < 10
    ensures Placed(Preamble()[i], 0 + i) && !Converted(VertexScan(), Preamble()[i])
  {
  }

  lemma TypesFine(i: nat)
    requires i < 14
    ensures Placed(Types()[i], 10 + i) && !Converted(VertexScan(), Types()[i])
  {
  }

  lemma ConstantsFine(i: nat)
    requires i < 14
    ensures Placed(Constants()[i], 24 + i) && (Converted(VertexScan(), Constants()[i]) <==> i == 11)
  {
  }

  lemma OpeningFine(i: nat)
    requires i < 7
    ensures Placed(Opening()[i], 38 + i) && (Converted(VertexScan(), Opening()[i]) <==> i == 4 || i == 6)
  {
  }

  lemma MiddleFine(i: nat)
    requires i < 8
    ensures Placed(Middle()[i], 45 + i) && !Converted(VertexScan(), Middle()[i])
  {
  }

  lemma ClosingFine(i: nat)
    requires i < 7
    ensures Placed(Closing()[i], 53 + i) && (Converted(VertexScan(), Closing()[i]) <==> i == 2)
  {
  }

  /** All of that, for the whole module. */
  lemma VertexFine(i: nat)
    requires i < 60
    ensures |VertexModule()| == 60 && Placed(VertexModule()[i], i)
    ensures Converted(VertexScan(), VertexModule()[i]) <==> i in {35, 42, 44, 55}
  {
    VertexAt();
    if i < 10 {
      PreambleFine(i);
    } else if i < 24 {
      TypesFine(i - 10);
    } else if i < 38 {
      ConstantsFine(i - 24);
    } else if i < 45 {
      OpeningFine(i - 38);
    } else if i < 53 {
      MiddleFine(i - 45);
    } else {
      ClosingFine(i - 53);
    }
  }

  lemma FineIsOk(m: Semantics, x: Insn, c: Ctx)
    requires Grammar(m) && Fine(x) && c.scan == VertexScan()
    ensures InsnOk(m, x, c, BOUND, DEAD)
  {
    DefinesIs(m, x);
    if !Blind(x.op) {
      forall id | id in Reads(m, x) ensures id < BOUND && (Tidy(x) ==> id !in DEAD) { ReadIsArgument(m, x, id); }
    }
  }

  lemma ReadIsArgument(m: Semantics, x: Insn, id: nat)
    requires Grammar(m) && Fine(x) && !Blind(x.op) && id in Reads(m, x)
    ensures exists i :: 0 <= i < |x.args| && x.args[i] == id && !Literal(x.op, i)
  {
    DefinesIs(m, x);
    if x.op in {OP_LOAD, OP_STORE, OP_RETURN_VALUE} {
      assert !Literal(x.op, 0) && !Literal(x.op, 1) && !Literal(x.op, 2);
    } else {
      var i :| 0 <= i < |x.args| && IsRef(m, x, i) && x.args[i] == id;
    }
  }

  // ----- the scan -----

  lemma {:induction false} ScanOver(xs: seq<Insn>, lo: nat, n: nat, name: seq<nat>, s: nat -> Scan)
    requires lo + n <= |xs| && ScanPrefix(xs, lo, name) == s(0)
    requires forall i: nat :: i < n ==> ScanStep(s(i), xs[lo + i], name) == s(i + 1)
    ensures ScanPrefix(xs, lo + n, name) == s(n)
  {
    if n > 0 { ScanOver(xs, lo, n - 1, name, s); }
  }

  lemma NamesDiffer(s: seq<nat>, t: seq<nat>)
    requires IsName(s) && IsName(t) && |s| != |t|
    ensures Holds(PackString(s), s) && !Holds(PackString(t), s)
  {
    PackStringRoundTrip(s, s);
    PackStringRoundTrip(t, s);
  }

  lemma Names()
    ensures Holds(PackString(ENTRY_NAME), ENTRY_NAME) && !Holds(PackString(LOCAL_NAME), ENTRY_NAME)
  {
    NamesDiffer(ENTRY_NAME, LOCAL_NAME);
  }

  function AfterPreamble(i: nat): Scan { Scan(i > 0, if i > 6 then Some(29) else None, 0, 0, 0, [], []) }

  lemma PreambleScan(i: nat)
    requires i < 10
    ensures ScanStep(AfterPreamble(i), Preamble()[i], ENTRY_NAME) == AfterPreamble(i + 1)
  {
    Names();
    if i == 6 { assert Preamble()[6].args[1..] == PackString(ENTRY_NAME); }
    if i == 7 { assert Preamble()[7].args[1..] == PackString(LOCAL_NAME); }
  }

  function AfterTypes(i: nat): Scan {
    Scan(true, Some(29), 0, if i > 6 then 7 else 0, 0,
         (if i > 4 then [5] else []) + (if i > 9 then [10] else []) + (if i > 13 then [14] else []), [])
  }

  lemma TypesScan(i: nat)
    requires i < 14
    ensures ScanStep(AfterTypes(i), Types()[i], ENTRY_NAME) == AfterTypes(i + 1)
  {
  }

  function AfterConstants(i: nat): Scan { Scan(true, Some(29), 0, 7, if i > 1 then 16 else 0, [5, 10, 14], []) }

  lemma ConstantsScan(i: nat)
    requires i < 14
    ensures ScanStep(AfterConstants(i), Constants()[i], ENTRY_NAME) == AfterConstants(i + 1)
  {
  }

  function AfterCode(i: nat): Scan {
    Scan(true, Some(29), 0, 7, 16, [5, 10, 14], (if i > 5 then [32] else []) + (if i > 18 then [41] else []))
  }

  lemma CodeScan(i: nat)
    requires i < 22
    ensures ScanStep(AfterCode(i), VertexModule()[38 + i], ENTRY_NAME) == AfterCode(i + 1)
  {
    VertexAt();
    if i < 7 {
      assert VertexModule()[38 + i] == Opening()[i];
    } else if i < 15 {
      assert VertexModule()[38 + i] == Middle()[i - 7];
    } else {
      assert VertexModule()[38 + i] == Closing()[i - 15];
    }
  }

  lemma PreambleScanned(xs: seq<Insn>)
    requires |xs| == 60 && forall i :: 0 <= i < 10 ==> xs[i] == Preamble()[i]
    ensures ScanPrefix(xs, 10, ENTRY_NAME) == AfterPreamble(10)
  {
    forall i: nat | i < 10
      ensures ScanStep(AfterPreamble(i), xs[0 + i], ENTRY_NAME) == AfterPreamble(i + 1)
    {
      PreambleScan(i);
    }
    ScanOver(xs, 0, 10, ENTRY_NAME, AfterPreamble);
  }

  lemma TypesScanned(xs: seq<Insn>)
    requires |xs| == 60 && forall i :: 10 <= i < 24 ==> xs[i] == Types()[i - 10]
    requires ScanPrefix(xs, 10, ENTRY_NAME) == AfterPreamble(10)
    ensures ScanPrefix(xs, 24, ENTRY_NAME) == AfterTypes(14)
  {
    assert AfterPreamble(10) == AfterTypes(0);
    forall i: nat | i < 14 ensures ScanStep(AfterTypes(i), xs[10 + i], ENTRY_NAME) == AfterTypes(i + 1) {
      assert xs[10 + i] == Types()[i];
      TypesScan(i);
    }
    ScanOver(xs, 10, 14, ENTRY_NAME, AfterTypes);
  }

  lemma ConstantsScanned(xs: seq<Insn>)
    requires |xs| == 60 && forall i :: 24 <= i < 38 ==> xs[i] == Constants()[i - 24]
    requires ScanPrefix(xs, 24, ENTRY_NAME) == AfterTypes(14)
    ensures ScanPrefix(xs, 38, ENTRY_NAME) == AfterConstants(14)
  {
    assert AfterTypes(14) == AfterConstants(0);
    forall i: nat | i < 14 ensures ScanStep(AfterConstants(i), xs[24 + i], ENTRY_NAME) == AfterConstants(i + 1) {
      assert xs[24 + i] == Constants()[i];
      ConstantsScan(i);
    }
    ScanOver(xs, 24, 14, ENTRY_NAME, AfterConstants);
  }

  lemma CodeScanned(xs: seq<Insn>)
    requires |xs| == 60 && ScanPrefix(xs, 38, ENTRY_NAME) == AfterConstants(14)
    requires forall i: nat :: i < 22 ==> ScanStep(AfterCode(i), xs[38 + i], ENTRY_NAME) == AfterCode(i + 1)
    ensures ScanPrefix(xs, 60, ENTRY_NAME) == VertexScan()
  {
    assert AfterConstants(14) == AfterCode(0);
    ScanOver(xs, 38, 22, ENTRY_NAME, AfterCode);
  }

  lemma Scanned()
    ensures |VertexModule()| == 60 && ScanPrefix(VertexModule(), 60, ENTRY_NAME) == VertexScan()
  {
    VertexAt();
    PreambleScanned(VertexModule());
    TypesScanned(VertexModule());
    ConstantsScanned(VertexModule());
    forall i: nat | i < 22
      ensures ScanStep(AfterCode(i), VertexModule()[38 + i], ENTRY_NAME) == AfterCode(i + 1)
    {
      CodeScan(i);
    }
    CodeScanned(VertexModule());
  }

  // ----- the theorem applies -----

  function VertexSig(): Sig { Sig(29, true, [2], [7]) }

  lemma LandmarksAt()
    ensures |VertexModule()| == 60 && VertexModule()[38] == Insn(OP_FUNCTION, [3, 29, 4, 15])
    ensures VertexModule()[24] == Insn(OP_TYPE_FUNCTION, [15, 3, 7])
    ensures VertexModule()[12] == Insn(OP_TYPE_STRUCT, [3, 2])
    ensures VertexModule()[39] == Insn(OP_FUNCTION_PARAMETER, [7, 30]) && VertexModule()[40] == Insn(OP_LABEL, [43])
    ensures VertexModule()[59] == Insn(OP_FUNCTION_END, []) && VertexModule()[4].op == OP_MEMORY_MODEL
    ensures VertexModule()[33] == Insn(OP_UNDEF, [1, 24]) && VertexModule()[25] == Insn(OP_CONSTANT, [7, 16, 0])
    ensures VertexModule()[35] == Insn(OP_SPEC_CONSTANT_OP, [1, 26, OP_BITCAST, 24])
    ensures VertexModule()[44] == Insn(OP_BITCAST, [5, 33, 31])
    ensures VertexModule()[42] == Insn(OP_BITCAST, [14, 32, 31]) && VertexModule()[55] == Insn(OP_BITCAST, [14, 41, 31])
  {
    VertexAt();
    assert VertexModule()[24] == Constants()[0] && VertexModule()[25] == Constants()[1];
    assert VertexModule()[33] == Constants()[9] && VertexModule()[35] == Constants()[11];
    assert VertexModule()[44] == Opening()[6] && VertexModule()[42] == Opening()[4]
      && VertexModule()[55] == Closing()[2];
  }

  /** The first function, and the types that are looked up, stand where they are. */
  lemma Landmarks(i: nat)
    requires i < 60
    ensures |VertexModule()| == 60
    ensures var x := VertexModule()[i];
            && (x.op == OP_FUNCTION ==> i == 38) && (IsTypeFunction(15)(x) ==> i == 24)
            && (IsReturnType(3)(x) ==> i == 12)
  {
    VertexFine(i);
  }

  lemma Signature(xs: seq<Insn>)
    requires xs == VertexModule()
    ensures Analyse(xs, VertexScan()) == Ok(VertexSig())
  {
    LandmarksAt();
    forall i | 0 <= i < 60
      ensures (xs[i].op == OP_FUNCTION ==> i == 38) && (IsTypeFunction(15)(xs[i]) ==> i == 24)
      ensures (IsReturnType(3)(xs[i]) ==> i == 12)
    {
      Landmarks(i);
    }
    SignatureFrom(xs);
  }

  lemma SignatureFrom(xs: seq<Insn>)
    requires |xs| == 60 && xs[38] == Insn(OP_FUNCTION, [3, 29, 4, 15])
    requires xs[24] == Insn(OP_TYPE_FUNCTION, [15, 3, 7]) && xs[12] == Insn(OP_TYPE_STRUCT, [3, 2])
    requires forall i :: 0 <= i < 60 ==>
      (xs[i].op == OP_FUNCTION ==> i == 38) && (IsTypeFunction(15)(xs[i]) ==> i == 24)
        && (IsReturnType(3)(xs[i]) ==> i == 12)
    ensures Analyse(xs, VertexScan()) == Ok(VertexSig())
  {
    FirstIs(xs, IsEntry(29), 38);
    FirstIs(xs, IsTypeFunction(15), 24);
    FirstIs(xs, IsReturnType(3), 12);
    assert xs[24].args[2..] == [7] && xs[12].args[1..] == [2];
  }

  lemma TriangleContext(xs: seq<Insn>) returns (c: Ctx)
    requires xs == VertexModule()
    ensures Rewrite(xs, BOUND, ENTRY_NAME, Vertex).Ok? && c == ContextOf(xs, BOUND, ENTRY_NAME, Vertex)
    ensures c.scan == VertexScan() && c.sig == VertexSig() && c.ids.uintZero == 16 && c.paramIds == ParamIds(xs, c.sig)
  {
    Scanned();
    Signature(xs);
    LandmarksAt();
    Rewrites(xs, BOUND, ENTRY_NAME, Vertex, 4);
    c := ContextOf(xs, BOUND, ENTRY_NAME, Vertex);
  }

  lemma TriangleParams(xs: seq<Insn>)
    requires xs == VertexModule()
    ensures ParamIds(xs, VertexSig()) == [30] && FirstIndex(xs, IsFunctionNamed(29), 0) == 38
    ensures FirstIndex(xs, IsFunction(), 0) == 38 && FirstIndex(xs, IsFunctionEnd(), 38) == 59
  {
    LandmarksAt();
    forall i | 0 <= i < 60
      ensures (xs[i].op == OP_FUNCTION ==> i == 38) && (i > 38 && xs[i].op == OP_FUNCTION_END ==> i == 59)
    {
      VertexFine(i);
    }
    ParamsFrom(xs);
  }

  lemma ParamsFrom(xs: seq<Insn>)
    requires |xs| == 60 && xs[38] == Insn(OP_FUNCTION, [3, 29, 4, 15])
    requires xs[39] == Insn(OP_FUNCTION_PARAMETER, [7, 30]) && xs[40] == Insn(OP_LABEL, [43])
    requires xs[59] == Insn(OP_FUNCTION_END, [])
    requires forall i :: 0 <= i < 60 ==>
               (xs[i].op == OP_FUNCTION ==> i == 38) && (i > 38 && xs[i].op == OP_FUNCTION_END ==> i == 59)
    ensures ParamIds(xs, VertexSig()) == [30] && FirstIndex(xs, IsFunctionNamed(29), 0) == 38
    ensures FirstIndex(xs, IsFunction(), 0) == 38 && FirstIndex(xs, IsFunctionEnd(), 38) == 59
  {
    FirstIs(xs, IsFunctionNamed(29), 38);
    FirstIs(xs, IsFunction(), 38);
    assert ParamRun(xs, 40, 0) == [];
    assert ParamRun(xs, 39, 1) == [30];
    EndFrom(xs, 38);
  }

  lemma {:induction false} EndFrom(xs: seq<Insn>, k: nat)
    requires |xs| == 60 && k <= 59 && IsFunctionEnd()(xs[59]) && forall i :: k <= i < 59 ==> !IsFunctionEnd()(xs[i])
    ensures FirstIndex(xs, IsFunctionEnd(), k) == 59
  {
  }

  /** The conversions whose results are read: the cast of an OpUndef, and the cast that is
      stored through. */
  const READ: set<nat> := {26, 33}

  lemma TriangleDead(xs: seq<Insn>)
    requires xs == VertexModule()
    ensures Dead(xs, VertexScan(), READ) == DEAD
  {
    LandmarksAt();
    forall i | 0 <= i < 60 && Converted(VertexScan(), xs[i]) ensures i in {35, 42, 44, 55} { VertexFine(i); }
    assert Converted(VertexScan(), xs[42]) && Converted(VertexScan(), xs[55]);
    assert forall id :: id in Dead(xs, VertexScan(), READ) ==> id in DEAD;
  }

  lemma TriangleSingle(m: Semantics, xs: seq<Insn>)
    requires xs == VertexModule() && Grammar(m)
    ensures SingleAssignment(m, xs)
  {
    LandmarksAt();
    forall i, j | 0 <= i < j < 60 ensures DefineDifferent(m, xs[i], xs[j]) {
      VertexFine(i);
      VertexFine(j);
      DefinesIs(m, xs[i]);
      DefinesIs(m, xs[j]);
    }
  }

  lemma TriangleInsns(m: Semantics, xs: seq<Insn>, c: Ctx)
    requires xs == VertexModule() && Grammar(m) && c.scan == VertexScan()
    ensures forall i :: 0 <= i < |xs| ==> InsnOk(m, xs[i], c, BOUND, DEAD)
  {
    LandmarksAt();
    forall i | 0 <= i < 60 ensures InsnOk(m, xs[i], c, BOUND, DEAD) {
      VertexFine(i);
      FineIsOk(m, xs[i], c);
    }
  }

  lemma TriangleShape(xs: seq<Insn>, c: Ctx)
    requires xs == VertexModule() && c.sig == VertexSig()
    ensures EntryShape(xs, c) && EntryIndex(xs, c) == 38 && EndIndex(xs, c) == 59
  {
    LandmarksAt();
    TriangleParams(xs);
    forall i | 0 <= i < 60 ensures !Calls(xs[i], 29) && (xs[i].op == OP_FUNCTION ==> i == 38) { VertexFine(i); }
    ShapeFrom(xs, c);
  }

  lemma ShapeFrom(xs: seq<Insn>, c: Ctx)
    requires |xs| == 60 && c.sig == VertexSig() && EntryIndex(xs, c) == 38 && EndIndex(xs, c) == 59
    requires xs[38] == Insn(OP_FUNCTION, [3, 29, 4, 15]) && IsParam(xs[39]) && xs[40].op == OP_LABEL
    requires xs[4].op == OP_MEMORY_MODEL && xs[12].op == OP_TYPE_STRUCT
    requires forall i :: 0 <= i < 60 ==> !Calls(xs[i], 29) && (xs[i].op == OP_FUNCTION ==> i == 38)
    ensures EntryShape(xs, c)
  {
    assert IsTypeOp(xs[12].op);
  }

  lemma UndefReads(m: Semantics, y: Insn)
    requires y == Insn(OP_UNDEF, [1, 26])
    ensures ResultId(m, y) == Some(26) && Reads(m, y) <= {1, 26}
  {
    assert forall i :: 0 <= i < 2 ==> y.args[i] in {1, 26};
  }

  lemma SpecTrustedFrom(m: Semantics, xs: seq<Insn>, c: Ctx)
    requires |xs| == 60 && xs[35] == Insn(OP_SPEC_CONSTANT_OP, [1, 26, OP_BITCAST, 24]) && IsUndef(xs[33], 24)
    requires FirstIndex(xs, IsFunction(), 0) == 38 && c.scan == VertexScan() && KeepsUndefined(m, c, xs[35])
    ensures IsSpecBitcast(xs[35]) && SpecTrusted(m, xs, c, BOUND, DEAD, 35)
  {
    UndefReads(m, Replacement(c, xs[35]));
  }

  lemma SpecIsTrusted(m: Semantics, xs: seq<Insn>, c: Ctx)
    requires xs == VertexModule() && c.scan == VertexScan()
    requires KeepsUndefined(m, c, Insn(OP_SPEC_CONSTANT_OP, [1, 26, OP_BITCAST, 24]))
    ensures |xs| == 60 && IsSpecBitcast(xs[35]) && SpecTrusted(m, xs, c, BOUND, DEAD, 35)
  {
    LandmarksAt();
    TriangleParams(xs);
    SpecTrustedFrom(m, xs, c);
  }

  lemma CastReads(m: Semantics, x: Insn)
    requires x == Insn(OP_BITCAST, [5, 33, 31])
    ensures Reads(m, x) <= {5, 33, 31}
  {
    assert forall i :: 0 <= i < 3 ==> x.args[i] in {5, 33, 31};
  }

  lemma CastTrustedFrom(m: Semantics, xs: seq<Insn>, c: Ctx)
    requires |xs| == 60 && xs[44] == Insn(OP_BITCAST, [5, 33, 31]) && FirstIndex(xs, IsFunction(), 0) == 38
    requires c.scan == VertexScan() && c.paramIds == [30] && AddressesFirst(m, c, xs[44])
    ensures Converted(c.scan, xs[44]) && CastTrusted(m, xs, c, 44)
  {
    CastReads(m, xs[44]);
  }

  lemma CastIsTrusted(m: Semantics, xs: seq<Insn>, c: Ctx)
    requires xs == VertexModule() && c.scan == VertexScan() && c.paramIds == [30]
    requires AddressesFirst(m, c, Insn(OP_BITCAST, [5, 33, 31]))
    ensures |xs| == 60 && !IsSpecBitcast(xs[44]) && Converted(c.scan, xs[44]) && CastTrusted(m, xs, c, 44)
  {
    LandmarksAt();
    TriangleParams(xs);
    CastTrustedFrom(m, xs, c);
  }

  lemma TriangleTrusted(m: Semantics, xs: seq<Insn>, c: Ctx, i: nat)
    requires xs == VertexModule() && Grammar(m) && c.scan == VertexScan() && c.paramIds == [30] && i < |xs|
    requires AddressesFirst(m, c, Insn(OP_BITCAST, [5, 33, 31]))
    requires KeepsUndefined(m, c, Insn(OP_SPEC_CONSTANT_OP, [1, 26, OP_BITCAST, 24]))
    ensures TrustedOk(m, xs, c, BOUND, DEAD, i)
  {
    LandmarksAt();
    if Converted(c.scan, xs[i]) && xs[i].args[1] !in DEAD {
      VertexFine(i);
      if i == 35 { SpecIsTrusted(m, xs, c); } else { CastIsTrusted(m, xs, c); }
    }
  }

  lemma TriangleZero(m: Semantics, xs: seq<Insn>, c: Ctx)
    requires xs == VertexModule() && Grammar(m) && c.ids.uintZero == 16
    ensures ZeroStands(m, xs, c)
  {
    LandmarksAt();
    TriangleParams(xs);
    assert IsZeroConstant(xs[25], 16);
    assert Literal(OP_CONSTANT, 2);
  }

  lemma TriangleHolds(m: Semantics, xs: seq<Insn>, c: Ctx)
    requires xs == VertexModule() && Grammar(m) && c.scan == VertexScan() && c.sig == VertexSig()
    requires c.paramIds == [30] && c.ids.uintZero == 16
    requires AddressesFirst(m, c, Insn(OP_BITCAST, [5, 33, 31]))
    requires KeepsUndefined(m, c, Insn(OP_SPEC_CONSTANT_OP, [1, 26, OP_BITCAST, 24]))
    ensures Accepted(m, xs, c, BOUND, READ)
  {
    TriangleShape(xs, c);
    TriangleSingle(m, xs);
    TriangleInsns(m, xs, c);
    TriangleDead(xs);
    TriangleZero(m, xs, c);
    forall i | 0 <= i < |xs| ensures TrustedOk(m, xs, c, BOUND, DEAD, i) { TriangleTrusted(m, xs, c, i); }
  }

  /** The semantics agrees with the two replacements that are read: the pointer cast
      addresses element 0 of the array, and the cast of an undefined float is undefined. */
  ghost predicate Agrees(m: Semantics, c: Ctx)
    requires c.scan == VertexScan()
  {
    && AddressesFirst(m, c, Insn(OP_BITCAST, [5, 33, 31]))
    && KeepsUndefined(m, c, Insn(OP_SPEC_CONSTANT_OP, [1, 26, OP_BITCAST, 24]))
  }

  /** THE EXAMPLE IS COVERED: the pass accepts the triangle's vertex module, and under the
      grammar of its operands the meaning theorem applies to it, for every semantics that
      agrees with the replacements. */
  lemma TriangleAccepted(m: Semantics) returns (c: Ctx)
    requires Grammar(m)
    ensures Rewrite(VertexModule(), BOUND, ENTRY_NAME, Vertex).Ok?
    ensures c == ContextOf(VertexModule(), BOUND, ENTRY_NAME, Vertex)
    ensures c.scan == VertexScan() && (Agrees(m, c) ==> Accepted(m, VertexModule(), c, BOUND, READ))
  {
    c := TriangleContext(VertexModule());
    TriangleCovered(m, VertexModule(), c);
  }

  lemma TriangleCovered(m: Semantics, xs: seq<Insn>, c: Ctx)
    requires xs == VertexModule() && Grammar(m) && c.scan == VertexScan() && c.sig == VertexSig()
    requires c.paramIds == ParamIds(xs, c.sig) && c.ids.uintZero == 16
    ensures Agrees(m, c) ==> Accepted(m, xs, c, BOUND, READ)
  {
    TriangleParams(xs);
    if Agrees(m, c) { TriangleHolds(m, xs, c); }
  }
}
