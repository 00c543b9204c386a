/** The triangle's vertex module, rewritten: the pass produces the instructions of the
    repository's triangle_vertex.spv from those of its triangle_vertex.raw.spv, one for one. */
module VertexOutput {
  import opened Wrappers
  import opened Spirv
  import opened SignatureTransform
  import opened MeaningTheorem
  import opened Triangle

  function OutPreamble(): seq<Insn> {
    [Insn(17, [1]), Insn(17, [11]), Insn(17, [39]), Insn(14, [0, 1]),
     Insn(15, [0, 29, 1634300532, 1701603182, 1919252063, 7890292, 90, 92]), Insn(3, [0, 0]),
     Insn(5, [29, 1634300532, 1701603182, 1919252063, 7890292]),
     Insn(5, [16, 845636978, 544040301, 1869376609, 1881170275, 1953393007, 0])]
  }

  function OutTypes(): seq<Insn> {
    [Insn(71, [90, 11, 0]), Insn(71, [92, 11, 42]), Insn(22, [1, 32]), Insn(23, [2, 1, 4]), Insn(30, [3, 2]),
     Insn(23, [4, 1, 2]), Insn(32, [5, 7, 4]), Insn(21, [6, 64, 0]), Insn(21, [7, 32, 0]), Insn(43, [7, 8, 3]),
     Insn(28, [9, 4, 8]), Insn(32, [10, 7, 9]), Insn(43, [6, 11, 2, 0]), Insn(43, [6, 12, 1, 0]),
     Insn(21, [13, 8, 0]), Insn(32, [14, 7, 13])]
  }

  function OutConstants(): seq<Insn> {
    [Insn(33, [15, 3, 7]), Insn(43, [7, 16, 0]), Insn(43, [1, 17, 0]), Insn(43, [1, 18, 1061158912]),
     Insn(44, [4, 19, 17, 18]), Insn(43, [1, 20, 3208642560]), Insn(44, [4, 21, 20, 20]),
     Insn(44, [4, 22, 18, 20]), Insn(1, [4, 23]), Insn(1, [1, 24]), Insn(43, [1, 25, 1065353216]),
     Insn(1, [1, 26]), Insn(44, [2, 27, 26, 26, 17, 25]), Insn(1, [3, 28])]
  }

  function OutGlobals(): seq<Insn> {
    [Insn(19, [87]), Insn(33, [88, 87]), Insn(32, [89, 3, 2]), Insn(59, [89, 90, 3]), Insn(32, [91, 1, 7]),
     Insn(59, [91, 92, 1])]
  }

  function OutOpening(): seq<Insn> {
    [Insn(54, [87, 29, 0, 88]), Insn(248, [43]), Insn(59, [10, 31, 7]), Insn(65, [5, 33, 31, 16])]
  }

  function OutMiddle(): seq<Insn> {
    [Insn(61, [7, 30, 92]), Insn(62, [33, 19, 2, 8]), Insn(66, [5, 34, 31, 12]), Insn(62, [34, 21, 2, 8]),
     Insn(66, [5, 35, 31, 11]), Insn(62, [35, 22, 2, 8]), Insn(113, [6, 36, 30]), Insn(66, [5, 37, 31, 36]),
     Insn(61, [4, 38, 37, 2, 8])]
  }

  function OutClosing(): seq<Insn> {
    [Insn(79, [2, 39, 38, 23, 0, 1, 4294967295, 4294967295]), Insn(79, [2, 40, 39, 27, 0, 1, 6, 7]),
     Insn(82, [3, 42, 40, 28, 0]), Insn(81, [2, 93, 42, 0]), Insn(62, [90, 93]), Insn(253, []), Insn(56, [])]
  }

  function VertexSpv(): seq<Insn> {
    OutPreamble() + OutTypes() + OutConstants() + OutGlobals() + OutOpening() + OutMiddle() + OutClosing()
  }

  // ----- the context -----

  function Planned(): Synth { Synth(87, 88, [89], [90], [91], [92], 7, 16, 93) }

  function VertexCtx(): Ctx { Ctx(VertexScan(), VertexSig(), Planned(), Vertex, ENTRY_NAME, [30]) }

  lemma ContextIs()
    ensures Rewrite(VertexModule(), BOUND, ENTRY_NAME, Vertex).Ok?
    ensures ContextOf(VertexModule(), BOUND, ENTRY_NAME, Vertex) == VertexCtx()
  {
    var xs := VertexModule();
    var c := TriangleContext(xs);
    TriangleParams(xs);
    PlanIs();
  }

  lemma PlanIs()
    ensures Plan(VertexScan(), VertexSig(), BOUND) == Planned()
  {
    var p := Plan(VertexScan(), VertexSig(), BOUND);
    assert p.outPtr == [89] && p.outVar == [90] && p.inPtr == [91] && p.inVar == [92];
  }

  /** The name in words. */
  lemma NameIs()
    ensures PackString(ENTRY_NAME) == [1634300532, 1701603182, 1919252063, 7890292]
    ensures PackString(LOCAL_NAME) == [845636978, 544040301, 1869376609, 1881170275, 1953393007, 0]
  {
  }

  // ----- the emit loop, stretch by stretch -----

  /** After k instructions. */
  ghost predicate Reaches(c: Ctx, xs: seq<Insn>, k: nat, out: seq<Insn>, st: St) {
    c.Valid() && k <= |xs| && EmitPrefix(c, xs, k) == Emitted(out, st)
  }

  ghost predicate Does(c: Ctx, st: St, x: Insn, piece: seq<Insn>, f: St) {
    c.Valid() && EmitStep(c, st, x) == Emitted(piece, f)
  }

  lemma OneTurn(c: Ctx, xs: seq<Insn>, k: nat, out: seq<Insn>, st: St, piece: seq<Insn>, f: St)
    requires Reaches(c, xs, k, out, st) && k < |xs| && Does(c, st, xs[k], piece, f)
    ensures Reaches(c, xs, k + 1, out + piece, f)
  {
  }

  /** A stretch that is copied. */
  lemma {:induction false} Copied(c: Ctx, xs: seq<Insn>, k: nat, n: nat, out: seq<Insn>, st: St)
    requires Reaches(c, xs, k, out, st) && k + n <= |xs|
    requires forall i :: k <= i < k + n ==> Does(c, st, xs[i], [xs[i]], st)
    ensures Reaches(c, xs, k + n, out + xs[k..k + n], st)
    decreases n
  {
    if n > 0 {
      Copied(c, xs, k, n - 1, out, st);
      OneTurn(c, xs, k + n - 1, out + xs[k..k + n - 1], st, [xs[k + n - 1]], st);
    }
    Stretched(xs, k, n, out);
  }

  lemma Stretched(xs: seq<Insn>, k: nat, n: nat, out: seq<Insn>)
    requires k + n <= |xs|
    ensures if n == 0 then out + xs[k..k] == out
            else out + xs[k..k + n - 1] + [xs[k + n - 1]] == out + xs[k..k + n]
  {
  }

  function Before(): St { St(false, false, false, false, false, 93) }
  function Modelled(): St { St(true, false, false, false, false, 93) }
  function Typed(): St { St(true, true, false, false, false, 93) }
  function Entered(): St { St(true, true, true, true, false, 93) }
  function Loaded(): St { St(true, true, true, true, true, 93) }
  function Returned(): St { St(true, true, true, true, true, 94) }
  function Left(): St { St(true, true, true, false, true, 94) }

  /** In front of the types: Linkage and the two decorations go, the entry point comes. */
  lemma PreambleTurns(i: nat)
    requires i < 10
    ensures Does(VertexCtx(), if i <= 4 then Before() else Modelled(), Preamble()[i],
              if i == 3 || i >= 8 then []
              else if i == 4 then [Insn(14, [0, 1]),
                                   Insn(15, [0, 29, 1634300532, 1701603182, 1919252063, 7890292, 90, 92])]
              else [Preamble()[i]],
              if i < 4 then Before() else Modelled())
  {
    NameIs();
    if i == 4 { MetadataIs(); }
  }

  lemma MetadataIs()
    ensures EntryMetadata(VertexCtx()) == [Insn(15, [0, 29, 1634300532, 1701603182, 1919252063, 7890292, 90, 92])]
  {
    NameIs();
    var args := [0, 29] + PackString(ENTRY_NAME) + [90] + [92];
    assert args == [0, 29, 1634300532, 1701603182, 1919252063, 7890292, 90, 92];
    assert EntryMetadata(VertexCtx()) == [] + [Insn(15, args)] + [];
  }

  lemma PreambleEmitted(xs: seq<Insn>)
    requires |xs| == 60 && forall i :: 0 <= i < 10 ==> xs[i] == Preamble()[i]
    ensures Reaches(VertexCtx(), xs, 10, OutPreamble(), Modelled())
  {
    var c := VertexCtx();
    forall i | 0 <= i < 10
      ensures Does(c, if i <= 4 then Before() else Modelled(), xs[i],
                if i == 3 || i >= 8 then []
                else if i == 4 then [Insn(14, [0, 1]),
                                     Insn(15, [0, 29, 1634300532, 1701603182, 1919252063, 7890292, 90, 92])]
                else [xs[i]],
                if i < 4 then Before() else Modelled())
    {
      PreambleTurns(i);
    }
    var two := [Insn(14, [0, 1]), Insn(15, [0, 29, 1634300532, 1701603182, 1919252063, 7890292, 90, 92])];
    assert Reaches(c, xs, 0, [], Before());
    Copied(c, xs, 0, 3, [], Before());
    OneTurn(c, xs, 3, [] + xs[0..3], Before(), [], Before());
    OneTurn(c, xs, 4, [] + xs[0..3] + [], Before(), two, Modelled());
    Copied(c, xs, 5, 3, [] + xs[0..3] + [] + two, Modelled());
    OneTurn(c, xs, 8, [] + xs[0..3] + [] + two + xs[5..8], Modelled(), [], Modelled());
    OneTurn(c, xs, 9, [] + xs[0..3] + [] + two + xs[5..8] + [], Modelled(), [], Modelled());
    PreambleJoined(xs, two);
  }

  lemma PreambleJoined(xs: seq<Insn>, two: seq<Insn>)
    requires |xs| == 60 && forall i :: 0 <= i < 10 ==> xs[i] == Preamble()[i]
    requires two == [Insn(14, [0, 1]), Insn(15, [0, 29, 1634300532, 1701603182, 1919252063, 7890292, 90, 92])]
    ensures [] + xs[0..3] + [] + two + xs[5..8] + [] + [] == OutPreamble()
  {
    NameIs();
    var source, names := xs[5], xs[6..8];
    assert xs[0..3] == [Insn(17, [1]), Insn(17, [11]), Insn(17, [39])];
    assert xs[5..8] == [source] + names;
    assert names[0].args == [29] + PackString(ENTRY_NAME) == [29, 1634300532, 1701603182, 1919252063, 7890292];
    assert names[1].args == [16] + PackString(LOCAL_NAME)
      == [16, 845636978, 544040301, 1869376609, 1881170275, 1953393007, 0];
  }

  /** The decorations come with the first type; the types stay. */
  lemma TypesTurns(i: nat)
    requires i < 14
    ensures Does(VertexCtx(), if i == 0 then Modelled() else Typed(), Types()[i],
              (if i == 0 then [Insn(71, [90, 11, 0]), Insn(71, [92, 11, 42])] else []) + [Types()[i]], Typed())
  {
    if i == 0 {
      assert Decorations(VertexCtx()) == [Insn(71, [90, 11, 0]), Insn(71, [92, 11, 42])];
    } else {
      assert [] + [Types()[i]] == [Types()[i]];
    }
  }

  lemma TypesEmitted(xs: seq<Insn>, out: seq<Insn>)
    requires |xs| == 60 && forall i :: 10 <= i < 24 ==> xs[i] == Types()[i - 10]
    requires Reaches(VertexCtx(), xs, 10, out, Modelled())
    ensures Reaches(VertexCtx(), xs, 24, out + OutTypes(), Typed())
  {
    var c, two := VertexCtx(), [Insn(71, [90, 11, 0]), Insn(71, [92, 11, 42])];
    TypesTurns(0);
    OneTurn(c, xs, 10, out, Modelled(), two + [xs[10]], Typed());
    forall i | 11 <= i < 24 ensures Does(c, Typed(), xs[i], [xs[i]], Typed()) {
      TypesTurns(i - 10);
      assert [] + [xs[i]] == [xs[i]];
    }
    Copied(c, xs, 11, 13, out + (two + [xs[10]]), Typed());
    TypesJoined(xs, out, two);
  }

  lemma TypesJoined(xs: seq<Insn>, out: seq<Insn>, two: seq<Insn>)
    requires |xs| == 60 && forall i :: 10 <= i < 24 ==> xs[i] == Types()[i - 10]
    requires two == [Insn(71, [90, 11, 0]), Insn(71, [92, 11, 42])]
    ensures out + (two + [xs[10]]) + xs[11..24] == out + OutTypes()
  {
    assert [xs[10]] + xs[11..24] == Types();
    assert OutTypes() == two + Types();
    assert out + (two + [xs[10]]) + xs[11..24] == out + (two + ([xs[10]] + xs[11..24]));
  }

  /** One converted constant. */
  lemma ConstantsTurns(i: nat)
    requires i < 14
    ensures Does(VertexCtx(), Typed(), Constants()[i],
              if i == 11 then [Insn(1, [1, 26])] else [Constants()[i]], Typed())
  {
  }

  lemma ConstantsEmitted(xs: seq<Insn>, out: seq<Insn>)
    requires |xs| == 60 && forall i :: 24 <= i < 38 ==> xs[i] == Constants()[i - 24]
    requires Reaches(VertexCtx(), xs, 24, out, Typed())
    ensures Reaches(VertexCtx(), xs, 38, out + OutConstants(), Typed())
  {
    var c, u := VertexCtx(), [Insn(1, [1, 26])];
    forall i | 24 <= i < 38 ensures Does(c, Typed(), xs[i], if i == 35 then u else [xs[i]], Typed()) {
      ConstantsTurns(i - 24);
    }
    Copied(c, xs, 24, 11, out, Typed());
    OneTurn(c, xs, 35, out + xs[24..35], Typed(), u, Typed());
    Copied(c, xs, 36, 2, out + xs[24..35] + u, Typed());
    ConstantsJoined(xs, out, u);
  }

  lemma ConstantsJoined(xs: seq<Insn>, out: seq<Insn>, u: seq<Insn>)
    requires |xs| == 60 && (forall i :: 24 <= i < 38 ==> xs[i] == Constants()[i - 24]) && u == [Insn(1, [1, 26])]
    ensures out + xs[24..35] + u + xs[36..38] == out + OutConstants()
  {
    assert xs[24..35] == Constants()[0..11] && xs[36..38] == Constants()[12..14];
    assert OutConstants() == Constants()[0..11] + u + Constants()[12..14];
  }

  lemma GlobalsAre()
    ensures NewGlobals(VertexCtx()) == OutGlobals()
  {
  }

  /** The entry function is opened anew; parameter, lifetime marker and its cast go. */
  lemma OpeningTurns(i: nat)
    requires i < 7
    ensures Does(VertexCtx(), if i == 0 then Typed() else Entered(), Opening()[i],
              if i == 0 then OutGlobals() + [Insn(54, [87, 29, 0, 88])]
              else if i == 2 || i == 3 then [Opening()[i]]
              else if i == 6 then [Insn(65, [5, 33, 31, 16])] else [], Entered())
  {
    GlobalsAre();
  }

  lemma OpeningEmitted(xs: seq<Insn>, out: seq<Insn>)
    requires |xs| == 60 && forall i :: 38 <= i < 45 ==> xs[i] == Opening()[i - 38]
    requires Reaches(VertexCtx(), xs, 38, out, Typed())
    ensures Reaches(VertexCtx(), xs, 45, out + OutGlobals() + OutOpening(), Entered())
  {
    var c, a, b := VertexCtx(), OutGlobals() + [Insn(54, [87, 29, 0, 88])], [Insn(65, [5, 33, 31, 16])];
    forall i | 38 <= i < 45
      ensures Does(c, if i == 38 then Typed() else Entered(), xs[i],
                if i == 38 then a else if i == 40 || i == 41 then [xs[i]] else if i == 44 then b else [], Entered())
    {
      OpeningTurns(i - 38);
    }
    OneTurn(c, xs, 38, out, Typed(), a, Entered());
    OneTurn(c, xs, 39, out + a, Entered(), [], Entered());
    Copied(c, xs, 40, 2, out + a + [], Entered());
    OneTurn(c, xs, 42, out + a + [] + xs[40..42], Entered(), [], Entered());
    OneTurn(c, xs, 43, out + a + [] + xs[40..42] + [], Entered(), [], Entered());
    OneTurn(c, xs, 44, out + a + [] + xs[40..42] + [] + [], Entered(), b, Entered());
    OpeningJoined(xs, out, a, b);
  }

  lemma OpeningJoined(xs: seq<Insn>, out: seq<Insn>, a: seq<Insn>, b: seq<Insn>)
    requires |xs| == 60 && forall i :: 38 <= i < 45 ==> xs[i] == Opening()[i - 38]
    requires a == OutGlobals() + [Insn(54, [87, 29, 0, 88])] && b == [Insn(65, [5, 33, 31, 16])]
    ensures out + a + [] + xs[40..42] + [] + [] + b == out + OutGlobals() + OutOpening()
  {
    assert xs[40..42] == [Insn(248, [43]), Insn(59, [10, 31, 7])];
    assert OutOpening() == [Insn(54, [87, 29, 0, 88])] + xs[40..42] + b;
    assert out + a + [] + xs[40..42] + [] + [] + b
      == out + OutGlobals() + ([Insn(54, [87, 29, 0, 88])] + xs[40..42] + b);
  }

  /** The parameter is loaded in front of the first instruction that is not a variable. */
  lemma MiddleTurns(i: nat)
    requires i < 8
    ensures Does(VertexCtx(), if i == 0 then Entered() else Loaded(), Middle()[i],
              (if i == 0 then [Insn(61, [7, 30, 92])] else []) + [Middle()[i]], Loaded())
  {
    if i == 0 {
      assert Loads(VertexCtx()) == [Insn(61, [7, 30, 92])];
    } else {
      assert [] + [] + [Middle()[i]] == [Middle()[i]];
    }
  }

  lemma MiddleEmitted(xs: seq<Insn>, out: seq<Insn>)
    requires |xs| == 60 && forall i :: 45 <= i < 53 ==> xs[i] == Middle()[i - 45]
    requires Reaches(VertexCtx(), xs, 45, out, Entered())
    ensures Reaches(VertexCtx(), xs, 53, out + OutMiddle(), Loaded())
  {
    var c, l := VertexCtx(), [Insn(61, [7, 30, 92])];
    MiddleTurns(0);
    OneTurn(c, xs, 45, out, Entered(), l + [xs[45]], Loaded());
    forall i | 46 <= i < 53 ensures Does(c, Loaded(), xs[i], [xs[i]], Loaded()) {
      MiddleTurns(i - 45);
      assert [] + [xs[i]] == [xs[i]];
    }
    Copied(c, xs, 46, 7, out + (l + [xs[45]]), Loaded());
    assert xs[46..53] == Middle()[1..8];
    assert out + (l + [xs[45]]) + xs[46..53] == out + OutMiddle();
  }

  lemma ReturnIs()
    ensures LoweredReturn(VertexCtx(), 42, 93) == [Insn(81, [2, 93, 42, 0]), Insn(62, [90, 93]), Insn(253, [])]
  {
  }

  /** The value return stores its only member. */
  lemma ClosingTurns(i: nat)
    requires i < 7
    ensures Does(VertexCtx(), if i <= 5 then Loaded() else Returned(), Closing()[i],
              if i == 2 || i == 3 then []
              else if i == 5 then [Insn(81, [2, 93, 42, 0]), Insn(62, [90, 93]), Insn(253, [])]
              else [Closing()[i]],
              if i < 5 then Loaded() else if i == 5 then Returned() else Left())
  {
    ReturnIs();
  }

  lemma ClosingEmitted(xs: seq<Insn>, out: seq<Insn>)
    requires |xs| == 60 && forall i :: 53 <= i < 60 ==> xs[i] == Closing()[i - 53]
    requires Reaches(VertexCtx(), xs, 53, out, Loaded())
    ensures Reaches(VertexCtx(), xs, 60, out + OutClosing(), Left())
  {
    var c, r := VertexCtx(), [Insn(81, [2, 93, 42, 0]), Insn(62, [90, 93]), Insn(253, [])];
    forall i | 53 <= i < 60
      ensures Does(c, if i <= 58 then Loaded() else Returned(), xs[i],
                if i == 55 || i == 56 then [] else if i == 58 then r else [xs[i]],
                if i < 58 then Loaded() else if i == 58 then Returned() else Left())
    {
      ClosingTurns(i - 53);
    }
    Copied(c, xs, 53, 2, out, Loaded());
    OneTurn(c, xs, 55, out + xs[53..55], Loaded(), [], Loaded());
    OneTurn(c, xs, 56, out + xs[53..55] + [], Loaded(), [], Loaded());
    OneTurn(c, xs, 57, out + xs[53..55] + [] + [], Loaded(), [xs[57]], Loaded());
    OneTurn(c, xs, 58, out + xs[53..55] + [] + [] + [xs[57]], Loaded(), r, Returned());
    OneTurn(c, xs, 59, out + xs[53..55] + [] + [] + [xs[57]] + r, Returned(), [xs[59]], Left());
    ClosingJoined(xs, out, r);
  }

  lemma ClosingJoined(xs: seq<Insn>, out: seq<Insn>, r: seq<Insn>)
    requires |xs| == 60 && forall i :: 53 <= i < 60 ==> xs[i] == Closing()[i - 53]
    requires r == [Insn(81, [2, 93, 42, 0]), Insn(62, [90, 93]), Insn(253, [])]
    ensures out + xs[53..55] + [] + [] + [xs[57]] + r + [xs[59]] == out + OutClosing()
  {
    assert xs[53..55] == Closing()[0..2];
    assert OutClosing() == xs[53..55] + [xs[57]] + r + [xs[59]];
  }

  /** THE REPOSITORY'S OWN OUTPUT: the vertex module of the triangle is rewritten to exactly the
      64 instructions that are shipped, with 94 as the new bound. */
  lemma VertexRewritten()
    ensures Rewrite(VertexModule(), 87, ENTRY_NAME, Vertex) == Ok(Emitted(VertexSpv(), Left()))
    ensures |VertexSpv()| == 64 && Left().next == 94
  {
    ContextIs();
    VertexAt();
    Stretches(VertexModule());
  }

  lemma Stretches(xs: seq<Insn>)
    requires |xs| == 60
    requires forall i :: 0 <= i < 10 ==> xs[i] == Preamble()[i]
    requires forall i :: 10 <= i < 24 ==> xs[i] == Types()[i - 10]
    requires forall i :: 24 <= i < 38 ==> xs[i] == Constants()[i - 24]
    requires forall i :: 38 <= i < 45 ==> xs[i] == Opening()[i - 38]
    requires forall i :: 45 <= i < 53 ==> xs[i] == Middle()[i - 45]
    requires forall i :: 53 <= i < 60 ==> xs[i] == Closing()[i - 53]
    ensures Reaches(VertexCtx(), xs, 60, VertexSpv(), Left())
  {
    var out := OutPreamble();
    PreambleEmitted(xs);
    TypesEmitted(xs, out);
    ConstantsEmitted(xs, out + OutTypes());
    OpeningEmitted(xs, out + OutTypes() + OutConstants());
    MiddleEmitted(xs, out + OutTypes() + OutConstants() + OutGlobals() + OutOpening());
    ClosingEmitted(xs, out + OutTypes() + OutConstants() + OutGlobals() + OutOpening() + OutMiddle());
  }

  /** The last words of that file: the lowered return and the end. */
  lemma LastWords()
    ensures Encode(OutClosing()[3..]) == [0x5_0051, 2, 93, 42, 0, 0x3_003E, 90, 93, 0x1_00FD, 0x1_0038]
  {
    var xs := [Insn(81, [2, 93, 42, 0]), Insn(62, [90, 93]), Insn(253, []), Insn(56, [])];
    assert OutClosing()[3..] == xs;
    assert xs[1..][1..][1..][1..] == [];
  }
}
