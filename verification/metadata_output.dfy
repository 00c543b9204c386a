/** What the output of the metadata-only rewriter consists of: what is dropped and what is
    added; and what it makes of the triangle's vertex module. */
module MetadataOutput {
  import opened Wrappers
  import opened Spirv
  import opened SignatureTransform
  import opened EntryPointRewrite
  import opened Composition
  import Recognition
  import Layout
  import Triangle
  import VertexOutput

  /** The decorations CPacked and LinkageAttributes. */
  predicate Stale(d: seq<nat>) { d != [] && (d[0] == 10 || d[0] == 41) }

  /** Capabilities Linkage and Kernel, and stale decorations of ids and members. */
  predicate Removed(x: Insn) {
    var n := |x.args|;
    || (x.op == 17 && n >= 1 && x.args[0] in {5, 6})
    || (x.op == 71 && n >= 2 && Stale(x.args[1..]))
    || (x.op == 72 && n >= 3 && Stale(x.args[2..]))
  }

  /** Shader if it is missing, an entry point without interface, a fragment shader's origin. */
  predicate Inserted(y: Insn, j: Job) {
    || (!j.shader && y == Insn(17, [1]))
    || y == Insn(15, [if j.stage.Vertex? then 0 else 4, j.fn] + PackString(j.name))
    || (j.stage.Fragment? && y == Insn(16, [j.fn, 7]))
  }

  lemma RemovedIs(x: Insn)
    ensures Removed(x) <==> Filtered(x)
  {
  }

  lemma {:induction false} FilterTimes(xs: seq<Insn>, y: Insn)
    ensures Times(Filter(xs), y) == if Removed(y) then 0 else Times(xs, y)
    decreases |xs|
  {
    if xs != [] {
      var n := |xs| - 1;
      FilterTimes(xs[..n], y);
      RemovedIs(xs[n]);
      FilterLast(xs);
      if !Filtered(xs[n]) { TimesNext(Filter(xs[..n]), xs[n], y); }
    }
  }

  lemma ExtraTimes(j: Job, y: Insn)
    ensures Times(j.Extra(), y) == One(Inserted(y, j))
  {
    var e := j.EntryPoint();
    var a := if j.shader then [] else [Insn(OP_CAPABILITY, [CAP_SHADER])];
    var m := if j.stage.Fragment? then [Insn(OP_EXECUTION_MODE, [j.fn, MODE_ORIGIN_UPPER_LEFT])] else [];
    TimesAppend(a + [e], m, y);
    TimesAppend(a, [e], y);
    TimesOne(e, y);
    if a != [] { TimesOne(a[0], y); }
    if m != [] { TimesOne(m[0], y); }
  }

  /** THE OUTPUT, exactly: every instruction that is not removed, as often as in the input, and
      each inserted one once more. */
  lemma OutputConsistsOf(j: Job, xs: seq<Insn>, y: Insn)
    requires Rewritten(j.Extra(), xs).Some?
    ensures Times(Rewritten(j.Extra(), xs).value, y) == (if Removed(y) then 0 else Times(xs, y)) + One(Inserted(y, j))
  {
    var mm := FirstIndex(xs, Layout.IsMemoryModel(), 0);
    var a, b := xs[..mm + 1], xs[mm + 1..];
    TimesAppend(Filter(a) + j.Extra(), Filter(b), y);
    TimesAppend(Filter(a), j.Extra(), y);
    TimesAppend(a, b, y);
    assert a + b == xs;
    FilterTimes(a, y);
    FilterTimes(b, y);
    ExtraTimes(j, y);
  }

  /** ORDER IS KEPT: instructions that stay follow one another as they did, with the insertion
      right behind the first memory model. */
  lemma {:induction false} FilterKeepsOrder(xs: seq<Insn>, k: nat)
    requires k <= |xs|
    ensures Filter(xs[..k]) <= Filter(xs)
    decreases |xs|
  {
    if k < |xs| {
      assert xs[..|xs| - 1][..k] == xs[..k];
      FilterKeepsOrder(xs[..|xs| - 1], k);
    } else {
      assert xs[..k] == xs;
    }
  }

  /** The errors, and where each comes from. */
  lemma RejectsExactly(ws: seq<nat>, name: seq<nat>, stage: Stage)
    ensures var bad := name == [] || ws == [] || ws[0] != 0x0723_0203;
            var xs := if |ws| >= 5 then Frame(ws[5..]) else None;
            var named := xs.Some? && Recognition.Firsts(xs.value, |xs.value|, Recognition.Named(name)) != [];
            && (RewrittenWords(ws, name, stage) == Err(InvalidArg) <==> bad || (xs.Some? && !named))
            && (RewrittenWords(ws, name, stage) == Err(Protocol) <==>
                  !bad && (xs.None? || (named && forall i :: 0 <= i < |xs.value| ==> xs.value[i].op != 14)))
  {
    if name != [] && ws != [] && ws[0] == 0x0723_0203 && |ws| >= 5 && Frame(ws[5..]).Some? {
      Recognition.ScanIs(Frame(ws[5..]).value, name);
    }
  }

  // ----- the triangle's vertex module -----

  /** What its disassembly lists up to the names. */
  function Front(): seq<Insn> {
    [Insn(17, [1]), Insn(17, [11]), Insn(17, [39]), Insn(14, [0, 1]),
     Insn(15, [0, 29, 1634300532, 1701603182, 1919252063, 7890292]), Insn(3, [0, 0]),
     Insn(5, [29, 1634300532, 1701603182, 1919252063, 7890292]),
     Insn(5, [16, 845636978, 544040301, 1869376609, 1881170275, 1953393007, 0])]
  }

  /** What follows the decorations. */
  function Rest(): seq<Insn> {
    Triangle.Types() + Triangle.Constants() + Triangle.Opening() + Triangle.Middle() + Triangle.Closing()
  }

  function VertexJob(): Job { Job(true, 29, Triangle.ENTRY_NAME, Vertex) }

  lemma RestPlain()
    ensures forall i :: 0 <= i < |Rest()| ==> Rest()[i].op !in {17, 71, 72}
  {
    Triangle.VertexAt();
    forall i | 0 <= i < |Rest()| ensures Rest()[i].op !in {17, 71, 72} {
      assert Rest()[i] == Triangle.VertexModule()[10 + i];
      PlainAt(10 + i);
    }
  }

  lemma PlainAt(i: nat)
    requires 10 <= i < 60
    ensures |Triangle.VertexModule()| == 60 && Triangle.VertexModule()[i].op !in {17, 71, 72}
  {
    Triangle.VertexAt();
    if i < 24 {
      assert Triangle.Types()[i - 10].op !in {17, 71, 72};
    } else if i < 38 {
      assert Triangle.Constants()[i - 24].op !in {17, 71, 72};
    } else if i < 45 {
      assert Triangle.Opening()[i - 38].op !in {17, 71, 72};
    } else if i < 53 {
      assert Triangle.Middle()[i - 45].op !in {17, 71, 72};
    } else {
      assert Triangle.Closing()[i - 53].op !in {17, 71, 72};
    }
  }

  lemma {:induction false} FilterAll(xs: seq<Insn>)
    requires forall i :: 0 <= i < |xs| ==> Filtered(xs[i])
    ensures Filter(xs) == []
    decreases |xs|
  {
    if xs != [] { FilterAll(xs[..|xs| - 1]); }
  }

  lemma {:induction false} FilterNone(xs: seq<Insn>)
    requires forall i :: 0 <= i < |xs| ==> !Filtered(xs[i])
    ensures Filter(xs) == xs
    decreases |xs|
  {
    if xs != [] {
      FilterNone(xs[..|xs| - 1]);
      assert xs == xs[..|xs| - 1] + [xs[|xs| - 1]];
    }
  }

  lemma HeadFiltered(p: seq<Insn>)
    requires p == Triangle.Preamble()
    ensures Filter(p[..5]) == [p[0], p[1], p[2], p[4]] && Filter(p[5..]) == [p[5], p[6], p[7]]
  {
    forall i | 0 <= i < 10 ensures Filtered(p[i]) <==> i == 3 || i >= 8 { }
    Around(p);
  }

  lemma Around(p: seq<Insn>)
    requires |p| == 10 && forall i :: 0 <= i < 10 ==> (Filtered(p[i]) <==> i == 3 || i >= 8)
    ensures Filter(p[..5]) == [p[0], p[1], p[2], p[4]] && Filter(p[5..]) == [p[5], p[6], p[7]]
  {
    var a, b := [p[0], p[1], p[2]], [p[5], p[6], p[7]];
    assert p[..5] == a + [p[3]] + [p[4]] && p[5..] == b + [p[8], p[9]];
    FilterAppend(a + [p[3]], [p[4]]);
    FilterAppend(a, [p[3]]);
    FilterAppend(b, [p[8], p[9]]);
    FilterNone(a);
    FilterNone(b);
    FilterNone([p[4]]);
    FilterAll([p[3]]);
    FilterAll([p[8], p[9]]);
  }

  /** THE REPOSITORY'S OWN LISTING: the vertex module of the triangle becomes what its
      disassembly shows: without Linkage and the two decorations, with an entry point. */
  lemma VertexListed()
    ensures Rewritten(VertexJob().Extra(), Triangle.VertexModule()) == Some(Front() + Rest())
  {
    var xs, p := Triangle.VertexModule(), Triangle.Preamble();
    Triangle.VertexAt();
    assert FirstIndex(xs, Layout.IsMemoryModel(), 0) == 4 by { FirstModel(xs); }
    assert xs[..5] == p[..5] && xs[5..] == p[5..] + Rest();
    HeadFiltered(p);
    RestPlain();
    FilterAppend(p[5..], Rest());
    FilterNone(Rest());
    FrontIs(p);
  }

  lemma FirstModel(xs: seq<Insn>)
    requires |xs| == 60 && forall i :: 0 <= i < 10 ==> xs[i] == Triangle.Preamble()[i]
    ensures FirstIndex(xs, Layout.IsMemoryModel(), 0) == 4
  {
    assert xs[4].op == OP_MEMORY_MODEL && xs[0].op != 14 && xs[1].op != 14 && xs[2].op != 14 && xs[3].op != 14;
  }

  lemma FrontIs(p: seq<Insn>)
    requires p == Triangle.Preamble()
    ensures [p[0], p[1], p[2], p[4]] + VertexJob().Extra() + ([p[5], p[6], p[7]] + Rest()) == Front() + Rest()
  {
    VertexOutput.NameIs();
    var e := VertexJob().EntryPoint();
    assert e.args == [0, 29] + PackString(Triangle.ENTRY_NAME) == [0, 29, 1634300532, 1701603182, 1919252063, 7890292];
    assert VertexJob().Extra() == [] + [e] + [];
    assert p[6].args == [29] + PackString(Triangle.ENTRY_NAME) == [29, 1634300532, 1701603182, 1919252063, 7890292];
    assert p[7].args == [16] + PackString(Triangle.LOCAL_NAME)
      == [16, 845636978, 544040301, 1869376609, 1881170275, 1953393007, 0];
    assert Front() == [p[0], p[1], p[2], p[4]] + [e] + [p[5], p[6], p[7]];
  }
}
