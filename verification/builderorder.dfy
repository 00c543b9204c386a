/** The order in which the finished module has its instructions, by opcode. */
module BuilderOrder {
  import opened Wrappers
  import opened Spirv
  import opened Builder
  import opened BuilderRuns
  import Layout

  // ----- what belongs where, opcode by opcode -----

  /** OpCapability and OpExtension. */
  predicate Enables(x: Insn) { x.op == 17 || x.op == 10 }

  /** Imports, memory model, entry points, execution modes, names, strings and lines. */
  predicate Introduces(x: Insn) { x.op in {5, 6, 7, 8, 11, 14, 15, 16, 331} }

  /** Decorations. */
  predicate Annotates(x: Insn) { 71 <= x.op <= 75 }

  /** Types, constants, undefined values, and variables that are not in Function storage. */
  predicate Declares(x: Insn) {
    x.op == 1 || 19 <= x.op <= 39 || 41 <= x.op <= 52 || (x.op == 59 && |x.args| >= 3 && x.args[2] != 7)
  }

  predicate Computes(x: Insn) { !Enables(x) && !Introduces(x) && !Annotates(x) && !Declares(x) }

  predicate All(xs: seq<Insn>, p: Insn -> bool) { forall i :: 0 <= i < |xs| ==> p(xs[i]) }

  // ----- every run keeps the sections apart -----

  ghost predicate AllBody(items: seq<Item>) {
    forall i :: 0 <= i < |items| ==> match items[i] case Body(x) => Computes(x) case Slot(vs) => All(vs, Computes)
  }

  ghost predicate Apart(d: Draft) {
    All(d.caps, Enables) && All(d.preamble, Introduces) && All(d.annotations, Annotates) && All(d.types, Declares)
    && AllBody(d.items)
  }

  ghost predicate Tidy(p: Plan) { Apart(p.d) && forall k :: 0 <= k < |p.saved| ==> AllBody(p.saved[k]) }

  /** A string goes into an instruction that carries one; OpVariable does not. */
  predicate Proper(e: Event) { e.EmitString? ==> e.op != 59 }

  lemma PlaceApart(d: Draft, s: Section, x: Insn)
    requires Apart(d) && match s
                         case Caps => Enables(x)
                         case Preamble => Introduces(x)
                         case Annotations => Annotates(x)
                         case Types => Declares(x)
                         case Functions => Computes(x)
    ensures Apart(Place(d, s, x))
  {
  }

  lemma {:induction false} AddVarBody(items: seq<Item>, v: Insn)
    requires AllBody(items) && Computes(v)
    ensures AllBody(AddVar(items, v))
    decreases |items|
  {
    if items != [] {
      var n := |items| - 1;
      if !items[n].Slot? { AddVarBody(items[..n], v); }
    }
  }

  lemma StepTidy(p: Plan, e: Event)
    requires Tidy(p) && Proper(e)
    ensures Tidy(Step(p, e))
  {
    match e
    case Emit(x) => PlaceApart(p.d, SectionOf(x.op, x.args), x);
    case EmitString(op, prefix, name, suffix) =>
      PlaceApart(p.d, SectionOf(op, prefix), StringInsn(op, prefix, name, suffix));
    case LocalVar(ptr, id) => AddVarBody(p.d.items, LocalInsn(ptr, id));
    case _ =>
  }

  lemma {:induction false} RunsTidy(es: seq<Event>)
    requires forall i :: 0 <= i < |es| ==> Proper(es[i])
    ensures Tidy(Drafted(es))
    decreases |es|
  {
    if es != [] {
      RunsTidy(es[..|es| - 1]);
      StepTidy(Drafted(es[..|es| - 1]), es[|es| - 1]);
    }
  }

  lemma {:induction false} FlatComputes(items: seq<Item>)
    requires AllBody(items)
    ensures All(Flat(items), Computes)
    decreases |items|
  {
    if items != [] { FlatComputes(items[..|items| - 1]); }
  }

  /** a is not behind b. */
  predicate NotBehind(a: Insn, b: Insn) {
    && (Enables(b) ==> Enables(a))
    && (Introduces(b) ==> Enables(a) || Introduces(a))
    && (Annotates(b) ==> Enables(a) || Introduces(a) || Annotates(a))
    && (Declares(b) ==> !Computes(a))
  }

  ghost predicate InOrder(xs: seq<Insn>) { forall i, j :: 0 <= i < j < |xs| ==> NotBehind(xs[i], xs[j]) }

  lemma OrderOf(a: seq<Insn>, b: seq<Insn>, c: seq<Insn>, d: seq<Insn>, e: seq<Insn>)
    requires All(a, Enables) && All(b, Introduces) && All(c, Annotates) && All(d, Declares) && All(e, Computes)
    ensures InOrder(a + b + c + d + e)
  {
    var xs := a + b + c + d + e;
    var n1, n2 := |a| + |b|, |a| + |b| + |c|;
    var n3 := n2 + |d|;
    forall i | 0 <= i < |xs|
      ensures if i < |a| then Enables(xs[i]) else if i < n1 then Introduces(xs[i]) else if i < n2 then Annotates(xs[i])
              else if i < n3 then Declares(xs[i]) else Computes(xs[i])
    {
      assert xs[i] == if i < |a| then a[i] else if i < n1 then b[i - |a|] else if i < n2 then c[i - n1]
                      else if i < n3 then d[i - n2] else e[i - n3];
    }
  }

  /** THE MODULE IS IN ORDER, however its instructions were emitted, marked, snapshot and
      rewound: OpCapability and OpExtension before everything else, what introduces the module
      before every decoration, decorations before every declaration, and all of that before
      the first instruction of a function. */
  lemma ModuleInOrder(es: seq<Event>)
    requires forall i :: 0 <= i < |es| ==> Proper(es[i])
    ensures InOrder(Module(Drafted(es).d))
  {
    RunsTidy(es);
    var d := Drafted(es).d;
    FlatComputes(d.items);
    OrderOf(d.caps, d.preamble, d.annotations, d.types, Flat(d.items));
  }

  // ----- section 2.4 -----

  /** What the finished words parse to, as far as the sections up to the names go. */
  function Front(d: Draft): seq<Insn> { d.caps + d.preamble }

  /** Functions begin with OpFunction and hold nothing that belongs elsewhere. */
  predicate FunctionsOnly(xs: seq<Insn>) {
    (xs != [] ==> xs[0].op == 54) && forall i :: 0 <= i < |xs| ==> Layout.InFunctions(xs[i].op)
  }

  /** SECTION 2.4: when what stands up to the names is in order and has no OpLine, which has
      no place there, and functions hold only what functions may, every instruction of the
      module is in its section. */
  lemma ModuleInSections(es: seq<Event>)
    requires forall i :: 0 <= i < |es| ==> Proper(es[i])
    requires var d := Drafted(es).d;
             && Layout.InSections(Front(d)) && (forall i :: 0 <= i < |Front(d)| ==> Front(d)[i].op != 8)
             && FunctionsOnly(Flat(d.items))
    ensures Layout.InSections(Module(Drafted(es).d))
  {
    RunsTidy(es);
    DraftInSections(Drafted(es).d);
  }

  lemma DraftInSections(d: Draft)
    requires Apart(d) && Layout.InSections(Front(d)) && FunctionsOnly(Flat(d.items))
    requires forall i :: 0 <= i < |Front(d)| ==> Front(d)[i].op != 8
    ensures Layout.InSections(Module(d))
  {
    var front, back := Front(d), d.annotations + d.types + Flat(d.items);
    FrontBelow(front, |front|);
    assert front[..|front|] == front;
    Layout.AfterAppend(Some(1), front, back);
    Layout.AfterGrows(Some(1), front);
    Backs(Layout.After(Some(1), front).value, d.annotations, d.types, Flat(d.items));
    ModuleIs(d, back);
  }

  lemma ModuleIs(d: Draft, back: seq<Insn>)
    requires back == d.annotations + d.types + Flat(d.items)
    ensures Module(d) == Front(d) + back
  {
    assert d.caps + d.preamble + d.annotations + d.types + Flat(d.items)
      == (d.caps + d.preamble) + (d.annotations + d.types + Flat(d.items));
  }

  /** The front does not reach the decorations. */
  lemma {:induction false} FrontBelow(xs: seq<Insn>, k: nat)
    requires k <= |xs| && forall i :: 0 <= i < |xs| ==> (Enables(xs[i]) || Introduces(xs[i])) && xs[i].op != 8
    ensures var r := Layout.After(Some(1), xs[..k]); r.Some? ==> r.value <= 8
  {
    if k > 0 {
      FrontBelow(xs, k - 1);
      assert xs[..k][..k - 1] == xs[..k - 1];
      HomeBelow(xs[k - 1].op);
    }
  }

  lemma HomeBelow(op: nat)
    requires op in {17, 10, 5, 6, 7, 11, 14, 15, 16, 331}
    ensures Layout.Home(op).Some? && Layout.Home(op).value <= 8
  {
  }

  lemma Backs(cur: nat, a: seq<Insn>, t: seq<Insn>, f: seq<Insn>)
    requires cur <= 8 && All(a, Annotates) && All(t, Declares) && FunctionsOnly(f)
    ensures Layout.After(Some(cur), a + t + f).Some?
  {
    Layout.AfterAppend(Some(cur), a + t, f);
    Layout.AfterAppend(Some(cur), a, t);
    Layout.AfterUniform(cur, a, 10);
    var r := if a == [] then cur else 10;
    Layout.AfterDeclarations(r, t);
    FunctionsFollow(if t == [] then r else Layout.TYPES, f);
  }

  lemma FunctionsFollow(q: nat, f: seq<Insn>)
    requires q <= Layout.TYPES && FunctionsOnly(f)
    ensures Layout.After(Some(q), f).Some?
  {
    if f != [] {
      assert f == [f[0]] + f[1..];
      Layout.AfterAppend(Some(q), [f[0]], f[1..]);
      Layout.AfterOne(Some(q), f[0]);
      Layout.AfterBody(f[1..]);
    }
  }
}
