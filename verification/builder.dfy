/** The SPIR-V module builder: instructions emitted in any order are routed into section
    streams, each function's local variables wait in a side buffer until they are spliced
    in at its mark, and a failed function is rolled back. */
module Builder {
  import opened Wrappers
  import opened Spirv

  datatype Section = Caps | Preamble | Annotations | Types | Functions

  const STORAGE_FUNCTION: nat := 7
  const VERSION_14: nat := 0x0001_0400

  function SectionOf(op: nat, args: seq<nat>): Section {
    if op == 17 || op == 10 then Caps
    else if op in {11, 14, 15, 16, 331, 5, 6, 7, 8} then Preamble
    else if 71 <= op <= 75 then Annotations
    else if op == OP_VARIABLE then if |args| >= 3 && args[2] != STORAGE_FUNCTION then Types else Functions
    else if op == 1 || 19 <= op <= 39 || 41 <= op <= 52 then Types
    else Functions
  }

  // ----- what is being built -----

  /** The function stream: instructions, and one slot per function for its locals. */
  datatype Item = Body(x: Insn) | Slot(vars: seq<Insn>)

  datatype Draft = Draft(caps: seq<Insn>, preamble: seq<Insn>, annotations: seq<Insn>, types: seq<Insn>,
    items: seq<Item>)

  function Place(d: Draft, s: Section, x: Insn): Draft {
    match s
    case Caps => d.(caps := d.caps + [x])
    case Preamble => d.(preamble := d.preamble + [x])
    case Annotations => d.(annotations := d.annotations + [x])
    case Types => d.(types := d.types + [x])
    case Functions => d.(items := d.items + [Body(x)])
  }

  /** One more variable for the latest slot. */
  function AddVar(items: seq<Item>, v: Insn): seq<Item>
    decreases |items|
  {
    if items == [] then []
    else
      var n := |items| - 1;
      if items[n].Slot? then items[..n] + [Slot(items[n].vars + [v])] else AddVar(items[..n], v) + [items[n]]
  }

  /** The function stream with every function's locals in its slot. */
  function Flat(items: seq<Item>): seq<Insn> {
    if items == [] then [] else
    Flat(items[..|items| - 1]) + match items[|items| - 1] case Body(x) => [x] case Slot(vs) => vs
  }

  function Bodies(items: seq<Item>): seq<Insn> {
    if items == [] then [] else
    Bodies(items[..|items| - 1]) + match items[|items| - 1] case Body(x) => [x] case Slot(_) => []
  }

  function Vars(items: seq<Item>): seq<Insn> {
    if items == [] then [] else
    Vars(items[..|items| - 1]) + match items[|items| - 1] case Body(_) => [] case Slot(vs) => vs
  }

  /** The whole module, in section order. */
  function Module(d: Draft): seq<Insn> { d.caps + d.preamble + d.annotations + d.types + Flat(d.items) }

  // ----- the buffers -----

  /** Where a function's locals go, and where they start in the locals buffer. */
  datatype Seg = Seg(mark: nat, begin: nat)

  /** The growing part of the buffers: function words, locals and segments. */
  datatype Words = Words(funcs: seq<nat>, locals: seq<nat>, segs: seq<Seg>)

  function SegsOf(items: seq<Item>): seq<Seg> {
    if items == [] then [] else
    var init := items[..|items| - 1];
    SegsOf(init) + if items[|items| - 1].Slot? then [Seg(|Encode(Bodies(init))|, |Encode(Vars(init))|)] else []
  }

  function WordsOf(items: seq<Item>): Words { Words(Encode(Bodies(items)), Encode(Vars(items)), SegsOf(items)) }

  /** The loop of `finish`: copy up to each mark, then that segment's locals. */
  function SpliceFrom(w: Words, g: nat, src: nat): seq<nat>
    requires src <= |w.funcs|
    decreases |w.segs| - g
  {
    if g >= |w.segs| then w.funcs[src..] else
    var mark, lb := w.segs[g].mark, w.segs[g].begin;
    var le := if g + 1 < |w.segs| then w.segs[g + 1].begin else |w.locals|;
    if mark > |w.funcs| || mark < src || le < lb || le > |w.locals| then SpliceFrom(w, g + 1, src)
    else w.funcs[src..mark] + w.locals[lb..le] + SpliceFrom(w, g + 1, mark)
  }

  function Spliced(w: Words): seq<nat> {
    if w.locals != [] && w.segs != [] then SpliceFrom(w, 0, 0) else w.funcs
  }

  /** Marks and starts are in range and do not go down, so no segment is dropped. */
  ghost predicate Sane(w: Words) {
    && (forall g :: 0 <= g < |w.segs| ==> w.segs[g].mark <= |w.funcs| && w.segs[g].begin <= |w.locals|)
    && (forall g, h :: 0 <= g < h < |w.segs| ==> w.segs[g].mark <= w.segs[h].mark && w.segs[g].begin <= w.segs[h].begin)
  }

  lemma {:induction false} WordsSane(items: seq<Item>)
    ensures Sane(WordsOf(items))
    decreases |items|
  {
    if items != [] {
      var init, last := items[..|items| - 1], items[|items| - 1];
      WordsSane(init);
      EncodeAppend(Bodies(init), match last case Body(x) => [x] case Slot(_) => []);
      EncodeAppend(Vars(init), match last case Body(_) => [] case Slot(vs) => vs);
      SaneNext(WordsOf(init), WordsOf(items), last.Slot?);
    }
  }

  lemma SaneNext(w: Words, w': Words, slot: bool)
    requires Sane(w) && |w.funcs| <= |w'.funcs| && |w.locals| <= |w'.locals|
    requires w'.segs == w.segs + if slot then [Seg(|w.funcs|, |w.locals|)] else []
    ensures Sane(w')
  {
  }

  /** More function words at the end come out at the end. */
  lemma {:induction false} MoreFuncs(w: Words, more: seq<nat>, g: nat, src: nat)
    requires Sane(w) && g <= |w.segs| && src <= |w.funcs| && forall h :: g <= h < |w.segs| ==> src <= w.segs[h].mark
    ensures SpliceFrom(w.(funcs := w.funcs + more), g, src) == SpliceFrom(w, g, src) + more
    decreases |w.segs| - g
  {
    var w' := w.(funcs := w.funcs + more);
    if g < |w.segs| {
      var mark, lb := w.segs[g].mark, w.segs[g].begin;
      var le := if g + 1 < |w.segs| then w.segs[g + 1].begin else |w.locals|;
      MoreFuncs(w, more, g + 1, mark);
      assert w'.funcs[src..mark] == w.funcs[src..mark];
      Regroup(w.funcs[src..mark] + w.locals[lb..le], SpliceFrom(w, g + 1, mark), more);
    } else {
      assert w'.funcs[src..] == w.funcs[src..] + more;
    }
  }

  /** A new segment at the end brings its locals to the end. */
  lemma {:induction false} MoreLocals(w: Words, more: seq<nat>, g: nat, src: nat)
    requires Sane(w) && g <= |w.segs| && src <= |w.funcs| && forall h :: g <= h < |w.segs| ==> src <= w.segs[h].mark
    ensures SpliceFrom(Words(w.funcs, w.locals + more, w.segs + [Seg(|w.funcs|, |w.locals|)]), g, src)
            == SpliceFrom(w, g, src) + more
    decreases |w.segs| - g
  {
    var w' := Words(w.funcs, w.locals + more, w.segs + [Seg(|w.funcs|, |w.locals|)]);
    if g < |w.segs| {
      var mark, lb := w.segs[g].mark, w.segs[g].begin;
      var le := if g + 1 < |w.segs| then w.segs[g + 1].begin else |w.locals|;
      MoreLocals(w, more, g + 1, mark);
      assert w'.segs[g] == w.segs[g] && (if g + 1 < |w'.segs| then w'.segs[g + 1].begin else |w'.locals|) == le;
      assert w'.locals[lb..le] == w.locals[lb..le];
      Regroup(w.funcs[src..mark] + w.locals[lb..le], SpliceFrom(w, g + 1, mark), more);
    } else {
      LastSegment(w, more, src);
    }
  }

  lemma LastSegment(w: Words, more: seq<nat>, src: nat)
    requires src <= |w.funcs|
    ensures SpliceFrom(Words(w.funcs, w.locals + more, w.segs + [Seg(|w.funcs|, |w.locals|)]), |w.segs|, src)
         == SpliceFrom(w, |w.segs|, src) + more
  {
    var w' := Words(w.funcs, w.locals + more, w.segs + [Seg(|w.funcs|, |w.locals|)]);
    var n := |w.funcs|;
    assert w'.locals[|w.locals|..|w'.locals|] == more;
    assert SpliceFrom(w', |w.segs| + 1, n) == w'.funcs[n..] == [];
    assert w'.funcs[src..n] + more + [] == w.funcs[src..] + more;
  }

  lemma WordsBody(items: seq<Item>, x: Insn)
    ensures WordsOf(items + [Body(x)]) == WordsOf(items).(funcs := Encode(Bodies(items)) + EncodeInsn(x))
  {
    var all := items + [Body(x)];
    assert all[..|all| - 1] == items;
    assert Vars(items) + [] == Vars(items) && SegsOf(items) + [] == SegsOf(items);
    EncodeAppend(Bodies(items), [x]);
    EncodeSingle(x);
  }

  lemma WordsSlot(items: seq<Item>, vs: seq<Insn>)
    ensures var w := WordsOf(items);
            WordsOf(items + [Slot(vs)]) == Words(w.funcs, w.locals + Encode(vs), w.segs + [Seg(|w.funcs|, |w.locals|)])
  {
    var all := items + [Slot(vs)];
    assert all[..|all| - 1] == items;
    assert Bodies(items) + [] == Bodies(items);
    EncodeAppend(Vars(items), vs);
  }

  lemma FlatNext(items: seq<Item>, last: Item)
    ensures Encode(Flat(items + [last])) == Encode(Flat(items))
            + match last case Body(x) => EncodeInsn(x) case Slot(vs) => Encode(vs)
  {
    var all := items + [last];
    assert all[..|all| - 1] == items;
    match last
    case Body(x) =>
      EncodeAppend(Flat(items), [x]);
      EncodeSingle(x);
    case Slot(vs) => EncodeAppend(Flat(items), vs);
  }

  /** Splicing the buffers gives the function stream with locals in their slots. */
  lemma {:induction false} SplicedIs(items: seq<Item>)
    ensures SpliceFrom(WordsOf(items), 0, 0) == Encode(Flat(items))
    decreases |items|
  {
    if items != [] {
      var init, last := items[..|items| - 1], items[|items| - 1];
      assert items == init + [last];
      SplicedIs(init);
      SplicedNext(init, last);
    }
  }

  lemma SplicedNext(init: seq<Item>, last: Item)
    requires SpliceFrom(WordsOf(init), 0, 0) == Encode(Flat(init))
    ensures SpliceFrom(WordsOf(init + [last]), 0, 0) == Encode(Flat(init + [last]))
  {
    var w := WordsOf(init);
    WordsSane(init);
    FlatNext(init, last);
    match last
    case Body(x) =>
      WordsBody(init, x);
      MoreFuncs(w, EncodeInsn(x), 0, 0);
    case Slot(vs) =>
      WordsSlot(init, vs);
      MoreLocals(w, Encode(vs), 0, 0);
  }

  lemma {:induction false} NoVars(items: seq<Item>)
    ensures Vars(items) == [] ==> Flat(items) == Bodies(items)
    ensures SegsOf(items) == [] ==> Vars(items) == []
    decreases |items|
  {
    if items != [] { NoVars(items[..|items| - 1]); }
  }

  lemma {:induction false} EncodeEmpty(xs: seq<Insn>)
    ensures Encode(xs) == [] ==> xs == []
  {
  }

  /** With or without locals, `finish` writes the function stream. */
  lemma SplicedWhole(items: seq<Item>)
    ensures Spliced(WordsOf(items)) == Encode(Flat(items))
  {
    SplicedIs(items);
    NoVars(items);
    EncodeEmpty(Vars(items));
  }

  // ----- locals -----

  /** A further variable lands at the end of the locals buffer and moves no mark. */
  lemma {:induction false} WordsVar(items: seq<Item>, v: Insn)
    requires SegsOf(items) != []
    ensures WordsOf(AddVar(items, v)) == WordsOf(items).(locals := Encode(Vars(items)) + EncodeInsn(v))
    ensures Bodies(AddVar(items, v)) == Bodies(items) && Vars(AddVar(items, v)) == Vars(items) + [v]
    decreases |items|
  {
    var init, last := items[..|items| - 1], items[|items| - 1];
    EncodeAppend(Vars(items), [v]);
    EncodeSingle(v);
    match last
    case Slot(vs) => VarInSlot(init, vs, v);
    case Body(x) =>
      WordsVar(init, v);
      VarBefore(init, AddVar(init, v), x, v);
  }

  lemma VarInSlot(init: seq<Item>, vs: seq<Insn>, v: Insn)
    ensures var a, b := init + [Slot(vs)], init + [Slot(vs + [v])];
            Bodies(b) == Bodies(a) && Vars(b) == Vars(a) + [v] && SegsOf(b) == SegsOf(a)
  {
    var a, b := init + [Slot(vs)], init + [Slot(vs + [v])];
    assert a[..|a| - 1] == init && b[..|b| - 1] == init;
    assert Vars(init) + (vs + [v]) == Vars(init) + vs + [v];
  }

  lemma VarBefore(init: seq<Item>, init': seq<Item>, x: Insn, v: Insn)
    requires Bodies(init') == Bodies(init) && Vars(init') == Vars(init) + [v] && SegsOf(init') == SegsOf(init)
    ensures var a, b := init + [Body(x)], init' + [Body(x)];
            Bodies(b) == Bodies(a) && Vars(b) == Vars(a) + [v] && SegsOf(b) == SegsOf(a)
  {
    var a, b := init + [Body(x)], init' + [Body(x)];
    assert a[..|a| - 1] == init && b[..|b| - 1] == init';
    assert Vars(init') + [] == Vars(init) + [] + [v];
  }
}
