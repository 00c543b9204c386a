/** Runs of the builder: every sequence of emissions, marks, local variables, snapshots and
    rewinds keeps the buffers in step with the module being drafted. */
module BuilderRuns {
  import opened Wrappers
  import opened Spirv
  import opened Builder

  /** The buffers. */
  datatype Buffers = Buffers(caps: seq<nat>, preamble: seq<nat>, annotations: seq<nat>, types: seq<nat>, w: Words,
    next: nat)

  /** Lengths remembered by a snapshot. */
  datatype Mark = Mark(funcs: nat, segs: nat, locals: nat)

  datatype Event = Emit(x: Insn) | EmitString(op: nat, prefix: seq<nat>, name: seq<nat>, suffix: seq<nat>)
                 | MarkLocals | LocalVar(ptr: nat, id: nat) | AllocId | Snapshot | Rewind | Commit

  function StringInsn(op: nat, prefix: seq<nat>, name: seq<nat>, suffix: seq<nat>): Insn {
    Insn(op, prefix + PackString(name) + suffix)
  }

  function LocalInsn(ptr: nat, id: nat): Insn { Insn(OP_VARIABLE, [ptr, id, STORAGE_FUNCTION]) }

  // ----- on buffers -----

  function Push(b: Buffers, s: Section, ws: seq<nat>): Buffers {
    match s
    case Caps => b.(caps := b.caps + ws)
    case Preamble => b.(preamble := b.preamble + ws)
    case Annotations => b.(annotations := b.annotations + ws)
    case Types => b.(types := b.types + ws)
    case Functions => b.(w := b.w.(funcs := b.w.funcs + ws))
  }

  function MarkOf(w: Words): Mark { Mark(|w.funcs|, |w.segs|, |w.locals|) }

  function Cut<T>(s: seq<T>, n: nat): seq<T> { if n <= |s| then s[..n] else s }

  function Truncated(w: Words, m: Mark): Words {
    Words(Cut(w.funcs, m.funcs), Cut(w.locals, m.locals), Cut(w.segs, m.segs))
  }

  /** Buffers and the snapshots not yet rewound or committed. */
  datatype State = State(b: Buffers, marks: seq<Mark>)

  function Next(s: State, e: Event): State {
    var b, w := s.b, s.b.w;
    match e
    case Emit(x) => s.(b := Push(b, SectionOf(x.op, x.args), EncodeInsn(x)))
    case EmitString(op, prefix, name, suffix) =>
      s.(b := Push(b, SectionOf(op, prefix), EncodeInsn(StringInsn(op, prefix, name, suffix))))
    case MarkLocals => s.(b := b.(w := w.(segs := w.segs + [Seg(|w.funcs|, |w.locals|)])))
    case LocalVar(ptr, id) =>
      if w.segs == [] then s else s.(b := b.(w := w.(locals := w.locals + EncodeInsn(LocalInsn(ptr, id)))))
    case AllocId => s.(b := b.(next := b.next + 1))
    case Snapshot => s.(marks := s.marks + [MarkOf(w)])
    case Rewind =>
      if s.marks == [] then s
      else State(b.(w := Truncated(w, s.marks[|s.marks| - 1])), s.marks[..|s.marks| - 1])
    case Commit => if s.marks == [] then s else s.(marks := s.marks[..|s.marks| - 1])
  }

  function Exec(es: seq<Event>): State {
    if es == [] then State(Buffers([], [], [], [], Words([], [], []), 1), [])
    else Next(Exec(es[..|es| - 1]), es[|es| - 1])
  }

  /** The words of the finished module. */
  function Finish(b: Buffers): seq<nat> {
    [MAGIC, VERSION_14, 0, b.next, 0] + (b.caps + b.preamble + b.annotations + b.types + Spliced(b.w))
  }

  // ----- on drafts -----

  /** A draft and the function streams saved by open snapshots. */
  datatype Plan = Plan(d: Draft, saved: seq<seq<Item>>)

  function Step(p: Plan, e: Event): Plan {
    match e
    case Emit(x) => p.(d := Place(p.d, SectionOf(x.op, x.args), x))
    case EmitString(op, prefix, name, suffix) =>
      p.(d := Place(p.d, SectionOf(op, prefix), StringInsn(op, prefix, name, suffix)))
    case MarkLocals => p.(d := p.d.(items := p.d.items + [Slot([])]))
    case LocalVar(ptr, id) =>
      if SegsOf(p.d.items) == [] then p else p.(d := p.d.(items := AddVar(p.d.items, LocalInsn(ptr, id))))
    case AllocId => p
    case Snapshot => p.(saved := p.saved + [p.d.items])
    case Rewind => if p.saved == [] then p else Plan(p.d.(items := p.saved[|p.saved| - 1]), p.saved[..|p.saved| - 1])
    case Commit => if p.saved == [] then p else p.(saved := p.saved[..|p.saved| - 1])
  }

  function Drafted(es: seq<Event>): Plan {
    if es == [] then Plan(Draft([], [], [], [], []), []) else Step(Drafted(es[..|es| - 1]), es[|es| - 1])
  }

  // ----- the two agree -----

  /** The later words only add to the earlier. */
  ghost predicate Extends(hi: Words, lo: Words) { lo.funcs <= hi.funcs && lo.locals <= hi.locals && lo.segs <= hi.segs }

  ghost predicate Saves(m: Mark, t: seq<Item>, top: Words) { m == MarkOf(WordsOf(t)) && Extends(top, WordsOf(t)) }

  /** Open snapshots, innermost last: each remembers the lengths of what it saved, and the
      ones above it, like the present buffers, only add to it. */
  ghost predicate Stacked(marks: seq<Mark>, saved: seq<seq<Item>>, top: Words)
    decreases |marks|
  {
    |marks| == |saved| &&
    (marks == [] ||
     (var n := |marks| - 1;
      Saves(marks[n], saved[n], top) && Stacked(marks[..n], saved[..n], WordsOf(saved[n]))))
  }

  ghost predicate Agree(s: State, p: Plan) {
    && s.b.caps == Encode(p.d.caps) && s.b.preamble == Encode(p.d.preamble)
    && s.b.annotations == Encode(p.d.annotations) && s.b.types == Encode(p.d.types)
    && s.b.w == WordsOf(p.d.items)
    && Stacked(s.marks, p.saved, s.b.w)
  }

  lemma StackedOn(marks: seq<Mark>, saved: seq<seq<Item>>, top: Words, top': Words)
    requires Stacked(marks, saved, top) && Extends(top', top)
    ensures Stacked(marks, saved, top')
  {
  }

  lemma EncodeNext(xs: seq<Insn>, x: Insn)
    ensures Encode(xs + [x]) == Encode(xs) + EncodeInsn(x)
  {
    EncodeAppend(xs, [x]);
    EncodeSingle(x);
  }

  lemma PushAgrees(s: State, p: Plan, sec: Section, x: Insn)
    requires Agree(s, p)
    ensures Agree(s.(b := Push(s.b, sec, EncodeInsn(x))), p.(d := Place(p.d, sec, x)))
  {
    match sec
    case Caps => EncodeNext(p.d.caps, x);
    case Preamble => EncodeNext(p.d.preamble, x);
    case Annotations => EncodeNext(p.d.annotations, x);
    case Types => EncodeNext(p.d.types, x);
    case Functions =>
      WordsBody(p.d.items, x);
      StackedOn(s.marks, p.saved, s.b.w, WordsOf(p.d.items + [Body(x)]));
  }

  lemma MarkAgrees(s: State, p: Plan)
    requires Agree(s, p)
    ensures Agree(Next(s, MarkLocals), Step(p, MarkLocals))
  {
    var w := s.b.w;
    WordsSlot(p.d.items, []);
    assert w.locals + Encode([]) == w.locals;
    StackedOn(s.marks, p.saved, w, WordsOf(p.d.items + [Slot([])]));
  }

  lemma LocalAgrees(s: State, p: Plan, ptr: nat, id: nat)
    requires Agree(s, p)
    ensures Agree(Next(s, LocalVar(ptr, id)), Step(p, LocalVar(ptr, id)))
  {
    if SegsOf(p.d.items) != [] {
      WordsVar(p.d.items, LocalInsn(ptr, id));
      StackedOn(s.marks, p.saved, s.b.w, WordsOf(AddVar(p.d.items, LocalInsn(ptr, id))));
    }
  }

  lemma CutPrefix<T>(s: seq<T>, t: seq<T>)
    requires t <= s
    ensures Cut(s, |t|) == t
  {
  }

  /** Truncating to the lengths of a snapshot restores exactly what it saved. */
  lemma RewindAgrees(s: State, p: Plan)
    requires Agree(s, p)
    ensures Agree(Next(s, Rewind), Step(p, Rewind))
  {
    if s.marks != [] {
      var n := |s.marks| - 1;
      var t := WordsOf(p.saved[n]);
      assert Saves(s.marks[n], p.saved[n], s.b.w);
      CutPrefix(s.b.w.funcs, t.funcs);
      CutPrefix(s.b.w.locals, t.locals);
      CutPrefix(s.b.w.segs, t.segs);
    }
  }

  lemma CommitAgrees(s: State, p: Plan)
    requires Agree(s, p)
    ensures Agree(Next(s, Commit), Step(p, Commit))
  {
    if s.marks != [] {
      var n := |s.marks| - 1;
      StackedOn(s.marks[..n], p.saved[..n], WordsOf(p.saved[n]), s.b.w);
    }
  }

  lemma SnapshotAgrees(s: State, p: Plan)
    requires Agree(s, p)
    ensures Agree(Next(s, Snapshot), Step(p, Snapshot))
  {
    var marks, saved := s.marks + [MarkOf(s.b.w)], p.saved + [p.d.items];
    assert marks[..|s.marks|] == s.marks && saved[..|p.saved|] == p.saved;
  }

  lemma StepAgrees(s: State, p: Plan, e: Event)
    requires Agree(s, p)
    ensures Agree(Next(s, e), Step(p, e))
  {
    match e
    case Emit(x) => PushAgrees(s, p, SectionOf(x.op, x.args), x);
    case EmitString(op, prefix, name, suffix) =>
      PushAgrees(s, p, SectionOf(op, prefix), StringInsn(op, prefix, name, suffix));
    case MarkLocals => MarkAgrees(s, p);
    case LocalVar(ptr, id) => LocalAgrees(s, p, ptr, id);
    case AllocId =>
    case Snapshot => SnapshotAgrees(s, p);
    case Rewind => RewindAgrees(s, p);
    case Commit => CommitAgrees(s, p);
  }

  /** EVERY RUN keeps the buffers in step with the draft, whatever is emitted, marked,
      snapshot, rewound or committed, in any properly nested order. */
  lemma {:induction false} RunsAgree(es: seq<Event>)
    ensures Agree(Exec(es), Drafted(es))
    decreases |es|
  {
    if es != [] {
      RunsAgree(es[..|es| - 1]);
      StepAgrees(Exec(es[..|es| - 1]), Drafted(es[..|es| - 1]), es[|es| - 1]);
    }
  }

  lemma EncodeFive(a: seq<Insn>, b: seq<Insn>, c: seq<Insn>, d: seq<Insn>, e: seq<Insn>)
    ensures Encode(a + b + c + d + e) == Encode(a) + Encode(b) + Encode(c) + Encode(d) + Encode(e)
  {
    EncodeAppend(a + b + c + d, e);
    EncodeAppend(a + b + c, d);
    EncodeAppend(a + b, c);
    EncodeAppend(a, b);
  }

  /** THE OUTPUT PARSES BACK: finishing after any run writes a header whose bound is the
      next id, and then words that parse to the drafted module: the sections in order and
      each function's locals in its own slot. */
  lemma FinishParses(es: seq<Event>)
    requires AllFit(Module(Drafted(es).d))
    ensures var words := Finish(Exec(es).b);
            && words[..5] == [0x0723_0203, 0x0001_0400, 0, Exec(es).b.next, 0]
            && Frame(words[5..]) == Some(Module(Drafted(es).d))
  {
    RunsAgree(es);
    var b, d := Exec(es).b, Drafted(es).d;
    SplicedWhole(d.items);
    EncodeFive(d.caps, d.preamble, d.annotations, d.types, Flat(d.items));
    FrameEncode(Module(d));
    FinishTail(b, Encode(Module(d)));
  }

  lemma FinishTail(b: Buffers, body: seq<nat>)
    requires b.caps + b.preamble + b.annotations + b.types + Spliced(b.w) == body
    ensures Finish(b)[..5] == [MAGIC, VERSION_14, 0, b.next, 0] && Finish(b)[5..] == body
  {
  }

  /** No event takes an id back. */
  lemma {:induction false} NextGrows(es: seq<Event>, k: nat)
    requires k <= |es|
    ensures 0 < Exec(es[..k]).b.next <= Exec(es).b.next
    decreases |es|
  {
    if k == |es| {
      assert es[..k] == es;
      if k > 0 { NextGrows(es[..k - 1], k - 1); }
    } else {
      assert es[..|es| - 1][..k] == es[..k];
      NextGrows(es[..|es| - 1], k);
    }
  }

  /** The id that event k of a run hands out. */
  function Allocated(es: seq<Event>, k: nat): Option<nat>
    requires k < |es|
  {
    if es[k].AllocId? then Some(Exec(es[..k]).b.next) else None
  }

  /** FRESH IDS, over whole runs: an id that was handed out is not 0 and is below the bound in
      the finished header, and no other is the same, rewound or not. */
  lemma FreshIds(es: seq<Event>, j: nat, k: nat)
    requires j < |es| && k < |es| && es[j].AllocId? && es[k].AllocId?
    ensures 0 < Allocated(es, j).value < Finish(Exec(es).b)[3]
    ensures j != k ==> Allocated(es, j) != Allocated(es, k)
  {
    AllocatedBelow(es, j, |es|);
    assert es[..|es|] == es;
    if j < k { AllocatedBelow(es, j, k); }
    if k < j { AllocatedBelow(es, k, j); }
  }

  lemma AllocatedBelow(es: seq<Event>, j: nat, n: nat)
    requires j < n <= |es| && es[j].AllocId?
    ensures 0 < Allocated(es, j).value < Exec(es[..n]).b.next
  {
    assert es[..j + 1][..j] == es[..j] && es[..n][..j + 1] == es[..j + 1];
    assert Exec(es[..j + 1]) == Next(Exec(es[..j]), AllocId);
    NextGrows(es[..j + 1], j);
    NextGrows(es[..n], j + 1);
  }

  // ----- what the draft is -----

  function Emitted(e: Event): seq<Insn> {
    match e
    case Emit(x) => [x]
    case EmitString(op, prefix, name, suffix) => [StringInsn(op, prefix, name, suffix)]
    case _ => []
  }

  function SectionFor(e: Event): Section {
    match e
    case Emit(x) => SectionOf(x.op, x.args)
    case EmitString(op, prefix, _, _) => SectionOf(op, prefix)
    case _ => Functions
  }

  /** Everything emitted into one section, in order. */
  function Routed(es: seq<Event>, s: Section): seq<Insn> {
    if es == [] then [] else
    Routed(es[..|es| - 1], s) + if SectionFor(es[|es| - 1]) == s then Emitted(es[|es| - 1]) else []
  }

  function SectionIn(d: Draft, s: Section): seq<Insn> {
    match s
    case Caps => d.caps
    case Preamble => d.preamble
    case Annotations => d.annotations
    case Types => d.types
    case Functions => Bodies(d.items)
  }

  /** STABLE PARTITION: each section holds what was routed to it, in emission order,
      rewinds or not; and without rewinds so does the function stream. */
  lemma {:induction false} Partition(es: seq<Event>, s: Section)
    requires s == Functions ==> forall i :: 0 <= i < |es| ==> !es[i].Rewind?
    ensures SectionIn(Drafted(es).d, s) == Routed(es, s)
    decreases |es|
  {
    if es != [] {
      var n := |es| - 1;
      Partition(es[..n], s);
      if s == Functions { BodiesNext(Drafted(es[..n]), es[n]); } else { SectionNext(Drafted(es[..n]), es[n], s); }
    }
  }

  lemma SectionNext(p: Plan, e: Event, s: Section)
    requires s != Functions
    ensures SectionIn(Step(p, e).d, s) == SectionIn(p.d, s) + if SectionFor(e) == s then Emitted(e) else []
  {
  }

  lemma BodiesNext(p: Plan, e: Event)
    requires !e.Rewind?
    ensures Bodies(Step(p, e).d.items) == Bodies(p.d.items) + if SectionFor(e) == Functions then Emitted(e) else []
  {
    var items := p.d.items;
    if e.LocalVar? && SegsOf(items) != [] { WordsVar(items, LocalInsn(e.ptr, e.id)); }
    if e.MarkLocals? { assert (items + [Slot([])])[..|items|] == items; }
    if Emitted(e) != [] { assert (items + [Body(Emitted(e)[0])])[..|items|] == items; }
  }

  /** A run of events between a snapshot and its rewind: nothing inside closes it. */
  predicate Balanced(es: seq<Event>, depth: nat)
    decreases |es|
  {
    if es == [] then depth == 0
    else match es[0]
      case Snapshot => Balanced(es[1..], depth + 1)
      case Rewind => depth > 0 && Balanced(es[1..], depth - 1)
      case Commit => depth > 0 && Balanced(es[1..], depth - 1)
      case _ => Balanced(es[1..], depth)
  }

  function StepAll(p: Plan, es: seq<Event>): Plan
    decreases |es|
  {
    if es == [] then p else StepAll(Step(p, es[0]), es[1..])
  }

  lemma {:induction false} BalancedKeeps(p: Plan, es: seq<Event>, depth: nat)
    requires Balanced(es, depth) && depth <= |p.saved|
    ensures var q := StepAll(p, es); |q.saved| == |p.saved| - depth && q.saved == p.saved[..|p.saved| - depth]
    decreases |es|
  {
    if es != [] {
      var q := Step(p, es[0]);
      var n := |p.saved|;
      match es[0]
      case Snapshot =>
        BalancedKeeps(q, es[1..], depth + 1);
        assert q.saved[..n - depth] == p.saved[..n - depth];
      case Rewind =>
        BalancedKeeps(q, es[1..], depth - 1);
        assert q.saved[..n - depth] == p.saved[..n - depth];
      case Commit =>
        BalancedKeeps(q, es[1..], depth - 1);
        assert q.saved[..n - depth] == p.saved[..n - depth];
      case _ => BalancedKeeps(q, es[1..], depth);
    }
  }

  lemma RollbackDraft(p: Plan, es: seq<Event>)
    requires Balanced(es, 0)
    ensures var q := Step(StepAll(Step(p, Snapshot), es), Rewind); q.d.items == p.d.items && q.saved == p.saved
  {
    var p1 := Step(p, Snapshot);
    BalancedKeeps(p1, es, 0);
    assert p1.saved[..|p1.saved|] == p1.saved && p1.saved[..|p.saved|] == p.saved;
  }

  lemma {:induction false} DraftedThen(pre: seq<Event>, es: seq<Event>)
    ensures Drafted(pre + es) == StepAll(Drafted(pre), es)
    decreases |es|
  {
    if es == [] {
      assert pre + es == pre;
    } else {
      var next := pre + [es[0]];
      assert next[..|pre|] == pre && pre + es == next + es[1..];
      DraftedThen(next, es[1..]);
    }
  }

  lemma {:induction false} StepAllThen(p: Plan, es: seq<Event>, e: Event)
    ensures StepAll(p, es + [e]) == Step(StepAll(p, es), e)
    decreases |es|
  {
    if es == [] {
      assert [e][1..] == [];
    } else {
      assert (es + [e])[1..] == es[1..] + [e];
      StepAllThen(Step(p, es[0]), es[1..], e);
    }
  }

  /** The marks are determined by what the snapshots saved. */
  lemma {:induction false} MarksOf(m: seq<Mark>, n: seq<Mark>, saved: seq<seq<Item>>, top: Words, top': Words)
    requires Stacked(m, saved, top) && Stacked(n, saved, top')
    ensures m == n
    decreases |m|
  {
    if m != [] {
      var k := |m| - 1;
      TopMark(m, saved, top);
      TopMark(n, saved, top');
      MarksOf(m[..k], n[..k], saved[..k], WordsOf(saved[k]), WordsOf(saved[k]));
      SameLast(m, n);
    }
  }

  lemma TopMark(m: seq<Mark>, saved: seq<seq<Item>>, top: Words)
    requires Stacked(m, saved, top) && m != []
    ensures |saved| == |m| && m[|m| - 1] == MarkOf(WordsOf(saved[|m| - 1]))
    ensures Stacked(m[..|m| - 1], saved[..|m| - 1], WordsOf(saved[|m| - 1]))
  {
  }

  lemma SameLast<T>(s: seq<T>, t: seq<T>)
    requires |s| == |t| > 0 && s[..|s| - 1] == t[..|s| - 1] && s[|s| - 1] == t[|s| - 1]
    ensures s == t
  {
    assert s == s[..|s| - 1] + [s[|s| - 1]] && t == t[..|s| - 1] + [t[|s| - 1]];
  }

  /** ROLLBACK IS EXACT: a function emitted between a snapshot and its rewind, with anything
      properly nested inside, leaves the words of the function stream, the words of the
      locals, their segments and the open snapshots as if it had never been emitted. */
  lemma RollbackExact(pre: seq<Event>, es: seq<Event>)
    requires Balanced(es, 0)
    ensures var s := Exec(pre + ([Snapshot] + es + [Rewind]));
            s.b.w == Exec(pre).b.w && s.marks == Exec(pre).marks && Spliced(s.b.w) == Spliced(Exec(pre).b.w)
  {
    var run := [Snapshot] + es + [Rewind];
    RunsAgree(pre);
    RunsAgree(pre + run);
    DraftedThen(pre, run);
    StepAllThen(Drafted(pre), [Snapshot] + es, Rewind);
    assert ([Snapshot] + es)[1..] == es;
    RollbackDraft(Drafted(pre), es);
    var p, q := Drafted(pre), Drafted(pre + run);
    MarksOf(Exec(pre).marks, Exec(pre + run).marks, p.saved, Exec(pre).b.w, Exec(pre + run).b.w);
  }
}
