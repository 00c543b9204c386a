/** The builder as an object whose buffers grow word by word. */
module BuilderProgram {
  import opened Wrappers
  import opened Spirv
  import opened Builder
  import opened BuilderRuns
  import opened BuilderOrder

  class SpvBuilder {
    var caps: seq<nat>
    var preamble: seq<nat>
    var annotations: seq<nat>
    var types: seq<nat>
    var funcs: seq<nat>
    var locals: seq<nat>
    var segs: seq<Seg>
    var next: nat

    ghost function Contents(): Buffers
      reads this
    {
      Buffers(caps, preamble, annotations, types, Words(funcs, locals, segs), next)
    }

    constructor ()
      ensures Contents() == Exec([]).b
    {
      caps, preamble, annotations, types, funcs, locals, segs, next := [], [], [], [], [], [], [], 1;
    }

    method AllocId() returns (id: nat)
      modifies this`next
      ensures id == old(next) && Contents() == Next(State(old(Contents()), []), Event.AllocId).b && id < next
    {
      id := next;
      next := next + 1;
    }

    method PushWord(s: Section, w: nat)
      modifies this
      ensures Contents() == Push(old(Contents()), s, [w])
    {
      match s
      case Caps => caps := caps + [w];
      case Preamble => preamble := preamble + [w];
      case Annotations => annotations := annotations + [w];
      case Types => types := types + [w];
      case Functions => funcs := funcs + [w];
    }

    method PushAll(s: Section, ws: seq<nat>)
      modifies this
      ensures Contents() == Push(old(Contents()), s, ws)
    {
      ghost var b := Contents();
      var i := 0;
      PushNothing(b, s);
      while i < |ws|
        invariant 0 <= i <= |ws| && Contents() == Push(b, s, ws[..i])
      {
        PushMore(b, s, ws[..i], [ws[i]]);
        assert ws[..i + 1] == ws[..i] + [ws[i]];
        PushWord(s, ws[i]);
        i := i + 1;
      }
      assert ws[..i] == ws;
    }

    /** Header word, operands: the instruction, if opcode and word count fit their halves of
        the header. */
    method EmitOp(op: nat, operands: seq<nat>)
      modifies this
      ensures Contents() == Push(old(Contents()), SectionOf(op, operands), [Header(1 + |operands|, op)] + operands)
      ensures Grown(old(Contents()), Contents(), Insn(op, operands), [Header(1 + |operands|, op)] + operands)
      ensures Spirv.Fits(Insn(op, operands)) ==>
              Contents() == Next(State(old(Contents()), []), Emit(Insn(op, operands))).b
    {
      var s, header := SectionOf(op, operands), Header(1 + |operands|, op);
      HeaderFits(1 + |operands|, op);
      PushMore(Contents(), s, [header], operands);
      PushGrown(Contents(), Insn(op, operands), [header] + operands);
      PushWord(s, header);
      PushAll(s, operands);
    }

    /** Header word, operands, packed string, more operands. */
    method EmitOpString(op: nat, prefix: seq<nat>, name: seq<nat>, suffix: seq<nat>)
      requires IsName(name)
      modifies this
      ensures var x := StringInsn(op, prefix, name, suffix);
              Contents() == Push(old(Contents()), SectionOf(op, prefix), [Header(1 + |x.args|, op)] + x.args)
      ensures Grown(old(Contents()), Contents(), Insn(op, prefix),
                    [Header(2 + |prefix| + |name| / 4 + |suffix|, op)] + (prefix + PackString(name) + suffix))
      ensures Spirv.Fits(StringInsn(op, prefix, name, suffix)) ==>
                Contents() == Next(State(old(Contents()), []), EmitString(op, prefix, name, suffix)).b
    {
      var s := SectionOf(op, prefix);
      var n := |name| / 4 + 1;
      var header := Header(1 + |prefix| + n + |suffix|, op);
      ghost var b, x := Contents(), StringInsn(op, prefix, name, suffix);
      HeaderFits(1 + |x.args|, op);
      PushFour(b, s, [header], prefix, PackString(name), suffix);
      PushGrown(b, Insn(op, prefix), [header] + x.args);
      PushWord(s, header);
      PushAll(s, prefix);
      var words := PackWords(name);
      PushAll(s, words);
      PushAll(s, suffix);
    }

    method MarkLocals()
      modifies this`segs
      ensures Contents() == Next(State(old(Contents()), []), Event.MarkLocals).b
    {
      segs := segs + [Seg(|funcs|, |locals|)];
    }

    method EmitLocalVar(ptr: nat, id: nat) returns (ok: bool)
      modifies this`locals
      ensures ok == (segs != []) && Contents() == Next(State(old(Contents()), []), LocalVar(ptr, id)).b
      ensures locals == old(locals) + if ok then [0x4_003B, ptr, id, 7] else []
    {
      if segs == [] { return false; }
      assert EncodeInsn(LocalInsn(ptr, id)) == [4 * 0x1_0000 + OP_VARIABLE, ptr, id, STORAGE_FUNCTION];
      locals := locals + [4 * 0x1_0000 + OP_VARIABLE, ptr, id, STORAGE_FUNCTION];
      return true;
    }

    method TakeSnapshot() returns (m: Mark)
      ensures m == MarkOf(Contents().w)
    {
      m := Mark(|funcs|, |segs|, |locals|);
    }

    method RewindTo(m: Mark)
      modifies this`funcs, this`segs, this`locals
      ensures Contents() == old(Contents()).(w := Truncated(old(Contents()).w, m))
    {
      if m.funcs <= |funcs| { funcs := funcs[..m.funcs]; }
      if m.segs <= |segs| { segs := segs[..m.segs]; }
      if m.locals <= |locals| { locals := locals[..m.locals]; }
    }

    method SpliceLocals() returns (out: seq<nat>)
      ensures out == SpliceFrom(Contents().w, 0, 0)
    {
      out := [];
      var src, g := 0, 0;
      ghost var w := Contents().w;
      assert [] + SpliceFrom(w, 0, 0) == SpliceFrom(w, 0, 0);
      while g < |segs|
        invariant 0 <= g <= |segs| && src <= |funcs| && out + SpliceFrom(w, g, src) == SpliceFrom(w, 0, 0)
      {
        var mark, lb := segs[g].mark, segs[g].begin;
        var le := if g + 1 < |segs| then segs[g + 1].begin else |locals|;
        if !(mark > |funcs| || mark < src || le < lb || le > |locals|) {
          Regroup(out, funcs[src..mark] + locals[lb..le], SpliceFrom(w, g + 1, mark));
          out := out + (funcs[src..mark] + locals[lb..le]);
          src := mark;
        }
        g := g + 1;
      }
      out := out + funcs[src..];
    }

    method FinishWords() returns (words: seq<nat>)
      ensures words == Finish(Contents())
    {
      words := [MAGIC, VERSION_14, 0, next, 0];
      var body := caps + preamble + annotations + types;
      if locals != [] && segs != [] {
        var spliced := SpliceLocals();
        body := body + spliced;
      } else {
        body := body + funcs;
      }
      words := words + body;
    }
  }

  /** Words were added at the end of the buffer for x, and nothing else changed. */
  ghost predicate Grown(b: Buffers, b': Buffers, x: Insn, ws: seq<nat>) {
    && b'.caps == b.caps + (if Enables(x) then ws else [])
    && b'.preamble == b.preamble + (if Introduces(x) then ws else [])
    && b'.annotations == b.annotations + (if Annotates(x) then ws else [])
    && b'.types == b.types + (if Declares(x) then ws else [])
    && b'.w == b.w.(funcs := b.w.funcs + if Computes(x) then ws else []) && b'.next == b.next
  }

  lemma PushGrown(b: Buffers, x: Insn, ws: seq<nat>)
    ensures Grown(b, Push(b, SectionOf(x.op, x.args), ws), x, ws)
  {
    PushNothing(b, Caps);
  }

  lemma PushFour(b: Buffers, s: Section, w: seq<nat>, x: seq<nat>, y: seq<nat>, z: seq<nat>)
    ensures Push(Push(Push(Push(b, s, w), s, x), s, y), s, z) == Push(b, s, w + (x + y + z))
  {
    PushMore(b, s, w, x);
    PushMore(b, s, w + x, y);
    PushMore(b, s, w + x + y, z);
    assert w + x + y + z == w + (x + y + z);
  }

  /** The header in 32 bits: word count above, opcode below, each cut to its half. */
  function Header(words: nat, op: nat): nat { words % 0x1_0000 * 0x1_0000 + op % 0x1_0000 }

  lemma HeaderHalves(words: nat, op: nat)
    ensures Header(words, op) / 0x1_0000 == words % 0x1_0000 && Header(words, op) % 0x1_0000 == op % 0x1_0000
  {
  }

  lemma HeaderFits(words: nat, op: nat)
    ensures words < 0x1_0000 && op < 0x1_0000 ==> Header(words, op) == words * 0x1_0000 + op
  {
  }

  lemma PushNothing(b: Buffers, s: Section)
    ensures Push(b, s, []) == b
  {
    assert b.caps + [] == b.caps && b.preamble + [] == b.preamble && b.annotations + [] == b.annotations
        && b.types + [] == b.types && b.w.funcs + [] == b.w.funcs;
  }

  lemma PushMore(b: Buffers, s: Section, x: seq<nat>, y: seq<nat>)
    ensures Push(Push(b, s, x), s, y) == Push(b, s, x + y)
  {
    assert b.caps + x + y == b.caps + (x + y) && b.preamble + x + y == b.preamble + (x + y)
        && b.annotations + x + y == b.annotations + (x + y) && b.types + x + y == b.types + (x + y)
        && b.w.funcs + x + y == b.w.funcs + (x + y);
  }

  /** A byte moved to its place in a word. */
  function ByteShifted(c: nat, byte: nat): nat {
    if byte == 0 then c else if byte == 1 then 0x100 * c else if byte == 2 then 0x1_0000 * c else 0x100_0000 * c
  }

  method PackWord(s: seq<nat>, w: nat) returns (word: nat)
    ensures word == CharOr0(s, 4 * w) + 0x100 * CharOr0(s, 4 * w + 1) + 0x1_0000 * CharOr0(s, 4 * w + 2)
            + 0x100_0000 * CharOr0(s, 4 * w + 3)
  {
    word := 0;
    var byte := 0;
    while byte < 4
      invariant 0 <= byte <= 4
      invariant word == (if byte > 0 then CharOr0(s, 4 * w) else 0)
                + (if byte > 1 then 0x100 * CharOr0(s, 4 * w + 1) else 0)
                      + (if byte > 2 then 0x1_0000 * CharOr0(s, 4 * w + 2) else 0)
                        + (if byte > 3 then 0x100_0000 * CharOr0(s, 4 * w + 3) else 0)
    {
      var idx := 4 * w + byte;
      var c := if idx < |s| then s[idx] else 0;
      word := word + ByteShifted(c, byte);
      byte := byte + 1;
    }
  }

  /** Four characters per word, low byte first, zero-padded. */
  method PackWords(s: seq<nat>) returns (ws: seq<nat>)
    requires IsName(s)
    ensures ws == PackString(s)
  {
    ws := [];
    var w, n := 0, |s| / 4 + 1;
    while w < n
      invariant 0 <= w <= n && |ws| == w && forall i :: 0 <= i < w ==> ws[i] == PackString(s)[i]
    {
      var word := PackWord(s, w);
      ws := ws + [word];
      w := w + 1;
    }
  }
}
