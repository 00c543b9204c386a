/** What one turn of the emit loop appends, in three parts: a splice, the parameter
    loads, and what became of the instruction itself. */
module Emission {
  import opened Wrappers
  import opened Spirv
  import opened SignatureTransform
  import opened Meaning

  /** Instructions handled before any splice is considered. */
  predicate Direct(c: Ctx, st: St, x: Insn) {
    Converted(c.scan, x) || (!st.zoneA && x.op == OP_MEMORY_MODEL)
  }

  function SplicePart(c: Ctx, st: St, x: Insn): seq<Insn>
    requires c.Valid()
  {
    if Direct(c, st, x) then [] else Splice(c, st, x.op)
  }

  /** The instruction is an ordinary one of the entry function. */
  predicate Within(c: Ctx, st: St, x: Insn) {
    st.inFn && x.op != OP_FUNCTION_END && !Direct(c, st, x) && !IsEntry(c.sig.fn)(x)
  }

  predicate TakesLoads(c: Ctx, st: St, x: Insn) {
    Within(c, st, x) && !Drop(x, true) && !st.loads && x.op != OP_LABEL && x.op != OP_VARIABLE
  }

  function LoadPart(c: Ctx, st: St, x: Insn): seq<Insn>
    requires c.Valid()
  {
    if TakesLoads(c, st, x) then Loads(c) else []
  }

  predicate Lowers(c: Ctx, st: St, x: Insn) {
    Within(c, st, x) && x.op == OP_RETURN_VALUE && |x.args| >= 1
  }

  /** What became of the instruction. */
  function Own(c: Ctx, st: St, x: Insn): seq<Insn>
    requires c.Valid()
  {
    if IsSpecBitcast(x) then [Insn(OP_UNDEF, [x.args[0], x.args[1]])]
    else if IsPointerBitcast(c.scan, x) then
      if x.args[1] in c.scan.lifetimes then []
        else [Insn(OP_ACCESS_CHAIN, [x.args[0], x.args[1], x.args[2], c.ids.uintZero])]
    else if Direct(c, st, x) then [x] + EntryMetadata(c)
    else if IsEntry(c.sig.fn)(x) then [Insn(OP_FUNCTION, [c.ids.voidId, c.sig.fn, 0, c.ids.voidFn])]
    else if Drop(x, st.inFn) then []
    else if Lowers(c, st, x) then LoweredReturn(c, x.args[0], st.next)
    else [x]
  }

  lemma StepParts(c: Ctx, st: St, x: Insn)
    requires c.Valid()
    ensures EmitStep(c, st, x).out == SplicePart(c, st, x) + LoadPart(c, st, x) + Own(c, st, x)
  {
    if !Direct(c, st, x) && !IsEntry(c.sig.fn)(x) {
      BodyParts(c, st, x);
    }
  }

  lemma BodyParts(c: Ctx, st: St, x: Insn)
    requires c.Valid() && !Direct(c, st, x) && !IsEntry(c.sig.fn)(x)
    ensures EmitStep(c, st, x).out == Splice(c, st, x.op) + LoadPart(c, st, x) + Own(c, st, x)
  {
    var st1 := st.(preTypes := st.preTypes || IsTypeOp(x.op), preFn := st.preFn || x.op == OP_FUNCTION);
    var st2 := if x.op == OP_FUNCTION_END then st1.(inFn := false) else st1;
    assert EmitStep(c, st, x) == EmitBody(c, st2, x, Splice(c, st, x.op));
    assert Drop(x, st2.inFn) == Drop(x, st.inFn);
  }

  /** How the flags and the id counter move. */
  predicate Moves(c: Ctx, st: St, x: Insn, f: St) {
    && f.zoneA == (st.zoneA || (x.op == OP_MEMORY_MODEL && Direct(c, st, x)))
    && f.preTypes == (st.preTypes || IsTypeOp(x.op))
    && f.preFn == (st.preFn || x.op == OP_FUNCTION)
    && f.inFn == (IsEntry(c.sig.fn)(x) || (st.inFn && x.op != OP_FUNCTION_END))
    && f.loads == (!IsEntry(c.sig.fn)(x) && (st.loads || TakesLoads(c, st, x)))
    && f.next == st.next + (if Lowers(c, st, x) && c.sig.isStruct then |c.sig.members| else 0)
  }

  lemma StepState(c: Ctx, st: St, x: Insn)
    requires c.Valid()
    ensures Moves(c, st, x, EmitStep(c, st, x).st)
  {
    if Direct(c, st, x) {
      DirectState(c, st, x);
    } else if IsEntry(c.sig.fn)(x) {
      EntryState(c, st, x);
    } else {
      OrdinaryState(c, st, x);
    }
  }

  lemma DirectState(c: Ctx, st: St, x: Insn)
    requires c.Valid() && Direct(c, st, x)
    ensures Moves(c, st, x, EmitStep(c, st, x).st)
  {
    assert EmitStep(c, st, x).st == st.(zoneA := st.zoneA || x.op == OP_MEMORY_MODEL);
  }

  lemma EntryState(c: Ctx, st: St, x: Insn)
    requires c.Valid() && !Direct(c, st, x) && IsEntry(c.sig.fn)(x)
    ensures Moves(c, st, x, EmitStep(c, st, x).st)
  {
  }

  lemma OrdinaryState(c: Ctx, st: St, x: Insn)
    requires c.Valid() && !Direct(c, st, x) && !IsEntry(c.sig.fn)(x)
    ensures Moves(c, st, x, EmitStep(c, st, x).st)
  {
    var f := EmitBody(c, Entered(st, x), x, Splice(c, st, x.op)).st;
    OrdinaryIsBody(c, st, x);
    BodyState(c, Entered(st, x), x, Splice(c, st, x.op), f);
    BodyMoves(c, st, x, f);
  }

  lemma OrdinaryIsBody(c: Ctx, st: St, x: Insn)
    requires c.Valid() && !Direct(c, st, x) && !IsEntry(c.sig.fn)(x)
    ensures EmitStep(c, st, x) == EmitBody(c, Entered(st, x), x, Splice(c, st, x.op))
  {
  }

  /** The flags when the ordinary cases of the emit step begin. */
  function Entered(st: St, x: Insn): St {
    st.(preTypes := st.preTypes || IsTypeOp(x.op), preFn := st.preFn || x.op == OP_FUNCTION,
        inFn := st.inFn && x.op != OP_FUNCTION_END)
  }

  /** The flags after them. */
  function Left(c: Ctx, st: St, x: Insn): St {
    var ordinary := st.inFn && !Drop(x, true) && x.op != OP_LABEL;
    st.(loads := st.loads || (ordinary && x.op != OP_VARIABLE),
        next := st.next + if ordinary && x.op == OP_RETURN_VALUE && |x.args| >= 1 && c.sig.isStruct
                          then |c.sig.members| else 0)
  }

  lemma BodyState(c: Ctx, st: St, x: Insn, pre: seq<Insn>, f: St)
    requires c.Valid() && f == EmitBody(c, st, x, pre).st
    ensures f == Left(c, st, x)
  {
  }

  lemma BodyMoves(c: Ctx, st: St, x: Insn, f: St)
    requires !Direct(c, st, x) && !IsEntry(c.sig.fn)(x) && f == Left(c, Entered(st, x), x)
    ensures Moves(c, st, x, f)
  {
  }
}
