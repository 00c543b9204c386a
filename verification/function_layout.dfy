/** When the signature transform keeps functions well formed: where its parameter loads
    land between labels, variables and line instructions. */
module FunctionLayout {
  import opened Wrappers
  import opened Spirv
  import opened SignatureTransform
  import opened Machine
  import opened Meaning
  import opened MeaningTheorem
  import opened Emission
  import opened Layout

  // ----- lines that come too early -----

  predicate HasLine(xs: seq<Insn>, e: nat, k: nat)
    requires k <= |xs|
  {
    exists t :: e < t < k && IsLine(xs[t].op)
  }

  predicate Unlabelled(xs: seq<Insn>, e: nat, k: nat)
    requires k <= |xs|
  {
    forall t :: e < t < k ==> xs[t].op != OP_LABEL
  }

  predicate VariableAfter(xs: seq<Insn>, i: nat, j: nat) {
    i < j < |xs| && xs[j].op == OP_VARIABLE && Leads(xs, i, j)
  }

  /** Line instruction i stands in the header of the function that begins at e, or in
      front of one of its variables. */
  predicate EarlyLine(xs: seq<Insn>, e: nat, i: nat) {
    && e < i < |xs| && IsLine(xs[i].op) && Leads(xs, e, i)
    && (Unlabelled(xs, e, i) || exists j :: i < j < |xs| && VariableAfter(xs, i, j))
  }

  // ----- one turn -----

  /** The flags of the emit pass, in terms of the input's place. */
  ghost predicate FlagsFit(a: Place, st: St) {
    && (st.preFn <==> !a.Ahead?)
    && (st.inFn ==> !a.Ahead? && !a.Gap?)
    && (st.inFn && a.Between? ==> st.loads)
  }

  /** The output's place b, when the input is at a; `taken`: there are parameters to load. */
  ghost predicate OutFits(taken: bool, a: Place, b: Place, st: St) {
    var ahead := taken && st.inFn && st.loads;
    && !(ahead && a.Heading?)
    && if ahead && a.Opening? then b.Block? else Lags(a, b)
  }

  /** The turns that misplace something: a line takes the loads in the header, or a
      variable comes after the loads. */
  predicate Breaks(taken: bool, a: Place, st: St, op: nat) {
    taken && st.inFn && ((a.Heading? && IsLine(op)) || (a.Opening? && st.loads && op == OP_VARIABLE))
  }

  lemma FlagsStep(c: Ctx, st: St, x: Insn, f: St, a: Place, a': Place)
    requires Moves(c, st, x, f) && Follow(a, x.op) == Some(a') && FlagsFit(a, st)
    ensures FlagsFit(a', f)
  {
  }

  lemma DecorationsAlong(c: Ctx)
    ensures Along(Some(Ahead), Decorations(c)) == Some(Ahead)
  {
    AlongAhead(Decorations(c));
  }

  lemma {:induction false} VarDeclsPlain(ptrs: seq<nat>, vars: seq<nat>, types: seq<nat>, storage: nat, n: nat)
    requires n <= |ptrs| && n <= |vars| && n <= |types|
    ensures forall i :: 0 <= i < |VarDecls(ptrs, vars, types, storage, n)| ==>
              VarDecls(ptrs, vars, types, storage, n)[i].op != OP_FUNCTION
  {
    if n > 0 { VarDeclsPlain(ptrs, vars, types, storage, n - 1); }
  }

  lemma GlobalsAlong(c: Ctx)
    requires c.Valid()
    ensures Along(Some(Ahead), NewGlobals(c)) == Some(Ahead)
  {
    VarDeclsPlain(c.ids.outPtr, c.ids.outVar, c.sig.members, STORAGE_OUTPUT, |c.sig.members|);
    VarDeclsPlain(c.ids.inPtr, c.ids.inVar, c.sig.params, STORAGE_INPUT, |c.sig.params|);
    AlongAhead(NewGlobals(c));
  }

  lemma MetadataAlong(c: Ctx, x: Insn)
    requires x.op == OP_MEMORY_MODEL
    ensures Along(Some(Ahead), [x] + EntryMetadata(c)) == Some(Ahead)
  {
    AlongAhead([x] + EntryMetadata(c));
  }

  lemma LoadsAlong(c: Ctx, b: Place)
    requires c.Valid() && Loads(c) != []
    ensures b.Opening? || b.Block? ==> Along(Some(b), Loads(c)) == Some(Block)
    ensures b.Heading? ==> Along(Some(b), Loads(c)).None?
  {
    var ls := Loads(c);
    if b.Heading? {
      assert ls == [ls[0]] + ls[1..];
      AlongAppend(Some(b), [ls[0]], ls[1..]);
      AlongOne(b, ls[0]);
      AlongNone(ls[1..]);
    } else if b.Opening? || b.Block? {
      AlongBlock(b, ls);
    }
  }

  lemma {:induction false} ExtractsPlain(c: Ctx, v: nat, next: nat, n: nat)
    requires c.Valid() && n <= |c.sig.members|
    ensures forall i :: 0 <= i < |Extracts(c, v, next, n)| ==>
              Extracts(c, v, next, n)[i].op == OP_COMPOSITE_EXTRACT || Extracts(c, v, next, n)[i].op == OP_STORE
  {
    if n > 0 { ExtractsPlain(c, v, next, n - 1); }
  }

  lemma StoresInBlock(op: nat)
    requires op == OP_COMPOSITE_EXTRACT || op == OP_STORE
    ensures InBlock(op) == Some(Block) && !IsLine(op)
  {
  }

  lemma ReturnEnds(b: Place)
    requires b.Opening? || b.Block?
    ensures Follow(b, OP_RETURN) == Some(Between)
  {
  }

  lemma BlockEnds(b: Place, body: seq<Insn>)
    requires b.Opening? || b.Block?
    requires forall i :: 0 <= i < |body| ==> body[i].op == OP_COMPOSITE_EXTRACT || body[i].op == OP_STORE
    ensures Along(Some(b), body + [Insn(OP_RETURN, [])]) == Some(Between)
  {
    forall i | 0 <= i < |body|
      ensures InBlock(body[i].op) == Some(Block) && !IsLine(body[i].op)
    {
      StoresInBlock(body[i].op);
    }
    AlongBlock(b, body);
    AlongLast(Some(b), body, Insn(OP_RETURN, []));
    ReturnEnds(if body == [] then b else Block);
  }

  lemma ReturnAlong(c: Ctx, v: nat, next: nat, b: Place)
    requires c.Valid() && (b.Opening? || b.Block?)
    ensures Along(Some(b), LoweredReturn(c, v, next)) == Some(Between)
  {
    if c.sig.isStruct {
      ExtractsPlain(c, v, next, |c.sig.members|);
      BlockEnds(b, Extracts(c, v, next, |c.sig.members|));
    } else {
      BlockEnds(b, [Insn(OP_STORE, [c.ids.outVar[0], v])]);
    }
  }

  lemma ThreeAlong(b: Option<Place>, p: seq<Insn>, q: seq<Insn>, r: seq<Insn>)
    ensures Along(b, p + q + r) == Along(Along(Along(b, p), q), r)
  {
    AlongAppend(b, p + q, r);
    AlongAppend(b, p, q);
  }

  lemma SplicedAhead(c: Ctx, st: St, x: Insn, a: Place)
    requires c.Valid() && FlagsFit(a, st) && Follow(a, x.op).Some? && SplicePart(c, st, x) != []
    ensures a.Ahead? && (SplicePart(c, st, x) == Decorations(c) || SplicePart(c, st, x) == NewGlobals(c))
  {
    SplicedFor(c, st, x);
  }

  lemma SplicedFor(c: Ctx, st: St, x: Insn)
    requires c.Valid() && SplicePart(c, st, x) != []
    ensures (IsTypeOp(x.op) && !st.preTypes && SplicePart(c, st, x) == Decorations(c))
            || (x.op == OP_FUNCTION && !st.preFn && SplicePart(c, st, x) == NewGlobals(c))
  {
  }

  /** The splices keep the output ahead of all functions. */
  lemma SpliceAlong(c: Ctx, st: St, x: Insn, a: Place, b: Place)
    requires c.Valid() && FlagsFit(a, st) && Follow(a, x.op).Some? && (Lags(a, b) || (a.Opening? && b.Block?))
    ensures Along(Some(b), SplicePart(c, st, x)) == Some(b)
  {
    if SplicePart(c, st, x) != [] {
      SplicedAhead(c, st, x, a);
      DecorationsAlong(c);
      GlobalsAlong(c);
    }
  }

  /** An instruction that is converted, or followed by the metadata. */
  lemma DirectAlong(c: Ctx, st: St, x: Insn, a: Place, b: Place, a': Place)
    requires c.Valid() && Direct(c, st, x) && Follow(a, x.op) == Some(a')
    requires Lags(a, b) || (a.Opening? && b.Block?)
    ensures var d := Along(Some(b), Own(c, st, x)); d.Some? && Lags(a', d.value)
  {
    if !Converted(c.scan, x) {
      MetadataAlong(c, x);
    } else if Own(c, st, x) != [] {
      AlongOne(b, Own(c, st, x)[0]);
    }
  }

  /** A copy, a new OpFunction, or nothing. */
  lemma OutsideOwn(c: Ctx, st: St, x: Insn)
    requires c.Valid() && !Direct(c, st, x) && !Within(c, st, x)
    ensures LoadPart(c, st, x) == []
    ensures var ys := Own(c, st, x); if ys == [] then Drop(x, st.inFn) else |ys| == 1 && ys[0].op == x.op
  {
  }

  lemma DroppedStays(x: Insn, inFn: bool, a: Place, b: Place, a': Place)
    requires Drop(x, inFn) && Follow(a, x.op) == Some(a') && Lags(a, b) && (inFn ==> !a.Ahead?)
    requires x.op == OP_FUNCTION_PARAMETER ==> a.Ahead? || a.Heading?
    ensures Lags(a', b)
  {
  }

  /** An instruction outside the entry function, or the start or end of it. */
  lemma OutsideAlong(c: Ctx, st: St, x: Insn, a: Place, b: Place, a': Place)
    requires c.Valid() && !Direct(c, st, x) && !Within(c, st, x) && Follow(a, x.op) == Some(a')
    requires Lags(a, b) && FlagsFit(a, st)
    ensures var d := Along(Some(b), Own(c, st, x)); d.Some? && Lags(a', d.value)
  {
    var ys := Own(c, st, x);
    OutsideOwn(c, st, x);
    if ys == [] {
      DroppedStays(x, st.inFn, a, b, a');
    } else {
      assert ys == [ys[0]];
      AlongOne(b, ys[0]);
    }
  }

  /** An instruction of the entry function that the loads do not precede. */
  lemma PlainAlong(c: Ctx, st: St, x: Insn, a: Place, b: Place, a': Place)
    requires c.Valid() && Within(c, st, x) && Follow(a, x.op) == Some(a') && FlagsFit(a, st) && st.inFn
    requires Lags(a, b) || (a.Opening? && b.Block?)
    ensures var d := Along(Some(b), Own(c, st, x));
            && (d.None? <==> a.Opening? && b.Block? && x.op == OP_VARIABLE)
            && (d.Some? ==> if a'.Opening? && b.Block? then d.value.Block? else Lags(a', d.value))
  {
    if Lowers(c, st, x) {
      ReturnAlong(c, x.args[0], st.next, b);
    } else if Own(c, st, x) != [] {
      AlongOne(b, x);
    }
  }

  /** Where the output stands after the loads of a turn that takes them. */
  lemma TakenAlong(c: Ctx, st: St, x: Insn, a: Place, b: Place, a': Place)
    requires c.Valid() && TakesLoads(c, st, x) && Follow(a, x.op) == Some(a') && FlagsFit(a, st) && Lags(a, b)
    ensures a.Opening? || a.Block? || (a.Heading? && IsLine(x.op))
    ensures x.op != OP_VARIABLE
    ensures Loads(c) != [] ==> Along(Some(b), Loads(c)) == if a.Heading? then None else Some(Block)
  {
    if Loads(c) != [] { LoadsAlong(c, b); }
  }

  /** A turn inside the entry function that takes the loads. */
  lemma TakingAlong(c: Ctx, st: St, x: Insn, f: St, a: Place, b: Place, a': Place)
    requires c.Valid() && TakesLoads(c, st, x) && Follow(a, x.op) == Some(a') && FlagsFit(a, st)
    requires Moves(c, st, x, f) && OutFits(Loads(c) != [], a, b, st)
    ensures var d := Along(Along(Some(b), Loads(c)), Own(c, st, x));
            && (d.None? <==> Breaks(Loads(c) != [], a, st, x.op))
            && (d.Some? ==> OutFits(Loads(c) != [], a', d.value, f))
  {
    TakenAlong(c, st, x, a, b, a');
    if Loads(c) == [] {
      PlainAlong(c, st, x, a, b, a');
    } else if a.Heading? {
      AlongNone(Own(c, st, x));
    } else {
      PlainAlong(c, st, x, a, Block, a');
    }
  }

  /** A turn inside the entry function that does not. */
  lemma LoadlessAlong(c: Ctx, st: St, x: Insn, f: St, a: Place, b: Place, a': Place)
    requires c.Valid() && Within(c, st, x) && !TakesLoads(c, st, x) && Follow(a, x.op) == Some(a') && FlagsFit(a, st)
    requires Moves(c, st, x, f) && OutFits(Loads(c) != [], a, b, st)
    ensures var d := Along(Some(b), Own(c, st, x));
            && (d.None? <==> Breaks(Loads(c) != [], a, st, x.op))
            && (d.Some? ==> OutFits(Loads(c) != [], a', d.value, f))
  {
    PlainAlong(c, st, x, a, b, a');
    LoadlessFits(c, st, x, f, a, b, a', Along(Some(b), Own(c, st, x)));
  }

  lemma LoadlessFits(c: Ctx, st: St, x: Insn, f: St, a: Place, b: Place, a': Place, d: Option<Place>)
    requires c.Valid() && Within(c, st, x) && !TakesLoads(c, st, x) && Follow(a, x.op) == Some(a') && FlagsFit(a, st)
    requires Moves(c, st, x, f) && OutFits(Loads(c) != [], a, b, st)
    requires d.None? <==> a.Opening? && b.Block? && x.op == OP_VARIABLE
    requires d.Some? ==> if a'.Opening? && b.Block? then d.value.Block? else Lags(a', d.value)
    ensures d.None? <==> Breaks(Loads(c) != [], a, st, x.op)
    ensures d.Some? ==> OutFits(Loads(c) != [], a', d.value, f)
  {
  }

  /** ONE TURN keeps the output where it should be, unless it breaks. */
  lemma TurnAlong(c: Ctx, st: St, x: Insn, f: St, a: Place, b: Place, a': Place)
    requires c.Valid() && Follow(a, x.op) == Some(a') && FlagsFit(a, st)
    requires Moves(c, st, x, f) && OutFits(Loads(c) != [], a, b, st)
    ensures var d := Along(Some(b), SplicePart(c, st, x) + LoadPart(c, st, x) + Own(c, st, x));
            && (d.None? <==> Breaks(Loads(c) != [], a, st, x.op))
            && (d.Some? ==> OutFits(Loads(c) != [], a', d.value, f))
  {
    ThreeAlong(Some(b), SplicePart(c, st, x), LoadPart(c, st, x), Own(c, st, x));
    SpliceAlong(c, st, x, a, b);
    if TakesLoads(c, st, x) {
      TakingAlong(c, st, x, f, a, b, a');
    } else if Within(c, st, x) {
      LoadlessAlong(c, st, x, f, a, b, a');
    } else {
      StillAlong(c, st, x, f, a, b, a', Along(Some(b), Own(c, st, x)));
    }
  }

  lemma StillFits(c: Ctx, st: St, x: Insn, f: St, taken: bool, a: Place, b: Place, a': Place, d: Place)
    requires !Within(c, st, x) && Follow(a, x.op) == Some(a') && FlagsFit(a, st) && Moves(c, st, x, f)
    requires OutFits(taken, a, b, st) && Lags(a', d)
    ensures !Breaks(taken, a, st, x.op) && OutFits(taken, a', d, f)
  {
  }

  /** A turn outside the entry function, or a conversion. */
  lemma StillLags(c: Ctx, st: St, x: Insn, a: Place, b: Place, a': Place)
    requires c.Valid() && !Within(c, st, x) && Follow(a, x.op) == Some(a') && FlagsFit(a, st)
    requires Lags(a, b) || (a.Opening? && b.Block? && st.inFn)
    ensures var d := Along(Some(b), Own(c, st, x)); d.Some? && Lags(a', d.value)
  {
    if Direct(c, st, x) {
      DirectAlong(c, st, x, a, b, a');
    } else {
      OutsideAlong(c, st, x, a, b, a');
    }
  }

  lemma StillAlong(c: Ctx, st: St, x: Insn, f: St, a: Place, b: Place, a': Place, d: Option<Place>)
    requires c.Valid() && !Within(c, st, x) && Follow(a, x.op) == Some(a') && FlagsFit(a, st)
    requires Moves(c, st, x, f) && OutFits(Loads(c) != [], a, b, st) && d == Along(Some(b), Own(c, st, x))
    ensures !Breaks(Loads(c) != [], a, st, x.op) && d.Some? && OutFits(Loads(c) != [], a', d.value, f)
  {
    StillLags(c, st, x, a, b, a');
    StillFits(c, st, x, f, Loads(c) != [], a, b, a', d.value);
  }

  // ----- all turns -----

  /** A trace over a module whose functions are well formed. */
  ghost predicate Shaped(z: Sim) { Traced(z) && Structured(z.xs) }

  ghost predicate BreaksAt(z: Sim, k: nat)
    requires z.c.Valid() && k < |z.xs|
  {
    PlaceOf(z.xs, k).Some? && Breaks(Loads(z.c) != [], PlaceOf(z.xs, k).value, z.st(k), z.xs[k].op)
  }

  ghost function OutPlace(z: Sim, k: nat): Option<Place> { Along(Some(Ahead), z.out(k)) }

  /** One turn, seen through the places and flags before and after it. */
  lemma Turned(z: Sim, k: nat) returns (a: Place, a': Place)
    requires Shaped(z) && k < |z.xs|
    ensures PlaceOf(z.xs, k) == Some(a) && PlaceOf(z.xs, k + 1) == Some(a') && Follow(a, z.xs[k].op) == Some(a')
    ensures Moves(z.c, z.st(k), z.xs[k], z.st(k + 1))
    ensures OutPlace(z, k + 1) == Along(OutPlace(z, k), z.piece(k))
    ensures z.piece(k) == SplicePart(z.c, z.st(k), z.xs[k]) + LoadPart(z.c, z.st(k), z.xs[k])
            + Own(z.c, z.st(k), z.xs[k])
  {
    PlaceNext(z.xs, k);
    a, a' := PlaceOf(z.xs, k).value, PlaceOf(z.xs, k + 1).value;
    assert Emits(z, k) && Appends(z, k);
    StepParts(z.c, z.st(k), z.xs[k]);
    StepState(z.c, z.st(k), z.xs[k]);
    AlongAppend(Some(Ahead), z.out(k), z.piece(k));
  }

  lemma {:induction false} FlagsFitAt(z: Sim, k: nat)
    requires Shaped(z) && k <= |z.xs|
    ensures PlaceOf(z.xs, k).Some? && FlagsFit(PlaceOf(z.xs, k).value, z.st(k))
  {
    if k == 0 {
      assert z.xs[..0] == [];
    } else {
      FlagsFitAt(z, k - 1);
      var a, a' := Turned(z, k - 1);
      FlagsStep(z.c, z.st(k - 1), z.xs[k - 1], z.st(k), a, a');
    }
  }

  ghost predicate OutFitsAt(z: Sim, k: nat)
    requires z.c.Valid() && k <= |z.xs|
  {
    PlaceOf(z.xs, k).Some? && OutPlace(z, k).Some?
    && OutFits(Loads(z.c) != [], PlaceOf(z.xs, k).value, OutPlace(z, k).value, z.st(k))
  }

  lemma OutNext(z: Sim, k: nat)
    requires Shaped(z) && k < |z.xs| && OutFitsAt(z, k)
    ensures BreaksAt(z, k) ==> OutPlace(z, k + 1).None?
    ensures !BreaksAt(z, k) ==> OutFitsAt(z, k + 1)
  {
    FlagsFitAt(z, k);
    var a, a' := Turned(z, k);
    TurnAlong(z.c, z.st(k), z.xs[k], z.st(k + 1), a, OutPlace(z, k).value, a');
  }

  /** Nothing recovers from a misplacement. */
  lemma OutLost(z: Sim, k: nat)
    requires Shaped(z) && k < |z.xs| && OutPlace(z, k).None?
    ensures OutPlace(z, k + 1).None?
  {
    var a, a' := Turned(z, k);
    AlongNone(z.piece(k));
  }

  /** The output is in place as long as no turn breaks. */
  lemma {:induction false} OutHolds(z: Sim, k: nat)
    requires Shaped(z) && k <= |z.xs| && forall i :: 0 <= i < k ==> !BreaksAt(z, i)
    ensures OutFitsAt(z, k)
  {
    if k == 0 {
      assert z.xs[..0] == [];
    } else {
      OutHolds(z, k - 1);
      OutNext(z, k - 1);
    }
  }

  /** After a turn that breaks, the output is misplaced. */
  lemma {:induction false} OutBroken(z: Sim, i: nat, k: nat)
    requires Shaped(z) && i < k <= |z.xs| && BreaksAt(z, i)
    ensures OutPlace(z, k).None?
    decreases k
  {
    if i < k - 1 {
      OutBroken(z, i, k - 1);
      OutLost(z, k - 1);
    } else if exists j :: 0 <= j < i && BreaksAt(z, j) {
      var j :| 0 <= j < i && BreaksAt(z, j);
      OutBroken(z, j, i);
      OutLost(z, i);
    } else {
      OutHolds(z, i);
      OutNext(z, i);
    }
  }

  // ----- the turns that break, as lines that come too early -----

  /** How the place and the loads depend on what stands between the entry OpFunction and k. */
  ghost predicate Begun(z: Sim, e: nat, k: nat)
    requires k <= |z.xs|
  {
    && Leads(z.xs, e, k) && z.st(k).inFn
    && var a := PlaceOf(z.xs, k);
    && a.Some? && (a.value.Heading? || a.value.Opening?) && (a.value.Heading? <==> Unlabelled(z.xs, e, k))
    && (z.st(k).loads <==> HasLine(z.xs, e, k))
  }

  lemma BegunEntry(z: Sim, e: nat)
    requires Shaped(z) && e < |z.xs| && IsEntry(z.c.sig.fn)(z.xs[e])
    ensures Begun(z, e, e + 1)
  {
    PlaceNext(z.xs, e);
    assert Emits(z, e) && Appends(z, e);
    StepState(z.c, z.st(e), z.xs[e]);
    EntryOpens(z.c, z.st(e), z.xs[e], z.st(e + 1), PlaceOf(z.xs, e).value, PlaceOf(z.xs, e + 1).value);
  }

  lemma EntryOpens(c: Ctx, st: St, x: Insn, f: St, a: Place, a': Place)
    requires Moves(c, st, x, f) && IsEntry(c.sig.fn)(x) && Follow(a, x.op) == Some(a')
    ensures f.inFn && !f.loads && a'.Heading?
  {
  }

  lemma BegunNext(z: Sim, e: nat, k: nat)
    requires Shaped(z) && k < |z.xs| && Begun(z, e, k) && Leading(z.xs[k].op)
    ensures Begun(z, e, k + 1)
  {
    var a, a' := Turned(z, k);
    LeadingTakes(z.c, z.st(k), z.xs[k]);
    FurtherAlong(z.xs, e, k);
    StillInside(z.c, z.st(k), z.xs[k], z.st(k + 1), a, a');
  }

  lemma FurtherAlong(xs: seq<Insn>, e: nat, k: nat)
    requires k < |xs| && Leads(xs, e, k) && Leading(xs[k].op)
    ensures Leads(xs, e, k + 1)
    ensures Unlabelled(xs, e, k + 1) <==> Unlabelled(xs, e, k) && xs[k].op != OP_LABEL
    ensures HasLine(xs, e, k + 1) <==> HasLine(xs, e, k) || IsLine(xs[k].op)
  {
  }

  lemma StillInside(c: Ctx, st: St, x: Insn, f: St, a: Place, a': Place)
    requires Moves(c, st, x, f) && st.inFn && Leading(x.op) && Follow(a, x.op) == Some(a') && (a.Heading? || a.Opening?)
    ensures f.inFn && (f.loads <==> st.loads || TakesLoads(c, st, x)) && (a'.Heading? || a'.Opening?)
    ensures a'.Heading? <==> a.Heading? && x.op != OP_LABEL
  {
  }

  lemma LeadingTakes(c: Ctx, st: St, x: Insn)
    requires Leading(x.op) && st.inFn
    ensures TakesLoads(c, st, x) <==> !st.loads && IsLine(x.op)
  {
  }

  lemma {:induction false} BegunUntil(z: Sim, e: nat, k: nat)
    requires Shaped(z) && IsEntryAt(z, e) && k <= |z.xs| && Leads(z.xs, e, k)
    ensures Begun(z, e, k)
  {
    if k == e + 1 {
      BegunEntry(z, e);
    } else {
      BegunUntil(z, e, k - 1);
      BegunNext(z, e, k - 1);
    }
  }

  ghost predicate IsEntryAt(z: Sim, e: nat) { e < |z.xs| && IsEntry(z.c.sig.fn)(z.xs[e]) }

  predicate Starting(a: Place) { a.Heading? || a.Opening? }

  lemma StillStarting(c: Ctx, st: St, x: Insn, f: St, a: Place, a': Place)
    requires Moves(c, st, x, f) && f.inFn && !IsEntry(c.sig.fn)(x) && FlagsFit(a, st)
    requires Follow(a, x.op) == Some(a') && Starting(a')
    ensures st.inFn && Starting(a) && Leading(x.op)
  {
  }

  ghost predicate StartingAt(z: Sim, k: nat)
    requires k <= |z.xs|
  {
    z.st(k).inFn && PlaceOf(z.xs, k).Some? && Starting(PlaceOf(z.xs, k).value)
  }

  lemma StartingBack(z: Sim, k: nat)
    requires Shaped(z) && k < |z.xs| && StartingAt(z, k + 1) && !IsEntryAt(z, k)
    ensures StartingAt(z, k) && Leading(z.xs[k].op)
  {
    FlagsFitAt(z, k);
    var a, a' := Turned(z, k);
    StillStarting(z.c, z.st(k), z.xs[k], z.st(k + 1), a, a');
  }

  /** Where the entry function began. */
  lemma {:induction false} Anchor(z: Sim, k: nat) returns (e: nat)
    requires Shaped(z) && k <= |z.xs| && StartingAt(z, k)
    ensures IsEntryAt(z, e) && Begun(z, e, k)
  {
    if IsEntryAt(z, k - 1) {
      e := k - 1;
      BegunEntry(z, e);
    } else {
      StartingBack(z, k - 1);
      e := Anchor(z, k - 1);
      BegunNext(z, e, k - 1);
    }
  }

  lemma BreakIsEarly(z: Sim, k: nat) returns (e: nat, i: nat)
    requires Shaped(z) && k < |z.xs| && BreaksAt(z, k)
    ensures Loads(z.c) != [] && IsEntryAt(z, e) && EarlyLine(z.xs, e, i)
  {
    e := Anchor(z, k);
    if PlaceOf(z.xs, k).value.Heading? {
      i := k;
    } else {
      i :| e < i < k && IsLine(z.xs[i].op);
      assert VariableAfter(z.xs, i, k);
    }
  }

  lemma EarlyBreaks(z: Sim, e: nat, i: nat) returns (k: nat)
    requires Shaped(z) && Loads(z.c) != [] && IsEntryAt(z, e) && EarlyLine(z.xs, e, i)
    ensures k < |z.xs| && BreaksAt(z, k)
  {
    if Unlabelled(z.xs, e, i) {
      k := i;
      BegunUntil(z, e, k);
    } else {
      k :| i < k < |z.xs| && VariableAfter(z.xs, i, k);
      assert Leads(z.xs, e, k);
      BegunUntil(z, e, k);
      var a, a' := Turned(z, k);
      assert HasLine(z.xs, e, k);
    }
  }

  /** No line instruction of the entry function comes too early. */
  ghost predicate LinesWait(xs: seq<Insn>, fn: nat) {
    forall e, i :: 0 <= e < |xs| && IsEntry(fn)(xs[e]) && 0 <= i < |xs| ==> !EarlyLine(xs, e, i)
  }

  /** FUNCTIONS STAY WELL FORMED, EXACTLY WHEN there is nothing to load or no line
      instruction stands in the entry header or in front of one of its variables. */
  lemma StructureKept(z: Sim)
    requires Shaped(z)
    ensures Structured(z.N()) <==> z.c.paramIds == [] || LinesWait(z.xs, z.c.sig.fn)
  {
    var n := |z.xs|;
    FlagsFitAt(z, n);
    assert z.xs[..n] == z.xs;
    if k :| 0 <= k < n && BreaksAt(z, k) {
      OutBroken(z, k, n);
      var e, i := BreakIsEarly(z, k);
    } else {
      OutHolds(z, n);
      if Loads(z.c) != [] && !LinesWait(z.xs, z.c.sig.fn) {
        var e, i :| 0 <= e < n && IsEntry(z.c.sig.fn)(z.xs[e]) && 0 <= i < n && EarlyLine(z.xs, e, i);
        var k := EarlyBreaks(z, e, i);
      }
    }
  }
}
