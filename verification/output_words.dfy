/** The words that the signature transform writes: when they parse back to the instructions
    that the other theorems speak of. */
module OutputWords {
  import opened Wrappers
  import opened Spirv
  import opened SignatureTransform
  import opened Meaning
  import opened MeaningTheorem
  import opened Emission

  /** Each value is a 32-bit word. */
  predicate Low(s: seq<nat>) { forall i :: 0 <= i < |s| ==> s[i] < WORD }

  predicate AllLow(xs: seq<Insn>) { forall i :: 0 <= i < |xs| ==> Low(xs[i].args) }

  /** The word count of the new OpEntryPoint fits its half of the header word. */
  predicate NameFits(name: seq<nat>, g: Sig) { |name| / 4 + 3 + |g.members| + |g.params| < 0xFFFF }

  ghost predicate Tame(c: Ctx) {
    && c.Valid() && IsName(c.name) && |c.sig.members| <= MAX_MEMBERS && |c.sig.params| <= MAX_PARAMS
    && Low([c.sig.fn, c.ids.voidId, c.ids.voidFn, c.ids.uintTy, c.ids.uintZero])
    && Low(c.sig.members) && Low(c.sig.params) && Low(c.paramIds)
    && Low(c.ids.outPtr) && Low(c.ids.outVar) && Low(c.ids.inPtr) && Low(c.ids.inVar)
  }

  // ----- what is emitted -----

  lemma MetadataWords(c: Ctx)
    requires Tame(c)
    ensures AllLow(EntryMetadata(c)) && (AllFit(EntryMetadata(c)) <==> NameFits(c.name, c.sig))
  {
    var ws := PackString(c.name);
    forall i | 0 <= i < |ws| ensures ws[i] < WORD {
      PackStringAt(c.name, 4 * i);
      assert 4 * i / 4 == i;
    }
    var e := Insn(OP_ENTRY_POINT, [c.stage.Model(), c.sig.fn] + ws + c.ids.outVar + c.ids.inVar);
    var ids := [c.sig.fn, c.ids.voidId, c.ids.voidFn, c.ids.uintTy, c.ids.uintZero];
    assert ids[0] < WORD;
    assert Low(e.args);
    assert EntryMetadata(c)[if c.scan.shader then 0 else 1] == e;
    assert Fits(e) <==> NameFits(c.name, c.sig);
  }

  lemma DecorationsWords(c: Ctx)
    requires Tame(c)
    ensures AllLow(Decorations(c)) && AllFit(Decorations(c))
  {
  }

  lemma {:induction false} VarDeclsWords(ptrs: seq<nat>, vars: seq<nat>, types: seq<nat>, storage: nat, n: nat)
    requires n <= |ptrs| && n <= |vars| && n <= |types| && storage < WORD && Low(ptrs) && Low(vars) && Low(types)
    ensures AllLow(VarDecls(ptrs, vars, types, storage, n)) && AllFit(VarDecls(ptrs, vars, types, storage, n))
  {
    if n > 0 { VarDeclsWords(ptrs, vars, types, storage, n - 1); }
  }

  lemma GlobalsWords(c: Ctx)
    requires Tame(c)
    ensures AllLow(NewGlobals(c)) && AllFit(NewGlobals(c))
  {
    var ids := [c.sig.fn, c.ids.voidId, c.ids.voidFn, c.ids.uintTy, c.ids.uintZero];
    assert ids[1] < WORD && ids[2] < WORD && ids[3] < WORD && ids[4] < WORD;
    VarDeclsWords(c.ids.outPtr, c.ids.outVar, c.sig.members, STORAGE_OUTPUT, |c.sig.members|);
    VarDeclsWords(c.ids.inPtr, c.ids.inVar, c.sig.params, STORAGE_INPUT, |c.sig.params|);
  }

  lemma {:induction false} ExtractsWords(c: Ctx, v: nat, next: nat, n: nat)
    requires Tame(c) && v < WORD && n <= |c.sig.members| && next + n <= WORD
    ensures AllLow(Extracts(c, v, next, n)) && AllFit(Extracts(c, v, next, n))
  {
    if n > 0 { ExtractsWords(c, v, next, n - 1); }
  }

  lemma ReturnWords(c: Ctx, v: nat, next: nat)
    requires Tame(c) && v < WORD && next + (if c.sig.isStruct then |c.sig.members| else 0) <= WORD
    ensures AllLow(LoweredReturn(c, v, next)) && AllFit(LoweredReturn(c, v, next))
  {
    if c.sig.isStruct { ExtractsWords(c, v, next, |c.sig.members|); }
  }

  /** The turn writes the metadata. */
  predicate WritesEntry(c: Ctx, st: St, x: Insn) { Direct(c, st, x) && !Converted(c.scan, x) }

  lemma OwnWords(c: Ctx, st: St, x: Insn, f: St)
    requires Tame(c) && Low(x.args) && Fits(x) && Moves(c, st, x, f) && f.next <= WORD
    ensures AllLow(Own(c, st, x)) && (AllFit(Own(c, st, x)) <==> (WritesEntry(c, st, x) ==> NameFits(c.name, c.sig)))
  {
    var ids := [c.sig.fn, c.ids.voidId, c.ids.voidFn, c.ids.uintTy, c.ids.uintZero];
    assert ids[0] < WORD && ids[1] < WORD && ids[2] < WORD && ids[4] < WORD;
    if WritesEntry(c, st, x) {
      MetadataWords(c);
      OneMore(x, EntryMetadata(c));
    } else if Lowers(c, st, x) && !Drop(x, st.inFn) {
      ReturnWords(c, x.args[0], st.next);
    }
  }

  lemma OneMore(x: Insn, ys: seq<Insn>)
    requires Low(x.args) && Fits(x) && AllLow(ys)
    ensures AllLow([x] + ys) && (AllFit([x] + ys) <==> AllFit(ys))
  {
    if AllFit([x] + ys) {
      forall i | 0 <= i < |ys| ensures Fits(ys[i]) { assert ([x] + ys)[i + 1] == ys[i]; }
    }
  }

  lemma AppendWords(a: seq<Insn>, b: seq<Insn>)
    ensures AllLow(a) && AllLow(b) ==> AllLow(a + b)
    ensures AllFit(a + b) <==> AllFit(a) && AllFit(b)
  {
    if AllFit(a + b) {
      forall i | 0 <= i < |a| ensures Fits(a[i]) { assert (a + b)[i] == a[i]; }
      forall i | 0 <= i < |b| ensures Fits(b[i]) { assert (a + b)[|a| + i] == b[i]; }
    }
  }

  lemma SpliceWords(c: Ctx, st: St, x: Insn)
    requires Tame(c)
    ensures AllLow(SplicePart(c, st, x)) && AllFit(SplicePart(c, st, x))
  {
    DecorationsWords(c);
    GlobalsWords(c);
    SpliceIsOne(c, st, x);
  }

  lemma SpliceIsOne(c: Ctx, st: St, x: Insn)
    requires c.Valid()
    ensures SplicePart(c, st, x) in {[], Decorations(c), NewGlobals(c)}
  {
  }

  lemma LoadWords(c: Ctx, st: St, x: Insn)
    requires Tame(c)
    ensures AllLow(LoadPart(c, st, x)) && AllFit(LoadPart(c, st, x))
  {
  }

  lemma PieceWords(c: Ctx, st: St, x: Insn, f: St, piece: seq<Insn>)
    requires Tame(c) && Low(x.args) && Fits(x) && Moves(c, st, x, f) && f.next <= WORD
    requires piece == SplicePart(c, st, x) + LoadPart(c, st, x) + Own(c, st, x)
    ensures AllLow(piece) && (AllFit(piece) <==> (WritesEntry(c, st, x) ==> NameFits(c.name, c.sig)))
  {
    SpliceWords(c, st, x);
    LoadWords(c, st, x);
    OwnWords(c, st, x, f);
    AppendWords(SplicePart(c, st, x), LoadPart(c, st, x));
    AppendWords(SplicePart(c, st, x) + LoadPart(c, st, x), Own(c, st, x));
  }

  lemma {:induction false} PrefixWords(z: Sim, k: nat)
    requires Traced(z) && Tame(z.c) && AllLow(z.xs) && AllFit(z.xs) && k <= |z.xs| && z.st(k).next <= WORD
    ensures AllLow(z.out(k)) && (AllFit(z.out(k)) <==> (z.st(k).zoneA ==> NameFits(z.c.name, z.c.sig)))
  {
    if k > 0 {
      var i := k - 1;
      assert Appends(z, i) && Emits(z, i);
      StepParts(z.c, z.st(i), z.xs[i]);
      StepState(z.c, z.st(i), z.xs[i]);
      PrefixWords(z, i);
      PieceWords(z.c, z.st(i), z.xs[i], z.st(k), z.piece(i));
      AppendWords(z.out(i), z.piece(i));
    }
  }

  // ----- what the pass knows comes from the words of the module -----

  predicate LowScan(a: Scan) { Low([a.voidId, a.uintTy, a.uintZero]) && (a.fn.Some? ==> a.fn.value < WORD) }

  lemma {:induction false} ScanLow(xs: seq<Insn>, k: nat, name: seq<nat>)
    requires k <= |xs| && AllLow(xs)
    ensures LowScan(ScanPrefix(xs, k, name))
  {
    if k > 0 {
      ScanLow(xs, k - 1, name);
      ScanStepLow(ScanPrefix(xs, k - 1, name), xs[k - 1], name);
    }
  }

  lemma ScanStepLow(a: Scan, x: Insn, name: seq<nat>)
    requires LowScan(a) && Low(x.args)
    ensures LowScan(ScanStep(a, x, name))
  {
    var ids := [a.voidId, a.uintTy, a.uintZero];
    assert ids[0] < WORD && ids[1] < WORD && ids[2] < WORD;
  }

  lemma {:induction false} ParamRunLow(xs: seq<Insn>, i: nat, n: nat)
    requires i <= |xs| && AllLow(xs)
    ensures Low(ParamRun(xs, i, n))
    decreases n
  {
    if n > 0 && i < |xs| && xs[i].op == OP_FUNCTION_PARAMETER && |xs[i].args| >= 2 {
      ParamRunLow(xs, i + 1, n - 1);
      assert xs[i].args[1] < WORD;
    }
  }

  lemma SigLow(xs: seq<Insn>, a: Scan)
    requires AllLow(xs) && LowScan(a) && Analyse(xs, a).Ok?
    ensures var g := Analyse(xs, a).value; g.fn < WORD && Low(g.members) && Low(g.params)
  {
    var e := FirstIndex(xs, IsEntry(a.fn.value), 0);
    var f := FirstIndex(xs, IsTypeFunction(xs[e].args[3]), 0);
    var t := FirstIndex(xs, IsReturnType(xs[e].args[0]), 0);
    assert Low(xs[e].args) && Low(xs[f].args) && Low(xs[t].args);
  }

  lemma PlanLow(a: Scan, g: Sig, bound: nat)
    requires LowScan(a) && Plan(a, g, bound).next <= WORD
    ensures var ids := Plan(a, g, bound);
            && Low([ids.voidId, ids.voidFn, ids.uintTy, ids.uintZero])
            && Low(ids.outPtr) && Low(ids.outVar) && Low(ids.inPtr) && Low(ids.inVar)
  {
    var s := [a.voidId, a.uintTy, a.uintZero];
    assert s[0] < WORD && s[1] < WORD && s[2] < WORD;
  }

  lemma ContextTame(xs: seq<Insn>, bound: nat, name: seq<nat>, stage: Stage)
    requires AllLow(xs) && IsName(name) && Rewrite(xs, bound, name, stage).Ok?
    requires ContextOf(xs, bound, name, stage).ids.next <= WORD
    ensures Tame(ContextOf(xs, bound, name, stage))
  {
    var a := ScanPrefix(xs, |xs|, name);
    var g := Analyse(xs, a).value;
    ScanLow(xs, |xs|, name);
    SigLow(xs, a);
    PlanLow(a, g, bound);
    var e := FirstIndex(xs, IsFunctionNamed(g.fn), 0);
    ParamRunLow(xs, if e == |xs| then e else e + 1, |g.params|);
    var ids := Plan(a, g, bound);
    var s := [ids.voidId, ids.voidFn, ids.uintTy, ids.uintZero];
    assert s[0] < WORD && s[1] < WORD && s[2] < WORD && s[3] < WORD;
  }

  // ----- the words -----

  lemma {:induction false} FrameFits(ws: seq<nat>)
    ensures Frame(ws).Some? ==> AllFit(Frame(ws).value)
    decreases |ws|
  {
    if ws != [] {
      var wc := ws[0] / 0x1_0000 % 0x1_0000;
      if 0 < wc <= |ws| { FrameFits(ws[wc..]); }
    }
  }

  lemma {:induction false} FrameLow(ws: seq<nat>)
    requires Low(ws)
    ensures Frame(ws).Some? ==> AllLow(Frame(ws).value)
    decreases |ws|
  {
    if ws != [] {
      var wc := ws[0] / 0x1_0000 % 0x1_0000;
      if 0 < wc <= |ws| { FrameLow(ws[wc..]); }
    }
  }

  lemma {:induction false} EncodeLow(xs: seq<Insn>)
    requires AllLow(xs) && AllFit(xs)
    ensures Low(Encode(xs))
  {
    if xs != [] {
      EncodeLow(xs[1..]);
      assert Low(EncodeInsn(xs[0]));
    }
  }

  lemma NextBelow(z: Sim)
    requires Traced(z)
    ensures z.c.ids.next <= z.st(|z.xs|).next
  {
    NextGrows(z, |z.xs|);
  }

  /** THE OUTPUT PARSES BACK.  From 32-bit words, and as long as the ids stay below 2^32, the
      pass writes its instructions so that they parse back, all in 32-bit words, if and only
      if the entry point's name leaves its word count below 2^16. */
  lemma OutputParses(ws: seq<nat>, name: seq<nat>, stage: Stage)
    requires RewriteWords(ws, name, stage).Ok? && IsName(name) && Low(ws)
    requires RewriteWords(ws, name, stage).value[3] < WORD
    ensures var xs, out := Frame(ws[5..]).value, RewriteWords(ws, name, stage).value;
            && out[..5] == ws[..5][3 := Rewrite(xs, ws[3], name, stage).value.st.next]
            && (Frame(out[5..]) == Some(Rewrite(xs, ws[3], name, stage).value.out) <==>
                  NameFits(name, ContextOf(xs, ws[3], name, stage).sig))
            && (NameFits(name, ContextOf(xs, ws[3], name, stage).sig) ==> Low(out))
  {
    var xs, e := Written(ws, name, stage);
    FrameFits(ws[5..]);
    FrameLow(ws[5..]);
    EmittedWords(xs, ws[3], name, stage);
    ParsesWhenFit(e.out);
    Header(ws[..5], e.st.next, Encode(e.out), RewriteWords(ws, name, stage).value);
  }

  /** The rewritten words are the header, with the new bound, and the emitted instructions. */
  lemma Written(ws: seq<nat>, name: seq<nat>, stage: Stage) returns (xs: seq<Insn>, e: Emitted)
    requires RewriteWords(ws, name, stage).Ok?
    ensures |ws| >= 5 && Frame(ws[5..]) == Some(xs) && Rewrite(xs, ws[3], name, stage) == Ok(e)
    ensures RewriteWords(ws, name, stage).value == ws[..5][3 := e.st.next] + Encode(e.out)
  {
    xs := Frame(ws[5..]).value;
    e := Rewrite(xs, ws[3], name, stage).value;
    assert ws[..5][3 := e.st.next] == [ws[0], ws[1], ws[2], e.st.next, ws[4]];
  }

  lemma Header(head: seq<nat>, next: nat, body: seq<nat>, out: seq<nat>)
    requires |head| == 5 && Low(head) && next < WORD && out == head[3 := next] + body
    ensures out[..5] == head[3 := next] && out[5..] == body && (Low(body) ==> Low(out))
  {
  }

  lemma ParsesWhenFit(xs: seq<Insn>)
    requires AllLow(xs)
    ensures (Frame(Encode(xs)) == Some(xs) <==> AllFit(xs)) && (AllFit(xs) ==> Low(Encode(xs)))
  {
    if AllFit(xs) {
      FrameEncode(xs);
      EncodeLow(xs);
    }
    FrameFits(Encode(xs));
  }

  lemma EmittedWords(xs: seq<Insn>, bound: nat, name: seq<nat>, stage: Stage)
    requires AllLow(xs) && AllFit(xs) && IsName(name) && Rewrite(xs, bound, name, stage).Ok?
    requires Rewrite(xs, bound, name, stage).value.st.next <= WORD
    ensures var e := Rewrite(xs, bound, name, stage).value;
            AllLow(e.out) && (AllFit(e.out) <==> NameFits(name, ContextOf(xs, bound, name, stage).sig))
  {
    var c := ContextOf(xs, bound, name, stage);
    var z := PassTrace(xs, c);
    NextBelow(z);
    ContextTame(xs, bound, name, stage);
    PrefixWords(z, |xs|);
  }
}
