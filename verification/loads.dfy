/** Definition before use: when every use of a parameter in the rewritten entry function
    stands behind the load that redefines it. */
module LoadsFirst {
  import opened Wrappers
  import opened Spirv
  import opened SignatureTransform
  import opened Machine
  import opened Meaning
  import opened MeaningTheorem

  // ----- the condition -----

  /** What is emitted for an instruction in front of the loads: variables stay, conversions
      are replaced unless removed. */
  function Ahead(c: Ctx, x: Insn): seq<Insn> {
    if Converted(c.scan, x) then (if Removed(c.scan, x) then [] else [Replacement(c, x)])
    else if x.op == OP_VARIABLE || x.op == OP_LABEL then [x]
    else []
  }

  ghost predicate ReadsOne(m: Semantics, ys: seq<Insn>, ids: set<nat>) {
    exists i :: 0 <= i < |ys| && !(Reads(m, ys[i]) !! ids)
  }

  /** Instruction k of the entry function looks at a parameter before the loads. */
  ghost predicate UsesEarly(m: Semantics, xs: seq<Insn>, c: Ctx, k: nat)
    requires k < |xs|
  {
    !Settled(xs, c, k) && ReadsOne(m, Ahead(c, xs[k]), Params(c))
  }

  // ----- where the loads are -----

  lemma {:induction false} LoadsWhen(z: Sim, k: nat)
    requires Shaped(z) && z.e < k <= z.d
    ensures z.st(k).loads <==> Settled(z.xs, z.c, k)
    decreases k
  {
    if k == z.e + 1 {
      InsideEntry(z, k);
    } else {
      LoadsWhen(z, k - 1);
      TreatedAt(z, k - 1);
      assert Settled(z.xs, z.c, k) <==> Settled(z.xs, z.c, k - 1) || Settles(z.c, z.xs[k - 1]);
    }
  }

  /** The piece of an instruction that does not come behind the loads. */
  lemma AheadPiece(z: Sim, k: nat)
    requires Shaped(z) && z.e < k < z.d && !Settled(z.xs, z.c, k) && !Settles(z.c, z.xs[k])
    ensures z.piece(k) == Ahead(z.c, z.xs[k])
  {
    LoadsWhen(z, k);
    TreatedAt(z, k);
  }

  /** The first instruction behind the loads: they open its piece. */
  lemma SettlingPiece(z: Sim, k: nat)
    requires Shaped(z) && z.e < k < z.d && !Settled(z.xs, z.c, k) && Settles(z.c, z.xs[k])
    ensures Loads(z.c) <= z.piece(k)
  {
    LoadsWhen(z, k);
    TreatedAt(z, k);
  }

  /** A load of parameter p stands in the output between the start of the entry function and i. */
  ghost predicate LoadedBefore(N: seq<Insn>, c: Ctx, p: nat, i: nat) {
    exists j :: EntryIndex(N, c) < j < i && j < |N| && IsLoadOf(N[j], p)
  }

  predicate IsLoadOf(x: Insn, p: nat) { x.op == OP_LOAD && |x.args| >= 2 && x.args[1] == p }

  lemma PieceIndex(z: Sim, k: nat, i: nat)
    requires Traced(z) && k < |z.xs| && z.Pos(k) <= i < z.Pos(k + 1)
    ensures z.Pos(k + 1) == z.Pos(k) + |z.piece(k)| && i < |z.N()| && z.N()[i] == z.piece(k)[i - z.Pos(k)]
  {
    PieceAt(z, k);
    SliceAt(z.N(), z.Pos(k), z.piece(k), i - z.Pos(k));
  }

  lemma {:induction false} PositionsGrow(z: Sim, k: nat, n: nat)
    requires Traced(z) && k <= n <= |z.xs|
    ensures z.Pos(k) <= z.Pos(n)
    decreases n
  {
    if k < n {
      PositionsGrow(z, k, n - 1);
      PieceAt(z, n - 1);
    }
  }

  /** The instruction that an output index of the entry function comes from. */
  lemma {:induction false} OriginOf(z: Sim, i: nat, n: nat) returns (k: nat)
    requires Shaped(z) && z.e < n <= z.d && z.Pos(z.e + 1) <= i < z.Pos(n)
    ensures z.e < k < n && z.Pos(k) <= i < z.Pos(k + 1)
    decreases n
  {
    if n > z.e + 1 && i < z.Pos(n - 1) { k := OriginOf(z, i, n - 1); } else { k := n - 1; }
  }

  lemma FirstSettled(z: Sim, k: nat) returns (i: nat)
    requires Shaped(z) && z.e < k <= z.d && Settled(z.xs, z.c, k)
    ensures z.e < i < k && Settles(z.c, z.xs[i]) && !Settled(z.xs, z.c, i)
    decreases k
  {
    if Settled(z.xs, z.c, k - 1) { i := FirstSettled(z, k - 1); } else { i := k - 1; }
  }

  /** Behind the loads every parameter has been loaded. */
  lemma SettledLoaded(z: Sim, s: nat, q: nat)
    requires Shaped(z) && z.e < s < z.d && Settles(z.c, z.xs[s]) && !Settled(z.xs, z.c, s) && q < |z.c.paramIds|
    ensures EntryIndex(z.N(), z.c) < z.Pos(s) + q < |z.N()| && IsLoadOf(z.N()[z.Pos(s) + q], z.c.paramIds[q])
  {
    SettlingPiece(z, s);
    PieceAt(z, s);
    EntryStart(z);
    PositionsGrow(z, z.e + 1, s);
    PieceIndex(z, s, z.Pos(s) + q);
    assert z.piece(s)[q] == Loads(z.c)[q];
  }

  // ----- each index of the output -----

  /** Every parameter that output instruction i looks at has been loaded. */
  ghost predicate ReadsLoaded(m: Semantics, N: seq<Insn>, c: Ctx, i: nat)
    requires i < |N|
  {
    forall p :: p in Params(c) && p in Reads(m, N[i]) ==> LoadedBefore(N, c, p, i)
  }

  ghost predicate ParamsLow(z: Sim) {
    Planned(z.c, z.bound) && forall p :: p in Params(z.c) ==> p < z.bound
  }

  lemma LoadedByThen(z: Sim, s: nat, p: nat, i: nat)
    requires Shaped(z) && z.e < s < z.d && Settles(z.c, z.xs[s]) && !Settled(z.xs, z.c, s) && p in Params(z.c)
    requires z.Pos(s) + |Loads(z.c)| <= i
    ensures LoadedBefore(z.N(), z.c, p, i)
  {
    var q :| 0 <= q < |z.c.paramIds| && z.c.paramIds[q] == p;
    SettledLoaded(z, s, q);
  }

  lemma BehindLoads(z: Sim, k: nat, i: nat)
    requires Shaped(z) && z.e < k < z.d && Settled(z.xs, z.c, k) && z.Pos(k) <= i < |z.N()|
    ensures ReadsLoaded(z.m, z.N(), z.c, i)
  {
    var s := FirstSettled(z, k);
    SettlingPiece(z, s);
    PieceAt(z, s);
    PositionsGrow(z, s + 1, k);
    forall p | p in Params(z.c) && p in Reads(z.m, z.N()[i]) ensures LoadedBefore(z.N(), z.c, p, i) {
      LoadedByThen(z, s, p, i);
    }
  }

  lemma LoadReadsInput(m: Semantics, c: Ctx, bound: nat, q: nat)
    requires Planned(c, bound) && q < |Loads(c)|
    ensures forall p :: p in Reads(m, Loads(c)[q]) ==> p >= bound
  {
  }

  lemma AtLoads(z: Sim, k: nat, i: nat)
    requires Shaped(z) && ParamsLow(z) && z.e < k < z.d && !Settled(z.xs, z.c, k) && Settles(z.c, z.xs[k])
    requires z.Pos(k) <= i < z.Pos(k + 1)
    ensures i < |z.N()| && ReadsLoaded(z.m, z.N(), z.c, i)
  {
    SettlingPiece(z, k);
    PieceIndex(z, k, i);
    var q := i - z.Pos(k);
    if q < |Loads(z.c)| {
      assert z.N()[i] == Loads(z.c)[q];
      LoadReadsInput(z.m, z.c, z.bound, q);
    } else {
      forall p | p in Params(z.c) && p in Reads(z.m, z.N()[i]) ensures LoadedBefore(z.N(), z.c, p, i) {
        LoadedByThen(z, k, p, i);
      }
    }
  }

  lemma AtAhead(z: Sim, k: nat, i: nat)
    requires Shaped(z) && z.e < k < z.d && !UsesEarly(z.m, z.xs, z.c, k)
    requires !Settled(z.xs, z.c, k) && !Settles(z.c, z.xs[k]) && z.Pos(k) <= i < z.Pos(k + 1)
    ensures i < |z.N()| && ReadsLoaded(z.m, z.N(), z.c, i)
  {
    AheadPiece(z, k);
    PieceIndex(z, k, i);
    assert Reads(z.m, z.N()[i]) !! Params(z.c);
  }

  /** If nothing is used early, output instruction i looks only at loaded parameters. */
  lemma LoadedAt(z: Sim, k: nat, i: nat)
    requires Shaped(z) && ParamsLow(z) && z.e < k < z.d && !UsesEarly(z.m, z.xs, z.c, k)
    requires z.Pos(k) <= i < z.Pos(k + 1)
    ensures i < |z.N()| && ReadsLoaded(z.m, z.N(), z.c, i)
  {
    PieceIndex(z, k, i);
    if Settled(z.xs, z.c, k) {
      BehindLoads(z, k, i);
    } else if Settles(z.c, z.xs[k]) {
      AtLoads(z, k, i);
    } else {
      AtAhead(z, k, i);
    }
  }

  lemma AheadNoLoad(c: Ctx, x: Insn, q: nat)
    requires q < |Ahead(c, x)|
    ensures Ahead(c, x)[q].op != OP_LOAD
  {
  }

  /** In front of instruction k there is no load, if the loads come later. */
  lemma NothingLoaded(z: Sim, k: nat, i: nat, p: nat)
    requires Shaped(z) && z.e < k < z.d && !Settled(z.xs, z.c, k) && !Settles(z.c, z.xs[k]) && i < z.Pos(k + 1)
    ensures !LoadedBefore(z.N(), z.c, p, i)
  {
    EntryStart(z);
    forall j | EntryIndex(z.N(), z.c) < j < i && j < |z.N()| ensures !IsLoadOf(z.N()[j], p) {
      var o := OriginOf(z, j, k + 1);
      AheadPiece(z, o);
      PieceIndex(z, o, j);
      AheadNoLoad(z.c, z.xs[o], j - z.Pos(o));
    }
  }

  /** Where a parameter is used early, the output looks at it before any load of it. */
  lemma EarlyAt(z: Sim, k: nat) returns (i: nat)
    requires Shaped(z) && z.e < k < z.d && UsesEarly(z.m, z.xs, z.c, k)
    ensures z.Pos(k) <= i < z.Pos(k + 1) && i < |z.N()| && !ReadsLoaded(z.m, z.N(), z.c, i)
  {
    AheadPiece(z, k);
    PieceAt(z, k);
    var q :| 0 <= q < |Ahead(z.c, z.xs[k])| && !(Reads(z.m, Ahead(z.c, z.xs[k])[q]) !! Params(z.c));
    var p :| p in Reads(z.m, Ahead(z.c, z.xs[k])[q]) && p in Params(z.c);
    i := z.Pos(k) + q;
    PieceIndex(z, k, i);
    NothingLoaded(z, k, i, p);
  }

  // ----- the end of the rewritten entry function -----

  lemma PieceGoesOn(z: Sim, k: nat, q: nat)
    requires Shaped(z) && z.e < k < z.d && q < |z.piece(k)|
    ensures z.piece(k)[q].op != OP_FUNCTION_END
  {
    TreatedAt(z, k);
    TreatedGoesOn(z.c, z.xs[k], z.st(k), z.piece(k), z.st(k + 1), q);
  }

  lemma TreatedGoesOn(c: Ctx, x: Insn, st: St, piece: seq<Insn>, f: St, q: nat)
    requires c.Valid() && Treated(c, x, st, piece, f) && x.op != OP_FUNCTION_END && q < |piece|
    ensures piece[q].op != OP_FUNCTION_END
  {
    if ReturnsValue(x) { ReturnPlain(c, x.args[0], st.next); }
  }

  lemma OutGoesOn(z: Sim, i: nat)
    requires Shaped(z) && z.Pos(z.e + 1) <= i < z.Pos(z.d)
    ensures i < |z.N()| && z.N()[i].op != OP_FUNCTION_END
  {
    var k := OriginOf(z, i, z.d);
    PieceIndex(z, k, i);
    PieceGoesOn(z, k, i - z.Pos(k));
  }

  lemma OutBounds(z: Sim)
    requires Shaped(z)
    ensures EntryIndex(z.N(), z.c) + 1 == z.Pos(z.e + 1) && EndIndex(z.N(), z.c) == z.Pos(z.d) < |z.N()|
  {
    EntryStart(z);
    EndImage(z);
    SliceAt(z.N(), z.Pos(z.d), [z.xs[z.d]], 0);
    PositionsGrow(z, z.e + 1, z.d);
    var e, d := EntryIndex(z.N(), z.c), z.Pos(z.d);
    assert IsFunctionNamed(z.c.sig.fn)(z.N()[e]);
    forall i | e <= i < d ensures !IsFunctionEnd()(z.N()[i]) {
      if e < i { OutGoesOn(z, i); }
    }
    FirstFrom(z.N(), IsFunctionEnd(), e, d);
  }

  lemma FirstFrom(xs: seq<Insn>, p: Insn -> bool, e: nat, d: nat)
    requires e <= d < |xs| && p(xs[d]) && forall i :: e <= i < d ==> !p(xs[i])
    ensures FirstIndex(xs, p, e) == d
  {
  }

  // ----- the theorem -----

  lemma AllLoaded(z: Sim)
    requires Shaped(z) && ParamsLow(z) && forall k :: z.e < k < z.d ==> !UsesEarly(z.m, z.xs, z.c, k)
    ensures forall i :: EntryIndex(z.N(), z.c) < i < EndIndex(z.N(), z.c) < |z.N()| ==> ReadsLoaded(z.m, z.N(), z.c, i)
  {
    OutBounds(z);
    forall i | EntryIndex(z.N(), z.c) < i < EndIndex(z.N(), z.c) ensures ReadsLoaded(z.m, z.N(), z.c, i) {
      var k := OriginOf(z, i, z.d);
      LoadedAt(z, k, i);
    }
  }

  ghost predicate AllReadsLoaded(m: Semantics, N: seq<Insn>, c: Ctx) {
    EndIndex(N, c) < |N| && forall i :: EntryIndex(N, c) < i < EndIndex(N, c) ==> ReadsLoaded(m, N, c, i)
  }

  ghost predicate NothingEarly(m: Semantics, xs: seq<Insn>, c: Ctx) {
    EndIndex(xs, c) < |xs| && forall k :: EntryIndex(xs, c) < k < EndIndex(xs, c) ==> !UsesEarly(m, xs, c, k)
  }

  lemma LoadedExactly(z: Sim)
    requires Shaped(z) && ParamsLow(z)
    ensures AllReadsLoaded(z.m, z.N(), z.c) <==> NothingEarly(z.m, z.xs, z.c)
  {
    OutBounds(z);
    if k :| z.e < k < z.d && UsesEarly(z.m, z.xs, z.c, k) {
      var i := EarlyInside(z, k);
    } else {
      AllLoaded(z);
    }
  }

  lemma EarlyInside(z: Sim, k: nat) returns (i: nat)
    requires Shaped(z) && z.e < k < z.d && UsesEarly(z.m, z.xs, z.c, k)
    ensures z.Pos(z.e + 1) <= i < z.Pos(z.d) && i < |z.N()| && !ReadsLoaded(z.m, z.N(), z.c, i)
  {
    i := EarlyAt(z, k);
    PositionsGrow(z, z.e + 1, k);
    PositionsGrow(z, k + 1, z.d);
  }

  /** DEFINITION BEFORE USE, EXACTLY WHEN: in the rewritten entry function everything looks
      at a parameter only behind its load, if and only if no variable and no conversion that
      is kept looks at one in front of the first instruction that takes the loads. */
  lemma ParametersLoadedFirst(m: Semantics, xs: seq<Insn>, bound: nat, name: seq<nat>, stage: Stage)
    requires Rewrite(xs, bound, name, stage).Ok? && EntryShape(xs, ContextOf(xs, bound, name, stage))
    requires forall p :: p in Params(ContextOf(xs, bound, name, stage)) ==> p < bound
    ensures var c := ContextOf(xs, bound, name, stage);
            AllReadsLoaded(m, Rewrite(xs, bound, name, stage).value.out, c) <==> NothingEarly(m, xs, c)
  {
    var a := ScanPrefix(xs, |xs|, name);
    MakeCtxPlanned(xs, a, Analyse(xs, a).value, bound, name, stage);
    var z := TraceOf(m, xs, ContextOf(xs, bound, name, stage), bound, [], {});
    LoadedExactly(z);
  }
}
