/** What the signature transform recognises in a module, opcode by opcode. */
module Recognition {
  import opened Wrappers
  import opened Spirv
  import opened SignatureTransform

  /** First operands of the instructions among the first k that satisfy p, in order. */
  function Firsts(xs: seq<Insn>, k: nat, p: Insn -> bool): seq<nat>
    requires k <= |xs|
  {
    if k == 0 then []
    else Firsts(xs, k - 1, p) + if |xs[k - 1].args| >= 1 && p(xs[k - 1]) then [xs[k - 1].args[0]] else []
  }

  function Cut(s: seq<nat>, n: nat): seq<nat> { if |s| <= n then s else s[..n] }

  function LastOr0(s: seq<nat>): nat { if s == [] then 0 else s[|s| - 1] }

  function Pointers(): Insn -> bool { (x: Insn) => x.op == 32 }

  function Lifetimes(): Insn -> bool { (x: Insn) => x.op == 256 || x.op == 257 }

  function Voids(): Insn -> bool { (x: Insn) => x.op == 19 }

  function Uints(): Insn -> bool { (x: Insn) => x.op == 21 && |x.args| >= 3 && x.args[1] == 32 && x.args[2] == 0 }

  function Named(name: seq<nat>): Insn -> bool { (x: Insn) => x.op == 5 && |x.args| >= 2 && Holds(x.args[1..], name) }

  predicate DeclaresShader(x: Insn) { x.op == 17 && |x.args| >= 1 && x.args[0] == 1 }

  /** A constant 0 of an unsigned 32-bit type that stands before it. */
  predicate ZeroAt(xs: seq<Insn>, i: nat, id: nat)
    requires i < |xs|
  {
    && xs[i].op == 43 && |xs[i].args| >= 3 && xs[i].args[1] == id && xs[i].args[2] == 0
    && xs[i].args[0] in Firsts(xs, i, Uints())
  }

  /** One instruction, field by field. */
  lemma StepIs(a: Scan, x: Insn, name: seq<nat>)
    ensures var b, any := ScanStep(a, x, name), |x.args| >= 1;
            && b.shader == (a.shader || DeclaresShader(x))
            && b.fn == (if any && Named(name)(x) then Some(x.args[0]) else a.fn)
            && b.voidId == (if any && Voids()(x) then x.args[0] else a.voidId)
            && b.uintTy == (if any && Uints()(x) then x.args[0] else a.uintTy)
            && b.ptrTypes == a.ptrTypes + (if any && Pointers()(x) && |a.ptrTypes| < 64 then [x.args[0]] else [])
            && b.lifetimes == a.lifetimes + (if any && Lifetimes()(x) && |a.lifetimes| < 16 then [x.args[0]] else [])
            && (b.uintZero != a.uintZero ==> x.op == 43 && |x.args| >= 3 && a.uintTy != 0 && x.args[0] == a.uintTy
                                             && x.args[1] == b.uintZero && x.args[2] == 0)
  {
  }

  lemma {:induction false} IdsAre(xs: seq<Insn>, k: nat, name: seq<nat>)
    requires k <= |xs|
    ensures var a := ScanPrefix(xs, k, name);
            && a.voidId == LastOr0(Firsts(xs, k, Voids())) && a.uintTy == LastOr0(Firsts(xs, k, Uints()))
            && a.fn == if Firsts(xs, k, Named(name)) == [] then None else Some(LastOr0(Firsts(xs, k, Named(name))))
  {
    if k > 0 {
      IdsAre(xs, k - 1, name);
      StepIs(ScanPrefix(xs, k - 1, name), xs[k - 1], name);
    }
  }

  lemma {:induction false} ListsAre(xs: seq<Insn>, k: nat, name: seq<nat>)
    requires k <= |xs|
    ensures var a := ScanPrefix(xs, k, name);
            a.ptrTypes == Cut(Firsts(xs, k, Pointers()), 64) && a.lifetimes == Cut(Firsts(xs, k, Lifetimes()), 16)
  {
    if k > 0 {
      var x := xs[k - 1];
      ListsAre(xs, k - 1, name);
      StepIs(ScanPrefix(xs, k - 1, name), x, name);
      CutNext(Firsts(xs, k - 1, Pointers()), if |x.args| >= 1 && Pointers()(x) then [x.args[0]] else [], 64);
      CutNext(Firsts(xs, k - 1, Lifetimes()), if |x.args| >= 1 && Lifetimes()(x) then [x.args[0]] else [], 16);
    }
  }

  lemma CutNext(s: seq<nat>, more: seq<nat>, n: nat)
    requires |more| <= 1
    ensures Cut(s + more, n) == Cut(s, n) + if |Cut(s, n)| < n then more else []
  {
  }

  lemma {:induction false} FoundAre(xs: seq<Insn>, k: nat, name: seq<nat>)
    requires k <= |xs|
    ensures var a := ScanPrefix(xs, k, name);
            && (a.shader <==> exists i :: 0 <= i < k && DeclaresShader(xs[i]))
            && (a.uintZero != 0 ==> exists i :: 0 <= i < k && ZeroAt(xs, i, a.uintZero))
  {
    if k > 0 {
      FoundAre(xs, k - 1, name);
      IdsAre(xs, k - 1, name);
      StepIs(ScanPrefix(xs, k - 1, name), xs[k - 1], name);
      if ScanPrefix(xs, k, name).uintZero != ScanPrefix(xs, k - 1, name).uintZero {
        assert ZeroAt(xs, k - 1, ScanPrefix(xs, k, name).uintZero);
      }
    }
  }

  /** THE SCAN, by what it found: Shader; the last function of the given name; the last void
      and the last 32-bit unsigned type; a constant 0 of such a type; the first 64 pointer
      types and the operands of the first 16 lifetime markers. */
  lemma ScanIs(xs: seq<Insn>, name: seq<nat>)
    ensures var a, n := ScanPrefix(xs, |xs|, name), |xs|;
            && (a.shader <==> exists i :: 0 <= i < n && DeclaresShader(xs[i]))
            && (a.fn == if Firsts(xs, n, Named(name)) == [] then None else Some(LastOr0(Firsts(xs, n, Named(name)))))
            && a.voidId == LastOr0(Firsts(xs, n, Voids())) && a.uintTy == LastOr0(Firsts(xs, n, Uints()))
            && (a.uintZero != 0 ==> exists i :: 0 <= i < n && ZeroAt(xs, i, a.uintZero))
            && a.ptrTypes == Cut(Firsts(xs, n, Pointers()), 64)
            && a.lifetimes == Cut(Firsts(xs, n, Lifetimes()), 16)
  {
    IdsAre(xs, |xs|, name);
    ListsAre(xs, |xs|, name);
    FoundAre(xs, |xs|, name);
  }

  predicate EntersAt(x: Insn, fn: nat) { x.op == 54 && |x.args| >= 4 && x.args[1] == fn }

  predicate FunctionTypeAt(x: Insn, ty: nat) { x.op == 33 && |x.args| >= 2 && x.args[0] == ty }

  /** A struct, vector, float or integer type. */
  predicate ReturnTypeAt(x: Insn, ty: nat) { x.op in {21, 22, 23, 30} && |x.args| >= 1 && x.args[0] == ty }

  /** Instruction i is the first that satisfies p. */
  ghost predicate FirstAt(xs: seq<Insn>, p: Insn -> bool, i: nat) {
    i < |xs| && p(xs[i]) && forall j :: 0 <= j < i ==> !p(xs[j])
  }

  /** THE SIGNATURE, by what it was read from: the first definition of the entry function, its
      function type and its return type; at most 8 parameters and at most 8 members. */
  lemma SignatureIs(xs: seq<Insn>, a: Scan) returns (e: nat, f: nat, t: nat)
    ensures Analyse(xs, a) == Err(InvalidArg) <==> a.fn.None?
    ensures Analyse(xs, a).Ok? ==>
              var g := Analyse(xs, a).value;
              && a.fn == Some(g.fn)
              && FirstAt(xs, x => EntersAt(x, g.fn), e) && xs[e].args[0] != 0 && xs[e].args[3] != 0
              && FirstAt(xs, x => FunctionTypeAt(x, xs[e].args[3]), f) && xs[f].args[1] == xs[e].args[0]
              && g.params == xs[f].args[2..] && |g.params| <= 8
              && FirstAt(xs, x => ReturnTypeAt(x, xs[e].args[0]), t)
              && g.isStruct == (xs[t].op == 30)
              && g.members == (if g.isStruct then xs[t].args[1..] else [xs[e].args[0]])
              && |g.members| <= 8
    ensures Analyse(xs, a).Err? && a.fn.Some? ==>
              || (forall i :: 0 <= i < |xs| ==> !EntersAt(xs[i], a.fn.value))
              || (FirstAt(xs, x => EntersAt(x, a.fn.value), e)
                  && (xs[e].args[0] == 0 || xs[e].args[3] == 0
                      || (forall i :: 0 <= i < |xs| ==> !FunctionTypeAt(xs[i], xs[e].args[3]))
                      || (FirstAt(xs, x => FunctionTypeAt(x, xs[e].args[3]), f)
                          && (xs[f].args[1] != xs[e].args[0] || |xs[f].args| > 10))
                      || (forall i :: 0 <= i < |xs| ==> !ReturnTypeAt(xs[i], xs[e].args[0]))
                      || (FirstAt(xs, x => ReturnTypeAt(x, xs[e].args[0]), t) && xs[t].op == 30 && |xs[t].args| > 9)))
  {
    e, f, t := 0, 0, 0;
    if a.fn.Some? {
      e := FirstIndex(xs, IsEntry(a.fn.value), 0);
      if e < |xs| {
        f := FirstIndex(xs, IsTypeFunction(xs[e].args[3]), 0);
        t := FirstIndex(xs, IsReturnType(xs[e].args[0]), 0);
      }
    }
  }

  predicate DefinesFunction(x: Insn, fn: nat) { x.op == 54 && |x.args| >= 2 && x.args[1] == fn }

  predicate ParameterAt(xs: seq<Insn>, i: nat) { i < |xs| && xs[i].op == 55 && |xs[i].args| >= 2 }

  /** ps[j] is the id of the parameter j instructions behind i. */
  predicate IdAt(xs: seq<Insn>, i: nat, ps: seq<nat>, j: nat)
    requires j < |ps|
  {
    ParameterAt(xs, i + j) && ps[j] == xs[i + j].args[1]
  }

  /** THE PARAMETERS: the ids of the OpFunctionParameters right behind the first OpFunction of
      the entry's id, up to the number in its type or the first other instruction. */
  lemma ParametersAre(xs: seq<Insn>, g: Sig, e: nat)
    requires e < |xs| && DefinesFunction(xs[e], g.fn) && forall j :: 0 <= j < e ==> !DefinesFunction(xs[j], g.fn)
    ensures var ps, i := ParamIds(xs, g), e + 1;
            && (forall j :: 0 <= j < |ps| ==> IdAt(xs, i, ps, j))
            && (|ps| == |g.params| || (|ps| < |g.params| && !ParameterAt(xs, i + |ps|)))
  {
    assert IsFunctionNamed(g.fn)(xs[e]);
    RunIs(xs, e + 1, |g.params|);
  }

  lemma {:induction false} RunIs(xs: seq<Insn>, i: nat, n: nat)
    requires i <= |xs|
    ensures var ps := ParamRun(xs, i, n);
            && (forall j :: 0 <= j < |ps| ==> IdAt(xs, i, ps, j))
            && (|ps| == n || (|ps| < n && !ParameterAt(xs, i + |ps|)))
    decreases n
  {
    if n > 0 && ParameterAt(xs, i) {
      RunIs(xs, i + 1, n - 1);
      var ps, qs := ParamRun(xs, i, n), ParamRun(xs, i + 1, n - 1);
      assert ps == [xs[i].args[1]] + qs;
      forall j | 0 <= j < |ps| ensures IdAt(xs, i, ps, j) {
        if j > 0 { assert IdAt(xs, i + 1, qs, j - 1); }
      }
      assert i + |ps| == i + 1 + |qs|;
    }
  }

  /** The two errors of the pass on words, and where each comes from. */
  lemma RejectsExactly(ws: seq<nat>, name: seq<nat>, stage: Stage)
    ensures RewriteWords(ws, name, stage) == Err(InvalidArg) <==>
              || name == [] || ws == [] || ws[0] != 0x0723_0203
              || (|ws| >= 5 && Frame(ws[5..]).Some?
                  && Firsts(Frame(ws[5..]).value, |Frame(ws[5..]).value|, Named(name)) == [])
    ensures RewriteWords(ws, name, stage).Ok? ==>
              |ws| >= 5 && Frame(ws[5..]).Some? && exists i :: 0 <= i < |Frame(ws[5..]).value|
                                                        && Frame(ws[5..]).value[i].op == 14
  {
    if name != [] && ws != [] && ws[0] == 0x0723_0203 && |ws| >= 5 && Frame(ws[5..]).Some? {
      var xs := Frame(ws[5..]).value;
      ScanIs(xs, name);
      if Analyse(xs, ScanPrefix(xs, |xs|, name)).Ok? {
        ModelNeeded(xs, MakeCtx(xs, ScanPrefix(xs, |xs|, name), Analyse(xs, ScanPrefix(xs, |xs|, name)).value, ws[3],
                                name, stage), |xs|);
      } else {
        var e, f, t := SignatureIs(xs, ScanPrefix(xs, |xs|, name));
      }
    }
  }

  lemma {:induction false} ModelNeeded(xs: seq<Insn>, c: Ctx, k: nat)
    requires c.Valid() && k <= |xs|
    ensures EmitPrefix(c, xs, k).st.zoneA ==> exists i :: 0 <= i < k && xs[i].op == 14
  {
    if k > 0 { ModelNeeded(xs, c, k - 1); }
  }
}
