/** A simulation between a module and its rewriting by the signature transform: the
    states of the two runs, what the inserted loads and stores do, and the proof that
    each step of the original is matched by the image of its instruction. */
module Meaning {
  import opened Wrappers
  import opened Spirv
  import opened SignatureTransform
  import opened Machine

  // ----- the modules the theorem is about -----

  ghost function EntryIndex(xs: seq<Insn>, c: Ctx): nat {
    FirstIndex(xs, IsFunctionNamed(c.sig.fn), 0)
  }

  function IsFunctionEnd(): Insn -> bool {
    (x: Insn) => x.op == OP_FUNCTION_END
  }

  /** The OpFunctionEnd that closes the entry function. */
  ghost function EndIndex(xs: seq<Insn>, c: Ctx): nat {
    FirstIndex(xs, IsFunctionEnd(), EntryIndex(xs, c))
  }

  predicate Converted(a: Scan, x: Insn) {
    IsSpecBitcast(x) || IsPointerBitcast(a, x)
  }

  /** The pass leaves nothing in place of this conversion. */
  predicate Removed(a: Scan, x: Insn) {
    !IsSpecBitcast(x) && IsPointerBitcast(a, x) && x.args[1] in a.lifetimes
  }

  /** What stands in place of a conversion that is not removed. */
  function Replacement(c: Ctx, x: Insn): (y: Insn)
    requires Converted(c.scan, x)
  {
    if IsSpecBitcast(x) then Insn(OP_UNDEF, [x.args[0], x.args[1]])
    else Insn(OP_ACCESS_CHAIN, [x.args[0], x.args[1], x.args[2], c.ids.uintZero])
  }

  /** Results of the conversions that are not trusted to keep their value. */
  ghost function Dead(xs: seq<Insn>, a: Scan, trusted: set<nat>): set<nat> {
    set i | 0 <= i < |xs| && Converted(a, xs[i]) && xs[i].args[1] !in trusted :: xs[i].args[1]
  }

  function Params(c: Ctx): set<nat> { set p | p in c.paramIds }

  predicate IsParam(x: Insn) { x.op == OP_FUNCTION_PARAMETER && |x.args| >= 2 }

  const OP_FUNCTION_CALL: nat := 57

  predicate Calls(x: Insn, fn: nat) { x.op == OP_FUNCTION_CALL && |x.args| >= 3 && x.args[2] == fn }

  /** One function has the entry id, and nothing calls it; its parameters, one per parameter
      of its type, come first and a block follows; it ends, and no function starts inside
      it; the memory model and some type come before it. */
  ghost predicate EntryShape(xs: seq<Insn>, c: Ctx) {
    var e, d, n := EntryIndex(xs, c), EndIndex(xs, c), |c.sig.params|;
    && e + 1 + n < d < |xs| && |xs[e].args| >= 4
    && (forall i :: e < i <= e + n ==> IsParam(xs[i]))
    && xs[e + 1 + n].op == OP_LABEL
    && (forall i :: e < i < d ==> xs[i].op != OP_FUNCTION)
    && (exists i :: 0 <= i < e && xs[i].op == OP_MEMORY_MODEL)
    && (exists i :: 0 <= i < e && IsTypeOp(xs[i].op))
    && (forall i :: 0 <= i < |xs| ==> !Calls(xs[i], c.sig.fn))
  }

  /** Every id the instruction defines or looks at is below the bound. */
  ghost predicate Below(m: Semantics, x: Insn, bound: nat) {
    && (ResultId(m, x).Some? ==> ResultId(m, x).value < bound)
    && (forall id :: id in Reads(m, x) ==> id < bound)
  }

  /** Ids are below the bound; nothing but a dead conversion looks at one; and no variable
      starts as a parameter. */
  ghost predicate InsnOk(m: Semantics, x: Insn, c: Ctx, bound: nat, dead: set<nat>) {
    && Below(m, x, bound)
    && ((Converted(c.scan, x) && x.args[1] in dead) || Reads(m, x) !! dead)
    && (x.op == OP_VARIABLE ==> Reads(m, x) !! Params(c))
  }

  ghost predicate DefineDifferent(m: Semantics, x: Insn, y: Insn) {
    ResultId(m, x).Some? ==> ResultId(m, x) != ResultId(m, y)
  }

  /** No id is defined twice. */
  ghost predicate SingleAssignment(m: Semantics, xs: seq<Insn>) {
    forall i, j :: 0 <= i < j < |xs| ==> DefineDifferent(m, xs[i], xs[j])
  }

  // ----- conversions whose results are read -----

  /** x and y compute the same value here. */
  ghost predicate SameValue(m: Semantics, x: Insn, y: Insn, env: Env, prev: nat) {
    m.eval(x.op, Operands(m, x, env), prev) == m.eval(y.op, Operands(m, y, env), prev)
  }

  /** The value of an OpConstant with literal 0. */
  ghost predicate IsZero(m: Semantics, v: Value) {
    exists os: seq<Operand>, prev: nat :: v == m.eval(OP_CONSTANT, os, prev) && |os| >= 3 && os[2] == Lit(0)
  }

  /** The value of an OpUndef. */
  ghost predicate IsUndefined(m: Semantics, v: Value) {
    exists os: seq<Operand>, prev: nat :: v == m.eval(OP_UNDEF, os, prev)
  }

  ghost predicate Zeroed(m: Semantics, c: Ctx, env: Env) {
    c.ids.uintZero in env && IsZero(m, env[c.ids.uintZero])
  }

  ghost predicate Undefined(m: Semantics, env: Env, id: nat) {
    id in env && IsUndefined(m, env[id])
  }

  /** For this cast, pointing somewhere is pointing to element 0: what holds of a cast from
      a pointer to an array to a pointer to its elements. */
  ghost predicate AddressesFirst(m: Semantics, c: Ctx, x: Insn)
    requires Converted(c.scan, x)
  {
    forall env: Env, prev: nat :: Zeroed(m, c, env) ==> SameValue(m, x, Replacement(c, x), env, prev)
  }

  /** This cast of an undefined value is the undefined value of its type. */
  ghost predicate KeepsUndefined(m: Semantics, c: Ctx, x: Insn)
    requires Converted(c.scan, x) && |x.args| >= 4
  {
    forall env: Env, prev: nat :: Undefined(m, env, x.args[3]) ==> SameValue(m, x, Replacement(c, x), env, prev)
  }

  predicate IsUndef(x: Insn, id: nat) { x.op == OP_UNDEF && |x.args| >= 2 && x.args[1] == id }

  /** An instruction of the entry function in front of which the loads go, if none did before. */
  predicate Settles(c: Ctx, x: Insn) {
    x.op != OP_LABEL && x.op != OP_VARIABLE && !Converted(c.scan, x) && !Drop(x, true)
  }

  /** The loads stand before instruction k of the entry function. */
  ghost predicate Settled(xs: seq<Insn>, c: Ctx, k: nat)
    requires k <= |xs|
  {
    exists i :: EntryIndex(xs, c) < i < k && Settles(c, xs[i])
  }

  /** A converted OpSpecConstantOp at module scope, of an OpUndef before it. */
  ghost predicate SpecTrusted(m: Semantics, xs: seq<Insn>, c: Ctx, bound: nat, dead: set<nat>, k: nat)
    requires k < |xs| && IsSpecBitcast(xs[k])
  {
    && k < FirstIndex(xs, IsFunction(), 0) && |xs[k].args| >= 4
    && (exists j :: 0 <= j < k && IsUndef(xs[j], xs[k].args[3]))
    && KeepsUndefined(m, c, xs[k])
    && Below(m, Replacement(c, xs[k]), bound) && Reads(m, Replacement(c, xs[k])) !! dead
  }

  /** A pointer cast in a function; in the entry function it does not look at a parameter
      before the loads. */
  ghost predicate CastTrusted(m: Semantics, xs: seq<Insn>, c: Ctx, k: nat)
    requires k < |xs| && Converted(c.scan, xs[k])
  {
    && FirstIndex(xs, IsFunction(), 0) < k && xs[k].args[1] !in c.scan.lifetimes
    && AddressesFirst(m, c, xs[k])
    && (EntryIndex(xs, c) < k < EndIndex(xs, c) ==> Reads(m, xs[k]) !! Params(c) || Settled(xs, c, k))
  }

  ghost predicate TrustedOk(m: Semantics, xs: seq<Insn>, c: Ctx, bound: nat, dead: set<nat>, k: nat)
    requires k < |xs|
  {
    Converted(c.scan, xs[k]) && xs[k].args[1] !in dead ==>
      if IsSpecBitcast(xs[k]) then SpecTrusted(m, xs, c, bound, dead, k) else CastTrusted(m, xs, c, k)
  }

  predicate IsZeroConstant(x: Insn, id: nat) {
    x.op == OP_CONSTANT && |x.args| >= 3 && x.args[1] == id && x.args[2] == 0
  }

  /** The zero that replaced casts index with is a new constant or one at module scope. */
  ghost predicate ZeroStands(m: Semantics, xs: seq<Insn>, c: Ctx) {
    && !m.isId(OP_CONSTANT, 2)
    && (c.scan.uintZero == 0
        || exists j :: 0 <= j < FirstIndex(xs, IsFunction(), 0) && IsZeroConstant(xs[j], c.ids.uintZero))
  }

  /** The modules the theorem is about.  `trusted`: results of conversions that may be read;
      each of them must mean what stands in its place. */
  ghost predicate Accepted(m: Semantics, xs: seq<Insn>, c: Ctx, bound: nat, trusted: set<nat>) {
    && EntryShape(xs, c)
    && SingleAssignment(m, xs)
    && (forall i :: 0 <= i < |xs| ==> InsnOk(m, xs[i], c, bound, Dead(xs, c.scan, trusted)))
    && (forall i :: 0 <= i < |xs| ==> TrustedOk(m, xs, c, bound, Dead(xs, c.scan, trusted), i))
    && (trusted != {} ==> ZeroStands(m, xs, c))
  }

  // ----- interface ids -----

  /** The interface ids are consecutive, at or above the bound and below `next`. */
  ghost predicate Fresh(c: Ctx, bound: nat, next: nat) {
    var o, i := c.ids.voidFn + 1, c.ids.voidFn + 1 + 2 * |c.sig.members|;
    && c.Valid() && bound <= c.ids.voidFn && i + 2 * |c.sig.params| <= next
    && (forall j :: 0 <= j < |c.ids.outVar| ==> c.ids.outVar[j] == o + 2 * j + 1)
    && (forall j :: 0 <= j < |c.ids.inVar| ==> c.ids.inVar[j] == i + 2 * j + 1)
  }

  ghost predicate InputHolds(v: nat, a: Value, env: Env, mem: map<nat, Value>) {
    Lookup(env, v) == Some(Ptr(v, [])) && v in mem && mem[v] == a
  }

  ghost predicate OutputBound(v: nat, env: Env, mem: map<nat, Value>) {
    Lookup(env, v) == Some(Ptr(v, [])) && v in mem
  }

  /** The interface variables are bound to themselves and the Inputs hold the arguments. */
  ghost predicate Interface(c: Ctx, argv: seq<Value>, env: Env, mem: map<nat, Value>) {
    && c.Valid() && |argv| == |c.sig.params|
    && (forall j :: 0 <= j < |c.ids.inVar| ==> InputHolds(c.ids.inVar[j], argv[j], env, mem))
    && (forall j :: 0 <= j < |c.ids.outVar| ==> OutputBound(c.ids.outVar[j], env, mem))
  }

  /** Changing ids that are not interface variables keeps the interface. */
  lemma InterfaceKept(c: Ctx, bound: nat, next: nat, argv: seq<Value>, env: Env, mem: map<nat, Value>, env1: Env,
                      mem1: map<nat, Value>)
    requires Fresh(c, bound, next) && Interface(c, argv, env, mem)
    requires forall id: nat :: bound <= id < next ==>
             Lookup(env1, id) == Lookup(env, id) && Lookup(mem1, id) == Lookup(mem, id)
    ensures Interface(c, argv, env1, mem1)
  {
    forall j | 0 <= j < |c.ids.inVar| ensures InputHolds(c.ids.inVar[j], argv[j], env1, mem1) {
      var v := c.ids.inVar[j];
      assert InputHolds(v, argv[j], env, mem) && Lookup(mem1, v) == Lookup(mem, v);
    }
    forall j | 0 <= j < |c.ids.outVar| ensures OutputBound(c.ids.outVar[j], env1, mem1) {
      var v := c.ids.outVar[j];
      assert OutputBound(v, env, mem) && Lookup(mem1, v) == Lookup(mem, v);
    }
  }

  // ----- related states -----

  ghost predicate Agree(e1: Env, e2: Env, bound: nat, except: set<nat>) {
    forall id: nat :: id < bound && id !in except ==> Lookup(e1, id) == Lookup(e2, id)
  }

  ghost predicate MemAgree(m1: map<nat, Value>, m2: map<nat, Value>, bound: nat) {
    forall r :: r in m1 ==> r < bound && r in m2 && m2[r] == m1[r]
  }

  /** The two runs agree on ids below the bound, except some, and on the variables of the
      original; they are in the same block and came from the same block. */
  ghost predicate Data(bound: nat, except: set<nat>, s: State, t: State) {
    && Agree(s.env, t.env, bound, except)
    && MemAgree(s.mem, t.mem, bound)
    && s.cur == t.cur && s.prev == t.prev
  }

  /** Ids at or above the bound are untouched. */
  ghost predicate HighKept(bound: nat, t: State, t1: State) {
    forall id: nat :: id >= bound ==> Lookup(t1.env, id) == Lookup(t.env, id) && Lookup(t1.mem, id) == Lookup(t.mem, id)
  }

  lemma Weaken(bound: nat, small: set<nat>, large: set<nat>, s: State, t: State)
    requires Data(bound, small, s, t) && small <= large
    ensures Data(bound, large, s, t)
  {
  }

  lemma OperandsAgree(m: Semantics, x: Insn, e1: Env, e2: Env, bound: nat, except: set<nat>)
    requires Agree(e1, e2, bound, except) && Below(m, x, bound)
    requires Reads(m, x) !! except && ResultId(m, x).Some? && x.op !in BodyOps()
    ensures Operands(m, x, e1) == Operands(m, x, e2)
  {
    forall i | 0 <= i < |x.args| && IsRef(m, x, i)
      ensures Lookup(e1, x.args[i]) == Lookup(e2, x.args[i])
    {
      assert x.args[i] in Reads(m, x);
    }
    assert Operands(m, x, e1) == Operands(m, x, e2);
  }

  lemma BindAgree(m: Semantics, x: Insn, e1: Env, e2: Env, prev: nat, bound: nat, except: set<nat>)
    requires Agree(e1, e2, bound, except) && Below(m, x, bound) && Reads(m, x) !! except && x.op !in BodyOps()
    ensures Agree(Bind(m, x, e1, prev), Bind(m, x, e2, prev), bound, except)
    ensures forall id: nat :: id >= bound ==> Lookup(Bind(m, x, e2, prev), id) == Lookup(e2, id)
  {
    if ResultId(m, x).Some? { OperandsAgree(m, x, e1, e2, bound, except); }
  }

  /** Effects in two related states are related. */
  ghost predicate Related(bound: nat, except: set<nat>, s: State, t: State, f: Effect, g: Effect) {
    match f
    case Go(s1) => g.Go? && Data(bound, except, s1, g.s) && HighKept(bound, t, g.s) && s1.arg == s.arg
    case Wrong => true
    case _ => g == f
  }

  lemma LookupsAgree(m: Semantics, x: Insn, bound: nat, except: set<nat>, s: State, t: State, id: nat)
    requires Data(bound, except, s, t) && Below(m, x, bound) && Reads(m, x) !! except && id in Reads(m, x)
    ensures Lookup(s.env, id) == Lookup(t.env, id)
  {
  }

  lemma VariableAgree(m: Semantics, x: Insn, argv: seq<Value>, bound: nat, except: set<nat>, s: State, t: State)
    requires Data(bound, except, s, t) && Below(m, x, bound) && Reads(m, x) !! except && x.op == OP_VARIABLE
    ensures Related(bound, except, s, t, EffectOf(m, x, argv, s), EffectOf(m, x, [], t))
  {
    if |x.args| >= 3 { assert ResultId(m, x) == Some(x.args[1]); }
    if |x.args| >= 4 { LookupsAgree(m, x, bound, except, s, t, x.args[3]); }
  }

  lemma LoadAgree(m: Semantics, x: Insn, argv: seq<Value>, bound: nat, except: set<nat>, s: State, t: State)
    requires Data(bound, except, s, t) && Below(m, x, bound) && Reads(m, x) !! except
    requires x.op == OP_LOAD || x.op == OP_COMPOSITE_EXTRACT
    ensures Related(bound, except, s, t, EffectOf(m, x, argv, s), EffectOf(m, x, [], t))
  {
    if |x.args| >= 3 {
      assert ResultId(m, x) == Some(x.args[1]);
      LookupsAgree(m, x, bound, except, s, t, x.args[2]);
    }
  }

  lemma StoreAgree(m: Semantics, x: Insn, argv: seq<Value>, bound: nat, except: set<nat>, s: State, t: State)
    requires Data(bound, except, s, t) && Below(m, x, bound) && Reads(m, x) !! except && x.op == OP_STORE
    ensures Related(bound, except, s, t, EffectOf(m, x, argv, s), EffectOf(m, x, [], t))
  {
    if |x.args| >= 2 {
      LookupsAgree(m, x, bound, except, s, t, x.args[0]);
      LookupsAgree(m, x, bound, except, s, t, x.args[1]);
    }
  }

  lemma ControlAgree(m: Semantics, x: Insn, argv: seq<Value>, bound: nat, except: set<nat>, s: State, t: State)
    requires Data(bound, except, s, t) && Below(m, x, bound) && Reads(m, x) !! except
    requires x.op in {OP_LABEL, OP_BRANCH, OP_BRANCH_CONDITIONAL, OP_SWITCH, OP_RETURN, OP_RETURN_VALUE, OP_FUNCTION,
             OP_FUNCTION_END}
    ensures Related(bound, except, s, t, EffectOf(m, x, argv, s), EffectOf(m, x, [], t))
  {
    if x.op in {OP_BRANCH_CONDITIONAL, OP_SWITCH, OP_RETURN_VALUE} && |x.args| >= 1 {
      LookupsAgree(m, x, bound, except, s, t, x.args[0]);
    }
  }

  /** The same instruction does related things in related states. */
  lemma EffectAgree(m: Semantics, x: Insn, argv: seq<Value>, bound: nat, except: set<nat>, s: State, t: State)
    requires Data(bound, except, s, t) && Below(m, x, bound) && Reads(m, x) !! except && x.op != OP_FUNCTION_PARAMETER
    ensures Related(bound, except, s, t, EffectOf(m, x, argv, s), EffectOf(m, x, [], t))
  {
    if x.op == OP_VARIABLE {
      VariableAgree(m, x, argv, bound, except, s, t);
    } else if x.op == OP_LOAD || x.op == OP_COMPOSITE_EXTRACT {
      LoadAgree(m, x, argv, bound, except, s, t);
    } else if x.op == OP_STORE {
      StoreAgree(m, x, argv, bound, except, s, t);
    } else if x.op in BodyOps() {
      ControlAgree(m, x, argv, bound, except, s, t);
    } else {
      BindAgree(m, x, s.env, t.env, s.prev, bound, except);
    }
  }

  // ----- running the inserted code -----

  ghost predicate Slice(N: seq<Insn>, p: nat, ys: seq<Insn>) {
    p + |ys| <= |N| && N[p..p + |ys|] == ys
  }

  lemma SliceAt(N: seq<Insn>, p: nat, ys: seq<Insn>, i: nat)
    requires Slice(N, p, ys) && i < |ys|
    ensures p + i < |N| && N[p + i] == ys[i]
  {
    assert N[p + i] == N[p..p + |ys|][i];
  }

  lemma SliceSplit(N: seq<Insn>, p: nat, a: seq<Insn>, b: seq<Insn>)
    requires Slice(N, p, a + b)
    ensures Slice(N, p, a) && Slice(N, p + |a|, b)
  {
    var ab := a + b;
    assert N[p..p + |a|] == N[p..p + |ab|][..|a|];
    assert N[p + |a|..p + |ab|] == N[p..p + |ab|][|a|..];
  }

  ghost predicate Distinct(s: seq<nat>) {
    forall i, j :: 0 <= i < j < |s| ==> s[i] != s[j]
  }

  /** The state after the first i parameter loads. */
  ghost function Loaded(c: Ctx, argv: seq<Value>, t: State, i: nat): State
    requires i <= |c.paramIds| && i <= |argv|
  {
    if i == 0 then t
    else var q := Loaded(c, argv, t, i - 1); q.(env := q.env[c.paramIds[i - 1] := argv[i - 1]])
  }

  lemma {:induction false} LoadedFacts(c: Ctx, argv: seq<Value>, t: State, i: nat)
    requires i <= |c.paramIds| && i <= |argv| && Distinct(c.paramIds)
    ensures var u := Loaded(c, argv, t, i);
            && u == t.(env := u.env)
            && (forall id :: id !in c.paramIds ==> Lookup(u.env, id) == Lookup(t.env, id))
            && (forall j :: 0 <= j < i ==> Lookup(u.env, c.paramIds[j]) == Some(argv[j]))
  {
    if i > 0 {
      LoadedFacts(c, argv, t, i - 1);
      assert c.paramIds[i - 1] in c.paramIds;
    }
  }

  lemma LoadedReady(c: Ctx, argv: seq<Value>, bound: nat, next: nat, t: State, i: nat)
    requires Fresh(c, bound, next) && Interface(c, argv, t.env, t.mem) && i < |c.paramIds|
    requires Distinct(c.paramIds) && (forall id :: id in c.paramIds ==> id < bound)
    ensures InputHolds(c.ids.inVar[i], argv[i], Loaded(c, argv, t, i).env, Loaded(c, argv, t, i).mem)
  {
    var v := c.ids.inVar[i];
    assert InputHolds(v, argv[i], t.env, t.mem);
    LoadedFacts(c, argv, t, i);
    assert Lookup(Loaded(c, argv, t, i).env, v) == Lookup(t.env, v) by { assert v >= bound && v !in c.paramIds; }
  }

  lemma {:induction false} RunLoads(f: Stepper, m: Semantics, N: seq<Insn>, start: nat, c: Ctx, argv: seq<Value>,
                                bound: nat,
                                    next: nat, p: nat, t: State, i: nat)
    requires Implements(f, m, N, start, []) && Fresh(c, bound, next) && Interface(c, argv, t.env, t.mem)
    requires Distinct(c.paramIds) && (forall id :: id in c.paramIds ==> id < bound)
    requires Slice(N, p, Loads(c)) && i <= |Loads(c)|
    ensures Run(f, p, t, i) == Running(p + i, Loaded(c, argv, t, i))
  {
    if i > 0 {
      var k := i - 1;
      RunLoads(f, m, N, start, c, argv, bound, next, p, t, k);
      LoadedReady(c, argv, bound, next, t, k);
      SliceAt(N, p, Loads(c), k);
      RunLoad(f, m, N, start, [], p + k, Loaded(c, argv, t, k), c.sig.params[k], c.paramIds[k], c.ids.inVar[k]);
      RunThen(f, p, t, k, p + k, Loaded(c, argv, t, k), 1);
    }
  }

  /** Member k of the value the original returned. */
  function Member(c: Ctx, v: Value, k: nat): Value {
    if c.sig.isStruct then Select(v, [k]) else v
  }

  /** Output k holds member k of the returned value. */
  ghost predicate Delivered(c: Ctx, v: Value, mem: map<nat, Value>) {
    forall k :: 0 <= k < |c.ids.outVar| ==> c.ids.outVar[k] in mem && mem[c.ids.outVar[k]] == Member(c, v, k)
  }

  /** The state after the first k members have been extracted and stored. */
  ghost function Stored(c: Ctx, t: State, v: Value, next: nat, k: nat): State
    requires k <= |c.ids.outVar|
  {
    if k == 0 then t
    else
      var q := Stored(c, t, v, next, k - 1);
      q.(env := q.env[next + (k - 1) := Select(v, [k - 1])], mem := q.mem[c.ids.outVar[k - 1] := Select(v, [k - 1])])
  }

  lemma {:induction false} StoredFacts(c: Ctx, bound: nat, t: State, v: Value, next: nat, k: nat)
    requires Fresh(c, bound, next) && k <= |c.ids.outVar|
    ensures var u := Stored(c, t, v, next, k);
            && (forall id: nat :: id < next ==> Lookup(u.env, id) == Lookup(t.env, id))
            && (forall r: nat :: r < bound ==> Lookup(u.mem, r) == Lookup(t.mem, r))
            && (forall j :: 0 <= j < k ==> Lookup(u.mem, c.ids.outVar[j]) == Some(Select(v, [j])))
            && (forall r :: r in t.mem ==> r in u.mem)
  {
    if k > 0 { StoredFacts(c, bound, t, v, next, k - 1); }
  }

  lemma {:induction false} ExtractsPrefix(c: Ctx, v: nat, next: nat, k: nat, n: nat)
    requires c.Valid() && k <= n <= |c.sig.members|
    ensures Extracts(c, v, next, k) <= Extracts(c, v, next, n)
    decreases n
  {
    if k < n { ExtractsPrefix(c, v, next, k, n - 1); }
  }

  lemma MemberCode(c: Ctx, v: nat, next: nat, k: nat)
    requires c.Valid() && k < |c.sig.members|
    ensures var all := Extracts(c, v, next, |c.sig.members|);
            && all[2 * k] == Insn(OP_COMPOSITE_EXTRACT, [c.sig.members[k], next + k, v, k])
            && all[2 * k + 1] == Insn(OP_STORE, [c.ids.outVar[k], next + k])
  {
    ExtractsPrefix(c, v, next, k + 1, |c.sig.members|);
  }

  lemma RunPair(f: Stepper, m: Semantics, N: seq<Insn>, start: nat, i: nat, q: State, ty: nat, id: nat, v: nat, k: nat,
                o: nat)
    requires Implements(f, m, N, start, []) && i + 1 < |N|
    requires N[i] == Insn(OP_COMPOSITE_EXTRACT, [ty, id, v, k]) && N[i + 1] == Insn(OP_STORE, [o, id])
    requires v in q.env && o < id && OutputBound(o, q.env, q.mem)
    ensures var w := Select(q.env[v], [k]);
            Run(f, i, q, 2) == Running(i + 2, q.(env := q.env[id := w], mem := q.mem[o := w]))
  {
    var q1 := q.(env := q.env[id := Select(q.env[v], [k])]);
    RunExtract(f, m, N, start, [], i, q, ty, id, v, k);
    RunStore(f, m, N, start, [], i + 1, q1, o, id);
    RunThen(f, i, q, 1, i + 1, q1, 1);
  }

  lemma StoredReady(c: Ctx, argv: seq<Value>, bound: nat, t: State, v: nat, next: nat, k: nat)
    requires Fresh(c, bound, next) && Interface(c, argv, t.env, t.mem) && v in t.env && v < bound && k < |c.ids.outVar|
    ensures var q, o := Stored(c, t, t.env[v], next, k), c.ids.outVar[k];
            v in q.env && q.env[v] == t.env[v] && o < next && OutputBound(o, q.env, q.mem)
  {
    var q, o := Stored(c, t, t.env[v], next, k), c.ids.outVar[k];
    assert OutputBound(o, t.env, t.mem) && o < next;
    StoredFacts(c, bound, t, t.env[v], next, k);
    assert Lookup(q.env, v) == Lookup(t.env, v) && Lookup(q.env, o) == Lookup(t.env, o);
  }

  /** Storing one more member. */
  lemma StoredStep(f: Stepper, m: Semantics, N: seq<Insn>, start: nat, c: Ctx, argv: seq<Value>, bound: nat,
                   p: nat, t: State, v: nat, next: nat, k: nat)
    requires Implements(f, m, N, start, [])
    requires Fresh(c, bound, next) && Interface(c, argv, t.env, t.mem) && v in t.env && v < bound
    requires k < |c.sig.members| && Slice(N, p, Extracts(c, v, next, |c.sig.members|))
    ensures Run(f, p + 2 * k, Stored(c, t, t.env[v], next, k), 2)
         == Running(p + 2 * k + 2, Stored(c, t, t.env[v], next, k + 1))
  {
    var q, o := Stored(c, t, t.env[v], next, k), c.ids.outVar[k];
    StoredReady(c, argv, bound, t, v, next, k);
    MemberCode(c, v, next, k);
    SliceAt(N, p, Extracts(c, v, next, |c.sig.members|), 2 * k);
    SliceAt(N, p, Extracts(c, v, next, |c.sig.members|), 2 * k + 1);
    RunPair(f, m, N, start, p + 2 * k, q, c.sig.members[k], next + k, v, k, o);
  }

  lemma {:induction false} RunExtracts(f: Stepper, m: Semantics, N: seq<Insn>, start: nat, c: Ctx, argv: seq<Value>,
                                bound: nat,
                                       p: nat, t: State, v: nat, next: nat, k: nat)
    requires Implements(f, m, N, start, [])
    requires Fresh(c, bound, next) && Interface(c, argv, t.env, t.mem) && v in t.env && v < bound
    requires k <= |c.sig.members| && Slice(N, p, Extracts(c, v, next, |c.sig.members|))
    ensures Run(f, p, t, 2 * k) == Running(p + 2 * k, Stored(c, t, t.env[v], next, k))
  {
    if k > 0 {
      var i := k - 1;
      RunExtracts(f, m, N, start, c, argv, bound, p, t, v, next, i);
      StoredStep(f, m, N, start, c, argv, bound, p, t, v, next, i);
      RunThen(f, p, t, 2 * i, p + 2 * i, Stored(c, t, t.env[v], next, i), 2);
    }
  }

  lemma StoredDelivers(c: Ctx, bound: nat, t: State, v: Value, next: nat)
    requires Fresh(c, bound, next) && c.sig.isStruct
    ensures Delivered(c, v, Stored(c, t, v, next, |c.ids.outVar|).mem)
    ensures forall r: nat :: r < bound ==> Lookup(Stored(c, t, v, next, |c.ids.outVar|).mem, r) == Lookup(t.mem, r)
  {
    var u := Stored(c, t, v, next, |c.ids.outVar|);
    StoredFacts(c, bound, t, v, next, |c.ids.outVar|);
    forall j | 0 <= j < |c.ids.outVar| ensures c.ids.outVar[j] in u.mem && u.mem[c.ids.outVar[j]] == Member(c, v, j) {
      assert Lookup(u.mem, c.ids.outVar[j]) == Some(Select(v, [j]));
    }
  }

  lemma RunStructReturn(f: Stepper, m: Semantics, N: seq<Insn>, start: nat, c: Ctx, argv: seq<Value>, bound: nat,
                        p: nat, t: State, v: nat, next: nat) returns (n: nat, mem: map<nat, Value>)
    requires Implements(f, m, N, start, []) && c.sig.isStruct
    requires Fresh(c, bound, next) && Interface(c, argv, t.env, t.mem) && v in t.env && v < bound
    requires Slice(N, p, LoweredReturn(c, v, next))
    ensures Run(f, p, t, n) == Returned(None, mem) && Delivered(c, t.env[v], mem)
    ensures forall r: nat :: r < bound ==> Lookup(mem, r) == Lookup(t.mem, r)
  {
    var k := |c.sig.members|;
    SliceSplit(N, p, Extracts(c, v, next, k), [Insn(OP_RETURN, [])]);
    SliceAt(N, p + 2 * k, [Insn(OP_RETURN, [])], 0);
    var u := Stored(c, t, t.env[v], next, k);
    RunExtracts(f, m, N, start, c, argv, bound, p, t, v, next, k);
    StoredDelivers(c, bound, t, t.env[v], next);
    RunVoidReturn(f, m, N, start, [], p + 2 * k, u);
    RunThen(f, p, t, 2 * k, p + 2 * k, u, 1);
    n, mem := 2 * k + 1, u.mem;
  }

  lemma RunPlainReturn(f: Stepper, m: Semantics, N: seq<Insn>, start: nat, c: Ctx, argv: seq<Value>, bound: nat,
                       p: nat, t: State, v: nat, next: nat) returns (n: nat, mem: map<nat, Value>)
    requires Implements(f, m, N, start, []) && !c.sig.isStruct
    requires Fresh(c, bound, next) && Interface(c, argv, t.env, t.mem) && v in t.env && v < bound
    requires Slice(N, p, LoweredReturn(c, v, next))
    ensures Run(f, p, t, n) == Returned(None, mem) && Delivered(c, t.env[v], mem)
    ensures forall r: nat :: r < bound ==> Lookup(mem, r) == Lookup(t.mem, r)
  {
    var o := c.ids.outVar[0];
    SliceAt(N, p, LoweredReturn(c, v, next), 0);
    SliceAt(N, p, LoweredReturn(c, v, next), 1);
    assert OutputBound(o, t.env, t.mem);
    var u := t.(mem := t.mem[o := t.env[v]]);
    RunStore(f, m, N, start, [], p, t, o, v);
    RunVoidReturn(f, m, N, start, [], p + 1, u);
    RunThen(f, p, t, 1, p + 1, u, 1);
    n, mem := 2, u.mem;
  }

  // ----- one rewriting -----

  /** One rewriting, step by step: before instruction k the emit pass has produced out(k)
      and is in state st(k); it then appends piece(k).  The entry function lies between
      e and d; `trusted` are the conversions whose results may be read, `dead` the others. */
  datatype Sim = Sim(m: Semantics, xs: seq<Insn>, c: Ctx, bound: nat, argv: seq<Value>, e: nat, d: nat,
                     trusted: set<nat>, dead: set<nat>, out: nat -> seq<Insn>, piece: nat -> seq<Insn>, st: nat -> St) {
    ghost function N(): seq<Insn> { out(|xs|) }
    ghost function Pos(k: nat): nat { |out(k)| }
  }

  ghost predicate Appends(z: Sim, k: nat) {
    z.out(k + 1) == z.out(k) + z.piece(k)
  }

  ghost predicate Emits(z: Sim, k: nat)
    requires z.c.Valid() && k < |z.xs|
  {
    EmitStep(z.c, z.st(k), z.xs[k]) == Emitted(z.piece(k), z.st(k + 1))
  }

  /** z is what the emit pass does. */
  ghost predicate Traced(z: Sim) {
    && z.c.Valid() && z.out(0) == [] && z.st(0) == St(false, false, false, false, false, z.c.ids.next)
    && (forall k :: 0 <= k < |z.xs| ==> Appends(z, k))
    && (forall k :: 0 <= k < |z.xs| ==> Emits(z, k))
  }

  ghost predicate Prologued(z: Sim, k: nat)
    requires k < |z.xs|
  {
    !z.st(k).loads && z.xs[k].op != OP_VARIABLE && z.xs[k].op != OP_LABEL
  }

  ghost function Prologue(z: Sim, k: nat): nat
    requires z.c.Valid() && k < |z.xs|
  {
    if Prologued(z, k) then |Loads(z.c)| else 0
  }

  ghost predicate ReturnsValue(x: Insn) { x.op == OP_RETURN_VALUE && |x.args| >= 1 }

  /** Where instruction k of the entry function went. */
  ghost predicate Image(z: Sim, k: nat)
    requires z.c.Valid() && k < |z.xs|
  {
    var x, p := z.xs[k], z.Pos(k);
    if Converted(z.c.scan, x) then
      && z.st(k + 1).loads == z.st(k).loads
      && if Removed(z.c.scan, x) then z.Pos(k + 1) == p
         else z.Pos(k + 1) == p + 1 && Slice(z.N(), p, [Replacement(z.c, x)])
    else if Drop(x, true) then
      z.Pos(k + 1) == p && z.st(k + 1).loads == z.st(k).loads
    else
      var l := Prologue(z, k);
      && (Prologued(z, k) ==> Slice(z.N(), p, Loads(z.c)))
      && z.st(k + 1).loads == (z.st(k).loads || Prologued(z, k))
      && if ReturnsValue(x) then
           z.Pos(k + 1) == p + l + |LoweredReturn(z.c, x.args[0], z.st(k).next)|
           && Slice(z.N(), p + l, LoweredReturn(z.c, x.args[0], z.st(k).next))
         else z.Pos(k + 1) == p + l + 1 && Slice(z.N(), p + l, [x])
  }

  ghost predicate NotParams(m: Semantics, x: Insn, c: Ctx) {
    forall j :: 0 <= j < |c.paramIds| ==> ResultId(m, x) != Some(c.paramIds[j])
  }

  /** A conversion of the entry function whose replacement computes the same value. */
  ghost predicate Kept(z: Sim, k: nat)
    requires k < |z.xs| && Converted(z.c.scan, z.xs[k])
  {
    && z.trusted != {} && !IsSpecBitcast(z.xs[k]) && !Removed(z.c.scan, z.xs[k])
    && AddressesFirst(z.m, z.c, z.xs[k])
    && (Reads(z.m, z.xs[k]) !! Params(z.c) || z.st(k).loads)
  }

  /** Everything the simulation needs to know about instruction k. */
  ghost predicate Fine(z: Sim, k: nat)
    requires z.c.Valid() && k < |z.xs|
  {
    var x, n := z.xs[k], |z.c.sig.params|;
    && x.op != OP_FUNCTION && x.op != OP_FUNCTION_END
    && InsnOk(z.m, x, z.c, z.bound, z.dead)
    && (Converted(z.c.scan, x) ==> x.args[1] in z.dead || Kept(z, k))
    && (z.trusted != {} ==> ResultId(z.m, x) != Some(z.c.ids.uintZero))
    && (z.e < k <= z.e + n ==>
          IsParam(x) && !z.st(k).loads && k - z.e - 1 < |z.c.paramIds| && x.args[1] == z.c.paramIds[k - z.e - 1])
    && (z.e + n < k ==> NotParams(z.m, x, z.c))
    && z.c.ids.next <= z.st(k).next
    && Image(z, k)
  }

  ghost predicate Sound(z: Sim) {
    && Fresh(z.c, z.bound, z.c.ids.next)
    && |z.argv| == |z.c.sig.params| == |z.c.paramIds| && Distinct(z.c.paramIds)
    && (forall id :: id in z.c.paramIds ==> id < z.bound)
    && (z.trusted != {} ==> z.c.ids.uintZero !in z.c.paramIds)
    && z.e + |z.c.sig.params| < z.d < |z.xs| && z.xs[z.d].op == OP_FUNCTION_END
    && Slice(z.N(), z.Pos(z.d), [z.xs[z.d]])
    && (forall k :: z.e < k < z.d ==> Fine(z, k))
  }

  /** Ids on which the two runs may differ. */
  ghost function Except(z: Sim, loaded: bool): set<nat> {
    z.dead + if loaded then {} else Params(z.c)
  }

  ghost predicate Held(z: Sim, s: State) {
    s.arg <= |z.c.paramIds| == |z.argv|
    && forall j :: 0 <= j < s.arg ==> Lookup(s.env, z.c.paramIds[j]) == Some(z.argv[j])
  }

  ghost predicate ZeroKnown(z: Sim, t: State) { z.trusted != {} ==> Zeroed(z.m, z.c, t.env) }

  /** The original is about to run instruction pc, the rewritten module its image. */
  ghost predicate Rel(z: Sim, pc: nat, s: State, t: State) {
    && z.e < pc <= z.d
    && Data(z.bound, Except(z, z.st(pc).loads), s, t)
    && Interface(z.c, z.argv, t.env, t.mem) && ZeroKnown(z, t)
    && s.arg == (if pc - z.e - 1 < |z.c.sig.params| then pc - z.e - 1 else |z.c.sig.params|)
    && Held(z, s)
  }

  ghost predicate Follows(f: Stepper, z: Sim) {
    Implements(f, z.m, z.N(), z.Pos(z.e + 1), [])
  }

  /** An instruction changes no id but its result. */
  lemma EffectFrame(m: Semantics, x: Insn, argv: seq<Value>, s: State, id: nat)
    requires EffectOf(m, x, argv, s).Go? && ResultId(m, x) != Some(id)
    ensures Lookup(EffectOf(m, x, argv, s).s.env, id) == Lookup(s.env, id)
  {
  }

  /** Parameter ids keep their arguments: no other instruction defines them. */
  lemma HeldStep(z: Sim, pc: nat, s: State, s1: State)
    requires pc < |z.xs| && NotParams(z.m, z.xs[pc], z.c)
    requires Held(z, s) && EffectOf(z.m, z.xs[pc], z.argv, s) == Go(s1) && s1.arg == s.arg
    ensures Held(z, s1)
  {
    forall j | 0 <= j < s.arg ensures Lookup(s1.env, z.c.paramIds[j]) == Lookup(s.env, z.c.paramIds[j]) {
      EffectFrame(z.m, z.xs[pc], z.argv, s, z.c.paramIds[j]);
    }
  }

  /** The parameter loads make the two runs agree on the parameters. */
  lemma RunPrologue(f: Stepper, z: Sim, p: nat, s: State, t: State) returns (u: State)
    requires Sound(z) && Follows(f, z) && Slice(z.N(), p, Loads(z.c))
    requires Data(z.bound, Except(z, false), s, t) && Interface(z.c, z.argv, t.env, t.mem)
    requires Held(z, s) && s.arg == |z.c.paramIds|
    ensures Run(f, p, t, |Loads(z.c)|) == Running(p + |Loads(z.c)|, u)
    ensures Data(z.bound, Except(z, true), s, u) && Interface(z.c, z.argv, u.env, u.mem)
    ensures ZeroKnown(z, t) ==> ZeroKnown(z, u)
  {
    u := LoadedRun(f, z, p, t);
    PrologueFacts(z, s, t, u);
    ZeroStays(z, t, u);
  }

  /** Running the loads sets the parameters and nothing else. */
  lemma LoadedRun(f: Stepper, z: Sim, p: nat, t: State) returns (u: State)
    requires Sound(z) && Follows(f, z) && Slice(z.N(), p, Loads(z.c)) && Interface(z.c, z.argv, t.env, t.mem)
    ensures Run(f, p, t, |Loads(z.c)|) == Running(p + |Loads(z.c)|, u) && u == t.(env := u.env)
    ensures forall id :: id !in z.c.paramIds ==> Lookup(u.env, id) == Lookup(t.env, id)
    ensures forall j :: 0 <= j < |z.c.paramIds| ==> Lookup(u.env, z.c.paramIds[j]) == Some(z.argv[j])
  {
    var n := |Loads(z.c)|;
    RunLoads(f, z.m, z.N(), z.Pos(z.e + 1), z.c, z.argv, z.bound, z.c.ids.next, p, t, n);
    LoadedFacts(z.c, z.argv, t, n);
    u := Loaded(z.c, z.argv, t, n);
  }

  /** What does not define the zero constant keeps it. */
  lemma ZeroStays(z: Sim, t: State, u: State)
    requires z.trusted != {} ==> Lookup(u.env, z.c.ids.uintZero) == Lookup(t.env, z.c.ids.uintZero)
    ensures ZeroKnown(z, t) ==> ZeroKnown(z, u)
  {
  }

  lemma PrologueFacts(z: Sim, s: State, t: State, u: State)
    requires Sound(z) && u == t.(env := u.env)
    requires forall id :: id !in z.c.paramIds ==> Lookup(u.env, id) == Lookup(t.env, id)
    requires forall j :: 0 <= j < |z.c.paramIds| ==> Lookup(u.env, z.c.paramIds[j]) == Some(z.argv[j])
    requires Data(z.bound, Except(z, false), s, t) && Interface(z.c, z.argv, t.env, t.mem)
    requires Held(z, s) && s.arg == |z.c.paramIds|
    ensures Data(z.bound, Except(z, true), s, u) && Interface(z.c, z.argv, u.env, u.mem)
  {
    InterfaceKept(z.c, z.bound, z.c.ids.next, z.argv, t.env, t.mem, u.env, u.mem);
    LoadedAgree(z, s, t, u);
  }

  lemma LoadedAgree(z: Sim, s: State, t: State, u: State)
    requires Agree(s.env, t.env, z.bound, Except(z, false)) && Held(z, s) && s.arg == |z.c.paramIds|
    requires forall id :: id !in z.c.paramIds ==> Lookup(u.env, id) == Lookup(t.env, id)
    requires forall j :: 0 <= j < |z.c.paramIds| ==> Lookup(u.env, z.c.paramIds[j]) == Some(z.argv[j])
    ensures Agree(s.env, u.env, z.bound, Except(z, true))
  {
    forall id: nat | id < z.bound && id !in Except(z, true) ensures Lookup(s.env, id) == Lookup(u.env, id) {
      if id in z.c.paramIds {
        var j :| 0 <= j < |z.c.paramIds| && z.c.paramIds[j] == id;
        assert Lookup(s.env, z.c.paramIds[j]) == Some(z.argv[j]);
      } else {
        assert id !in Except(z, false);
      }
    }
  }

  ghost predicate Copied(z: Sim, pc: nat)
    requires pc < |z.xs|
  {
    !Converted(z.c.scan, z.xs[pc]) && !Drop(z.xs[pc], true)
  }

  lemma CopiedFacts(z: Sim, pc: nat)
    requires Sound(z) && z.e < pc < z.d && Copied(z, pc)
    ensures z.e + |z.c.sig.params| < pc
    ensures Reads(z.m, z.xs[pc]) !! Except(z, z.st(pc + 1).loads)
    ensures Prologued(z, pc) ==> z.st(pc + 1).loads && !z.st(pc).loads && Slice(z.N(), z.Pos(pc), Loads(z.c))
    ensures !Prologued(z, pc) ==> z.st(pc + 1).loads == z.st(pc).loads
  {
    assert Fine(z, pc);
    if z.xs[pc].op == OP_LABEL { assert Reads(z.m, z.xs[pc]) == {}; }
  }

  /** Bring the new run to the copy of instruction pc. */
  lemma Approach(f: Stepper, z: Sim, pc: nat, s: State, t: State) returns (u: State)
    requires Sound(z) && Follows(f, z) && Rel(z, pc, s, t) && pc < z.d && Copied(z, pc)
    ensures Run(f, z.Pos(pc), t, Prologue(z, pc)) == Running(z.Pos(pc) + Prologue(z, pc), u)
    ensures Data(z.bound, Except(z, z.st(pc + 1).loads), s, u) && Interface(z.c, z.argv, u.env, u.mem)
    ensures ZeroKnown(z, u)
    ensures Reads(z.m, z.xs[pc]) !! Except(z, z.st(pc + 1).loads)
    ensures z.e + |z.c.sig.params| < pc && s.arg == |z.c.sig.params|
  {
    CopiedFacts(z, pc);
    if Prologued(z, pc) {
      u := RunPrologue(f, z, z.Pos(pc), s, t);
    } else {
      u := t;
    }
  }

  // ----- one step of the original -----

  lemma CastAt(z: Sim, pc: nat)
    requires Sound(z) && z.e < pc < z.d && Converted(z.c.scan, z.xs[pc])
    ensures var x := z.xs[pc];
            && ResultId(z.m, x) == Some(x.args[1]) && Below(z.m, x, z.bound) && x.args[1] < z.bound
            && (z.trusted != {} ==> x.args[1] != z.c.ids.uintZero)
            && (x.args[1] in z.dead ||
                (Reads(z.m, x) !! Except(z, z.st(pc).loads) && z.trusted != {} && AddressesFirst(z.m, z.c, x)))
    ensures z.st(pc + 1).loads == z.st(pc).loads && z.e + |z.c.sig.params| < pc
    ensures if Removed(z.c.scan, z.xs[pc]) then z.Pos(pc + 1) == z.Pos(pc) && z.xs[pc].args[1] in z.dead
            else z.Pos(pc + 1) == z.Pos(pc) + 1 <= |z.N()| && z.N()[z.Pos(pc)] == Replacement(z.c, z.xs[pc])
  {
    assert Fine(z, pc);
    var x := z.xs[pc];
    assert ResultId(z.m, x) == Some(x.args[1]) by { CastEffect(z.m, z.c.scan, x, [], State(map[], map[], 0, 0, 0)); }
    if !Removed(z.c.scan, x) { SliceAt(z.N(), z.Pos(pc), [Replacement(z.c, x)], 0); }
  }

  /** A conversion is matched by what stands in its place, if anything: either its result
      is dead, or the two compute the same value. */
  lemma SimCast(f: Stepper, z: Sim, pc: nat, s: State, t: State, s1: State) returns (n: nat, t1: State)
    requires Sound(z) && Follows(f, z) && Rel(z, pc, s, t) && pc < z.d
    requires Converted(z.c.scan, z.xs[pc]) && EffectOf(z.m, z.xs[pc], z.argv, s) == Go(s1)
    ensures n == z.Pos(pc + 1) - z.Pos(pc)
    ensures Run(f, z.Pos(pc), t, n) == Running(z.Pos(pc + 1), t1)
    ensures Data(z.bound, Except(z, z.st(pc + 1).loads), s1, t1) && Interface(z.c, z.argv, t1.env, t1.mem)
    ensures s1.arg == s.arg && z.e + |z.c.sig.params| < pc && ZeroKnown(z, t1)
  {
    CastAt(z, pc);
    CastEffect(z.m, z.c.scan, z.xs[pc], z.argv, s);
    if Removed(z.c.scan, z.xs[pc]) {
      n, t1 := 0, t;
    } else {
      RunPure(f, z.m, z.N(), z.Pos(z.e + 1), z.Pos(pc), t);
      n, t1 := 1, t.(env := Bind(z.m, Replacement(z.c, z.xs[pc]), t.env, t.prev));
      ReplacedBinds(z, z.xs[pc], Replacement(z.c, z.xs[pc]), s, t, s1, t1, z.st(pc).loads);
      InterfaceKept(z.c, z.bound, z.c.ids.next, z.argv, t.env, t.mem, t1.env, t1.mem);
      ZeroStays(z, t, t1);
    }
  }

  lemma CastEffect(m: Semantics, a: Scan, x: Insn, argv: seq<Value>, s: State)
    requires Converted(a, x)
    ensures ResultId(m, x) == Some(x.args[1])
    ensures EffectOf(m, x, argv, s) == Go(s.(env := Bind(m, x, s.env, s.prev)))
  {
  }

  lemma ReplacementResult(m: Semantics, c: Ctx, x: Insn)
    requires Converted(c.scan, x)
    ensures ResultId(m, Replacement(c, x)) == Some(x.args[1]) && Replacement(c, x).op !in BodyOps()
    ensures x.op !in BodyOps()
  {
  }

  lemma ReplacedBinds(z: Sim, x: Insn, y: Insn, s: State, t: State, s1: State, t1: State, loaded: bool)
    requires Converted(z.c.scan, x) && y == Replacement(z.c, x) && Below(z.m, x, z.bound)
    requires s1 == s.(env := Bind(z.m, x, s.env, s.prev)) && t1 == t.(env := Bind(z.m, y, t.env, t.prev))
    requires Data(z.bound, Except(z, loaded), s, t)
    requires x.args[1] in z.dead ||
             (Reads(z.m, x) !! Except(z, loaded) && Zeroed(z.m, z.c, t.env) && AddressesFirst(z.m, z.c, x))
    ensures Data(z.bound, Except(z, loaded), s1, t1)
    ensures forall i: nat :: i != x.args[1] ==> Lookup(t1.env, i) == Lookup(t.env, i)
  {
    CastEffect(z.m, z.c.scan, x, z.argv, s);
    ReplacementResult(z.m, z.c, x);
    if x.args[1] !in z.dead {
      OperandsAgree(z.m, x, s.env, t.env, z.bound, Except(z, loaded));
      assert SameValue(z.m, x, y, t.env, t.prev);
    }
  }

  lemma RunPure(f: Stepper, m: Semantics, N: seq<Insn>, start: nat, p: nat, t: State)
    requires Implements(f, m, N, start, []) && p < |N| && N[p].op !in BodyOps()
    ensures Run(f, p, t, 1) == Running(p + 1, t.(env := Bind(m, N[p], t.env, t.prev)))
  {
    assert At(p, t);
    RunOne(f, p, t);
  }

  /** Dropped instructions bind a parameter or do nothing. */
  lemma SimDrop(z: Sim, pc: nat, s: State, t: State, s1: State)
    requires Sound(z) && Rel(z, pc, s, t) && pc < z.d
    requires !Converted(z.c.scan, z.xs[pc]) && Drop(z.xs[pc], true)
    requires EffectOf(z.m, z.xs[pc], z.argv, s) == Go(s1)
    ensures Rel(z, pc + 1, s1, t) && z.Pos(pc + 1) == z.Pos(pc)
  {
    assert Fine(z, pc);
    var x := z.xs[pc];
    if x.op == OP_FUNCTION_PARAMETER {
      assert s1 == s.(env := s.env[x.args[1] := z.argv[s.arg]], arg := s.arg + 1);
      assert x.args[1] == z.c.paramIds[s.arg];
    } else {
      DropIdle(z.m, x, z.argv, s);
    }
  }

  lemma DropIdle(m: Semantics, x: Insn, argv: seq<Value>, s: State)
    requires Drop(x, true) && x.op != OP_FUNCTION_PARAMETER
    ensures EffectOf(m, x, argv, s) == Go(s)
  {
    assert FormOf(m, x.op) == NoResult;
  }

  lemma RunGo(f: Stepper, m: Semantics, N: seq<Insn>, start: nat, p: nat, u: State)
    requires Implements(f, m, N, start, []) && p < |N| && EffectOf(m, N[p], [], u).Go?
    ensures Run(f, p, u, 1) == Running(p + 1, EffectOf(m, N[p], [], u).s)
  {
    assert At(p, u);
    RunOne(f, p, u);
  }

  lemma CopyAt(z: Sim, pc: nat)
    requires Sound(z) && z.e < pc < z.d && Copied(z, pc) && !ReturnsValue(z.xs[pc])
    ensures var p := z.Pos(pc) + Prologue(z, pc); p < |z.N()| && z.N()[p] == z.xs[pc] && z.Pos(pc + 1) == p + 1
    ensures Below(z.m, z.xs[pc], z.bound) && z.xs[pc].op != OP_FUNCTION_PARAMETER && NotParams(z.m, z.xs[pc], z.c)
    ensures z.trusted != {} ==> ResultId(z.m, z.xs[pc]) != Some(z.c.ids.uintZero)
  {
    assert Fine(z, pc);
    CopiedFacts(z, pc);
    SliceAt(z.N(), z.Pos(pc) + Prologue(z, pc), [z.xs[pc]], 0);
  }

  /** A copied instruction, behind the parameter loads if they belong there. */
  lemma SimCopy(f: Stepper, z: Sim, pc: nat, s: State, t: State, s1: State) returns (n: nat, t1: State)
    requires Sound(z) && Follows(f, z) && Rel(z, pc, s, t) && pc < z.d && Copied(z, pc)
    requires EffectOf(z.m, z.xs[pc], z.argv, s) == Go(s1) && !ReturnsValue(z.xs[pc])
    ensures n == z.Pos(pc + 1) - z.Pos(pc)
    ensures Run(f, z.Pos(pc), t, n) == Running(z.Pos(pc + 1), t1)
    ensures Data(z.bound, Except(z, z.st(pc + 1).loads), s1, t1) && Interface(z.c, z.argv, t1.env, t1.mem)
    ensures s1.arg == s.arg == |z.c.sig.params| && z.e + |z.c.sig.params| < pc && ZeroKnown(z, t1)
  {
    var x, l := z.xs[pc], Prologue(z, pc);
    CopyAt(z, pc);
    var u := Approach(f, z, pc, s, t);
    EffectAgree(z.m, x, z.argv, z.bound, Except(z, z.st(pc + 1).loads), s, u);
    var p := z.Pos(pc) + l;
    t1 := EffectOf(z.m, x, [], u).s;
    RunGo(f, z.m, z.N(), z.Pos(z.e + 1), p, u);
    RunThen(f, z.Pos(pc), t, l, p, u, 1);
    n := l + 1;
    InterfaceKept(z.c, z.bound, z.c.ids.next, z.argv, u.env, u.mem, t1.env, t1.mem);
    if z.trusted != {} { EffectFrame(z.m, x, [], u, z.c.ids.uintZero); }
    ZeroStays(z, u, t1);
  }

  lemma GoIsNoReturn(m: Semantics, x: Insn, argv: seq<Value>, s: State)
    requires EffectOf(m, x, argv, s).Go?
    ensures !ReturnsValue(x)
  {
  }

  lemma LateNotParams(z: Sim, pc: nat)
    requires Sound(z) && z.e + |z.c.sig.params| < pc < z.d
    ensures NotParams(z.m, z.xs[pc], z.c)
  {
    assert Fine(z, pc);
  }

  /** One straight-line step of the original is matched by the image of its instruction. */
  lemma SimGo(f: Stepper, z: Sim, pc: nat, s: State, t: State, s1: State) returns (n: nat, t1: State)
    requires Sound(z) && Follows(f, z) && Rel(z, pc, s, t) && pc < z.d
    requires EffectOf(z.m, z.xs[pc], z.argv, s) == Go(s1)
    ensures n == z.Pos(pc + 1) - z.Pos(pc)
    ensures Run(f, z.Pos(pc), t, n) == Running(z.Pos(pc + 1), t1) && Rel(z, pc + 1, s1, t1)
  {
    if Converted(z.c.scan, z.xs[pc]) {
      n, t1 := SimCast(f, z, pc, s, t, s1);
      LateNotParams(z, pc);
      HeldStep(z, pc, s, s1);
    } else if Drop(z.xs[pc], true) {
      SimDrop(z, pc, s, t, s1);
      n, t1 := 0, t;
    } else {
      GoIsNoReturn(z.m, z.xs[pc], z.argv, s);
      n, t1 := SimCopy(f, z, pc, s, t, s1);
      LateNotParams(z, pc);
      HeldStep(z, pc, s, s1);
    }
  }

  // ----- jumps -----

  ghost predicate PlainOp(x: Insn) { x.op != OP_LABEL && x.op != OP_FUNCTION_END }

  ghost predicate Plain(N: seq<Insn>, i: nat, j: nat) {
    i <= j <= |N| && forall q :: i <= q < j ==> PlainOp(N[q])
  }

  lemma {:induction false} SkipPlain(N: seq<Insn>, i: nat, j: nat, l: nat)
    requires Plain(N, i, j)
    ensures FindLabel(N, i, l) == FindLabel(N, j, l)
    decreases j - i
  {
    if i < j {
      assert PlainOp(N[i]);
      SkipPlain(N, i + 1, j, l);
    }
  }

  lemma SlicePlain(N: seq<Insn>, p: nat, ys: seq<Insn>)
    requires Slice(N, p, ys) && forall i :: 0 <= i < |ys| ==> PlainOp(ys[i])
    ensures Plain(N, p, p + |ys|)
  {
    forall q | p <= q < p + |ys| ensures PlainOp(N[q]) {
      SliceAt(N, p, ys, q - p);
    }
  }

  lemma {:induction false} ExtractsPlain(c: Ctx, v: nat, next: nat, m: nat)
    requires c.Valid() && m <= |c.sig.members|
    ensures forall i :: 0 <= i < 2 * m ==> Extracts(c, v, next, m)[i].op in {OP_COMPOSITE_EXTRACT, OP_STORE}
  {
    if m > 0 { ExtractsPlain(c, v, next, m - 1); }
  }

  lemma ReturnPlain(c: Ctx, v: nat, next: nat)
    requires c.Valid()
    ensures forall i :: 0 <= i < |LoweredReturn(c, v, next)| ==>
              PlainOp(LoweredReturn(c, v, next)[i]) && LoweredReturn(c, v, next)[i].op != OP_FUNCTION
  {
    ExtractsPlain(c, v, next, |c.sig.members|);
  }

  /** The image of anything but a label contains no label. */
  lemma NoLabels(z: Sim, k: nat)
    requires Sound(z) && z.e < k < z.d && z.xs[k].op != OP_LABEL
    ensures Plain(z.N(), z.Pos(k), z.Pos(k + 1)) || z.Pos(k + 1) == z.Pos(k)
  {
    assert Fine(z, k);
    var x, p := z.xs[k], z.Pos(k);
    if Converted(z.c.scan, x) {
      if !Removed(z.c.scan, x) { SlicePlain(z.N(), p, [Replacement(z.c, x)]); }
    } else if Copied(z, k) {
      var l := Prologue(z, k);
      if l > 0 { SlicePlain(z.N(), p, Loads(z.c)); }
      if ReturnsValue(x) {
        ReturnPlain(z.c, x.args[0], z.st(k).next);
        SlicePlain(z.N(), p + l, LoweredReturn(z.c, x.args[0], z.st(k).next));
      } else {
        SlicePlain(z.N(), p + l, [x]);
      }
    }
  }

  lemma LabelStays(z: Sim, k: nat)
    requires Sound(z) && z.e < k < z.d && z.xs[k].op == OP_LABEL
    ensures z.Pos(k) < |z.N()| && z.N()[z.Pos(k)] == z.xs[k] && z.Pos(k + 1) == z.Pos(k) + 1
    ensures z.e + |z.c.sig.params| < k
  {
    assert Fine(z, k);
    CopyAt(z, k);
    CopiedFacts(z, k);
  }

  /** Searching for a block in the two modules finds corresponding places. */
  lemma {:induction false} LabelImage(z: Sim, k: nat, l: nat)
    requires Sound(z) && z.e < k <= z.d
    ensures var a, b := FindLabel(z.xs, k, l), FindLabel(z.N(), z.Pos(k), l);
            a.Some? ==> k <= a.value < z.d && z.e + |z.c.sig.params| < a.value && b == Some(z.Pos(a.value))
    decreases z.d - k
  {
    if k < z.d {
      LabelImage(z, k + 1, l);
      if z.xs[k].op == OP_LABEL {
        LabelStays(z, k);
      } else {
        NoLabels(z, k);
        if z.Pos(k + 1) != z.Pos(k) { SkipPlain(z.N(), z.Pos(k), z.Pos(k + 1), l); }
        assert Fine(z, k);
      }
    }
  }

  lemma RunJump(f: Stepper, m: Semantics, N: seq<Insn>, start: nat, p: nat, u: State, l: nat, i: nat)
    requires Implements(f, m, N, start, []) && p < |N| && EffectOf(m, N[p], [], u) == Goto(l)
    requires FindLabel(N, start, l) == Some(i)
    ensures Run(f, p, u, 1) == Running(i, u)
  {
    assert At(p, u);
    RunOne(f, p, u);
  }

  ghost predicate IsBranch(x: Insn) { x.op in {OP_BRANCH, OP_BRANCH_CONDITIONAL, OP_SWITCH} }

  lemma OnlyBranchesJump(m: Semantics, x: Insn, argv: seq<Value>, s: State)
    requires EffectOf(m, x, argv, s).Goto?
    ensures IsBranch(x)
  {
  }

  /** A jump of the original is matched by a jump to the image of its target. */
  lemma SimGoto(f: Stepper, z: Sim, pc: nat, s: State, t: State, l: nat, i: nat) returns (n: nat, t1: State)
    requires Sound(z) && Follows(f, z) && Rel(z, pc, s, t) && pc < z.d && IsBranch(z.xs[pc])
    requires EffectOf(z.m, z.xs[pc], z.argv, s) == Goto(l) && FindLabel(z.xs, z.e + 1, l) == Some(i)
    ensures n >= 1 && Run(f, z.Pos(pc), t, n) == Running(z.Pos(i), t1) && Rel(z, i, s, t1)
  {
    var k := Prologue(z, pc);
    CopyAt(z, pc);
    CopiedFacts(z, pc);
    t1 := Approach(f, z, pc, s, t);
    EffectAgree(z.m, z.xs[pc], z.argv, z.bound, Except(z, z.st(pc + 1).loads), s, t1);
    LabelImage(z, z.e + 1, l);
    RunJump(f, z.m, z.N(), z.Pos(z.e + 1), z.Pos(pc) + k, t1, l, z.Pos(i));
    RunThen(f, z.Pos(pc), t, k, z.Pos(pc) + k, t1, 1);
    n := k + 1;
    Weaken(z.bound, Except(z, z.st(pc + 1).loads), Except(z, z.st(i).loads), s, t1);
  }

  // ----- returns -----

  lemma MemAgreeKept(a: map<nat, Value>, b: map<nat, Value>, c: map<nat, Value>, bound: nat)
    requires MemAgree(a, b, bound) && forall r: nat :: r < bound ==> Lookup(c, r) == Lookup(b, r)
    ensures MemAgree(a, c, bound)
  {
    forall r | r in a ensures r < bound && r in c && c[r] == a[r] {
      assert r < bound && Lookup(c, r) == Lookup(b, r);
    }
  }

  lemma ReturnAt(z: Sim, pc: nat)
    requires Sound(z) && z.e < pc < z.d && ReturnsValue(z.xs[pc])
    ensures Copied(z, pc) && Below(z.m, z.xs[pc], z.bound) && z.xs[pc].args[0] < z.bound
    ensures Slice(z.N(), z.Pos(pc) + Prologue(z, pc), LoweredReturn(z.c, z.xs[pc].args[0], z.st(pc).next))
    ensures Fresh(z.c, z.bound, z.st(pc).next)
  {
    assert Fine(z, pc);
    assert z.xs[pc].args[0] in Reads(z.m, z.xs[pc]);
  }

  /** Returning a value becomes storing its members in the Outputs and returning. */
  lemma SimReturnValue(f: Stepper, z: Sim, pc: nat, s: State, t: State, v: Value) returns (n: nat, mem: map<nat, Value>)
    requires Sound(z) && Follows(f, z) && Rel(z, pc, s, t) && pc < z.d
    requires ReturnsValue(z.xs[pc]) && Lookup(s.env, z.xs[pc].args[0]) == Some(v)
    ensures Run(f, z.Pos(pc), t, n) == Returned(None, mem)
    ensures Delivered(z.c, v, mem) && MemAgree(s.mem, mem, z.bound)
  {
    ReturnAt(z, pc);
    var x, k := z.xs[pc], Prologue(z, pc);
    var u := Approach(f, z, pc, s, t);
    LookupsAgree(z.m, x, z.bound, Except(z, z.st(pc + 1).loads), s, u, x.args[0]);
    var p := z.Pos(pc) + k;
    if z.c.sig.isStruct {
      n, mem := RunStructReturn(f, z.m, z.N(), z.Pos(z.e + 1), z.c, z.argv, z.bound, p, u, x.args[0], z.st(pc).next);
    } else {
      n, mem := RunPlainReturn(f, z.m, z.N(), z.Pos(z.e + 1), z.c, z.argv, z.bound, p, u, x.args[0], z.st(pc).next);
    }
    RunThen(f, z.Pos(pc), t, k, p, u, n);
    n := k + n;
    MemAgreeKept(s.mem, u.mem, mem, z.bound);
  }

  lemma RunRet(f: Stepper, m: Semantics, N: seq<Insn>, start: nat, p: nat, u: State)
    requires Implements(f, m, N, start, []) && p < |N| && N[p].op == OP_RETURN
    ensures Run(f, p, u, 1) == Returned(None, u.mem)
  {
    assert At(p, u);
    RunOne(f, p, u);
  }

  lemma SimReturnVoid(f: Stepper, z: Sim, pc: nat, s: State, t: State) returns (n: nat, mem: map<nat, Value>)
    requires Sound(z) && Follows(f, z) && Rel(z, pc, s, t) && pc < z.d && z.xs[pc].op == OP_RETURN
    ensures Run(f, z.Pos(pc), t, n) == Returned(None, mem) && MemAgree(s.mem, mem, z.bound)
  {
    CopyAt(z, pc);
    var k := Prologue(z, pc);
    var u := Approach(f, z, pc, s, t);
    RunRet(f, z.m, z.N(), z.Pos(z.e + 1), z.Pos(pc) + k, u);
    RunThen(f, z.Pos(pc), t, k, z.Pos(pc) + k, u, 1);
    n, mem := k + 1, u.mem;
  }

  // ----- whole runs -----

  /** What an original step tells about the instruction. */
  lemma StepCases(f: Stepper, z: Sim, pc: nat, s: State)
    requires Implements(f, z.m, z.xs, z.e + 1, z.argv) && z.e < pc <= z.d < |z.xs| && z.xs[z.d].op == OP_FUNCTION_END
    ensures !f(pc, s).Stuck? ==> pc < z.d
    ensures f(pc, s).Running? ==>
              || (EffectOf(z.m, z.xs[pc], z.argv, s) == Go(f(pc, s).s) && f(pc, s).pc == pc + 1)
              || (EffectOf(z.m, z.xs[pc], z.argv, s).Goto? && f(pc, s).s == s
                  && FindLabel(z.xs, z.e + 1, EffectOf(z.m, z.xs[pc], z.argv, s).target) == Some(f(pc, s).pc))
    ensures f(pc, s).Returned? ==>
              && f(pc, s).mem == s.mem
              && if f(pc, s).v.Some? then ReturnsValue(z.xs[pc]) && Lookup(s.env, z.xs[pc].args[0]) == f(pc, s).v
                 else z.xs[pc].op == OP_RETURN
  {
    assert At(pc, s);
  }

  ghost predicate Twins(f: Stepper, g: Stepper, z: Sim) {
    Sound(z) && Follows(g, z) && Implements(f, z.m, z.xs, z.e + 1, z.argv)
  }

  /** What one return of the original says about one return of the rewritten module. */
  ghost predicate Preserves(c: Ctx, bound: nat, was: Outcome, now: Outcome) {
    && was.Returned? && now.Returned? && now.v == None
    && (was.v.Some? ==> Delivered(c, was.v.value, now.mem))
    && MemAgree(was.mem, now.mem, bound)
  }

  lemma SimReturned(f: Stepper, g: Stepper, z: Sim, pc: nat, s: State, t: State) returns (n: nat)
    requires Twins(f, g, z) && Rel(z, pc, s, t) && f(pc, s).Returned?
    ensures Preserves(z.c, z.bound, f(pc, s), Run(g, z.Pos(pc), t, n))
  {
    var mem: map<nat, Value>;
    StepCases(f, z, pc, s);
    if f(pc, s).v.Some? {
      n, mem := SimReturnValue(g, z, pc, s, t, f(pc, s).v.value);
    } else {
      n, mem := SimReturnVoid(g, z, pc, s, t);
    }
  }

  /** One step of the original is matched by the image of its instruction. */
  lemma SimRunning(f: Stepper, g: Stepper, z: Sim, pc: nat, s: State, t: State) returns (n: nat, t1: State)
    requires Twins(f, g, z) && Rel(z, pc, s, t) && f(pc, s).Running?
    ensures Run(g, z.Pos(pc), t, n) == Running(z.Pos(f(pc, s).pc), t1) && Rel(z, f(pc, s).pc, f(pc, s).s, t1)
    ensures n == 0 ==> f(pc, s).pc == pc + 1
  {
    StepCases(f, z, pc, s);
    var fx := EffectOf(z.m, z.xs[pc], z.argv, s);
    if fx.Go? {
      n, t1 := SimGo(g, z, pc, s, t, fx.s);
    } else {
      OnlyBranchesJump(z.m, z.xs[pc], z.argv, s);
      n, t1 := SimGoto(g, z, pc, s, t, fx.target, f(pc, s).pc);
    }
  }

  /** Whenever the original returns, so does the rewritten module, with the same value
      spread over its Outputs and the same contents of every variable they share. */
  lemma {:induction false} SimRun(f: Stepper, g: Stepper, z: Sim, pc: nat, s: State, t: State, n: nat) returns (n': nat)
    requires Twins(f, g, z) && Rel(z, pc, s, t) && Run(f, pc, s, n).Returned?
    ensures Preserves(z.c, z.bound, Run(f, pc, s, n), Run(g, z.Pos(pc), t, n'))
    decreases n
  {
    var o := f(pc, s);
    if o.Running? {
      var a, t1 := SimRunning(f, g, z, pc, s, t);
      n' := SimRun(f, g, z, o.pc, o.s, t1, n - 1);
      RunThen(g, z.Pos(pc), t, a, z.Pos(o.pc), t1, n');
      n' := a + n';
    } else {
      n' := SimReturned(f, g, z, pc, s, t);
    }
  }

  lemma Budget(a: nat, b: nat, n: nat, w: nat, r1: nat, r: nat)
    requires n >= 1 && n - 1 <= b * w + r1 && r1 < w && (a == 0 ==> r1 + 1 == r)
    ensures n <= (a + b) * w + r
  {
    assert (a + b) * w == a * w + b * w;
    if a > 0 { assert a * w >= w; }
  }

  /** The rewritten module keeps pace: while the original has taken n steps and still
      runs, it has taken at least about n / (d - e + 1) and still runs too. */
  lemma {:induction false} SimProgress(f: Stepper, g: Stepper, z: Sim, pc: nat, s: State, t: State, n: nat)
    returns (n': nat)
    requires Twins(f, g, z) && Rel(z, pc, s, t) && Run(f, pc, s, n).Running?
    ensures Run(g, z.Pos(pc), t, n').Running?
    ensures n <= n' * (z.d - z.e + 1) + (z.d - pc)
    decreases n
  {
    n' := 0;
    if n > 0 {
      var o := f(pc, s);
      var a, t1 := SimRunning(f, g, z, pc, s, t);
      var b := SimProgress(f, g, z, o.pc, o.s, t1, n - 1);
      RunThen(g, z.Pos(pc), t, a, z.Pos(o.pc), t1, b);
      n' := a + b;
      Budget(a, b, n, z.d - z.e + 1, z.d - o.pc, z.d - pc);
    }
  }
}
