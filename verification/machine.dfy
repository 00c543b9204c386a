/** A small interpreter for SPIR-V modules, enough to say what a shader entry point
    computes.  The operand grammar and the meaning of every operation that is not
    control flow, memory access or member extraction are parameters, so results
    proved about it hold for every choice of them. */
module Machine {
  import opened Wrappers
  import opened Spirv
  import opened SignatureTransform

  datatype Value =
    | Undef
    | Prim(n: int)
    | Comp(ms: seq<Value>)
    | Ptr(root: nat, path: seq<nat>)

  type Env = map<nat, Value>

  datatype Operand = Lit(w: nat) | Ref(id: nat, v: Option<Value>)

  /** Where an instruction puts its result id: nowhere, first, or after a result type. */
  datatype Form = NoResult | Untyped | Typed

  /** form, isId: the operand grammar, by opcode (and operand position).
      eval: the value of an operation from its operands and the previous block's label.
      truth, pick: which way a conditional branch or a switch goes. */
  datatype Semantics = Semantics(
    form: nat -> Form,
    isId: (nat, nat) -> bool,
    eval: (nat, seq<Operand>, nat) -> Value,
    truth: Value -> bool,
    pick: (Value, seq<nat>) -> nat)

  const OP_BRANCH: nat := 249
  const OP_BRANCH_CONDITIONAL: nat := 250
  const OP_SWITCH: nat := 251

  function FormOf(m: Semantics, op: nat): Form {
    if op in {OP_MEMORY_MODEL, OP_ENTRY_POINT, OP_EXECUTION_MODE, OP_CAPABILITY, OP_DECORATE, OP_MEMBER_DECORATE,
              OP_STORE, OP_FUNCTION_END, OP_BRANCH, OP_BRANCH_CONDITIONAL, OP_SWITCH, OP_RETURN, OP_RETURN_VALUE,
              OP_LIFETIME_START, OP_LIFETIME_STOP, 39} then NoResult
    else if 19 <= op <= 38 || op == OP_LABEL then Untyped
    else if op in {OP_UNDEF, OP_CONSTANT, OP_SPEC_CONSTANT_OP, OP_FUNCTION, OP_FUNCTION_PARAMETER, OP_VARIABLE,
                   OP_LOAD, OP_ACCESS_CHAIN, OP_COMPOSITE_EXTRACT, OP_BITCAST} then Typed
    else m.form(op)
  }

  /** The id an instruction defines. */
  function ResultId(m: Semantics, x: Insn): Option<nat> {
    match FormOf(m, x.op)
    case NoResult => None
    case Untyped => if |x.args| >= 1 then Some(x.args[0]) else None
    case Typed => if |x.args| >= 2 then Some(x.args[1]) else None
  }

  function Lookup(env: Env, id: nat): Option<Value> {
    if id in env then Some(env[id]) else None
  }

  predicate IsRef(m: Semantics, x: Insn, i: nat) {
    m.isId(x.op, i)
    && i != (match FormOf(m, x.op) case Untyped => 0 case Typed => 1 case NoResult => |x.args|)
  }

  function Operands(m: Semantics, x: Insn, env: Env): seq<Operand> {
    seq(|x.args|, (i: nat) requires i < |x.args| =>
      if IsRef(m, x, i) then Ref(x.args[i], Lookup(env, x.args[i])) else Lit(x.args[i]))
  }

  /** Operations that only name a value: evaluate and bind the result id, if any. */
  function Bind(m: Semantics, x: Insn, env: Env, prev: nat): Env {
    match ResultId(m, x)
    case None => env
    case Some(id) => env[id := m.eval(x.op, Operands(m, x, env), prev)]
  }

  function Select(v: Value, path: seq<nat>): Value
    decreases |path|
  {
    if path == [] then v
    else if v.Comp? && path[0] < |v.ms| then Select(v.ms[path[0]], path[1..])
    else Undef
  }

  function Parts(v: Value): seq<Value> { if v.Comp? then v.ms else [] }

  /** ms with v at k; what is not there yet is undefined. */
  function With(ms: seq<Value>, k: nat, v: Value): seq<Value> {
    if k < |ms| then ms[k := v] else ms + seq(k - |ms|, _ => Undef) + [v]
  }

  /** v with w at the end of the path.  An undefined value is filled part by part. */
  function Update(v: Value, path: seq<nat>, w: Value): Value
    decreases |path|
  {
    if path == [] then w
    else if v.Comp? || v.Undef? then
      Comp(With(Parts(v), path[0], Update(Select(v, path[..1]), path[1..], w)))
    else v
  }

  /** The path leads through composites, or through what is still undefined. */
  predicate Reaches(v: Value, path: seq<nat>)
    decreases |path|
  {
    path == [] || ((v.Comp? || v.Undef?) && Reaches(Select(v, path[..1]), path[1..]))
  }

  lemma {:induction false} SelectStep(v: Value, path: seq<nat>)
    requires path != []
    ensures Select(v, path) == Select(Select(v, path[..1]), path[1..])
    decreases |path|
  {
    if !(v.Comp? && path[0] < |v.ms|) && |path| > 1 { SelectStep(Undef, path[1..]); }
  }

  /** What is stored through a path is read back through it, and nothing else of the variable
      changes: any other path that leaves this one reads what it read before. */
  lemma {:induction false} StoredIsRead(v: Value, path: seq<nat>, w: Value, other: seq<nat>)
    requires Reaches(v, path)
    ensures Select(Update(v, path, w), path) == w
    ensures !(path <= other) && !(other <= path) ==> Select(Update(v, path, w), other) == Select(v, other)
    decreases |path|
  {
    if path != [] {
      var inner, u := Select(v, path[..1]), Update(v, path, w);
      StoredIsRead(inner, path[1..], w, if other == [] then [] else other[1..]);
      SelectStep(u, path);
      if !(path <= other) && !(other <= path) {
        SelectStep(u, other);
        SelectStep(v, other);
        PartsStay(v, path[0], u, other[0]);
        assert path[0] == other[0] ==> path == [path[0]] + path[1..] && other == [path[0]] + other[1..];
      }
    }
  }

  lemma PartsStay(v: Value, k: nat, u: Value, j: nat)
    requires (v.Comp? || v.Undef?) && u.Comp? && exists x :: u.ms == With(Parts(v), k, x)
    ensures j != k ==> Select(u, [j]) == Select(v, [j])
  {
  }

  /** Everything but the program counter: bound ids, variables, arguments consumed so
      far, current and previous block. */
  datatype State = State(env: Env, mem: map<nat, Value>, arg: nat, cur: nat, prev: nat)

  datatype Effect = Go(s: State) | Goto(target: nat) | Ret(v: Option<Value>) | Wrong

  predicate PointsTo(env: Env, mem: map<nat, Value>, id: nat) {
    id in env && env[id].Ptr? && env[id].root in mem
  }

  /** What one instruction of a running function does. */
  function EffectOf(m: Semantics, x: Insn, argv: seq<Value>, s: State): Effect {
    var n := |x.args|;
    var op := x.op;
    if op == OP_LABEL then
      if n >= 1 then Go(s.(prev := s.cur, cur := x.args[0])) else Wrong
    else if op == OP_FUNCTION_PARAMETER then
      if n >= 2 && s.arg < |argv| then Go(s.(env := s.env[x.args[1] := argv[s.arg]], arg := s.arg + 1)) else Wrong
    else if op == OP_VARIABLE then
      if n >= 3 then
        var init := if n >= 4 && x.args[3] in s.env then s.env[x.args[3]] else Undef;
        Go(s.(env := s.env[x.args[1] := Ptr(x.args[1], [])], mem := s.mem[x.args[1] := init]))
      else Wrong
    else if op == OP_LOAD then
      if n >= 3 && PointsTo(s.env, s.mem, x.args[2]) then
        var p := s.env[x.args[2]];
        Go(s.(env := s.env[x.args[1] := Select(s.mem[p.root], p.path)]))
      else Wrong
    else if op == OP_STORE then
      if n >= 2 && PointsTo(s.env, s.mem, x.args[0]) && x.args[1] in s.env then
        var p := s.env[x.args[0]];
        Go(s.(mem := s.mem[p.root := Update(s.mem[p.root], p.path, s.env[x.args[1]])]))
      else Wrong
    else if op == OP_COMPOSITE_EXTRACT then
      if n >= 3 && x.args[2] in s.env then Go(s.(env := s.env[x.args[1] := Select(s.env[x.args[2]], x.args[3..])]))
      else Wrong
    else if op == OP_BRANCH then
      if n >= 1 then Goto(x.args[0]) else Wrong
    else if op == OP_BRANCH_CONDITIONAL then
      if n >= 3 && x.args[0] in s.env then Goto(if m.truth(s.env[x.args[0]]) then x.args[1] else x.args[2]) else Wrong
    else if op == OP_SWITCH then
      if n >= 2 && x.args[0] in s.env && m.pick(s.env[x.args[0]], x.args) < n
      then Goto(x.args[m.pick(s.env[x.args[0]], x.args)]) else Wrong
    else if op == OP_RETURN then Ret(None)
    else if op == OP_RETURN_VALUE then
      if n >= 1 && x.args[0] in s.env then Ret(Some(s.env[x.args[0]])) else Wrong
    else if op == OP_FUNCTION || op == OP_FUNCTION_END then Wrong
    else Go(s.(env := Bind(m, x, s.env, s.prev)))
  }

  /** The ids whose values an instruction may look at. */
  function Reads(m: Semantics, x: Insn): set<nat> {
    var n := |x.args|;
    if x.op == OP_VARIABLE then if n >= 4 then {x.args[3]} else {}
    else if x.op == OP_LOAD || x.op == OP_COMPOSITE_EXTRACT then if n >= 3 then {x.args[2]} else {}
    else if x.op == OP_STORE then if n >= 2 then {x.args[0], x.args[1]} else {}
    else if x.op in {OP_BRANCH_CONDITIONAL, OP_SWITCH, OP_RETURN_VALUE} then if n >= 1 then {x.args[0]} else {}
    else if x.op in {OP_LABEL, OP_FUNCTION_PARAMETER, OP_BRANCH, OP_RETURN, OP_FUNCTION, OP_FUNCTION_END}
            || ResultId(m, x).None? then {}
    else set i | 0 <= i < n && IsRef(m, x, i) :: x.args[i]
  }

  /** The block with label l in the function whose instructions start at i. */
  function FindLabel(xs: seq<Insn>, i: nat, l: nat): Option<nat>
    decreases |xs| - i
  {
    if i >= |xs| || xs[i].op == OP_FUNCTION_END then None
    else if xs[i].op == OP_LABEL && |xs[i].args| >= 1 && xs[i].args[0] == l then Some(i)
    else FindLabel(xs, i + 1, l)
  }

  datatype Outcome = Running(pc: nat, s: State) | Returned(v: Option<Value>, mem: map<nat, Value>) | Stuck

  function Step(m: Semantics, xs: seq<Insn>, start: nat, argv: seq<Value>, pc: nat, s: State): Outcome {
    if pc >= |xs| then Stuck else
    match EffectOf(m, xs[pc], argv, s)
    case Go(t) => Running(pc + 1, t)
    case Goto(l) => (match FindLabel(xs, start, l) case None => Stuck case Some(i) => Running(i, s))
    case Ret(v) => Returned(v, s.mem)
    case Wrong => Stuck
  }

  /** A step function: what happens next at a program counter in a state. */
  type Stepper = (nat, State) -> Outcome

  function StepperOf(m: Semantics, xs: seq<Insn>, start: nat, argv: seq<Value>): Stepper {
    (pc: nat, s: State) => Step(m, xs, start, argv, pc, s)
  }

  function Run(f: Stepper, pc: nat, s: State, n: nat): Outcome
    decreases n
  {
    if n == 0 then Running(pc, s) else
    match f(pc, s)
    case Running(pc1, s1) => Run(f, pc1, s1, n - 1)
    case o => o
  }

  // ----- module scope -----

  datatype Globals = Globals(env: Env, mem: map<nat, Value>)

  /** Instructions that mean something only inside a function. */
  function BodyOps(): set<nat> {
    {OP_VARIABLE, OP_LABEL, OP_FUNCTION_PARAMETER, OP_LOAD, OP_STORE, OP_COMPOSITE_EXTRACT, OP_BRANCH,
     OP_BRANCH_CONDITIONAL, OP_SWITCH, OP_RETURN, OP_RETURN_VALUE, OP_FUNCTION, OP_FUNCTION_END}
  }

  /** Module-scope instructions bind types, constants and variables; a variable named
      in `inputs` starts with the value given there. */
  function GlobalStep(m: Semantics, x: Insn, inputs: map<nat, Value>, g: Globals): Globals {
    if x.op == OP_VARIABLE && |x.args| >= 3 then
      var id := x.args[1];
      var init := if id in inputs then inputs[id]
                  else if |x.args| >= 4 && x.args[3] in g.env then g.env[x.args[3]]
                  else Undef;
      Globals(g.env[id := Ptr(id, [])], g.mem[id := init])
    else if x.op in BodyOps() then g
    else g.(env := Bind(m, x, g.env, 0))
  }

  function GlobalRun(m: Semantics, g: Globals, xs: seq<Insn>, inputs: map<nat, Value>): Globals
    decreases |xs|
  {
    if xs == [] then g
    else GlobalStep(m, xs[|xs| - 1], inputs, GlobalRun(m, g, xs[..|xs| - 1], inputs))
  }

  const NO_GLOBALS := Globals(map[], map[])

  function IsFunction(): Insn -> bool {
    (x: Insn) => x.op == OP_FUNCTION
  }

  function StartState(m: Semantics, xs: seq<Insn>, inputs: map<nat, Value>): State {
    var g := GlobalRun(m, NO_GLOBALS, xs[..FirstIndex(xs, IsFunction(), 0)], inputs);
    State(g.env, g.mem, 0, 0, 0)
  }

  /** Run function fn of a module for n steps on the given arguments and inputs. */
  function Execute(m: Semantics, xs: seq<Insn>, fn: nat, argv: seq<Value>, inputs: map<nat, Value>, n: nat): Outcome {
    var e := FirstIndex(xs, IsFunctionNamed(fn), 0);
    if e == |xs| then Stuck else Run(StepperOf(m, xs, e + 1, argv), e + 1, StartState(m, xs, inputs), n)
  }

  /** A marker that makes a step of an abstract stepper visible to a proof. */
  ghost predicate At(pc: nat, s: State) { true }

  /** f takes the steps of module xs; used where proofs are about many steps and must
      not look into each of them. */
  ghost predicate Implements(f: Stepper, m: Semantics, xs: seq<Insn>, start: nat, argv: seq<Value>) {
    forall pc, s {:trigger At(pc, s)} :: f(pc, s) == Step(m, xs, start, argv, pc, s)
  }

  /** Running a steps and then b steps is running a + b steps. */
  lemma {:induction false} RunThen(f: Stepper, pc: nat, s: State, a: nat, pc1: nat, s1: State, b: nat)
    requires Run(f, pc, s, a) == Running(pc1, s1)
    ensures Run(f, pc, s, a + b) == Run(f, pc1, s1, b)
    decreases a
  {
    if a > 0 {
      var o := f(pc, s);
      RunThen(f, o.pc, o.s, a - 1, pc1, s1, b);
    }
  }

  lemma RunOne(f: Stepper, pc: nat, s: State)
    ensures Run(f, pc, s, 1) == f(pc, s)
  {
    var o := f(pc, s);
    if o.Running? { assert Run(f, o.pc, o.s, 0) == o; }
  }

  lemma RunLoad(f: Stepper, m: Semantics, xs: seq<Insn>, start: nat, argv: seq<Value>, pc: nat, s: State,
                ty: nat, id: nat, ptr: nat)
    requires Implements(f, m, xs, start, argv)
    requires pc < |xs| && xs[pc] == Insn(OP_LOAD, [ty, id, ptr])
    requires ptr in s.env && s.env[ptr] == Ptr(ptr, []) && ptr in s.mem
    ensures Run(f, pc, s, 1) == Running(pc + 1, s.(env := s.env[id := s.mem[ptr]]))
  {
    assert At(pc, s);
    RunOne(f, pc, s);
  }

  lemma RunStore(f: Stepper, m: Semantics, xs: seq<Insn>, start: nat, argv: seq<Value>, pc: nat, s: State,
                 ptr: nat, v: nat)
    requires Implements(f, m, xs, start, argv)
    requires pc < |xs| && xs[pc] == Insn(OP_STORE, [ptr, v])
    requires ptr in s.env && s.env[ptr] == Ptr(ptr, []) && ptr in s.mem && v in s.env
    ensures Run(f, pc, s, 1) == Running(pc + 1, s.(mem := s.mem[ptr := s.env[v]]))
  {
    assert At(pc, s);
    RunOne(f, pc, s);
  }

  lemma RunExtract(f: Stepper, m: Semantics, xs: seq<Insn>, start: nat, argv: seq<Value>, pc: nat, s: State,
                   ty: nat, id: nat, v: nat, k: nat)
    requires Implements(f, m, xs, start, argv)
    requires pc < |xs| && xs[pc] == Insn(OP_COMPOSITE_EXTRACT, [ty, id, v, k])
    requires v in s.env
    ensures Run(f, pc, s, 1) == Running(pc + 1, s.(env := s.env[id := Select(s.env[v], [k])]))
  {
    assert At(pc, s);
    assert xs[pc].args[3..] == [k];
    RunOne(f, pc, s);
  }

  lemma RunVoidReturn(f: Stepper, m: Semantics, xs: seq<Insn>, start: nat, argv: seq<Value>, pc: nat, s: State)
    requires Implements(f, m, xs, start, argv)
    requires pc < |xs| && xs[pc] == Insn(OP_RETURN, [])
    ensures Run(f, pc, s, 1) == Returned(None, s.mem)
  {
    assert At(pc, s);
    RunOne(f, pc, s);
  }

  lemma GlobalRunOne(m: Semantics, g: Globals, x: Insn, inputs: map<nat, Value>)
    ensures GlobalRun(m, g, [x], inputs) == GlobalStep(m, x, inputs, g)
  {
    assert [x][..0] == [];
  }

  lemma {:induction false} GlobalRunAppend(m: Semantics, g: Globals, xs: seq<Insn>, ys: seq<Insn>,
                                inputs: map<nat, Value>)
    ensures GlobalRun(m, g, xs + ys, inputs) == GlobalRun(m, GlobalRun(m, g, xs, inputs), ys, inputs)
    decreases |ys|
  {
    if ys == [] {
      assert xs + ys == xs;
    } else {
      var zs := ys[..|ys| - 1];
      assert (xs + ys)[..|xs + ys| - 1] == xs + zs;
      GlobalRunAppend(m, g, xs, zs, inputs);
    }
  }

  ghost predicate AllIdle(m: Semantics, ys: seq<Insn>) {
    forall i :: 0 <= i < |ys| ==> FormOf(m, ys[i].op) == NoResult
  }

  /** Instructions without a result leave the globals alone. */
  lemma {:induction false} GlobalRunIdle(m: Semantics, g: Globals, ys: seq<Insn>, inputs: map<nat, Value>)
    requires AllIdle(m, ys)
    ensures GlobalRun(m, g, ys, inputs) == g
    decreases |ys|
  {
    if ys != [] { GlobalRunIdle(m, g, ys[..|ys| - 1], inputs); }
  }
}
