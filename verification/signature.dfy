/** The SPIR-V signature transform: `%struct fn(%args)` becomes `void main()` with
    one Input variable per parameter and one Output variable per member of the
    returned value.  Functions say what the pass produces; the methods at the end
    are the pass itself, with its loops, flags and fresh-id counter. */
module SignatureTransform {
  import opened Wrappers
  import opened Spirv

  const OP_UNDEF: nat := 1
  const OP_NAME: nat := 5
  const OP_MEMORY_MODEL: nat := 14
  const OP_ENTRY_POINT: nat := 15
  const OP_EXECUTION_MODE: nat := 16
  const OP_CAPABILITY: nat := 17
  const OP_TYPE_VOID: nat := 19
  const OP_TYPE_INT: nat := 21
  const OP_TYPE_FLOAT: nat := 22
  const OP_TYPE_VECTOR: nat := 23
  const OP_TYPE_STRUCT: nat := 30
  const OP_TYPE_POINTER: nat := 32
  const OP_TYPE_FUNCTION: nat := 33
  const OP_CONSTANT: nat := 43
  const OP_SPEC_CONSTANT_OP: nat := 52
  const OP_FUNCTION: nat := 54
  const OP_FUNCTION_PARAMETER: nat := 55
  const OP_FUNCTION_END: nat := 56
  const OP_LOAD: nat := 61
  const OP_STORE: nat := 62
  const OP_ACCESS_CHAIN: nat := 65
  const OP_MEMBER_DECORATE: nat := 72
  const OP_COMPOSITE_EXTRACT: nat := 81
  const OP_BITCAST: nat := 124
  const OP_LABEL: nat := 248
  const OP_RETURN: nat := 253
  const OP_RETURN_VALUE: nat := 254
  const OP_LIFETIME_START: nat := 256
  const OP_LIFETIME_STOP: nat := 257

  const STORAGE_INPUT: nat := 1
  const STORAGE_OUTPUT: nat := 3
  const CAP_SHADER: nat := 1
  const DEC_BUILTIN: nat := 11
  const DEC_LOCATION: nat := 30
  const BUILTIN_POSITION: nat := 0
  const BUILTIN_VERTEX_INDEX: nat := 42
  const MODE_ORIGIN_UPPER_LEFT: nat := 7
  const MAX_PARAMS: nat := 8
  const MAX_MEMBERS: nat := 8
  const MAX_POINTER_TYPES: nat := 64
  const MAX_LIFETIMES: nat := 16

  datatype Stage = Vertex | Fragment {
    function Model(): nat { if Vertex? then 0 else 4 }
  }

  datatype Status = InvalidArg | Protocol
  datatype Result<+T> = Ok(value: T) | Err(status: Status)

  // ----- scan -----

  /** What one walk over the module collects; an id of 0 means "not found". */
  datatype Scan = Scan(shader: bool, fn: Option<nat>, voidId: nat, uintTy: nat, uintZero: nat,
                       ptrTypes: seq<nat>, lifetimes: seq<nat>)

  /** The signature of the entry function. */
  datatype Sig = Sig(fn: nat, isStruct: bool, members: seq<nat>, params: seq<nat>)

  function ScanStep(a: Scan, x: Insn, name: seq<nat>): Scan {
    var n := |x.args|;
    if x.op == OP_CAPABILITY && n >= 1 && x.args[0] == CAP_SHADER then a.(shader := true)
    else if x.op == OP_NAME && n >= 2 && Holds(x.args[1..], name) then a.(fn := Some(x.args[0]))
    else if x.op == OP_TYPE_VOID && n >= 1 then a.(voidId := x.args[0])
    else if x.op == OP_TYPE_INT && n >= 3 && x.args[1] == 32 && x.args[2] == 0 then a.(uintTy := x.args[0])
    else if x.op == OP_TYPE_POINTER && n >= 1 && |a.ptrTypes| < MAX_POINTER_TYPES then
      a.(ptrTypes := a.ptrTypes + [x.args[0]])
    else if x.op == OP_CONSTANT && n >= 3 && a.uintTy != 0 && x.args[0] == a.uintTy && x.args[2] == 0
            && a.uintZero == 0 then a.(uintZero := x.args[1])
    else if (x.op == OP_LIFETIME_START || x.op == OP_LIFETIME_STOP) && n >= 1 && |a.lifetimes| < MAX_LIFETIMES then
      a.(lifetimes := a.lifetimes + [x.args[0]])
    else a
  }

  function ScanPrefix(xs: seq<Insn>, k: nat, name: seq<nat>): Scan
    requires k <= |xs|
  {
    if k == 0 then Scan(false, None, 0, 0, 0, [], [])
    else ScanStep(ScanPrefix(xs, k - 1, name), xs[k - 1], name)
  }

  /** The first index at or after i whose instruction satisfies p, or |xs|. */
  function FirstIndex(xs: seq<Insn>, p: Insn -> bool, i: nat): (k: nat)
    requires i <= |xs|
    ensures i <= k <= |xs|
    ensures k < |xs| ==> p(xs[k])
    ensures forall j :: i <= j < k ==> !p(xs[j])
    decreases |xs| - i
  {
    if i == |xs| || p(xs[i]) then i else FirstIndex(xs, p, i + 1)
  }

  function IsEntry(fn: nat): Insn -> bool {
    (x: Insn) => x.op == OP_FUNCTION && |x.args| >= 4 && x.args[1] == fn
  }

  function IsFunctionNamed(fn: nat): Insn -> bool {
    (x: Insn) => x.op == OP_FUNCTION && |x.args| >= 2 && x.args[1] == fn
  }

  function IsTypeFunction(ty: nat): Insn -> bool {
    (x: Insn) => x.op == OP_TYPE_FUNCTION && |x.args| >= 2 && x.args[0] == ty
  }

  function IsReturnType(ty: nat): Insn -> bool {
    (x: Insn) => |x.args| >= 1 && x.args[0] == ty
                 && x.op in {OP_TYPE_STRUCT, OP_TYPE_VECTOR, OP_TYPE_FLOAT, OP_TYPE_INT}
  }

  /** The entry function's signature, with every way the scan rejects a module. */
  function Analyse(xs: seq<Insn>, a: Scan): (r: Result<Sig>)
    ensures r.Ok? ==> |r.value.params| <= MAX_PARAMS && |r.value.members| <= MAX_MEMBERS
                      && (r.value.isStruct || |r.value.members| == 1)
                      && a.fn == Some(r.value.fn)
  {
    if a.fn.None? then Err(InvalidArg) else
    var fn := a.fn.value;
    var e := FirstIndex(xs, IsEntry(fn), 0);
    if e == |xs| || xs[e].args[0] == 0 || xs[e].args[3] == 0 then Err(Protocol) else
    var ret, ty := xs[e].args[0], xs[e].args[3];
    var f := FirstIndex(xs, IsTypeFunction(ty), 0);
    if f == |xs| || xs[f].args[1] != ret || |xs[f].args| - 2 > MAX_PARAMS then Err(Protocol) else
    var t := FirstIndex(xs, IsReturnType(ret), 0);
    if t == |xs| then Err(Protocol)
    else if xs[t].op != OP_TYPE_STRUCT then Ok(Sig(fn, false, [ret], xs[f].args[2..]))
    else if |xs[t].args| - 1 > MAX_MEMBERS then Err(Protocol)
    else Ok(Sig(fn, true, xs[t].args[1..], xs[f].args[2..]))
  }

  // ----- fresh ids -----

  /** Ids referenced from several places of the output. */
  datatype Synth = Synth(voidId: nat, voidFn: nat, outPtr: seq<nat>, outVar: seq<nat>,
                         inPtr: seq<nat>, inVar: seq<nat>, uintTy: nat, uintZero: nat, next: nat)

  function Arith(base: nat, n: nat): (s: seq<nat>)
    ensures |s| == n && forall k :: 0 <= k < n ==> s[k] == base + 2 * k
  {
    seq(n, (k: nat) => base + 2 * k)
  }

  function Plan(a: Scan, g: Sig, bound: nat): (ids: Synth)
    ensures |ids.outPtr| == |ids.outVar| == |g.members| && |ids.inPtr| == |ids.inVar| == |g.params|
    ensures bound < ids.next && bound <= ids.voidFn < ids.next
    ensures forall k :: 0 <= k < |g.members| ==>
              ids.voidFn < ids.outPtr[k] && ids.outVar[k] == ids.outPtr[k] + 1 && ids.outVar[k] < ids.next
              && ids.outPtr[k] == ids.voidFn + 1 + 2 * k
    ensures forall k :: 0 <= k < |g.params| ==>
              ids.voidFn + 2 * |g.members| < ids.inPtr[k] && ids.inVar[k] == ids.inPtr[k] + 1
              && ids.inPtr[k] == ids.voidFn + 1 + 2 * |g.members| + 2 * k && ids.inVar[k] < ids.next
    ensures a.voidId == 0 ==> ids.voidId == bound && bound < ids.voidFn
    ensures a.uintTy == 0 ==> ids.voidFn + 2 * |g.members| + 2 * |g.params| < ids.uintTy < ids.next
    ensures a.uintZero == 0 ==> ids.voidFn + 2 * |g.members| + 2 * |g.params| < ids.uintZero < ids.next
    ensures a.uintTy == 0 && a.uintZero == 0 ==> ids.uintTy < ids.uintZero
  {
    var voidFn := if a.voidId == 0 then bound + 1 else bound;
    var o := voidFn + 1;
    var i := o + 2 * |g.members|;
    var u := i + 2 * |g.params|;
    var z := if a.uintTy == 0 then u + 1 else u;
    Synth(if a.voidId == 0 then bound else a.voidId, voidFn,
          Arith(o, |g.members|), Arith(o + 1, |g.members|),
          Arith(i, |g.params|), Arith(i + 1, |g.params|),
          if a.uintTy == 0 then u else a.uintTy,
          if a.uintZero == 0 then z else a.uintZero,
          if a.uintZero == 0 then z + 1 else z)
  }

  // ----- emission -----

  /** Everything the emit pass reads: the scan, the plan and the original parameter ids. */
  datatype Ctx = Ctx(scan: Scan, sig: Sig, ids: Synth, stage: Stage, name: seq<nat>, paramIds: seq<nat>) {
    ghost predicate Valid() {
      && |ids.outVar| == |ids.outPtr| == |sig.members| && |ids.inVar| == |ids.inPtr| == |sig.params|
      && |paramIds| <= |sig.params|
      && (sig.isStruct || |sig.members| == 1)
    }
  }

  function ParamRun(xs: seq<Insn>, i: nat, n: nat): (ps: seq<nat>)
    requires i <= |xs|
    ensures |ps| <= n
    decreases n
  {
    if n > 0 && i < |xs| && xs[i].op == OP_FUNCTION_PARAMETER && |xs[i].args| >= 2
    then [xs[i].args[1]] + ParamRun(xs, i + 1, n - 1)
    else []
  }

  /** Result ids of the OpFunctionParameters right after the entry OpFunction. */
  function ParamIds(xs: seq<Insn>, g: Sig): (ps: seq<nat>)
    ensures |ps| <= |g.params|
  {
    var e := FirstIndex(xs, IsFunctionNamed(g.fn), 0);
    ParamRun(xs, if e == |xs| then e else e + 1, |g.params|)
  }

  function MakeCtx(xs: seq<Insn>, a: Scan, g: Sig, bound: nat, name: seq<nat>, stage: Stage): (c: Ctx)
    requires g.isStruct || |g.members| == 1
    ensures c.Valid()
  {
    Ctx(a, g, Plan(a, g, bound), stage, name, ParamIds(xs, g))
  }

  /** Splice flags and the fresh-id counter of the emit pass. */
  datatype St = St(zoneA: bool, preTypes: bool, preFn: bool, inFn: bool, loads: bool, next: nat)

  predicate KernelOnlyAttr(v: nat) { v == 5 || v == 6 || v == 7 }

  predicate DroppedDecoration(dec: nat, rest: seq<nat>) {
    dec == 10 || dec == 41 || dec == 40 || dec == 45
    || (dec == 38 && |rest| >= 1 && KernelOnlyAttr(rest[0]))
  }

  /** The drop list. */
  predicate Drop(x: Insn, inFn: bool) {
    var n := |x.args|;
    if x.op == OP_CAPABILITY && n >= 1 then x.args[0] == 5 || x.args[0] == 6
    else if x.op == OP_DECORATE && n >= 2 then DroppedDecoration(x.args[1], x.args[2..])
    else if x.op == OP_MEMBER_DECORATE && n >= 3 then DroppedDecoration(x.args[2], x.args[3..])
    else if x.op == OP_FUNCTION_PARAMETER && inFn then true
    else x.op == OP_LIFETIME_START || x.op == OP_LIFETIME_STOP
  }

  predicate IsSpecBitcast(x: Insn) {
    x.op == OP_SPEC_CONSTANT_OP && |x.args| >= 3 && x.args[2] == OP_BITCAST
  }

  predicate IsPointerBitcast(a: Scan, x: Insn) {
    x.op == OP_BITCAST && |x.args| >= 3 && x.args[0] in a.ptrTypes
  }

  predicate IsTypeOp(op: nat) { OP_TYPE_VOID <= op <= OP_TYPE_FUNCTION }

  function EntryMetadata(c: Ctx): seq<Insn> {
    (if c.scan.shader then [] else [Insn(OP_CAPABILITY, [CAP_SHADER])])
    + [Insn(OP_ENTRY_POINT, [c.stage.Model(), c.sig.fn] + PackString(c.name) + c.ids.outVar + c.ids.inVar)]
    + (if c.stage.Fragment? then [Insn(OP_EXECUTION_MODE, [c.sig.fn, MODE_ORIGIN_UPPER_LEFT])] else [])
  }

  function Decorations(c: Ctx): seq<Insn> {
    seq(|c.ids.outVar|, (k: nat) requires k < |c.ids.outVar| =>
      if c.stage.Vertex? && k == 0 then Insn(OP_DECORATE, [c.ids.outVar[k], DEC_BUILTIN, BUILTIN_POSITION])
      else Insn(OP_DECORATE, [c.ids.outVar[k], DEC_LOCATION, if c.stage.Vertex? then k - 1 else k]))
    + seq(|c.ids.inVar|, (k: nat) requires k < |c.ids.inVar| =>
      if c.stage.Vertex? && k == 0 then Insn(OP_DECORATE, [c.ids.inVar[k], DEC_BUILTIN, BUILTIN_VERTEX_INDEX])
      else Insn(OP_DECORATE, [c.ids.inVar[k], DEC_LOCATION, k]))
  }

  /** Pointer type and variable for each of the first n slots. */
  function VarDecls(ptrs: seq<nat>, vars: seq<nat>, types: seq<nat>, storage: nat, n: nat): seq<Insn>
    requires n <= |ptrs| && n <= |vars| && n <= |types|
  {
    if n == 0 then [] else
    VarDecls(ptrs, vars, types, storage, n - 1)
    + [Insn(OP_TYPE_POINTER, [ptrs[n - 1], storage, types[n - 1]]),
       Insn(OP_VARIABLE, [ptrs[n - 1], vars[n - 1], storage])]
  }

  function NewTypes(c: Ctx): seq<Insn> {
    (if c.scan.voidId == 0 then [Insn(OP_TYPE_VOID, [c.ids.voidId])] else [])
    + (if c.scan.uintTy == 0 then [Insn(OP_TYPE_INT, [c.ids.uintTy, 32, 0])] else [])
    + (if c.scan.uintZero == 0 then [Insn(OP_CONSTANT, [c.ids.uintTy, c.ids.uintZero, 0])] else [])
    + [Insn(OP_TYPE_FUNCTION, [c.ids.voidFn, c.ids.voidId])]
  }

  function OutDecls(c: Ctx): seq<Insn> requires c.Valid() {
    VarDecls(c.ids.outPtr, c.ids.outVar, c.sig.members, STORAGE_OUTPUT, |c.sig.members|)
  }

  function InDecls(c: Ctx): seq<Insn> requires c.Valid() {
    VarDecls(c.ids.inPtr, c.ids.inVar, c.sig.params, STORAGE_INPUT, |c.sig.params|)
  }

  function NewGlobals(c: Ctx): seq<Insn>
    requires c.Valid()
  {
    NewTypes(c) + OutDecls(c) + InDecls(c)
  }

  /** Loads that redefine the original parameter ids. */
  function Loads(c: Ctx): (ls: seq<Insn>)
    requires c.Valid()
    ensures |ls| == |c.paramIds|
    ensures forall p :: 0 <= p < |ls| ==> ls[p] == Insn(OP_LOAD, [c.sig.params[p], c.paramIds[p], c.ids.inVar[p]])
  {
    seq(|c.paramIds|, (p: nat) requires p < |c.paramIds| =>
      Insn(OP_LOAD, [c.sig.params[p], c.paramIds[p], c.ids.inVar[p]]))
  }

  /** One extract and one store for each of the first m members of v. */
  function Extracts(c: Ctx, v: nat, next: nat, m: nat): (xs: seq<Insn>)
    requires c.Valid() && m <= |c.sig.members|
    ensures |xs| == 2 * m
  {
    if m == 0 then [] else
    Extracts(c, v, next, m - 1)
    + [Insn(OP_COMPOSITE_EXTRACT, [c.sig.members[m - 1], next + (m - 1), v, m - 1]),
       Insn(OP_STORE, [c.ids.outVar[m - 1], next + (m - 1)])]
  }

  function LoweredReturn(c: Ctx, v: nat, next: nat): seq<Insn>
    requires c.Valid()
  {
    (if c.sig.isStruct then Extracts(c, v, next, |c.sig.members|) else [Insn(OP_STORE, [c.ids.outVar[0], v])])
    + [Insn(OP_RETURN, [])]
  }

  datatype Emitted = Emitted(out: seq<Insn>, st: St)

  /** What the emit pass does with one instruction. */
  function EmitStep(c: Ctx, st: St, x: Insn): Emitted
    requires c.Valid()
  {
    if IsSpecBitcast(x) then Emitted([Insn(OP_UNDEF, [x.args[0], x.args[1]])], st)
    else if IsPointerBitcast(c.scan, x) then
      if x.args[1] in c.scan.lifetimes then Emitted([], st)
      else Emitted([Insn(OP_ACCESS_CHAIN, [x.args[0], x.args[1], x.args[2], c.ids.uintZero])], st)
    else if !st.zoneA && x.op == OP_MEMORY_MODEL then
      Emitted([x] + EntryMetadata(c), st.(zoneA := true))
    else
      var st1 := st.(preTypes := st.preTypes || IsTypeOp(x.op), preFn := st.preFn || x.op == OP_FUNCTION);
      var pre := Splice(c, st, x.op);
      if x.op == OP_FUNCTION && |x.args| >= 4 && x.args[1] == c.sig.fn then
        Emitted(pre + [Insn(OP_FUNCTION, [c.ids.voidId, c.sig.fn, 0, c.ids.voidFn])],
                st1.(inFn := true, loads := false))
      else EmitBody(c, if x.op == OP_FUNCTION_END then st1.(inFn := false) else st1, x, pre)
  }

  /** Decorations go in front of the first type, globals in front of the first function. */
  function Splice(c: Ctx, st: St, op: nat): seq<Insn>
    requires c.Valid()
  {
    if IsTypeOp(op) && !st.preTypes then Decorations(c)
    else if op == OP_FUNCTION && !st.preFn then NewGlobals(c)
    else []
  }

  /** The tail of the emit step: special cases inside the entry function, else copy. */
  function EmitBody(c: Ctx, st: St, x: Insn, pre: seq<Insn>): Emitted
    requires c.Valid()
  {
    if Drop(x, st.inFn) then Emitted(pre, st)
    else if !st.inFn || x.op == OP_LABEL then Emitted(pre + [x], st)
    else
      var ls := if !st.loads && x.op != OP_VARIABLE then Loads(c) else [];
      var st1 := if x.op != OP_VARIABLE then st.(loads := true) else st;
      if x.op == OP_RETURN_VALUE && |x.args| >= 1 then
        Emitted(pre + ls + LoweredReturn(c, x.args[0], st.next),
                st1.(next := st.next + if c.sig.isStruct then |c.sig.members| else 0))
      else Emitted(pre + ls + [x], st1)
  }

  function EmitPrefix(c: Ctx, xs: seq<Insn>, k: nat): Emitted
    requires c.Valid() && k <= |xs|
  {
    if k == 0 then Emitted([], St(false, false, false, false, false, c.ids.next))
    else
      var e := EmitPrefix(c, xs, k - 1);
      var f := EmitStep(c, e.st, xs[k - 1]);
      Emitted(e.out + f.out, f.st)
  }

  /** The whole pass on instructions. */
  function Rewrite(xs: seq<Insn>, bound: nat, name: seq<nat>, stage: Stage): Result<Emitted> {
    var a := ScanPrefix(xs, |xs|, name);
    match Analyse(xs, a)
    case Err(s) => Err(s)
    case Ok(g) =>
      var e := EmitPrefix(MakeCtx(xs, a, g, bound, name, stage), xs, |xs|);
      if e.st.zoneA then Ok(e) else Err(Protocol)
  }

  /** The whole pass on words. */
  function RewriteWords(ws: seq<nat>, name: seq<nat>, stage: Stage): Result<seq<nat>> {
    if name == [] || ws == [] || ws[0] != MAGIC then Err(InvalidArg)
    else if |ws| < 5 then Err(Protocol)
    else
      match Frame(ws[5..])
      case None => Err(Protocol)
      case Some(xs) =>
        match Rewrite(xs, ws[3], name, stage)
        case Err(s) => Err(s)
        case Ok(e) => Ok([ws[0], ws[1], ws[2], e.st.next, ws[4]] + Encode(e.out))
  }

  // ----- the pass as a program -----

  ghost function Prepend(xs: seq<Insn>, r: Option<seq<Insn>>): Option<seq<Insn>> {
    if r.None? then None else Some(xs + r.value)
  }

  lemma PrependNothing(r: Option<seq<Insn>>)
    ensures Prepend([], r) == r
  {
    if r.Some? { assert [] + r.value == r.value; }
  }

  method FrameWords(ws: seq<nat>) returns (r: Option<seq<Insn>>)
    requires |ws| >= 5
    ensures r == Frame(ws[5..])
  {
    var i := 5;
    var xs: seq<Insn> := [];
    PrependNothing(Frame(ws[5..]));
    while i < |ws|
      invariant 5 <= i <= |ws|
      invariant Frame(ws[5..]) == Prepend(xs, Frame(ws[i..]))
    {
      ghost var suffix := ws[i..];
      var wc, op := ws[i] / 0x1_0000 % 0x1_0000, ws[i] % 0x1_0000;
      if wc == 0 || i + wc > |ws| { return None; }
      assert suffix[wc..] == ws[i + wc..] && suffix[1..wc] == ws[i + 1..i + wc];
      var x := Insn(op, ws[i + 1..i + wc]);
      assert Frame(suffix) == Prepend([x], Frame(ws[i + wc..]));
      if Frame(ws[i + wc..]).Some? {
        assert xs + ([x] + Frame(ws[i + wc..]).value) == (xs + [x]) + Frame(ws[i + wc..]).value;
      }
      xs := xs + [x];
      i := i + wc;
    }
    assert Frame(ws[i..]) == Some([]) && xs + [] == xs;
    return Some(xs);
  }

  method ScanModule(xs: seq<Insn>, name: seq<nat>) returns (a: Scan)
    requires IsName(name)
    ensures a == ScanPrefix(xs, |xs|, name)
  {
    a := Scan(false, None, 0, 0, 0, [], []);
    var k := 0;
    while k < |xs|
      invariant 0 <= k <= |xs|
      invariant a == ScanPrefix(xs, k, name)
    {
      var x := xs[k];
      var n := |x.args|;
      if x.op == OP_CAPABILITY && n >= 1 && x.args[0] == CAP_SHADER {
        a := a.(shader := true);
      }
      if x.op == OP_NAME && n >= 2 {
        var same := StringEquals(x.args[1..], name);
        if same { a := a.(fn := Some(x.args[0])); }
      }
      if x.op == OP_TYPE_VOID && n >= 1 { a := a.(voidId := x.args[0]); }
      if x.op == OP_TYPE_INT && n >= 3 && x.args[1] == 32 && x.args[2] == 0 {
        a := a.(uintTy := x.args[0]);
      }
      if x.op == OP_TYPE_POINTER && n >= 1 && |a.ptrTypes| < MAX_POINTER_TYPES {
        a := a.(ptrTypes := a.ptrTypes + [x.args[0]]);
      }
      if x.op == OP_CONSTANT && n >= 3 && a.uintTy != 0 && x.args[0] == a.uintTy
         && x.args[2] == 0 && a.uintZero == 0 {
        a := a.(uintZero := x.args[1]);
      }
      if (x.op == OP_LIFETIME_START || x.op == OP_LIFETIME_STOP) && n >= 1
         && |a.lifetimes| < MAX_LIFETIMES {
        a := a.(lifetimes := a.lifetimes + [x.args[0]]);
      }
      k := k + 1;
    }
  }

  method FindFirst(xs: seq<Insn>, p: Insn -> bool) returns (k: nat)
    ensures k == FirstIndex(xs, p, 0)
  {
    k := 0;
    while k < |xs|
      invariant k <= |xs|
      invariant FirstIndex(xs, p, 0) == FirstIndex(xs, p, k)
    {
      if p(xs[k]) { return; }
      k := k + 1;
    }
  }

  method ResolveSignature(xs: seq<Insn>, a: Scan) returns (r: Result<Sig>)
    ensures r == Analyse(xs, a)
  {
    if a.fn.None? { return Err(InvalidArg); }
    var fn := a.fn.value;
    var e := FindFirst(xs, IsEntry(fn));
    if e == |xs| || xs[e].args[0] == 0 || xs[e].args[3] == 0 { return Err(Protocol); }
    var ret, ty := xs[e].args[0], xs[e].args[3];
    var f := FindFirst(xs, IsTypeFunction(ty));
    if f == |xs| || xs[f].args[1] != ret || |xs[f].args| - 2 > MAX_PARAMS { return Err(Protocol); }
    var t := FindFirst(xs, IsReturnType(ret));
    if t == |xs| { return Err(Protocol); }
    if xs[t].op != OP_TYPE_STRUCT { return Ok(Sig(fn, false, [ret], xs[f].args[2..])); }
    if |xs[t].args| - 1 > MAX_MEMBERS { return Err(Protocol); }
    return Ok(Sig(fn, true, xs[t].args[1..], xs[f].args[2..]));
  }

  method PlanIds(a: Scan, g: Sig, bound: nat) returns (ids: Synth)
    ensures ids == Plan(a, g, bound)
  {
    var next := bound;
    var voidId := a.voidId;
    if voidId == 0 { voidId := next; next := next + 1; }
    var voidFn := next;
    next := next + 1;
    var outPtr, outVar: seq<nat>, inPtr, inVar: seq<nat> := [], [], [], [];
    var k := 0;
    while k < |g.members|
      invariant 0 <= k <= |g.members| && next == voidFn + 1 + 2 * k
      invariant outPtr == Arith(voidFn + 1, k) && outVar == Arith(voidFn + 2, k)
    {
      outPtr, outVar := outPtr + [next], outVar + [next + 1];
      next := next + 2;
      k := k + 1;
    }
    var base := next;
    k := 0;
    while k < |g.params|
      invariant 0 <= k <= |g.params| && next == base + 2 * k
      invariant inPtr == Arith(base, k) && inVar == Arith(base + 1, k)
    {
      inPtr, inVar := inPtr + [next], inVar + [next + 1];
      next := next + 2;
      k := k + 1;
    }
    var uintTy, uintZero := a.uintTy, a.uintZero;
    if uintTy == 0 { uintTy := next; next := next + 1; }
    if uintZero == 0 { uintZero := next; next := next + 1; }
    ids := Synth(voidId, voidFn, outPtr, outVar, inPtr, inVar, uintTy, uintZero, next);
  }

  /** The store-and-return sequence for one OpReturnValue, drawing one fresh id per member. */
  method LowerReturn(c: Ctx, v: nat, next0: nat) returns (out: seq<Insn>, next: nat)
    requires c.Valid()
    ensures out == LoweredReturn(c, v, next0)
    ensures next == next0 + if c.sig.isStruct then |c.sig.members| else 0
  {
    out, next := [], next0;
    if c.sig.isStruct {
      var k := 0;
      while k < |c.sig.members|
        invariant 0 <= k <= |c.sig.members| && next == next0 + k
        invariant out == Extracts(c, v, next0, k)
      {
        out := out + [Insn(OP_COMPOSITE_EXTRACT, [c.sig.members[k], next, v, k]),
                      Insn(OP_STORE, [c.ids.outVar[k], next])];
        next := next + 1;
        k := k + 1;
      }
    } else {
      out := [Insn(OP_STORE, [c.ids.outVar[0], v])];
    }
    out := out + [Insn(OP_RETURN, [])];
  }

  /** The parameter loads, found by re-walking the module from the entry OpFunction. */
  method ParamLoads(c: Ctx, xs: seq<Insn>) returns (ls: seq<Insn>)
    requires c.Valid() && c.paramIds == ParamIds(xs, c.sig)
    ensures ls == Loads(c)
  {
    var i := FindFirst(xs, IsFunctionNamed(c.sig.fn));
    if i < |xs| { i := i + 1; }
    var p := 0;
    ls := [];
    while i < |xs| && p < |c.sig.params|
      invariant 0 <= i <= |xs| && 0 <= p <= |c.paramIds|
      invariant c.paramIds[p..] == ParamRun(xs, i, |c.sig.params| - p)
      invariant ls == Loads(c)[..p]
      decreases |xs| - i
    {
      var x := xs[i];
      if x.op != OP_FUNCTION_PARAMETER || |x.args| < 2 { break; }
      assert c.paramIds[p..] == [x.args[1]] + ParamRun(xs, i + 1, |c.sig.params| - p - 1);
      assert c.paramIds[p] == x.args[1] && c.paramIds[p + 1..] == c.paramIds[p..][1..];
      ls := ls + [Insn(OP_LOAD, [c.sig.params[p], x.args[1], c.ids.inVar[p]])];
      p := p + 1;
      i := i + 1;
    }
    assert c.paramIds[p..] == [];
  }

  /** The end of one turn of the emit loop: the entry function's special cases, or a copy. */
  method EmitTail(c: Ctx, xs: seq<Insn>, st: St, x: Insn, pre: seq<Insn>) returns (piece: seq<Insn>, s: St)
    requires c.Valid() && c.paramIds == ParamIds(xs, c.sig)
    ensures Emitted(piece, s) == EmitBody(c, st, x, pre)
  {
    piece, s := pre, st;
    var drop := Drop(x, s.inFn);
    if s.inFn {
      if drop { return; }
      if x.op == OP_LABEL { piece := piece + [x]; return; }
      if !s.loads && x.op != OP_VARIABLE {
        var ls := ParamLoads(c, xs);
        piece := piece + ls;
        s := s.(loads := true);
      }
      if x.op == OP_RETURN_VALUE && |x.args| >= 1 {
        var r, next := LowerReturn(c, x.args[0], s.next);
        piece := piece + r;
        s := s.(next := next);
        return;
      }
    }
    if !drop { piece := piece + [x]; }
  }

  /** One turn of the emit loop. */
  method EmitOne(c: Ctx, xs: seq<Insn>, st: St, x: Insn) returns (piece: seq<Insn>, s: St)
    requires c.Valid() && c.paramIds == ParamIds(xs, c.sig)
    ensures Emitted(piece, s) == EmitStep(c, st, x)
  {
    piece, s := [], st;
    if IsSpecBitcast(x) { piece := [Insn(OP_UNDEF, [x.args[0], x.args[1]])]; return; }
    if IsPointerBitcast(c.scan, x) {
      if x.args[1] in c.scan.lifetimes { return; }
      piece := [Insn(OP_ACCESS_CHAIN, [x.args[0], x.args[1], x.args[2], c.ids.uintZero])];
      return;
    }
    if !s.zoneA && x.op == OP_MEMORY_MODEL {
      piece, s := [x] + EntryMetadata(c), s.(zoneA := true);
      return;
    }
    if !s.preTypes && IsTypeOp(x.op) {
      piece, s := Decorations(c), s.(preTypes := true);
    }
    if !s.preFn && x.op == OP_FUNCTION {
      piece, s := NewGlobals(c), s.(preFn := true);
    }
    if x.op == OP_FUNCTION && |x.args| >= 4 && x.args[1] == c.sig.fn {
      piece := piece + [Insn(OP_FUNCTION, [c.ids.voidId, c.sig.fn, 0, c.ids.voidFn])];
      s := s.(inFn := true, loads := false);
      return;
    }
    if x.op == OP_FUNCTION_END { s := s.(inFn := false); }
    piece, s := EmitTail(c, xs, s, x, piece);
  }

  lemma WordsAppend(header: seq<nat>, xs: seq<Insn>, ys: seq<Insn>)
    ensures header + Encode(xs + ys) == header + Encode(xs) + Encode(ys)
  {
    EncodeAppend(xs, ys);
  }

  /** The output words and the state after the first k instructions. */
  ghost predicate Progress(c: Ctx, xs: seq<Insn>, header: seq<nat>, k: nat, out: seq<nat>, st: St)
    requires c.Valid() && k <= |xs|
  {
    var e := EmitPrefix(c, xs, k);
    st == e.st && out == header + Encode(e.out)
  }

  method EmitNext(c: Ctx, xs: seq<Insn>, ghost header: seq<nat>, k: nat, out0: seq<nat>, st0: St)
    returns (out: seq<nat>, st: St)
    requires c.Valid() && c.paramIds == ParamIds(xs, c.sig)
    requires k < |xs| && Progress(c, xs, header, k, out0, st0)
    ensures Progress(c, xs, header, k + 1, out, st)
  {
    var piece: seq<Insn>;
    piece, st := EmitOne(c, xs, st0, xs[k]);
    WordsAppend(header, EmitPrefix(c, xs, k).out, piece);
    out := out0 + Encode(piece);
  }

  method EmitAll(c: Ctx, xs: seq<Insn>, header: seq<nat>) returns (out: seq<nat>, st: St)
    requires c.Valid() && c.paramIds == ParamIds(xs, c.sig)
    ensures Progress(c, xs, header, |xs|, out, st)
  {
    out, st := header, St(false, false, false, false, false, c.ids.next);
    var k := 0;
    while k < |xs|
      invariant 0 <= k <= |xs|
      invariant Progress(c, xs, header, k, out, st)
    {
      out, st := EmitNext(c, xs, header, k, out, st);
      k := k + 1;
    }
  }

  lemma SetBound(ws: seq<nat>, b: nat, b': nat, body: seq<nat>)
    requires |ws| >= 5
    ensures ([ws[0], ws[1], ws[2], b, ws[4]] + body)[3 := b'] == [ws[0], ws[1], ws[2], b', ws[4]] + body
  {
  }

  method Transform(ws: seq<nat>, name: seq<nat>, stage: Stage) returns (r: Result<seq<nat>>)
    requires IsName(name)
    ensures r == RewriteWords(ws, name, stage)
  {
    if name == [] || ws == [] || ws[0] != MAGIC { return Err(InvalidArg); }
    if |ws| < 5 { return Err(Protocol); }
    var framed := FrameWords(ws);
    if framed.None? { return Err(Protocol); }
    var xs := framed.value;
    var a := ScanModule(xs, name);
    var sig := ResolveSignature(xs, a);
    if sig.Err? { return Err(sig.status); }
    var ids := PlanIds(a, sig.value, ws[3]);
    var c := Ctx(a, sig.value, ids, stage, name, ParamIds(xs, sig.value));
    var out, st := EmitAll(c, xs, [ws[0], ws[1], ws[2], ids.next, ws[4]]);
    if !st.zoneA { return Err(Protocol); }
    SetBound(ws, ids.next, st.next, Encode(EmitPrefix(c, xs, |xs|).out));
    out := out[3 := st.next];
    return Ok(out);
  }
}
