/** Which bindings are reflected, opcode by opcode. */
module Reflected {
  import opened Wrappers
  import opened Spirv
  import opened Reflect

  /** Encoded instructions are parsed back, and words behind them are parsed after them. */
  lemma {:induction false} ParsesBack(xs: seq<Insn>, rest: seq<nat>)
    requires AllFit(xs)
    ensures Parse(Encode(xs) + rest) == xs + Parse(rest)
  {
    if xs == [] {
      assert Encode(xs) + rest == rest;
    } else {
      ParsesBack(xs[1..], rest);
      OneParsed(xs[0], Encode(xs[1..]) + rest);
      Regroup(EncodeInsn(xs[0]), Encode(xs[1..]), rest);
      FirstAside(xs, Parse(rest));
    }
  }

  lemma FirstAside(xs: seq<Insn>, ys: seq<Insn>)
    requires xs != []
    ensures [xs[0]] + (xs[1..] + ys) == xs + ys
  {
  }

  lemma OneParsed(x: Insn, more: seq<nat>)
    requires Fits(x)
    ensures Parse(EncodeInsn(x) + more) == [x] + Parse(more)
  {
    var ws, n := EncodeInsn(x) + more, 1 + |x.args|;
    HeaderSplit(n, x.op);
    assert ws[0] == n * 0x1_0000 + x.op && ws[1..n] == x.args && ws[n..] == more;
  }

  /** The last instruction that satisfies p. */
  function Last(xs: seq<Insn>, p: Insn -> bool): Option<Insn> {
    if xs == [] then None
    else if p(xs[|xs| - 1]) then Some(xs[|xs| - 1])
    else Last(xs[..|xs| - 1], p)
  }

  /** An OpDecorate of id with DescriptorSet (34) or Binding (33). */
  function Decorating(id: nat, dec: nat): Insn -> bool {
    (x: Insn) => x.op == 71 && |x.args| >= 3 && x.args[0] == id && x.args[1] == dec
  }

  function Variable(id: nat): Insn -> bool { (x: Insn) => x.op == 59 && |x.args| >= 3 && x.args[1] == id }

  function Pointer(id: nat): Insn -> bool { (x: Insn) => x.op == 32 && |x.args| >= 3 && x.args[0] == id }

  /** OpTypeImage or OpTypeSampledImage; OpTypeSampler; OpTypeStruct. */
  function Image(id: nat): Insn -> bool { (x: Insn) => (x.op == 25 || x.op == 27) && |x.args| >= 1 && x.args[0] == id }

  function SamplerType(id: nat): Insn -> bool { (x: Insn) => x.op == 26 && |x.args| >= 1 && x.args[0] == id }

  function Struct(id: nat): Insn -> bool { (x: Insn) => x.op == 30 && |x.args| >= 1 && x.args[0] == id }

  function Get<V>(m: map<nat, V>, id: nat): Option<V> { if id in m then Some(m[id]) else None }

  function Operand(x: Option<Insn>, i: nat): Option<nat> {
    if x.None? || i >= |x.value.args| then None else Some(x.value.args[i])
  }

  lemma {:induction false} DecorationsAre(xs: seq<Insn>, id: nat)
    requires id < 8192
    ensures Get(Scan(xs).set_, id) == Operand(Last(xs, Decorating(id, 34)), 2)
    ensures Get(Scan(xs).binding, id) == Operand(Last(xs, Decorating(id, 33)), 2)
    decreases |xs|
  {
    if xs != [] { DecorationsAre(xs[..|xs| - 1], id); }
  }

  lemma {:induction false} VariablesAre(xs: seq<Insn>, id: nat)
    requires id < 8192
    ensures match Last(xs, Variable(id))
            case None => id !in Scan(xs).vars
            case Some(x) => |x.args| >= 3 && Get(Scan(xs).vars, id) == Some(Var(x.args[0], x.args[2]))
    decreases |xs|
  {
    if xs != [] { VariablesAre(xs[..|xs| - 1], id); }
  }

  lemma {:induction false} PointersAre(xs: seq<Insn>, id: nat)
    requires id < 8192
    ensures Get(Scan(xs).pointee, id) == Operand(Last(xs, Pointer(id)), 2)
    decreases |xs|
  {
    if xs != [] { PointersAre(xs[..|xs| - 1], id); }
  }

  lemma {:induction false} ImagesAre(xs: seq<Insn>, id: nat)
    requires id < 8192
    ensures id in Scan(xs).images <==> Last(xs, Image(id)).Some?
    decreases |xs|
  {
    if xs != [] { ImagesAre(xs[..|xs| - 1], id); }
  }

  lemma {:induction false} SamplersAre(xs: seq<Insn>, id: nat)
    requires id < 8192
    ensures id in Scan(xs).samplers <==> Last(xs, SamplerType(id)).Some?
    decreases |xs|
  {
    if xs != [] { SamplersAre(xs[..|xs| - 1], id); }
  }

  lemma {:induction false} StructsAre(xs: seq<Insn>, id: nat)
    requires id < 8192
    ensures id in Scan(xs).structs <==> Last(xs, Struct(id)).Some?
    decreases |xs|
  {
    if xs != [] { StructsAre(xs[..|xs| - 1], id); }
  }

  /** What the variable of an id is bound as: an image, sampled or not; a sampler; or a struct in
      storage class StorageBuffer (12). */
  function KindIn(xs: seq<Insn>, x: Insn): Option<Kind>
    requires |x.args| >= 3
  {
    var p := Operand(Last(xs, Pointer(x.args[0])), 2);
    var t := if x.args[0] < 8192 && p.Some? then p.value else 0;
    if t >= 8192 then None
    else if Last(xs, Image(t)).Some? then Some(SampledImage)
    else if Last(xs, SamplerType(t)).Some? then Some(Sampler)
    else if Last(xs, Struct(t)).Some? && x.args[2] == 12 then Some(StorageBuffer)
    else None
  }

  lemma KindIs(xs: seq<Insn>, x: Insn)
    requires |x.args| >= 3
    ensures KindOf(Scan(xs), Var(x.args[0], x.args[2])) == KindIn(xs, x)
  {
    if x.args[0] < 8192 { PointersAre(xs, x.args[0]); }
    var p := Operand(Last(xs, Pointer(x.args[0])), 2);
    var t := if x.args[0] < 8192 && p.Some? then p.value else 0;
    if t < 8192 {
      ImagesAre(xs, t);
      SamplersAre(xs, t);
      StructsAre(xs, t);
    }
  }

  /** REFLECTED, exactly: an id below 8192 has a binding if and only if its last variable has a
      kind and both decorations; set and binding are the operands of the last of each. */
  lemma BindingIs(xs: seq<Insn>, id: nat)
    requires id < 8192
    ensures var v := Last(xs, Variable(id));
            var s, b := Operand(Last(xs, Decorating(id, 34)), 2), Operand(Last(xs, Decorating(id, 33)), 2);
            BindingOf(Scan(xs), id)
            == if v.Some? && |v.value.args| >= 3 && s.Some? && b.Some? && KindIn(xs, v.value).Some?
               then Some(Binding(s.value, b.value, KindIn(xs, v.value).value)) else None
  {
    DecorationsAre(xs, id);
    VariablesAre(xs, id);
    var v := Last(xs, Variable(id));
    if v.Some? { KindIs(xs, v.value); }
  }

  /** The bindings that are counted are those of the ids below 8192, in the order of the ids. */
  lemma {:induction false} FoundAre(t: Tables, n: nat, id: nat)
    requires id < n && BindingOf(t, id).Some?
    ensures |Found(t, id)| < |Found(t, n)| && Found(t, n)[|Found(t, id)|] == BindingOf(t, id).value
    decreases n
  {
    if id < n - 1 { FoundAre(t, n - 1, id); }
  }

  lemma {:induction false} OnlyFound(t: Tables, n: nat, k: nat) returns (id: nat)
    requires k < |Found(t, n)|
    ensures id < n && BindingOf(t, id) == Some(Found(t, n)[k]) && |Found(t, id)| == k
    decreases n
  {
    if k < |Found(t, n - 1)| { id := OnlyFound(t, n - 1, k); } else { id := n - 1; }
  }

  /** What is reflected: as many as were found, and the first `cap` of them, sorted. */
  lemma ReflectionIs(xs: seq<Insn>, cap: nat)
    ensures var r, f := ReflectOf(xs, cap), Found(Scan(xs), 8192);
            && r.total == |f|
            && multiset(r.written) == multiset(f[..if |f| <= cap then |f| else cap])
            && forall i, j :: 0 <= i < j < |r.written| ==>
                 r.written[i].set_ < r.written[j].set_
                 || (r.written[i].set_ == r.written[j].set_ && r.written[i].binding <= r.written[j].binding)
  {
    var f := Found(Scan(xs), 8192);
    SortedIs(First(f, cap));
    assert f[..|f|] == f;
  }
}
