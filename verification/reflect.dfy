/** Descriptor-binding reflection of a SPIR-V module, and the in-place shift of its
    binding numbers. */
module Reflect {
  import opened Wrappers
  import opened Spirv

  const MAX_ID: nat := 8192
  const DEC_BINDING: nat := 33
  const DEC_DESCRIPTOR_SET: nat := 34
  const STORAGE_BUFFER: nat := 12

  // ----- instructions, up to the first that does not parse -----

  function WordCount(w: nat): nat { w / 0x1_0000 % 0x1_0000 }

  predicate Stops(ws: seq<nat>) { ws == [] || WordCount(ws[0]) == 0 || WordCount(ws[0]) > |ws| }

  function Head(ws: seq<nat>): Insn
    requires !Stops(ws)
  {
    Insn(ws[0] % 0x1_0000, ws[1..WordCount(ws[0])])
  }

  function Parse(ws: seq<nat>): seq<Insn>
    decreases |ws|
  {
    if Stops(ws) then [] else [Head(ws)] + Parse(ws[WordCount(ws[0])..])
  }

  // ----- shifting -----

  predicate IsBinding(x: Insn) { x.op == OP_DECORATE && |x.args| >= 3 && x.args[1] == DEC_BINDING }

  function ShiftInsn(x: Insn, base: nat): Insn {
    if IsBinding(x) then x.(args := x.args[2 := (x.args[2] + base) % WORD]) else x
  }

  function ShiftAll(xs: seq<Insn>, base: nat): (ys: seq<Insn>)
    ensures |ys| == |xs| && forall i :: 0 <= i < |xs| ==> ys[i] == ShiftInsn(xs[i], base)
  {
    seq(|xs|, (i: nat) requires i < |xs| => ShiftInsn(xs[i], base))
  }

  /** The words with every binding literal increased. */
  function Shift(ws: seq<nat>, base: nat): seq<nat>
    decreases |ws|
  {
    if Stops(ws) then ws else
    var n := WordCount(ws[0]);
    [ws[0]] + ShiftInsn(Head(ws), base).args + Shift(ws[n..], base)
  }

  /** Shifting words is shifting instructions. */
  lemma {:induction false} ParseShift(ws: seq<nat>, base: nat)
    ensures Parse(Shift(ws, base)) == ShiftAll(Parse(ws), base) && |Shift(ws, base)| == |ws|
    decreases |ws|
  {
    if !Stops(ws) {
      var n := WordCount(ws[0]);
      ParseShift(ws[n..], base);
      ShiftHead(ws, base, ShiftInsn(Head(ws), base).args, Shift(ws[n..], base));
      ShiftCons(Head(ws), Parse(ws[n..]), base);
    } else {
      assert ShiftAll([], base) == [];
    }
  }

  lemma ShiftHead(ws: seq<nat>, base: nat, args: seq<nat>, rest: seq<nat>)
    requires !Stops(ws) && |args| == WordCount(ws[0]) - 1 && |rest| == |ws| - WordCount(ws[0])
    ensures var t := [ws[0]] + args + rest;
            |t| == |ws| && !Stops(t) && Head(t) == Insn(ws[0] % 0x1_0000, args) && t[WordCount(t[0])..] == rest
  {
    var t := [ws[0]] + args + rest;
    assert t[0] == ws[0] && t[1..WordCount(ws[0])] == args;
  }

  lemma ShiftCons(x: Insn, xs: seq<Insn>, base: nat)
    ensures ShiftAll([x] + xs, base) == [ShiftInsn(x, base)] + ShiftAll(xs, base)
  {
  }

  // ----- tables -----

  datatype Var = Var(ptr: nat, storage: nat)

  /** What the scan records by id. */
  datatype Tables = Tables(set_: map<nat, nat>, binding: map<nat, nat>, vars: map<nat, Var>, pointee: map<nat, nat>,
                           images: set<nat>, samplers: set<nat>, structs: set<nat>)

  const EMPTY: Tables := Tables(map[], map[], map[], map[], {}, {}, {})

  function Record(t: Tables, x: Insn): Tables {
    var n := |x.args|;
    if x.op == OP_DECORATE && n >= 3 && x.args[0] < MAX_ID then
      if x.args[1] == DEC_DESCRIPTOR_SET then t.(set_ := t.set_[x.args[0] := x.args[2]])
      else if x.args[1] == DEC_BINDING then t.(binding := t.binding[x.args[0] := x.args[2]])
      else t
    else if (x.op == 25 || x.op == 27) && n >= 1 && x.args[0] < MAX_ID then t.(images := t.images + {x.args[0]})
    else if x.op == 26 && n >= 1 && x.args[0] < MAX_ID then t.(samplers := t.samplers + {x.args[0]})
    else if x.op == 30 && n >= 1 && x.args[0] < MAX_ID then t.(structs := t.structs + {x.args[0]})
    else if x.op == 32 && n >= 3 && x.args[0] < MAX_ID then t.(pointee := t.pointee[x.args[0] := x.args[2]])
    else if x.op == 59 && n >= 3 && x.args[1] < MAX_ID then t.(vars := t.vars[x.args[1] := Var(x.args[0], x.args[2])])
    else t
  }

  function Scan(xs: seq<Insn>): Tables {
    if xs == [] then EMPTY else Record(Scan(xs[..|xs| - 1]), xs[|xs| - 1])
  }

  datatype Kind = SampledImage | Sampler | StorageBuffer

  datatype Binding = Binding(set_: nat, binding: nat, kind: Kind)

  function KindOf(t: Tables, v: Var): Option<Kind> {
    var p := if v.ptr < MAX_ID && v.ptr in t.pointee then t.pointee[v.ptr] else 0;
    if p >= MAX_ID then None
    else if p in t.images then Some(SampledImage)
    else if p in t.samplers then Some(Sampler)
    else if p in t.structs && v.storage == STORAGE_BUFFER then Some(StorageBuffer)
    else None
  }

  function BindingOf(t: Tables, id: nat): Option<Binding> {
    if id in t.vars && id in t.set_ && id in t.binding && KindOf(t, t.vars[id]).Some?
    then Some(Binding(t.set_[id], t.binding[id], KindOf(t, t.vars[id]).value)) else None
  }

  /** The bindings of ids below n, by id. */
  function Found(t: Tables, n: nat): seq<Binding>
    decreases |t.vars|, n
  {
    if n == 0 then [] else
    Found(t, n - 1) + if BindingOf(t, n - 1).Some? then [BindingOf(t, n - 1).value] else []
  }

  // ----- sorting -----

  predicate Above(a: Binding, b: Binding) { a.set_ > b.set_ || (a.set_ == b.set_ && a.binding > b.binding) }

  predicate Ascending(s: seq<Binding>) { forall i, j :: 0 <= i < j < |s| ==> !Above(s[i], s[j]) }

  /** Insert from the right, behind everything that is not above. */
  function Insert(s: seq<Binding>, key: Binding): seq<Binding> {
    if s == [] then [key]
    else if Above(s[|s| - 1], key) then Insert(s[..|s| - 1], key) + [s[|s| - 1]]
    else s + [key]
  }

  function Sorted(s: seq<Binding>): seq<Binding> {
    if s == [] then [] else Insert(Sorted(s[..|s| - 1]), s[|s| - 1])
  }

  lemma {:induction false} InsertPermutes(s: seq<Binding>, key: Binding)
    ensures multiset(Insert(s, key)) == multiset(s) + multiset{key}
  {
    if s != [] {
      var n := |s| - 1;
      assert s == s[..n] + [s[n]];
      if Above(s[n], key) { InsertPermutes(s[..n], key); }
    }
  }

  lemma {:induction false} InsertAscends(s: seq<Binding>, key: Binding)
    requires Ascending(s)
    ensures Ascending(Insert(s, key))
  {
    if s != [] && Above(s[|s| - 1], key) {
      var n := |s| - 1;
      var r := Insert(s[..n], key);
      InsertAscends(s[..n], key);
      InsertPermutes(s[..n], key);
      forall i | 0 <= i < |r| ensures !Above(r[i], s[n]) {
        assert r[i] in multiset(r);
        assert r[i] in multiset(s[..n]) || r[i] == key;
      }
    }
  }

  /** A SORTED PERMUTATION of the bindings. */
  lemma {:induction false} SortedIs(s: seq<Binding>)
    ensures Ascending(Sorted(s)) && multiset(Sorted(s)) == multiset(s) && |Sorted(s)| == |s|
  {
    if s != [] {
      var n := |s| - 1;
      SortedIs(s[..n]);
      InsertAscends(Sorted(s[..n]), s[n]);
      InsertPermutes(Sorted(s[..n]), s[n]);
      InsertLength(Sorted(s[..n]), s[n]);
      assert s == s[..n] + [s[n]];
    }
  }

  lemma {:induction false} InsertLength(s: seq<Binding>, key: Binding)
    ensures |Insert(s, key)| == |s| + 1
  {
    if s != [] && Above(s[|s| - 1], key) { InsertLength(s[..|s| - 1], key); }
  }

  // ----- reflection -----

  /** The number of bindings, and those that fit the caller's array, sorted. */
  datatype Reflection = Reflection(total: nat, written: seq<Binding>)

  function First(s: seq<Binding>, n: nat): seq<Binding> { if |s| <= n then s else s[..n] }

  function ReflectOf(xs: seq<Insn>, cap: nat): Reflection {
    var found := Found(Scan(xs), MAX_ID);
    Reflection(|found|, Sorted(First(found, cap)))
  }

  // ----- reflection commutes with shifting -----

  function Raise(b: Binding, base: nat): Binding { b.(binding := b.binding + base) }

  function RaiseAll(s: seq<Binding>, base: nat): (r: seq<Binding>)
    ensures |r| == |s| && forall i :: 0 <= i < |s| ==> r[i] == Raise(s[i], base)
  {
    seq(|s|, (i: nat) requires i < |s| => Raise(s[i], base))
  }

  /** No binding literal passes 2^32. */
  ghost predicate NoOverflow(xs: seq<Insn>, base: nat) {
    forall i :: 0 <= i < |xs| && IsBinding(xs[i]) ==> xs[i].args[2] + base < WORD
  }

  /** The same tables but for bindings, which are base higher. */
  ghost predicate Raised(t: Tables, t': Tables, base: nat) {
    && t'.(binding := t.binding) == t && t'.binding.Keys == t.binding.Keys
    && forall id :: id in t.binding ==> t'.binding[id] == t.binding[id] + base
  }

  lemma RecordRaised(t: Tables, t': Tables, x: Insn, base: nat)
    requires Raised(t, t', base) && (IsBinding(x) ==> x.args[2] + base < WORD)
    ensures Raised(Record(t, x), Record(t', ShiftInsn(x, base)), base)
  {
  }

  lemma {:induction false} ScanRaised(xs: seq<Insn>, base: nat)
    requires NoOverflow(xs, base)
    ensures Raised(Scan(xs), Scan(ShiftAll(xs, base)), base)
    decreases |xs|
  {
    if xs != [] {
      var n := |xs| - 1;
      ScanRaised(xs[..n], base);
      assert ShiftAll(xs, base)[..n] == ShiftAll(xs[..n], base);
      RecordRaised(Scan(xs[..n]), Scan(ShiftAll(xs[..n], base)), xs[n], base);
    }
  }

  lemma {:induction false} FoundRaised(t: Tables, t': Tables, base: nat, n: nat)
    requires Raised(t, t', base)
    ensures Found(t', n) == RaiseAll(Found(t, n), base)
    decreases n
  {
    if n > 0 {
      FoundRaised(t, t', base, n - 1);
      assert BindingOf(t', n - 1).Some? == BindingOf(t, n - 1).Some?;
    }
  }

  lemma {:induction false} InsertRaised(s: seq<Binding>, key: Binding, base: nat)
    ensures Insert(RaiseAll(s, base), Raise(key, base)) == RaiseAll(Insert(s, key), base)
    decreases |s|
  {
    if s != [] {
      var n := |s| - 1;
      assert RaiseAll(s, base)[..n] == RaiseAll(s[..n], base);
      InsertRaised(s[..n], key, base);
    }
  }

  lemma {:induction false} SortedRaised(s: seq<Binding>, base: nat)
    ensures Sorted(RaiseAll(s, base)) == RaiseAll(Sorted(s), base)
    decreases |s|
  {
    if s != [] {
      var n := |s| - 1;
      assert RaiseAll(s, base)[..n] == RaiseAll(s[..n], base);
      SortedRaised(s[..n], base);
      InsertRaised(Sorted(s[..n]), s[n], base);
    }
  }

  /** REFLECTION COMMUTES WITH SHIFTING: reflecting the shifted words gives the original
      result with base added to each binding; sets, kinds, order and total are the same. */
  lemma ReflectShift(ws: seq<nat>, base: nat, cap: nat)
    requires NoOverflow(Parse(ws), base)
    ensures var r, r' := ReflectOf(Parse(ws), cap), ReflectOf(Parse(Shift(ws, base)), cap);
            r'.total == r.total && r'.written == RaiseAll(r.written, base)
  {
    var xs := Parse(ws);
    ParseShift(ws, base);
    ScanRaised(xs, base);
    ReflectRaised(xs, ShiftAll(xs, base), base, cap, MAX_ID);
  }

  lemma ReflectRaised(xs: seq<Insn>, ys: seq<Insn>, base: nat, cap: nat, n: nat)
    requires Raised(Scan(xs), Scan(ys), base)
    ensures var f, f' := Found(Scan(xs), n), Found(Scan(ys), n);
            |f'| == |f| && Sorted(First(f', cap)) == RaiseAll(Sorted(First(f, cap)), base)
  {
    FoundRaised(Scan(xs), Scan(ys), base, n);
    var f := Found(Scan(xs), n);
    assert First(RaiseAll(f, base), cap) == RaiseAll(First(f, cap), base);
    SortedRaised(First(f, cap), base);
  }

  /** STAGES DO NOT COLLIDE: if every binding reflected from the vertex words is below base
      and no fragment binding overflows, nothing reflected from the shifted fragment words
      has a vertex binding; what is reflected from them is the fragment's own, base higher. */
  lemma NoCollision(vertex: seq<nat>, fragment: seq<nat>, base: nat, cap: nat)
    requires NoOverflow(Parse(fragment), base)
    requires forall i :: 0 <= i < |ReflectOf(Parse(vertex), cap).written| ==>
               ReflectOf(Parse(vertex), cap).written[i].binding < base
    ensures var v, f := ReflectOf(Parse(vertex), cap).written, ReflectOf(Parse(Shift(fragment, base)), cap).written;
            && f == RaiseAll(ReflectOf(Parse(fragment), cap).written, base)
            && forall i, j :: 0 <= i < |v| && 0 <= j < |f| ==> v[i].binding != f[j].binding
  {
    ReflectShift(fragment, base, cap);
  }

  // ----- programs -----

  /** Insertion sort of the written prefix, in place. */
  method SortBindings(a: array<Binding>, n: nat)
    requires n <= a.Length
    modifies a
    ensures a[..n] == Sorted(old(a[..n])) && a[n..] == old(a[n..])
  {
    ghost var was := a[..n];
    var k := 0;
    while k < n
      invariant 0 <= k <= n && a[..k] == Sorted(was[..k]) && a[k..] == old(a[k..])
    {
      assert was[..k + 1][..k] == was[..k] && a[k] == was[k];
      InsertAt(a, k, Sorted(was[..k]));
      k := k + 1;
    }
    assert was[..n] == was;
  }

  /** One turn: the element at k sinks to its place among the sorted elements before it. */
  method InsertAt(a: array<Binding>, k: nat, ghost s: seq<Binding>)
    requires k < a.Length && a[..k] == s
    modifies a
    ensures a[..k + 1] == Insert(s, old(a[k])) && a[k + 1..] == old(a[k + 1..])
  {
    var key := a[k];
    ghost var rest := a[k + 1..];
    var b := MakeRoom(a, k, key, s);
    InsertDone(s, key, b);
    a[b] := key;
    Opened(a[..k + 1], s, key, b);
    assert a[k + 1..] == rest;
  }

  /** Move everything above the key one place up, from the right. */
  method MakeRoom(a: array<Binding>, k: nat, key: Binding, ghost s: seq<Binding>) returns (b: nat)
    requires k < a.Length && a[..k] == s
    modifies a
    ensures b <= k && (b > 0 ==> !Above(s[b - 1], key)) && Insert(s, key) == Insert(s[..b], key) + s[b..]
    ensures (forall j :: 0 <= j < b ==> a[j] == s[j]) && (forall j :: b < j <= k ==> a[j] == s[j - 1])
    ensures a[k + 1..] == old(a[k + 1..])
  {
    b := k;
    ghost var whole, rest := Insert(s, key), a[k + 1..];
    assert forall j :: 0 <= j < k ==> a[j] == a[..k][j];
    assert s[..k] == s && s[k..] == [];
    while b > 0 && Above(a[b - 1], key)
      invariant 0 <= b <= k && whole == Insert(s[..b], key) + s[b..]
      invariant forall j :: 0 <= j < b ==> a[j] == s[j]
      invariant forall j :: b < j <= k ==> a[j] == s[j - 1]
      invariant a[k + 1..] == rest
    {
      Sink(s, key, b);
      a[b] := a[b - 1];
      b := b - 1;
    }
  }

  lemma Opened(now: seq<Binding>, s: seq<Binding>, key: Binding, b: nat)
    requires b <= |s| && |now| == |s| + 1 && now[b] == key
    requires (forall j :: 0 <= j < b ==> now[j] == s[j]) && (forall j :: b < j < |now| ==> now[j] == s[j - 1])
    ensures now == s[..b] + [key] + s[b..]
  {
  }

  lemma InsertDone(s: seq<Binding>, key: Binding, b: nat)
    requires b <= |s| && (b > 0 ==> !Above(s[b - 1], key))
    ensures Insert(s[..b], key) == s[..b] + [key]
  {
  }

  lemma Sink(s: seq<Binding>, key: Binding, b: nat)
    requires 0 < b <= |s| && Above(s[b - 1], key)
    ensures Insert(s[..b], key) + s[b..] == Insert(s[..b - 1], key) + s[b - 1..]
  {
    assert s[..b][..b - 1] == s[..b - 1];
    assert [s[b - 1]] + s[b..] == s[b - 1..];
  }

  /** Add base to every binding literal, in place. */
  method OffsetBindings(a: array<nat>, base: nat)
    modifies a
    ensures a.Length < 5 || base == 0 || old(a[0]) != MAGIC ==> a[..] == old(a[..])
    ensures a.Length >= 5 && base > 0 && old(a[0]) == MAGIC ==> a[..] == old(a[..5]) + Shift(old(a[5..]), base)
  {
    if a.Length < 5 || base == 0 { return; }
    if a[0] != MAGIC { return; }
    ghost var head, rest := a[..5], a[5..];
    ghost var done, whole := [], Shift(rest, base);
    var i := 5;
    assert [] + whole == whole;
    while i < a.Length
      invariant 5 <= i <= a.Length && |head| == 5 && i == 5 + |done|
      invariant a[..] == head + done + rest && whole == done + Shift(rest, base)
      decreases a.Length - i
    {
      assert a[i] == rest[0];
      var n := WordCount(a[i]);
      if n == 0 || i + n > a.Length { break; }
      ShiftTurn(rest, base);
      ghost var now := ShiftOne(a, i, n, base, head + done, rest);
      Regroup(done, now, Shift(rest[n..], base));
      Regroup(head, done, now);
      done, rest := done + now, rest[n..];
      i := i + n;
    }
    Regroup(head, done, rest);
  }

  /** Shift the instruction of n words at i. */
  method ShiftOne(a: array<nat>, i: nat, n: nat, base: nat, ghost before: seq<nat>, ghost rest: seq<nat>)
    returns (ghost now: seq<nat>)
    requires a[..] == before + rest && i == |before| && i + n <= a.Length && !Stops(rest) && n == WordCount(rest[0])
    modifies a
    ensures now == [rest[0]] + ShiftInsn(Head(rest), base).args && |now| == n && a[..] == before + now + rest[n..]
  {
    ShiftedWords(rest, n, base);
    now := [rest[0]] + ShiftInsn(Head(rest), base).args;
    assert forall k :: 0 <= k < |rest| ==> a[i + k] == rest[k];
    assert before + rest == before + rest[..n] + rest[n..];
    if a[i] % 0x1_0000 == OP_DECORATE && n >= 4 && a[i + 2] == DEC_BINDING {
      var v := (a[i + 3] + base) % WORD;
      a[i + 3] := v;
      assert a[..] == (before + rest)[i + 3 := v] == before + rest[..n][3 := v] + rest[n..];
    }
  }

  lemma ShiftedWords(rest: seq<nat>, n: nat, base: nat)
    requires !Stops(rest) && n == WordCount(rest[0])
    ensures [rest[0]] + ShiftInsn(Head(rest), base).args
         == if rest[0] % 0x1_0000 == OP_DECORATE && n >= 4 && rest[2] == DEC_BINDING
            then rest[..n][3 := (rest[3] + base) % WORD] else rest[..n]
  {
    var args := rest[1..n];
    if n >= 4 {
      assert args[1] == rest[2] && args[2] == rest[3];
      var v := (rest[3] + base) % WORD;
      assert [rest[0]] + args[2 := v] == rest[..n][3 := v];
    }
    assert [rest[0]] + args == rest[..n];
  }

  lemma ShiftTurn(ws: seq<nat>, base: nat)
    requires !Stops(ws)
    ensures Shift(ws, base) == ([ws[0]] + ShiftInsn(Head(ws), base).args) + Shift(ws[WordCount(ws[0])..], base)
  {
  }

  /** One walk over the words. */
  method ScanWords(ws: seq<nat>) returns (t: Tables)
    ensures t == Scan(Parse(ws))
  {
    t := EMPTY;
    var i := 0;
    ghost var done, whole := [], Parse(ws);
    assert ws[0..] == ws && [] + whole == whole;
    while i < |ws|
      invariant 0 <= i <= |ws| && t == Scan(done) && whole == done + Parse(ws[i..])
    {
      var n := WordCount(ws[i]);
      if n == 0 || i + n > |ws| {
        assert done + [] == done;
        return;
      }
      var x := Insn(ws[i] % 0x1_0000, ws[i + 1..i + n]);
      ParseTurn(ws, i, n, x);
      ScanTurn(done, x, Parse(ws[i + n..]));
      t := Record(t, x);
      done := done + [x];
      i := i + n;
    }
    assert done + [] == done;
  }

  lemma ParseTurn(ws: seq<nat>, i: nat, n: nat, x: Insn)
    requires i < |ws| && n == WordCount(ws[i]) && 0 < n && i + n <= |ws|
    requires x == Insn(ws[i] % 0x1_0000, ws[i + 1..i + n])
    ensures Parse(ws[i..]) == [x] + Parse(ws[i + n..])
  {
    var rest := ws[i..];
    assert rest[1..n] == ws[i + 1..i + n] && rest[n..] == ws[i + n..];
  }

  lemma ScanTurn(done: seq<Insn>, x: Insn, more: seq<Insn>)
    ensures Scan(done + [x]) == Record(Scan(done), x) && done + ([x] + more) == done + [x] + more
  {
    Parts(done, x, more);
    ScanLast(done + [x], done, x);
  }

  lemma Parts(done: seq<Insn>, x: Insn, more: seq<Insn>)
    ensures (done + [x])[..|done|] == done && done + ([x] + more) == done + [x] + more
  {
  }

  lemma ScanLast(xs: seq<Insn>, done: seq<Insn>, x: Insn)
    requires |xs| == |done| + 1 && xs[..|done|] == done && xs[|done|] == x
    ensures Scan(xs) == Record(Scan(done), x)
  {
  }

  lemma FoundNext(t: Tables, id: nat, cap: nat, b: Option<Binding>)
    requires b == BindingOf(t, id)
    ensures Found(t, id + 1) == Found(t, id) + if b.Some? then [b.value] else []
    ensures First(Found(t, id + 1), cap) == First(Found(t, id), cap)
            + if b.Some? && |Found(t, id)| < cap then [b.value] else []
  {
  }

  /** A binding for every variable with both decorations and a known kind, in id order;
      those beyond the array are only counted. */
  method CollectBindings(t: Tables, out: array<Binding>) returns (total: nat)
    modifies out
    ensures total == |Found(t, MAX_ID)|
    ensures var n := if total < out.Length then total else out.Length; out[..n] == First(Found(t, MAX_ID), out.Length)
  {
    total := 0;
    var id := 0;
    while id < MAX_ID
      invariant 0 <= id <= MAX_ID && total == |Found(t, id)|
      invariant var n := if total < out.Length then total else out.Length; out[..n] == First(Found(t, id), out.Length)
    {
      var b := BindingOf(t, id);
      FoundNext(t, id, out.Length, b);
      if b.Some? {
        if total < out.Length { out[total] := b.value; }
        total := total + 1;
      }
      id := id + 1;
    }
  }

  /** Reflection of a module's words into the caller's array. */
  method ReflectBindings(ws: seq<nat>, out: array<Binding>) returns (total: nat)
    modifies out
    ensures |ws| >= 5 && ws[0] == MAGIC ==>
              var r := ReflectOf(Parse(ws[5..]), out.Length);
              total == r.total && |r.written| <= out.Length && out[..|r.written|] == r.written
    ensures |ws| < 5 || ws[0] != MAGIC ==> total == 0 && out[..] == old(out[..])
  {
    if |ws| < 5 || ws[0] != MAGIC { return 0; }
    var t := ScanWords(ws[5..]);
    total := CollectBindings(t, out);
    var n := if total < out.Length then total else out.Length;
    SortedIs(out[..n]);
    SortBindings(out, n);
  }
}
