/** The metadata-only rewriter: kernel-only capabilities and decorations are filtered out,
    and entry point metadata is spliced in after the memory model. */
module EntryPointRewrite {
  import opened Wrappers
  import opened Spirv
  import opened SignatureTransform
  import opened Layout

  /** What the scan found and what the caller asked for. */
  datatype Job = Job(shader: bool, fn: nat, name: seq<nat>, stage: Stage) {
    function EntryPoint(): Insn { Insn(OP_ENTRY_POINT, [stage.Model(), fn] + PackString(name)) }
    function Extra(): seq<Insn> { Metadata(shader, stage, EntryPoint(), fn) }
  }

  predicate Unwanted(dec: nat) { dec == 10 || dec == 41 }

  predicate Filtered(x: Insn) {
    var n := |x.args|;
    || (x.op == OP_CAPABILITY && n >= 1 && (x.args[0] == 5 || x.args[0] == 6))
    || (x.op == OP_DECORATE && n >= 2 && Unwanted(x.args[1]))
    || (x.op == OP_MEMBER_DECORATE && n >= 3 && Unwanted(x.args[2]))
  }

  function Filter(xs: seq<Insn>): seq<Insn> {
    if xs == [] then []
    else Filter(xs[..|xs| - 1]) + if Filtered(xs[|xs| - 1]) then [] else [xs[|xs| - 1]]
  }

  /** The filtered module with the metadata right after its first memory model. */
  function Rewritten(extra: seq<Insn>, xs: seq<Insn>): Option<seq<Insn>> {
    var mm := FirstIndex(xs, IsMemoryModel(), 0);
    if mm == |xs| then None else Some(Filter(xs[..mm + 1]) + extra + Filter(xs[mm + 1..]))
  }

  function RewrittenWords(ws: seq<nat>, name: seq<nat>, stage: Stage): Result<seq<nat>> {
    if name == [] || ws == [] || ws[0] != MAGIC then Err(InvalidArg)
    else if |ws| < 5 then Err(Protocol)
    else
      match Frame(ws[5..])
      case None => Err(Protocol)
      case Some(xs) =>
        var a := ScanPrefix(xs, |xs|, name);
        if a.fn.None? then Err(InvalidArg) else
        match Rewritten(Job(a.shader, a.fn.value, name, stage).Extra(), xs)
        case None => Err(Protocol)
        case Some(ys) => Ok(ws[..5] + Encode(ys))
  }

  lemma {:induction false} FilterAppend(xs: seq<Insn>, ys: seq<Insn>)
    ensures Filter(xs + ys) == Filter(xs) + Filter(ys)
    decreases |ys|
  {
    if ys == [] {
      assert xs + ys == xs;
    } else {
      assert (xs + ys)[..|xs + ys| - 1] == xs + ys[..|ys| - 1];
      FilterAppend(xs, ys[..|ys| - 1]);
    }
  }

  // ----- size -----

  function NameWords(name: seq<nat>): nat { (|name| + 1 + 3) / 4 }

  /** The words the caller reserves for the output. */
  function Capacity(ws: seq<nat>, name: seq<nat>): nat { |ws| + 2 + 3 + NameWords(name) + 3 + 64 }

  function ExtraWords(j: Job): nat {
    (if j.shader then 0 else 2) + 3 + NameWords(j.name) + (if j.stage.Fragment? then 3 else 0)
  }

  lemma ExtraSize(j: Job)
    ensures |Encode(j.Extra())| == ExtraWords(j)
  {
    var cap, mode := Insn(OP_CAPABILITY, [CAP_SHADER]), Insn(OP_EXECUTION_MODE, [j.fn, MODE_ORIGIN_UPPER_LEFT]);
    var c := if j.shader then [] else [cap];
    var m := if j.stage.Fragment? then [mode] else [];
    EncodeAppend(c + [j.EntryPoint()], m);
    EncodeAppend(c, [j.EntryPoint()]);
    EncodeSingle(cap);
    EncodeSingle(j.EntryPoint());
    EncodeSingle(mode);
  }

  lemma {:induction false} FilterShrinks(xs: seq<Insn>)
    ensures |Encode(Filter(xs))| <= |Encode(xs)|
    decreases |xs|
  {
    if xs != [] {
      var n := |xs| - 1;
      FilterShrinks(xs[..n]);
      EncodeAt(xs, n);
      assert xs[..n + 1] == xs;
      EncodeSingle(xs[n]);
      EncodeAppend(Filter(xs[..n]), [xs[n]]);
      assert Filter(xs[..n]) + [] == Filter(xs[..n]);
    }
  }

  /** The output has exactly the kept words and the metadata. */
  lemma RewrittenSize(extra: seq<Insn>, xs: seq<Insn>)
    requires Rewritten(extra, xs).Some?
    ensures |Encode(Rewritten(extra, xs).value)| == |Encode(Filter(xs))| + |Encode(extra)|
  {
    var mm := FirstIndex(xs, IsMemoryModel(), 0);
    var a, b := xs[..mm + 1], xs[mm + 1..];
    assert a + b == xs;
    FilterAppend(a, b);
    InsertedSize(Filter(a), extra, Filter(b));
  }

  lemma InsertedSize(a: seq<Insn>, m: seq<Insn>, b: seq<Insn>)
    ensures |Encode(a + m + b)| == |Encode(a + b)| + |Encode(m)|
  {
    EncodeAppend(a + m, b);
    EncodeAppend(a, m);
    EncodeAppend(a, b);
  }

  /** The output fits its buffer, for every input and every name. */
  lemma OutputFits(ws: seq<nat>, name: seq<nat>, stage: Stage)
    requires RewrittenWords(ws, name, stage).Ok? && forall i :: 0 <= i < |ws| ==> ws[i] < 0x1_0000_0000
    ensures |RewrittenWords(ws, name, stage).value| + 64 <= Capacity(ws, name)
  {
    var xs := Frame(ws[5..]).value;
    var a := ScanPrefix(xs, |xs|, name);
    EncodeFrame(ws[5..]);
    FilterShrinks(xs);
    RewrittenSize(Job(a.shader, a.fn.value, name, stage).Extra(), xs);
    ExtraSize(Job(a.shader, a.fn.value, name, stage));
  }

  /** WHAT IS LEFT of the buffer, to the word: 64, the words that were filtered out, 2 if Shader
      was there already and 3 if the stage needs no execution mode. */
  lemma LeftExactly(ws: seq<nat>, name: seq<nat>, stage: Stage)
    requires RewrittenWords(ws, name, stage).Ok? && forall i :: 0 <= i < |ws| ==> ws[i] < 0x1_0000_0000
    ensures var xs := Frame(ws[5..]).value;
            Capacity(ws, name) - |RewrittenWords(ws, name, stage).value|
            == 64 + (|Encode(xs)| - |Encode(Filter(xs))|) + (if ScanPrefix(xs, |xs|, name).shader then 2 else 0)
               + (if stage.Vertex? then 3 else 0)
  {
    var xs := Frame(ws[5..]).value;
    var a := ScanPrefix(xs, |xs|, name);
    EncodeFrame(ws[5..]);
    RewrittenSize(Job(a.shader, a.fn.value, name, stage).Extra(), xs);
    ExtraSize(Job(a.shader, a.fn.value, name, stage));
  }

  // ----- layout -----

  lemma {:induction false} FilterTrails(xs: seq<Insn>, a: nat, b: Option<nat>, spliced: bool, stage: Stage)
    requires After(Some(a), xs).Some? && 1 <= a <= FUNCTIONS && Trails(a, b, spliced, stage)
    requires spliced ==> 4 <= a && forall i :: 0 <= i < |xs| ==> !IsMemoryModel()(xs[i])
    requires spliced && stage.Fragment? ==> forall i :: 0 <= i < |xs| ==> !IsEntryPoint()(xs[i])
    ensures After(Some(a), xs).value <= FUNCTIONS
    ensures Trails(After(Some(a), xs).value, After(b, Filter(xs)), spliced, stage)
    decreases |xs|
  {
    if xs != [] {
      var zs, x := xs[..|xs| - 1], xs[|xs| - 1];
      FilterTrails(zs, a, b, spliced, stage);
      AfterGrows(Some(a), zs);
      assert xs[|xs| - 1] == x && (spliced ==> !IsMemoryModel()(x))
        && (spliced && stage.Fragment? ==> !IsEntryPoint()(x));
      StepTrails(x, After(Some(a), zs).value, After(b, Filter(zs)), spliced, stage);
      AfterAppend(b, Filter(zs), if Filtered(x) then [] else [x]);
    }
  }

  lemma StepTrails(x: Insn, a: nat, b: Option<nat>, spliced: bool, stage: Stage)
    requires Trails(a, b, spliced, stage) && Advance(Some(a), x.op).Some? && 1 <= a <= FUNCTIONS
    requires spliced ==> 4 <= a && x.op != OP_MEMORY_MODEL && (stage.Fragment? ==> x.op != OP_ENTRY_POINT)
    ensures Trails(Advance(Some(a), x.op).value, After(b, if Filtered(x) then [] else [x]), spliced, stage)
  {
    if !Filtered(x) {
      CopyTrails(a, b, spliced, stage, x.op, Advance(Some(a), x.op).value);
      AfterOne(b, x);
    }
  }

  lemma {:induction false} FilterKeeps(xs: seq<Insn>, i: nat) returns (k: nat)
    requires i < |xs| && !Filtered(xs[i])
    ensures k < |Filter(xs)| && Filter(xs)[k] == xs[i]
    decreases |xs|
  {
    if i == |xs| - 1 {
      k := |Filter(xs)| - 1;
    } else {
      k := FilterKeeps(xs[..|xs| - 1], i);
    }
  }

  /** An entry point after the spliced execution mode is out of place. */
  lemma LateEntryPoint(xs: seq<Insn>, i: nat, b: Option<nat>)
    requires i < |xs| && IsEntryPoint()(xs[i]) && (b.Some? ==> b.value > 5)
    ensures After(b, Filter(xs)).None?
  {
    var k := FilterKeeps(xs, i);
    AfterBreaks(b, Filter(xs), k, 5);
  }

  lemma FilterLast(xs: seq<Insn>)
    requires xs != []
    ensures var n := |xs| - 1; Filter(xs) == if Filtered(xs[n]) then Filter(xs[..n]) else Filter(xs[..n]) + [xs[n]]
  {
  }

  /** What is filtered stands ahead of all functions. */
  lemma FilteredAlong(x: Insn, p: Place)
    requires Filtered(x) && Follow(p, x.op).Some?
    ensures Follow(p, x.op) == Some(p)
  {
  }

  lemma {:induction false} FilterAlong(xs: seq<Insn>, p: Place)
    requires Along(Some(p), xs).Some?
    ensures Along(Some(p), Filter(xs)) == Along(Some(p), xs)
  {
    if xs == [] {
    } else {
      var zs, x := xs[..|xs| - 1], xs[|xs| - 1];
      assert xs == zs + [x];
      AlongLast(Some(p), zs, x);
      FilterAlong(zs, p);
      FilterLast(xs);
      if Filtered(x) {
        FilteredAlong(x, Along(Some(p), zs).value);
      } else {
        AlongLast(Some(p), Filter(zs), x);
      }
    }
  }

  lemma SpliceStays(a: seq<Insn>, extra: seq<Insn>, b: seq<Insn>)
    requires Along(Some(Ahead), a) == Some(Ahead) && Along(Some(Ahead), extra) == Some(Ahead)
    ensures Along(Some(Ahead), a + extra + b) == Along(Some(Ahead), b)
  {
    AlongAppend(Some(Ahead), a + extra, b);
    AlongAppend(Some(Ahead), a, extra);
  }

  /** Functions stay as they are. */
  lemma StructureStays(extra: seq<Insn>, xs: seq<Insn>, mm: nat)
    requires Structured(xs) && mm < |xs| && xs[mm].op == OP_MEMORY_MODEL
    requires forall i :: 0 <= i < |extra| ==> extra[i].op != OP_FUNCTION
    ensures Structured(Filter(xs[..mm + 1]) + extra + Filter(xs[mm + 1..]))
  {
    var a, b := xs[..mm + 1], xs[mm + 1..];
    assert a + b == xs;
    PlaceNext(xs, mm);
    assert Along(Some(Ahead), a) == Some(Ahead);
    AlongAppend(Some(Ahead), a, b);
    FilterAlong(a, Ahead);
    AlongAhead(extra);
    FilterAlong(b, Ahead);
    SpliceStays(Filter(a), extra, Filter(b));
  }

  /** LAYOUT IS KEPT, EXACTLY WHEN: an ordered module with one OpMemoryModel stays ordered
      if and only if it declares Shader and, for the fragment stage, has no OpEntryPoint. */
  lemma MetadataLayout(j: Job, xs: seq<Insn>, mm: nat)
    requires Ordered(xs) && Exactly(xs, IsMemoryModel(), mm)
    ensures Rewritten(j.Extra(), xs).Some?
    ensures Ordered(Rewritten(j.Extra(), xs).value) <==>
              j.shader && (j.stage.Fragment? ==> forall i :: 0 <= i < |xs| ==> !IsEntryPoint()(xs[i]))
  {
    assert IsMemoryModel()(xs[mm]) && FirstIndex(xs, IsMemoryModel(), 0) == mm;
    StructureStays(j.Extra(), xs, mm);
    MetadataSections(j, xs, mm);
  }

  lemma MetadataSections(j: Job, xs: seq<Insn>, mm: nat)
    requires InSections(xs) && Exactly(xs, IsMemoryModel(), mm)
    ensures InSections(Filter(xs[..mm + 1]) + j.Extra() + Filter(xs[mm + 1..])) <==>
              j.shader && (j.stage.Fragment? ==> forall i :: 0 <= i < |xs| ==> !IsEntryPoint()(xs[i]))
  {
    assert IsMemoryModel()(xs[mm]);
    var b := BeforeSplice(xs, mm, j.stage);
    Halves(xs[..mm], xs[mm], j.Extra(), xs[mm + 1..]);
    assert xs[..mm + 1] == xs[..mm] + [xs[mm]];
    MetadataAfter(b, xs[mm], j.shader, j.stage, j.EntryPoint(), j.fn);
    AfterSplice(j, xs, mm, After(b, [xs[mm]] + j.Extra()));
  }

  /** The section reached by the filtered head of the module. */
  lemma BeforeSplice(xs: seq<Insn>, mm: nat, stage: Stage) returns (b: Option<nat>)
    requires InSections(xs) && mm < |xs| && xs[mm].op == OP_MEMORY_MODEL
    ensures b == After(Some(1), Filter(xs[..mm])) && b.Some? && b.value <= 4
    ensures After(Some(4), xs[mm + 1..]).Some?
  {
    ReachedNext(xs, mm);
    ReachedGrows(xs, mm, mm + 1);
    FilterTrails(xs[..mm], 1, Some(1), false, stage);
    assert xs == xs[..mm + 1] + xs[mm + 1..];
    AfterAppend(Some(1), xs[..mm + 1], xs[mm + 1..]);
    b := After(Some(1), Filter(xs[..mm]));
  }

  lemma Halves(p: seq<Insn>, x: Insn, extra: seq<Insn>, q: seq<Insn>)
    requires !Filtered(x)
    ensures After(Some(1), Filter(p + [x]) + extra + Filter(q))
         == After(After(After(Some(1), Filter(p)), [x] + extra), Filter(q))
  {
    assert (p + [x])[..|p|] == p;
    AfterThree(Filter(p), [x], extra, Filter(q));
  }

  lemma AfterThree(a: seq<Insn>, x: seq<Insn>, extra: seq<Insn>, q: seq<Insn>)
    ensures After(Some(1), a + x + extra + q) == After(After(After(Some(1), a), x + extra), q)
  {
    assert a + x + extra == a + (x + extra);
    AfterAppend(Some(1), a + (x + extra), q);
    AfterAppend(Some(1), a, x + extra);
  }

  lemma AfterSplice(j: Job, xs: seq<Insn>, mm: nat, d: Option<nat>)
    requires InSections(xs) && Exactly(xs, IsMemoryModel(), mm)
    requires d == if j.shader then Some(Spliced(j.stage)) else None
    requires After(Some(4), xs[mm + 1..]).Some?
    ensures After(d, Filter(xs[mm + 1..])).Some? <==>
              j.shader && (j.stage.Fragment? ==> forall i :: 0 <= i < |xs| ==> !IsEntryPoint()(xs[i]))
  {
    var q := xs[mm + 1..];
    AfterGrows(d, Filter(q));
    forall i | 0 <= i < |q| ensures !IsMemoryModel()(q[i]) { assert q[i] == xs[mm + 1 + i]; }
    if j.stage.Fragment? && exists i :: 0 <= i < |xs| && IsEntryPoint()(xs[i]) {
      var i :| 0 <= i < |xs| && IsEntryPoint()(xs[i]);
      assert mm < i by { if i < mm { OrderedPairs(xs, i, mm); } }
      assert q[i - mm - 1] == xs[i];
      LateEntryPoint(q, i - mm - 1, d);
    } else if j.shader {
      forall i | 0 <= i < |q| && j.stage.Fragment? ensures !IsEntryPoint()(q[i]) { assert q[i] == xs[mm + 1 + i]; }
      FilterTrails(q, 4, d, true, j.stage);
    }
  }

  // ----- the rewriter as a program -----

  /** Copy words into the buffer at idx. */
  method Put(out: array<nat>, idx: nat, words: seq<nat>) returns (next: nat)
    requires idx + |words| <= out.Length
    modifies out
    ensures next == idx + |words| && out[..next] == old(out[..idx]) + words
  {
    var i := 0;
    while i < |words|
      invariant 0 <= i <= |words|
      invariant out[..idx + i] == old(out[..idx]) + words[..i]
    {
      out[idx + i] := words[i];
      i := i + 1;
    }
    next := idx + i;
  }

  /** One walk for the Shader capability and the function's id. */
  method ScanMetadata(xs: seq<Insn>, name: seq<nat>) returns (shader: bool, fn: Option<nat>)
    requires IsName(name)
    ensures shader == ScanPrefix(xs, |xs|, name).shader && fn == ScanPrefix(xs, |xs|, name).fn
  {
    shader, fn := false, None;
    var k := 0;
    while k < |xs|
      invariant 0 <= k <= |xs|
      invariant shader == ScanPrefix(xs, k, name).shader && fn == ScanPrefix(xs, k, name).fn
    {
      var x := xs[k];
      if x.op == OP_CAPABILITY && |x.args| >= 1 && x.args[0] == CAP_SHADER { shader := true; }
      if x.op == OP_NAME && |x.args| >= 2 {
        var same := StringEquals(x.args[1..], name);
        if same { fn := Some(x.args[0]); }
      }
      k := k + 1;
    }
  }

  /** What the buffer holds after the first k instructions, when the memory model is at mm. */
  ghost function Progress(extra: seq<Insn>, xs: seq<Insn>, mm: nat, k: nat): seq<Insn>
    requires k <= |xs|
  {
    if k <= mm then Filter(xs[..k]) else Filter(xs[..mm + 1]) + extra + Filter(xs[mm + 1..k])
  }

  lemma FilterNext(xs: seq<Insn>, lo: nat, k: nat)
    requires lo <= k < |xs|
    ensures Filter(xs[lo..k + 1]) == Filter(xs[lo..k]) + Filter([xs[k]])
  {
    assert xs[lo..k + 1] == xs[lo..k] + [xs[k]];
    FilterAppend(xs[lo..k], [xs[k]]);
  }

  lemma ProgressNext(extra: seq<Insn>, xs: seq<Insn>, mm: nat, k: nat)
    requires k < |xs|
    ensures Progress(extra, xs, mm, k + 1) == Progress(extra, xs, mm, k) + Filter([xs[k]])
            + if k == mm then extra else []
  {
    FilterNext(xs, 0, k);
    assert xs[0..k + 1] == xs[..k + 1] && xs[0..k] == xs[..k];
    if k == mm { assert xs[mm + 1..mm + 1] == []; }
    if k > mm {
      FilterNext(xs, mm + 1, k);
      RegroupTail(Filter(xs[..mm + 1]), extra, Filter(xs[mm + 1..k]), Filter([xs[k]]));
    }
  }

  lemma FilterOne(x: Insn)
    ensures Filter([x]) == if Filtered(x) then [] else [x]
  {
    assert [x][..0] == [];
  }

  /** The words so far fit beside the words still to come. */
  lemma {:induction false} Room(extra: seq<Insn>, xs: seq<Insn>, mm: nat, k: nat)
    requires k <= |xs|
    ensures |Encode(Progress(extra, xs, mm, k))| <= |Encode(xs[..k])| + if k <= mm then 0 else |Encode(extra)|
    ensures |Encode(xs[..k])| <= |Encode(xs)|
  {
    assert xs[..k] + xs[k..] == xs;
    EncodeAppend(xs[..k], xs[k..]);
    FilterShrinks(xs[..k]);
    if k > mm {
      var a, b := xs[..mm + 1], xs[mm + 1..k];
      assert a + b == xs[..k];
      RoomAfter(extra, a, b);
    }
  }

  lemma RoomAfter(extra: seq<Insn>, a: seq<Insn>, b: seq<Insn>)
    ensures |Encode(Filter(a) + extra + Filter(b))| <= |Encode(a + b)| + |Encode(extra)|
  {
    InsertedSize(Filter(a), extra, Filter(b));
    FilterAppend(a, b);
    FilterShrinks(a + b);
  }

  /** The words of one turn, and room for them. */
  lemma TurnWords(extra: seq<Insn>, xs: seq<Insn>, mm: nat, k: nat) returns (before: seq<nat>, after: seq<nat>)
    requires k < |xs|
    ensures before == Encode(Progress(extra, xs, mm, k)) && after == Encode(Progress(extra, xs, mm, k + 1))
    ensures after == before + (if Filtered(xs[k]) then [] else EncodeInsn(xs[k]))
            + if k == mm then Encode(extra) else []
    ensures |after| <= |Encode(xs)| + |Encode(extra)|
  {
    var p := Progress(extra, xs, mm, k);
    ProgressNext(extra, xs, mm, k);
    Room(extra, xs, mm, k + 1);
    EncodeAppend(p + Filter([xs[k]]), if k == mm then extra else []);
    EncodeAppend(p, Filter([xs[k]]));
    FilterOne(xs[k]);
    EncodeSingle(xs[k]);
    before, after := Encode(p), Encode(Progress(extra, xs, mm, k + 1));
  }

  lemma RegroupTail<T>(a: seq<T>, b: seq<T>, c: seq<T>, d: seq<T>)
    ensures a + b + (c + d) == a + b + c + d + []
  {
  }

  /** The same, for the buffer with its header. */
  lemma TurnBuffers(head: seq<nat>, extra: seq<Insn>, xs: seq<Insn>, mm: nat, k: nat)
    returns (before: seq<nat>, after: seq<nat>)
    requires k < |xs| && mm == FirstIndex(xs, IsMemoryModel(), 0)
    ensures before == head + Encode(Progress(extra, xs, mm, k))
    ensures after == head + Encode(Progress(extra, xs, mm, k + 1))
    ensures var splice := !(mm < k) && xs[k].op == OP_MEMORY_MODEL;
            && (splice <==> k == mm)
            && after == before + (if Filtered(xs[k]) then [] else EncodeInsn(xs[k]))
              + if splice then Encode(extra) else []
    ensures |before| <= |after| <= |head| + |Encode(xs)| + |Encode(extra)|
  {
    assert IsMemoryModel()(xs[k]) <==> xs[k].op == OP_MEMORY_MODEL;
    var b, a := TurnWords(extra, xs, mm, k);
    var x, e := if Filtered(xs[k]) then [] else EncodeInsn(xs[k]), if k == mm then Encode(extra) else [];
    Regroup(head, b + x, e);
    Regroup(head, b, x);
    before, after := head + b, head + a;
  }

  /** One turn of the emit loop: copy unless filtered, splice after the memory model. */
  method EmitTurn(x: Insn, extra: seq<nat>, out: array<nat>, idx0: nat, spliced: bool, ghost before: seq<nat>,
                  ghost after: seq<nat>)
    returns (idx: nat, now: bool)
    requires after == before + (if Filtered(x) then [] else EncodeInsn(x))
             + if !spliced && x.op == OP_MEMORY_MODEL then extra else []
    requires idx0 == |before| <= |after| <= out.Length && out[..idx0] == before
    modifies out
    ensures idx == |after| && out[..idx] == after
    ensures now == (spliced || x.op == OP_MEMORY_MODEL)
  {
    idx, now := idx0, spliced;
    if !Filtered(x) {
      idx := Put(out, idx, EncodeInsn(x));
    }
    if !spliced && x.op == OP_MEMORY_MODEL {
      idx := Put(out, idx, extra);
      now := true;
    }
  }

  method EmitAllFiltered(extra: seq<Insn>, xs: seq<Insn>, out: array<nat>) returns (idx: nat, spliced: bool)
    requires 5 + |Encode(xs)| + |Encode(extra)| <= out.Length
    modifies out
    ensures 5 <= idx <= out.Length
    ensures out[..idx] == old(out[..5]) + Encode(Progress(extra, xs, FirstIndex(xs, IsMemoryModel(), 0), |xs|))
    ensures spliced <==> FirstIndex(xs, IsMemoryModel(), 0) < |xs|
  {
    idx, spliced := 5, false;
    var k := 0;
    ghost var mm, head := FirstIndex(xs, IsMemoryModel(), 0), out[..5];
    while k < |xs|
      invariant 0 <= k <= |xs| && (spliced <==> mm < k)
      invariant 5 <= idx <= out.Length && out[..idx] == head + Encode(Progress(extra, xs, mm, k))
    {
      ghost var before, after := TurnBuffers(head, extra, xs, mm, k);
      idx, spliced := EmitTurn(xs[k], Encode(extra), out, idx, spliced, before, after);
      k := k + 1;
    }
  }

  lemma Finished(extra: seq<Insn>, xs: seq<Insn>)
    requires FirstIndex(xs, IsMemoryModel(), 0) < |xs|
    ensures Rewritten(extra, xs) == Some(Progress(extra, xs, FirstIndex(xs, IsMemoryModel(), 0), |xs|))
  {
    SameSuffix(xs, FirstIndex(xs, IsMemoryModel(), 0) + 1);
  }

  lemma SameSuffix(xs: seq<Insn>, i: nat)
    requires i <= |xs|
    ensures xs[i..|xs|] == xs[i..]
  {
  }

  method RewriteEntryPoint(ws: seq<nat>, name: seq<nat>, stage: Stage) returns (r: Result<seq<nat>>)
    requires IsName(name) && forall i :: 0 <= i < |ws| ==> ws[i] < 0x1_0000_0000
    ensures r == RewrittenWords(ws, name, stage)
  {
    if name == [] || ws == [] || ws[0] != MAGIC { return Err(InvalidArg); }
    if |ws| < 5 { return Err(Protocol); }
    var framed := FrameWords(ws);
    if framed.None? { return Err(Protocol); }
    var xs := framed.value;
    EncodeFrame(ws[5..]);
    var shader, fn := ScanMetadata(xs, name);
    if fn.None? { return Err(InvalidArg); }
    var j := Job(shader, fn.value, name, stage);
    var out := new nat[Capacity(ws, name)](_ => 0);
    var idx := Put(out, 0, ws[..5]);
    var spliced: bool;
    ExtraSize(j);
    assert out[..5] == ws[..5];
    idx, spliced := EmitAllFiltered(j.Extra(), xs, out);
    if !spliced { return Err(Protocol); }
    Finished(j.Extra(), xs);
    return Ok(out[..idx]);
  }
}
