/** The logical layout of a module (section 2.4 of the Khronos SPIR-V Specification) as two
    runs over opcodes: the section reached so far, and the place among the functions; None
    once something is out of place. */
module Layout {
  import opened Wrappers
  import opened Spirv
  import opened SignatureTransform

  const TYPES: nat := 11
  const FUNCTIONS: nat := 12

  /** The one section an opcode belongs to; None if it may occur in function bodies. */
  function Home(op: nat): (r: Option<nat>)
    ensures r.Some? ==> 1 <= r.value <= FUNCTIONS
  {
    if op == OP_CAPABILITY then Some(1)
    else if op == 10 then Some(2)                                  // OpExtension
    else if op == 11 then Some(3)                                  // OpExtInstImport
    else if op == OP_MEMORY_MODEL then Some(4)
    else if op == OP_ENTRY_POINT then Some(5)
    else if op == OP_EXECUTION_MODE || op == 331 then Some(6)
    else if op == 7 || 2 <= op <= 4 then Some(7)                   // strings and sources
    else if op == OP_NAME || op == 6 then Some(8)
    else if op == 330 then Some(9)                                 // OpModuleProcessed
    else if OP_DECORATE <= op <= 75 || op in {332, 5632, 5633} then Some(10)
    else if 19 <= op <= 39 || 41 <= op <= OP_SPEC_CONSTANT_OP then Some(TYPES)
    else if op == OP_FUNCTION then Some(FUNCTIONS)
    else None
  }

  /** Module scope or function body: variables, undefined values, extended and line instructions. */
  predicate Either(op: nat) { op in {OP_VARIABLE, OP_UNDEF, 8, 12, 317} }

  function Section(op: nat, cur: nat): Option<nat> {
    if Home(op).Some? then Home(op)
    else if cur == FUNCTIONS then Some(FUNCTIONS)
    else if Either(op) then Some(TYPES)
    else None
  }

  function Advance(cur: Option<nat>, op: nat): Option<nat> {
    if cur.None? || Section(op, cur.value).None? || Section(op, cur.value).value < cur.value then None
    else Section(op, cur.value)
  }

  /** The section reached after ys, coming from `cur`. */
  function After(cur: Option<nat>, ys: seq<Insn>): Option<nat> {
    if ys == [] then cur else Advance(After(cur, ys[..|ys| - 1]), ys[|ys| - 1].op)
  }

  /** Every instruction is in its section. */
  predicate InSections(xs: seq<Insn>) { After(Some(1), xs).Some? }

  // ----- the order inside functions -----

  /** Ahead of all functions, between two of them, in a header (OpFunction and parameters),
      among the leading variables of the first block, later in a block, or between blocks.
      `defined`: a function with a body has been seen, so no declaration may follow. */
  datatype Place = Ahead | Gap(defined: bool) | Heading(defined: bool) | Opening | Block | Between

  predicate IsLine(op: nat) { op == 8 || op == 317 }

  /** Termination instructions: branches, kills, returns, unreachable and later additions. */
  predicate Terminates(op: nat) { 249 <= op <= 255 || op in {4416, 4448, 4449, 5294} }

  /** An instruction in a block, past the leading variables. */
  function InBlock(op: nat): Option<Place> {
    if Terminates(op) then Some(Between)
    else if Home(op).Some? || op in {OP_VARIABLE, OP_FUNCTION_PARAMETER, OP_FUNCTION_END, OP_LABEL} then None
    else Some(Block)
  }

  /** Where the next instruction leads: declarations before definitions, parameters after
      their OpFunction, blocks from label to termination, variables first in the first
      block; OpLine and OpNoLine anywhere. */
  function Follow(p: Place, op: nat): Option<Place> {
    if p.Ahead? then Some(if op == OP_FUNCTION then Heading(false) else Ahead)
    else if IsLine(op) then Some(p)
    else
      match p
      case Gap(d) => if op == OP_FUNCTION then Some(Heading(d)) else None
      case Heading(d) =>
        if op == OP_FUNCTION_PARAMETER then Some(p)
        else if op == OP_LABEL then Some(Opening)
        else if op == OP_FUNCTION_END && !d then Some(Gap(false))
        else None
      case Opening => if op == OP_VARIABLE then Some(p) else InBlock(op)
      case Block => InBlock(op)
      case Between =>
        if op == OP_LABEL then Some(Block) else if op == OP_FUNCTION_END then Some(Gap(true)) else None
  }

  /** The place reached after ys, coming from p. */
  function Along(p: Option<Place>, ys: seq<Insn>): Option<Place> {
    if ys == [] then p else
    var q := Along(p, ys[..|ys| - 1]);
    if q.None? then None else Follow(q.value, ys[|ys| - 1].op)
  }

  /** Functions are well formed, and the last one is complete. */
  predicate Structured(xs: seq<Insn>) {
    var p := Along(Some(Ahead), xs);
    p.Some? && (p.value.Ahead? || p.value.Gap?)
  }

  /** THE LOGICAL LAYOUT. */
  predicate Ordered(xs: seq<Insn>) { InSections(xs) && Structured(xs) }

  lemma {:induction false} AlongAppend(p: Option<Place>, xs: seq<Insn>, ys: seq<Insn>)
    ensures Along(p, xs + ys) == Along(Along(p, xs), ys)
    decreases |ys|
  {
    if ys == [] {
      assert xs + ys == xs;
    } else {
      assert (xs + ys)[..|xs + ys| - 1] == xs + ys[..|ys| - 1];
      AlongAppend(p, xs, ys[..|ys| - 1]);
    }
  }

  lemma AlongLast(p: Option<Place>, ys: seq<Insn>, x: Insn)
    ensures Along(p, ys + [x]) == var q := Along(p, ys); if q.None? then None else Follow(q.value, x.op)
  {
    assert (ys + [x])[..|ys|] == ys;
  }

  lemma AlongOne(p: Place, x: Insn)
    ensures Along(Some(p), [x]) == Follow(p, x.op)
  {
    assert [x][..0] == [];
  }

  lemma {:induction false} AlongNone(ys: seq<Insn>)
    ensures Along(None, ys).None?
  {
    if ys != [] { AlongNone(ys[..|ys| - 1]); }
  }

  /** Without OpFunction nothing begins. */
  lemma {:induction false} AlongAhead(ys: seq<Insn>)
    requires forall i :: 0 <= i < |ys| ==> ys[i].op != OP_FUNCTION
    ensures Along(Some(Ahead), ys) == Some(Ahead)
  {
    if ys != [] { AlongAhead(ys[..|ys| - 1]); }
  }

  /** Ordinary instructions of a block. */
  lemma {:induction false} AlongBlock(p: Place, ys: seq<Insn>)
    requires p.Opening? || p.Block?
    requires forall i :: 0 <= i < |ys| ==> InBlock(ys[i].op) == Some(Block) && !IsLine(ys[i].op)
    ensures Along(Some(p), ys) == Some(if ys == [] then p else Block)
  {
    if ys != [] { AlongBlock(p, ys[..|ys| - 1]); }
  }

  /** The place after the first k instructions. */
  function PlaceOf(xs: seq<Insn>, k: nat): Option<Place>
    requires k <= |xs|
  {
    Along(Some(Ahead), xs[..k])
  }

  lemma PlaceNext(xs: seq<Insn>, k: nat)
    requires k < |xs| && Structured(xs)
    ensures PlaceOf(xs, k).Some? && PlaceOf(xs, k + 1) == Follow(PlaceOf(xs, k).value, xs[k].op)
    ensures PlaceOf(xs, k + 1).Some?
  {
    assert xs[..k + 1][..k] == xs[..k] && xs == xs[..k + 1] + xs[k + 1..];
    AlongAppend(Some(Ahead), xs[..k + 1], xs[k + 1..]);
    AlongNone(xs[k + 1..]);
  }

  /** What may stand in front of the last leading variable of a function. */
  predicate Leading(op: nat) { op in {OP_FUNCTION_PARAMETER, OP_LABEL, OP_VARIABLE} || IsLine(op) }

  predicate Leads(xs: seq<Insn>, e: nat, k: nat)
    requires k <= |xs|
  {
    e < k && forall t :: e < t < k ==> Leading(xs[t].op)
  }

  /** Where a function that begins at e is at k: still at its start, or past it for good. */
  lemma {:induction false} StartOrPast(xs: seq<Insn>, e: nat, k: nat)
    requires Structured(xs) && e < k <= |xs| && xs[e].op == OP_FUNCTION
    requires forall t :: e < t < k ==> xs[t].op != OP_FUNCTION_END
    ensures PlaceOf(xs, k).Some?
    ensures var p := PlaceOf(xs, k).value;
            if Leads(xs, e, k) then p.Heading? || p.Opening? else p.Block? || p.Between?
    decreases k
  {
    PlaceNext(xs, k - 1);
    if k > e + 1 { StartOrPast(xs, e, k - 1); }
  }

  /** VARIABLES LEAD: in an ordered module nothing but parameters, a label, variables and line
      instructions stands between an OpFunction and a variable of its function. */
  lemma VariablesLead(xs: seq<Insn>, e: nat, j: nat)
    requires Ordered(xs) && e < j < |xs| && xs[e].op == OP_FUNCTION && xs[j].op == OP_VARIABLE
    requires forall t :: e < t < j ==> xs[t].op != OP_FUNCTION_END
    ensures Leads(xs, e, j)
  {
    StartOrPast(xs, e, j);
    PlaceNext(xs, j);
  }

  /** A copy may be in the opening where its original is past it. */
  predicate Lags(a: Place, b: Place) { b == a || (a.Block? && b.Opening?) }

  lemma {:induction false} AfterAppend(cur: Option<nat>, xs: seq<Insn>, ys: seq<Insn>)
    ensures After(cur, xs + ys) == After(After(cur, xs), ys)
    decreases |ys|
  {
    if ys == [] {
      assert xs + ys == xs;
    } else {
      assert (xs + ys)[..|xs + ys| - 1] == xs + ys[..|ys| - 1];
      AfterAppend(cur, xs, ys[..|ys| - 1]);
    }
  }

  lemma AfterOne(cur: Option<nat>, x: Insn)
    ensures After(cur, [x]) == Advance(cur, x.op)
  {
    assert [x][..0] == [];
  }

  /** Sections only go up, and nothing recovers from a misplacement. */
  lemma {:induction false} AfterGrows(cur: Option<nat>, ys: seq<Insn>)
    ensures After(cur, ys).Some? ==> cur.Some? && cur.value <= After(cur, ys).value
    decreases |ys|
  {
    if ys != [] { AfterGrows(cur, ys[..|ys| - 1]); }
  }

  /** Instructions of one section keep their place. */
  lemma {:induction false} AfterUniform(cur: nat, ys: seq<Insn>, r: nat)
    requires cur <= r && forall i :: 0 <= i < |ys| ==> Home(ys[i].op) == Some(r)
    ensures After(Some(cur), ys) == Some(if ys == [] then cur else r)
    decreases |ys|
  {
    if ys != [] { AfterUniform(cur, ys[..|ys| - 1], r); }
  }

  predicate Declares(op: nat) { Home(op) == Some(TYPES) || (Home(op).None? && Either(op)) }

  lemma {:induction false} AfterDeclarations(cur: nat, ys: seq<Insn>)
    requires cur <= TYPES && forall i :: 0 <= i < |ys| ==> Declares(ys[i].op)
    ensures After(Some(cur), ys) == Some(if ys == [] then cur else TYPES)
    decreases |ys|
  {
    if ys != [] { AfterDeclarations(cur, ys[..|ys| - 1]); }
  }

  predicate InFunctions(op: nat) { Home(op).None? || Home(op).value == FUNCTIONS }

  lemma {:induction false} AfterBody(ys: seq<Insn>)
    requires forall i :: 0 <= i < |ys| ==> InFunctions(ys[i].op)
    ensures After(Some(FUNCTIONS), ys) == Some(FUNCTIONS)
    decreases |ys|
  {
    if ys != [] { AfterBody(ys[..|ys| - 1]); }
  }

  /** An instruction of an earlier section breaks the layout. */
  lemma {:induction false} AfterBreaks(cur: Option<nat>, ys: seq<Insn>, i: nat, r: nat)
    requires i < |ys| && Home(ys[i].op) == Some(r) && (cur.Some? ==> r < cur.value)
    ensures After(cur, ys).None?
    decreases |ys|
  {
    var zs := ys[..|ys| - 1];
    if i == |ys| - 1 {
      AfterGrows(cur, zs);
    } else {
      AfterBreaks(cur, zs, i, r);
    }
  }

  /** The section reached after the first k instructions. */
  function Reached(xs: seq<Insn>, k: nat): Option<nat>
    requires k <= |xs|
  {
    After(Some(1), xs[..k])
  }

  lemma ReachedNext(xs: seq<Insn>, k: nat)
    requires k < |xs|
    ensures Reached(xs, k + 1) == Advance(Reached(xs, k), xs[k].op)
  {
    assert xs[..k + 1][..k] == xs[..k];
  }

  lemma ReachedGrows(xs: seq<Insn>, i: nat, j: nat)
    requires i <= j <= |xs| && InSections(xs)
    ensures Reached(xs, i).Some? && Reached(xs, j).Some? && 1 <= Reached(xs, i).value <= Reached(xs, j).value
  {
    assert xs[..j] == xs[..i] + xs[i..j] && xs == xs[..j] + xs[j..];
    AfterAppend(Some(1), xs[..i], xs[i..j]);
    AfterAppend(Some(1), xs[..j], xs[j..]);
    AfterGrows(Reached(xs, i), xs[i..j]);
    AfterGrows(Reached(xs, j), xs[j..]);
    AfterGrows(Some(1), xs[..i]);
  }

  /** What `Ordered` means for two instructions that each belong to one section. */
  lemma OrderedPairs(xs: seq<Insn>, i: nat, j: nat)
    requires InSections(xs) && i < j < |xs| && Home(xs[i].op).Some? && Home(xs[j].op).Some?
    ensures Home(xs[i].op).value <= Home(xs[j].op).value
  {
    ReachedNext(xs, i);
    ReachedNext(xs, j);
    ReachedGrows(xs, i + 1, j);
    ReachedGrows(xs, j, j + 1);
  }

  // ----- what a splice after the memory model needs -----

  function IsMemoryModel(): Insn -> bool { (x: Insn) => x.op == OP_MEMORY_MODEL }
  function IsEntryPoint(): Insn -> bool { (x: Insn) => x.op == OP_ENTRY_POINT }

  ghost predicate Exactly(xs: seq<Insn>, p: Insn -> bool, i: nat) {
    i < |xs| && p(xs[i]) && forall j :: 0 <= j < |xs| && j != i ==> !p(xs[j])
  }

  /** The section reached right after the spliced entry point and execution mode. */
  function Spliced(stage: Stage): nat { if stage.Vertex? then 5 else 6 }

  /** Where the output may be, when the input is in section a. */
  ghost predicate Trails(a: nat, b: Option<nat>, spliced: bool, stage: Stage) {
    && b.Some? && (a == FUNCTIONS <==> b.value == FUNCTIONS)
    && (b.value <= a || (spliced && b.value == Spliced(stage)))
  }

  /** A copied instruction keeps the output's layout. */
  lemma CopyTrails(a: nat, b: Option<nat>, spliced: bool, stage: Stage, op: nat, a': nat)
    requires Trails(a, b, spliced, stage) && Advance(Some(a), op) == Some(a') && a <= FUNCTIONS
    requires spliced ==> 4 <= a && op != OP_MEMORY_MODEL && (stage.Fragment? ==> op != OP_ENTRY_POINT)
    ensures Trails(a', Advance(b, op), spliced, stage) && Advance(b, op) == Some(a')
  {
  }

  /** What follows the memory model of the output. */
  function Metadata(shader: bool, stage: Stage, ep: Insn, fn: nat): seq<Insn> {
    (if shader then [] else [Insn(OP_CAPABILITY, [CAP_SHADER])])
    + [ep]
    + (if stage.Fragment? then [Insn(OP_EXECUTION_MODE, [fn, MODE_ORIGIN_UPPER_LEFT])] else [])
  }

  /** The splice is in place exactly when the capability need not be added. */
  lemma MetadataAfter(cur: Option<nat>, x: Insn, shader: bool, stage: Stage, ep: Insn, fn: nat)
    requires x.op == OP_MEMORY_MODEL && ep.op == OP_ENTRY_POINT
    ensures After(cur, [x] + Metadata(shader, stage, ep, fn))
         == if cur.None? || cur.value > 4 || !shader then None else Some(Spliced(stage))
  {
    var cap, mode := Insn(OP_CAPABILITY, [CAP_SHADER]), Insn(OP_EXECUTION_MODE, [fn, MODE_ORIGIN_UPPER_LEFT]);
    var c := if shader then [] else [cap];
    var e := if stage.Fragment? then [mode] else [];
    AfterAppend(cur, [x], Metadata(shader, stage, ep, fn));
    AfterOne(cur, x);
    AfterAppend(Advance(cur, x.op), c + [ep], e);
    AfterAppend(Advance(cur, x.op), c, [ep]);
    var d := After(Advance(cur, x.op), c);
    if !shader { AfterOne(Advance(cur, x.op), cap); }
    AfterOne(d, ep);
    if stage.Fragment? { AfterOne(Advance(d, ep.op), mode); }
  }
}
