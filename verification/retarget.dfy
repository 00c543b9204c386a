/** Retargeting bitcode: every AIR target triple in the bytes is replaced by a SPIR-V one,
    in place when every occurrence is long enough, else by splicing. */
module Retarget {
  import opened Wrappers

  const PREFIX: seq<nat> := [97, 105, 114, 54, 52]                                          // air64
  const INFIX: seq<nat> := [97, 112, 112, 108, 101, 45, 109, 97, 99, 111, 115, 120]         // apple-macosx
  const TRIPLE: seq<nat> := [115, 112, 105, 114, 54, 52, 45, 117, 110, 107, 110, 111, 119, 110, 45,
                             118, 117, 108, 107, 97, 110, 49, 46, 51]                       // spir64-unknown-vulkan1.3
  const MAGIC: seq<nat> := [0xDE, 0xC0, 0x17, 0x0B]
  const MAX_GAP: nat := 8

  predicate IsTail(c: nat) { 48 <= c <= 57 || c == 46 }

  predicate IsGap(c: nat) { 97 <= c <= 122 || 48 <= c <= 57 || c == 45 || c == 95 }

  /** The fixed parts with a gap of one to eight bytes between them. */
  predicate IsTriple(w: seq<nat>) {
    && 18 <= |w| <= 17 + MAX_GAP && w[..5] == PREFIX && w[|w| - 12..] == INFIX
    && forall k :: 5 <= k < |w| - 12 ==> IsGap(w[k])
  }

  /** A triple starts at i, with g bytes between its two fixed parts. */
  predicate MatchAt(b: seq<nat>, i: nat, g: nat) { i + 17 + g <= |b| && IsTriple(b[i..i + 17 + g]) }

  /** No triple is left. */
  ghost predicate Clean(b: seq<nat>) { forall i: nat, g: nat :: !MatchAt(b, i, g) }

  function TailLength(b: seq<nat>, i: nat): (n: nat)
    requires i <= |b|
    ensures i + n <= |b|
    decreases |b| - i
  {
    if i < |b| && IsTail(b[i]) then 1 + TailLength(b, i + 1) else 0
  }

  /** The least gap with which a triple starts at i, trying g and up. */
  function GapFrom(b: seq<nat>, i: nat, g: nat): Option<nat>
    decreases |b|, MAX_GAP + 1 - g
  {
    if g > MAX_GAP then None else if MatchAt(b, i, g) then Some(g) else GapFrom(b, i, g + 1)
  }

  lemma {:induction false} GapFromIs(b: seq<nat>, i: nat, g: nat)
    ensures GapFrom(b, i, g).Some? ==> MatchAt(b, i, GapFrom(b, i, g).value)
    ensures GapFrom(b, i, g).None? ==> forall h: nat :: g <= h ==> !MatchAt(b, i, h)
    decreases MAX_GAP + 1 - g
  {
    if g <= MAX_GAP && !MatchAt(b, i, g) { GapFromIs(b, i, g + 1); }
  }

  datatype Span = Span(begin: nat, end: nat)

  /** The triple that starts at i, with its version digits. */
  function SpanFrom(b: seq<nat>, i: nat): (r: Option<Span>)
    ensures r.Some? ==> r.value.begin == i && i + 18 <= r.value.end <= |b|
    ensures r.None? ==> forall g: nat :: !MatchAt(b, i, g)
  {
    GapFromIs(b, i, 1);
    match GapFrom(b, i, 1)
    case None => None
    case Some(g) => Some(Span(i, i + 17 + g + TailLength(b, i + 17 + g)))
  }

  /** Where spans start, and the first span at or after a position. */
  type Search = nat -> Option<Span>

  function Starts(b: seq<nat>): Search { (i: nat) => SpanFrom(b, i) }

  function First(at: Search, n: nat, i: nat): Option<Span>
    decreases n - i
  {
    if i >= n then None else if at(i).Some? then at(i) else First(at, n, i + 1)
  }

  function Find(b: seq<nat>): Search { (i: nat) => First(Starts(b), |b|, i) }

  ghost predicate Proper(at: Search, n: nat) {
    forall i: nat :: at(i).Some? ==> at(i).value.begin == i && i + 18 <= at(i).value.end <= n
  }

  lemma {:induction false} FirstIs(at: Search, n: nat, i: nat)
    requires Proper(at, n)
    ensures var r := First(at, n, i);
            && (r.Some? ==> i <= r.value.begin && r.value.begin + 18 <= r.value.end <= n)
            && (forall j: nat :: i <= j < (if r.Some? then r.value.begin else n) ==> at(j).None?)
    decreases n - i
  {
    if i < n && at(i).None? { FirstIs(at, n, i + 1); }
  }

  /** The next span from i on, of a search over n bytes. */
  function Next(find: Search, n: nat, i: nat): (r: Option<Span>)
    ensures r.Some? ==> i <= r.value.begin < r.value.end <= n
  {
    var r := find(i);
    if r.Some? && i <= r.value.begin < r.value.end <= n then r else None
  }

  /** Searching bytes gives spans of triples, and skips none. */
  lemma FindIs(b: seq<nat>, i: nat)
    ensures Next(Find(b), |b|, i) == Find(b)(i)
    ensures var r := Find(b)(i);
            forall j: nat, g: nat :: i <= j < (if r.Some? then r.value.begin else |b|) ==> !MatchAt(b, j, g)
  {
    assert Proper(Starts(b), |b|);
    FirstIs(Starts(b), |b|, i);
    var r := Find(b)(i);
    forall j: nat, g: nat | i <= j < (if r.Some? then r.value.begin else |b|) ensures !MatchAt(b, j, g) {
      assert Starts(b)(j).None?;
    }
  }

  /** What a span becomes: the new triple, and NULs up to the old length if padding. */
  function Block(s: Span, pad: bool): seq<nat> {
    TRIPLE + if pad && s.begin + 24 <= s.end then seq(s.end - s.begin - 24, _ => 0) else []
  }

  /** The bytes from i on with every span replaced. */
  function Replaced(find: Search, b: seq<nat>, i: nat, pad: bool): seq<nat>
    requires i <= |b|
    decreases |b| - i
  {
    match Next(find, |b|, i)
    case None => b[i..]
    case Some(s) => b[i..s.begin] + (Block(s, pad) + Replaced(find, b, s.end, pad))
  }

  // ----- lengths and places -----

  /** How much longer the block is than the span. */
  function Change(s: Span, pad: bool): int { |Block(s, pad)| - (s.end - s.begin) }

  /** By how much the replacements from i on make the text longer. */
  function Delta(find: Search, n: nat, i: nat, pad: bool): int
    decreases n - i
  {
    match Next(find, n, i)
    case None => 0
    case Some(s) => Change(s, pad) + Delta(find, n, s.end, pad)
  }

  /** Every span from i on is at least as long as the new triple. */
  predicate AllLong(find: Search, n: nat, i: nat)
    decreases n - i
  {
    match Next(find, n, i)
    case None => true
    case Some(s) => s.end - s.begin >= 24 && AllLong(find, n, s.end)
  }

  /** The room the splicing tier allocates beyond the input's length. */
  function Growth(find: Search, n: nat, i: nat): nat
    decreases n - i
  {
    match Next(find, n, i)
    case None => 0
    case Some(s) => (if s.end - s.begin < 24 then 24 - (s.end - s.begin) else 0) + Growth(find, n, s.end)
  }

  lemma Changes(s: Span)
    requires s.begin <= s.end
    ensures Change(s, false) == 24 - (s.end - s.begin) && (s.end - s.begin >= 24 ==> Change(s, true) == 0)
  {
  }

  /** LENGTHS: the in-place tier keeps the length; the splicing tier changes it by 24 minus
      the span for each triple, and never needs more than it allocated. */
  lemma {:induction false} Lengths(find: Search, b: seq<nat>, i: nat, pad: bool)
    requires i <= |b|
    ensures |Replaced(find, b, i, pad)| == |b| - i + Delta(find, |b|, i, pad)
    ensures AllLong(find, |b|, i) && pad ==> Delta(find, |b|, i, pad) == 0
    ensures !pad ==> Delta(find, |b|, i, pad) <= Growth(find, |b|, i)
    decreases |b| - i
  {
    match Next(find, |b|, i)
    case None =>
    case Some(s) =>
      Changes(s);
      Lengths(find, b, s.end, pad);
  }

  /** Position x is in no span found from i on. */
  predicate Outside(find: Search, n: nat, i: nat, x: nat)
    decreases n - i
  {
    match Next(find, n, i)
    case None => true
    case Some(s) => x < s.begin || (s.end <= x && Outside(find, n, s.end, x))
  }

  /** How far position x moves. */
  function Shift(find: Search, n: nat, i: nat, pad: bool, x: nat): int
    decreases n - i
  {
    match Next(find, n, i)
    case None => 0
    case Some(s) => if x < s.begin then 0 else Change(s, pad) + Shift(find, n, s.end, pad, x)
  }

  /** RETARGETING IS LOCAL: every byte outside the triples is still there, moved only by
      the length changes of the triples before it. */
  lemma {:induction false} Local(find: Search, b: seq<nat>, i: nat, pad: bool, x: nat)
    requires i <= x < |b| && Outside(find, |b|, i, x)
    ensures var y := x - i + Shift(find, |b|, i, pad, x);
            0 <= y < |Replaced(find, b, i, pad)| && Replaced(find, b, i, pad)[y] == b[x]
    decreases |b| - i
  {
    match Next(find, |b|, i)
    case None =>
    case Some(s) =>
      if x < s.begin {
        InPiece(b[i..s.begin], Block(s, pad) + Replaced(find, b, s.end, pad), x - i);
      } else {
        Local(find, b, s.end, pad, x);
        var k := x - s.end + Shift(find, |b|, s.end, pad, x);
        LocalStep(b[i..s.begin], Block(s, pad), Replaced(find, b, s.end, pad), k, x - i + Shift(find, |b|, i, pad, x));
      }
  }

  lemma InPiece(piece: seq<nat>, more: seq<nat>, k: nat)
    requires k < |piece|
    ensures (piece + more)[k] == piece[k]
  {
  }

  lemma LocalStep(piece: seq<nat>, block: seq<nat>, rest: seq<nat>, k: nat, y: int)
    requires k < |rest| && y == |piece| + |block| + k
    ensures 0 <= y < |piece + (block + rest)| && (piece + (block + rest))[y] == rest[k]
  {
    InRest(piece, block, rest, k);
  }

  lemma InRest(piece: seq<nat>, block: seq<nat>, rest: seq<nat>, k: nat)
    requires k < |rest|
    ensures (piece + (block + rest))[|piece| + |block| + k] == rest[k]
  {
  }

  /** In place, nothing outside the triples moves. */
  lemma {:induction false} InPlaceStays(find: Search, n: nat, i: nat, x: nat)
    requires i <= n && AllLong(find, n, i)
    ensures Shift(find, n, i, true, x) == 0
    decreases n - i
  {
    match Next(find, n, i)
    case None =>
    case Some(s) =>
      Changes(s);
      InPlaceStays(find, n, s.end, x);
  }

  // ----- nothing is left -----

  lemma Letters()
    ensures |PREFIX| == 5 && |INFIX| == 12 && |TRIPLE| == 24
    ensures forall k :: 0 <= k < 5 ==> PREFIX[k] != 115
    ensures forall k :: 0 <= k < 12 && INFIX[k] == 115 ==> k == 10
    ensures forall k :: 0 <= k < 24 && TRIPLE[k] == 97 ==> k == 19
    ensures PREFIX[0] == 97 && PREFIX[1] == 105 && INFIX[0] == 97 && INFIX[11] == 120
    ensures TRIPLE[0] == 115 && TRIPLE[1] == 112 && TRIPLE[20] == 110
  {
  }

  /** The window starts with a different letter, or its second letter is different. */
  lemma WrongStart(w: seq<nat>)
    requires |w| >= 2 && (w[0] != 97 || w[1] != 105)
    ensures !IsTriple(w)
  {
    Letters();
    if |w| >= 5 {
      if w[0] != 97 { assert w[..5][0] != PREFIX[0]; } else { assert w[..5][1] != PREFIX[1]; }
    }
  }

  /** A triple cannot run into the new triple: its letters do not fit anywhere. */
  lemma WrongOverlap(w: seq<nat>, k: nat)
    requires 0 < k < |w| && 18 <= |w| <= 25 && forall m :: 0 <= m < 24 && k + m < |w| ==> w[k + m] == TRIPLE[m]
    ensures !IsTriple(w)
  {
    Letters();
    var e := |w| - 12;
    assert w[k + 0] == TRIPLE[0];
    if k < 5 {
      assert w[..5][k] != PREFIX[k];
    } else if k < e {
      assert w[k + (e - k)] == TRIPLE[e - k];
      assert w[e..][0] != INFIX[0];
    } else if k - e != 10 {
      assert w[e..][k - e] != INFIX[k - e];
    } else {
      assert w[k + 1] == TRIPLE[1];
      assert w[e..][11] != INFIX[11];
    }
  }

  lemma SliceOf<T>(t: seq<T>, lo: nat, hi: nat, i: nat, j: nat)
    requires lo <= hi <= |t| && i <= j <= hi - lo
    ensures t[lo..hi][i..j] == t[lo + i..lo + j]
  {
    var x, y := t[lo..hi][i..j], t[lo + i..lo + j];
    assert forall k :: 0 <= k < |x| ==> x[k] == y[k];
  }

  /** Text whose part [lo, hi) comes from b at j has no triple there that b has not. */
  lemma SameWindow(t: seq<nat>, lo: nat, hi: nat, b: seq<nat>, j: nat, k: nat, g: nat)
    requires lo <= hi <= |t| && j + (hi - lo) <= |b| && t[lo..hi] == b[j..j + (hi - lo)]
    requires lo <= k && k + 17 + g <= hi && !MatchAt(b, j + (k - lo), g)
    ensures !MatchAt(t, k, g)
  {
    SliceOf(t, lo, hi, k - lo, k - lo + 17 + g);
    SliceOf(b, j, j + (hi - lo), k - lo, k - lo + 17 + g);
  }

  /** A text made of a piece, the new triple, NULs and a rest. */
  ghost predicate Parts(t: seq<nat>, piece: seq<nat>, n: nat, rest: seq<nat>) {
    var p := |piece|;
    && |t| == p + 24 + n + |rest| && t[0..p] == piece && t[p + 24 + n..|t|] == rest
    && (forall m :: 0 <= m < 24 ==> t[p + m] == TRIPLE[m])
    && (forall m :: p + 24 <= m < p + 24 + n ==> t[m] == 0)
  }

  lemma BlockClean(t: seq<nat>, piece: seq<nat>, n: nat, rest: seq<nat>, k: nat, g: nat)
    requires Parts(t, piece, n, rest) && |piece| <= k < |piece| + 24 + n && k + 17 + g <= |t|
    ensures !MatchAt(t, k, g)
  {
    Letters();
    var p, w := |piece|, t[k..k + 17 + g];
    assert w[0] == t[k] && w[1] == t[k + 1];
    if k < p + 24 { assert t[p + (k - p)] == TRIPLE[k - p]; }
    if k == p + 19 { assert t[p + 20] == TRIPLE[20]; }
    WrongStart(w);
  }

  lemma OverlapClean(t: seq<nat>, piece: seq<nat>, n: nat, rest: seq<nat>, k: nat, g: nat)
    requires Parts(t, piece, n, rest) && k < |piece| < k + 17 + g <= |t| && 1 <= g <= MAX_GAP
    ensures !MatchAt(t, k, g)
  {
    var p, w := |piece|, t[k..k + 17 + g];
    forall m | 0 <= m < 24 && p - k + m < |w| ensures w[p - k + m] == TRIPLE[m] {
      assert w[p - k + m] == t[p + m];
    }
    WrongOverlap(w, p - k);
  }

  /** One piece without triples, one block, and a clean rest. */
  lemma StepClean(b: seq<nat>, i: nat, piece: seq<nat>, t: seq<nat>, n: nat, rest: seq<nat>)
    requires Parts(t, piece, n, rest) && Clean(rest) && i + |piece| <= |b| && piece == b[i..i + |piece|]
    requires forall j: nat, g: nat :: i <= j < i + |piece| ==> !MatchAt(b, j, g)
    ensures Clean(t)
  {
    var p := |piece|;
    forall k: nat, g: nat ensures !MatchAt(t, k, g) {
      if k + 17 + g <= |t| && 1 <= g <= MAX_GAP {
        if k >= p + 24 + n {
          SameRest(t, piece, n, rest, k, g);
        } else if k >= p {
          BlockClean(t, piece, n, rest, k, g);
        } else if k + 17 + g <= p {
          SameWindow(t, 0, p, b, i, k, g);
        } else {
          OverlapClean(t, piece, n, rest, k, g);
        }
      }
    }
  }

  lemma SameRest(t: seq<nat>, piece: seq<nat>, n: nat, rest: seq<nat>, k: nat, g: nat)
    requires Parts(t, piece, n, rest) && Clean(rest) && |piece| + 24 + n <= k && k + 17 + g <= |t|
    ensures !MatchAt(t, k, g)
  {
    var q := |piece| + 24 + n;
    assert rest[0..0 + (|t| - q)] == rest;
    SameWindow(t, q, |t|, rest, 0, k, g);
  }

  lemma ReplacedParts(b: seq<nat>, i: nat, s: Span, pad: bool, rest: seq<nat>) returns (n: nat)
    requires i <= s.begin <= |b|
    ensures Parts(b[i..s.begin] + (Block(s, pad) + rest), b[i..s.begin], n, rest)
    ensures n == if pad && s.begin + 24 <= s.end then s.end - s.begin - 24 else 0
  {
    n := if pad && s.begin + 24 <= s.end then s.end - s.begin - 24 else 0;
    PartsOf(b[i..s.begin], Block(s, pad), n, rest);
  }

  lemma PartsOf(piece: seq<nat>, block: seq<nat>, n: nat, rest: seq<nat>)
    requires |block| == 24 + n && (forall m :: 0 <= m < 24 ==> block[m] == TRIPLE[m])
    requires (forall m :: 24 <= m < |block| ==> block[m] == 0)
    ensures Parts(piece + (block + rest), piece, n, rest)
  {
    var t, p := piece + (block + rest), |piece|;
    forall m | 0 <= m < 24 ensures t[p + m] == TRIPLE[m] { assert t[p + m] == block[m]; }
    forall m | p + 24 <= m < p + 24 + n ensures t[m] == 0 { assert t[m] == block[m - p]; }
  }

  /** RETARGETING IS COMPLETE: no AIR triple is left anywhere in the output of either
      tier, not even across the seams of the replacements. */
  lemma {:induction false} ReplacedClean(b: seq<nat>, i: nat, pad: bool)
    requires i <= |b|
    ensures Clean(Replaced(Find(b), b, i, pad))
    decreases |b| - i
  {
    FindIs(b, i);
    match Next(Find(b), |b|, i)
    case None => SuffixClean(b, i);
    case Some(s) =>
      ReplacedClean(b, s.end, pad);
      PieceClean(b, i, s, pad, Replaced(Find(b), b, s.end, pad));
  }

  lemma PieceClean(b: seq<nat>, i: nat, s: Span, pad: bool, rest: seq<nat>)
    requires i <= s.begin <= |b| && Clean(rest) && forall j: nat, g: nat :: i <= j < s.begin ==> !MatchAt(b, j, g)
    ensures Clean(b[i..s.begin] + (Block(s, pad) + rest))
  {
    var n := ReplacedParts(b, i, s, pad, rest);
    StepClean(b, i, b[i..s.begin], b[i..s.begin] + (Block(s, pad) + rest), n, rest);
  }

  lemma SuffixClean(b: seq<nat>, i: nat)
    requires i <= |b| && forall j: nat, g: nat :: i <= j < |b| ==> !MatchAt(b, j, g)
    ensures Clean(b[i..])
  {
    var t := b[i..];
    forall k: nat, g: nat ensures !MatchAt(t, k, g) {
      if k + 17 + g <= |t| {
        assert t[0..|t|] == t && b[i..i + |t|] == t;
        SameWindow(t, 0, |t|, b, i, k, g);
      }
    }
  }

  // ----- the retargeter as a program -----

  method FindGap(b: seq<nat>, i: nat) returns (r: Option<nat>)
    ensures r == GapFrom(b, i, 1)
  {
    var g := 1;
    ghost var whole := GapFrom(b, i, 1);
    while g <= MAX_GAP
      invariant 1 <= g <= MAX_GAP + 1 && whole == GapFrom(b, i, g)
      invariant g > 1 ==> i + 4 + g <= |b| && forall k :: i + 5 <= k < i + 4 + g ==> IsGap(b[k])
    {
      if i + 5 + g + 12 > |b| {
        TooShort(b, i, g);
        return None;
      }
      if !IsGap(b[i + 4 + g]) {
        NoGap(b, i, g, i + 4 + g);
        return None;
      }
      var hit := b[i..i + 5] == PREFIX && b[i + 5 + g..i + 17 + g] == INFIX;
      GapTurn(b, i, g, hit);
      if hit { return Some(g); }
      g := g + 1;
    }
    return None;
  }

  lemma GapTurn(b: seq<nat>, i: nat, g: nat, hit: bool)
    requires 1 <= g <= MAX_GAP && i + 17 + g <= |b| && forall k :: i + 5 <= k < i + 5 + g ==> IsGap(b[k])
    requires hit == (b[i..i + 5] == PREFIX && b[i + 5 + g..i + 17 + g] == INFIX)
    ensures GapFrom(b, i, g) == if hit then Some(g) else GapFrom(b, i, g + 1)
  {
    WindowIs(b, i, g);
  }

  /** The window test, part by part. */
  lemma WindowIs(b: seq<nat>, i: nat, g: nat)
    requires 1 <= g <= MAX_GAP && i + 17 + g <= |b| && forall k :: i + 5 <= k < i + 5 + g ==> IsGap(b[k])
    ensures MatchAt(b, i, g) <==> b[i..i + 5] == PREFIX && b[i + 5 + g..i + 17 + g] == INFIX
  {
    var w := b[i..i + 17 + g];
    SliceOf(b, i, i + 17 + g, 0, 5);
    SliceOf(b, i, i + 17 + g, 5 + g, 17 + g);
    assert w[0..5] == w[..5] && w[5 + g..17 + g] == w[|w| - 12..];
    forall k | 5 <= k < |w| - 12 ensures IsGap(w[k]) { assert w[k] == b[i + k]; }
  }

  lemma {:induction false} TooShort(b: seq<nat>, i: nat, g: nat)
    requires i + 17 + g > |b|
    ensures GapFrom(b, i, g) == None
    decreases |b|, MAX_GAP + 1 - g
  {
    if g <= MAX_GAP { TooShort(b, i, g + 1); }
  }

  lemma {:induction false} NoGap(b: seq<nat>, i: nat, g: nat, k: nat)
    requires i + 5 <= k < i + 5 + g && k < |b| && !IsGap(b[k])
    ensures GapFrom(b, i, g) == None
    decreases MAX_GAP + 1 - g
  {
    if g <= MAX_GAP {
      if i + 17 + g <= |b| { assert b[i..i + 17 + g][k - i] == b[k]; }
      NoGap(b, i, g + 1, k);
    }
  }

  method StartsAt(b: seq<nat>, i: nat) returns (r: Option<Span>)
    ensures r == SpanFrom(b, i)
  {
    var g := FindGap(b, i);
    if g.None? { return None; }
    GapFromIs(b, i, 1);
    var post := i + 17 + g.value;
    var tail := CountTail(b, post);
    return Some(Span(i, post + tail));
  }

  method FindFirst(b: seq<nat>, start: nat, ghost at: Search) returns (r: Option<Span>)
    requires start <= |b| && Same(at, Starts(b))
    ensures r == First(at, |b|, start)
  {
    var i := start;
    while i < |b|
      invariant start <= i <= |b| && First(at, |b|, start) == First(at, |b|, i)
    {
      assert Mark(i);
      r := StartsAt(b, i);
      if r.Some? { return; }
      i := i + 1;
    }
    return None;
  }

  /** A marker that makes a search at a position visible to a proof. */
  ghost predicate Mark(i: nat) { true }

  ghost predicate Same(x: Search, y: Search) { forall i: nat {:trigger Mark(i)} :: x(i) == y(i) }

  method FindNext(b: seq<nat>, start: nat) returns (r: Option<Span>)
    requires start <= |b|
    ensures r == Next(Find(b), |b|, start)
  {
    r := FindFirst(b, start, Starts(b));
    FindIs(b, start);
  }

  method CountTail(b: seq<nat>, post: nat) returns (n: nat)
    requires post <= |b|
    ensures n == TailLength(b, post)
  {
    n := 0;
    while post + n < |b| && IsTail(b[post + n])
      invariant post + n <= |b| && TailLength(b, post) == n + TailLength(b, post + n)
    {
      n := n + 1;
    }
  }

  /** First pass: is there a triple, is each long enough, and how much room is needed? */
  method Survey(b: seq<nat>) returns (found: bool, allLong: bool, growth: nat)
    ensures var find := Find(b);
            found == Next(find, |b|, 0).Some? && allLong == AllLong(find, |b|, 0) && growth == Growth(find, |b|, 0)
  {
    found, allLong, growth := false, true, 0;
    var pos := 0;
    ghost var find := Find(b);
    while true
      invariant pos <= |b| && (found || pos == 0) && (found ==> Next(find, |b|, 0).Some?)
      invariant AllLong(find, |b|, 0) == (allLong && AllLong(find, |b|, pos))
      invariant Growth(find, |b|, 0) == growth + Growth(find, |b|, pos)
      decreases |b| - pos
    {
      var s := FindNext(b, pos);
      if s.None? { return; }
      var n := s.value.end - s.value.begin;
      if n < 24 {
        allLong := false;
        growth := growth + (24 - n);
      }
      found := true;
      pos := s.value.end;
    }
  }

  /** Searching looks only at what follows. */
  lemma FindSame(x: seq<nat>, y: seq<nat>, i: nat)
    requires |x| == |y| && i <= |x| && x[i..] == y[i..]
    ensures Next(Find(x), |x|, i) == Next(Find(y), |y|, i)
  {
    forall j: nat | i <= j < |x| ensures Starts(x)(j) == Starts(y)(j) { SpanSame(x, y, i, j); }
    FirstSame(Starts(x), Starts(y), |x|, i);
  }

  lemma {:induction false} FirstSame(p: Search, q: Search, n: nat, i: nat)
    requires forall j: nat :: i <= j < n ==> p(j) == q(j)
    ensures First(p, n, i) == First(q, n, i)
    decreases n - i
  {
    if i < n { FirstSame(p, q, n, i + 1); }
  }

  lemma SpanSame(x: seq<nat>, y: seq<nat>, i: nat, j: nat)
    requires |x| == |y| && i <= j < |x| && x[i..] == y[i..]
    ensures SpanFrom(x, j) == SpanFrom(y, j)
  {
    assert x[j..] == x[i..][j - i..] && y[j..] == y[i..][j - i..];
    GapSame(x, y, j, 1);
    GapFromIs(x, j, 1);
    if GapFrom(x, j, 1).Some? {
      var post := j + 17 + GapFrom(x, j, 1).value;
      assert x[post..] == x[j..][post - j..] && y[post..] == y[j..][post - j..];
      TailSame(x, y, post);
    }
  }

  lemma {:induction false} GapSame(x: seq<nat>, y: seq<nat>, i: nat, g: nat)
    requires |x| == |y| && i <= |x| && x[i..] == y[i..]
    ensures GapFrom(x, i, g) == GapFrom(y, i, g)
    decreases MAX_GAP + 1 - g
  {
    if g <= MAX_GAP {
      if i + 17 + g <= |x| { assert x[i..i + 17 + g] == x[i..][..17 + g] && y[i..i + 17 + g] == y[i..][..17 + g]; }
      GapSame(x, y, i, g + 1);
    }
  }

  lemma {:induction false} TailSame(x: seq<nat>, y: seq<nat>, i: nat)
    requires |x| == |y| && i <= |x| && x[i..] == y[i..]
    ensures TailLength(x, i) == TailLength(y, i)
    decreases |x| - i
  {
    if i < |x| {
      assert x[i] == x[i..][0] && y[i] == y[i..][0];
      assert x[i + 1..] == x[i..][1..] && y[i + 1..] == y[i..][1..];
      TailSame(x, y, i + 1);
    }
  }

  /** Overwrite part of an array. */
  method Overwrite(a: array<nat>, at: nat, w: seq<nat>)
    requires at + |w| <= a.Length
    modifies a
    ensures a[..] == old(a[..at]) + w + old(a[at + |w|..])
  {
    var k := 0;
    while k < |w|
      invariant 0 <= k <= |w|
      invariant a[..at + k] == old(a[..at]) + w[..k] && a[at + k..] == old(a[at + k..])
    {
      a[at + k] := w[k];
      k := k + 1;
    }
    assert a[..] == a[..at + k] + a[at + k..];
  }

  /** Tier 1: rewrite every triple of the copy in place, searching the copy itself. */
  method InPlace(a: array<nat>, ghost b: seq<nat>, ghost find: Search)
    requires a[..] == b && find == Find(b) && AllLong(find, |b|, 0)
    modifies a
    ensures a[..] == Replaced(find, b, 0, true)
  {
    var pos := 0;
    ghost var done, whole: seq<nat> := [], Replaced(find, b, 0, true);
    while true
      invariant pos <= |b| == a.Length && |done| == pos && a[..] == done + b[pos..] && AllLong(find, |b|, pos)
      invariant whole == done + Replaced(find, b, pos, true)
      decreases |b| - pos
    {
      var s := FindIn(a, pos, b, done);
      if s.None? { return; }
      NextReplaced(find, b, pos, s.value, done, whole);
      done := PatchOne(a, s.value, b, done);
      pos := s.value.end;
    }
  }

  lemma NextReplaced(find: Search, b: seq<nat>, pos: nat, s: Span, done: seq<nat>, whole: seq<nat>)
    requires pos <= |b| && Next(find, |b|, pos) == Some(s) && whole == done + Replaced(find, b, pos, true)
    ensures whole == done + b[pos..s.begin] + Block(s, true) + Replaced(find, b, s.end, true)
  {
    Regroup(b[pos..s.begin], Block(s, true), Replaced(find, b, s.end, true));
    Regroup(done, b[pos..s.begin] + Block(s, true), Replaced(find, b, s.end, true));
    Regroup(done, b[pos..s.begin], Block(s, true));
  }

  method FindIn(a: array<nat>, pos: nat, ghost b: seq<nat>, ghost done: seq<nat>) returns (s: Option<Span>)
    requires pos <= |b| == a.Length && |done| == pos && a[..] == done + b[pos..]
    ensures s == Next(Find(b), |b|, pos)
  {
    assert a[..][pos..] == b[pos..];
    FindSame(a[..], b, pos);
    s := FindNext(a[..], pos);
  }

  /** Overwrite one span of the copy. */
  method PatchOne(a: array<nat>, s: Span, ghost b: seq<nat>, ghost done: seq<nat>) returns (ghost now: seq<nat>)
    requires |done| <= s.begin && s.begin + 24 <= s.end <= |b| == a.Length && a[..] == done + b[|done|..]
    modifies a
    ensures now == done + b[|done|..s.begin] + Block(s, true) && |now| == s.end && a[..] == now + b[s.end..]
  {
    var block := Block(s, true);
    Around(a[..], done, b, s);
    assert a[..s.begin] == a[..][..s.begin] && a[s.end..] == a[..][s.end..];
    now := done + b[|done|..s.begin] + block;
    Overwrite(a, s.begin, block);
  }

  lemma Around(a: seq<nat>, done: seq<nat>, b: seq<nat>, s: Span)
    requires |done| <= s.begin <= s.end <= |b| && a == done + b[|done|..]
    ensures |a| == |b| && a[..s.begin] == done + b[|done|..s.begin] && a[s.end..] == b[s.end..]
  {
    var x, y := a[..s.begin], done + b[|done|..s.begin];
    assert forall k :: 0 <= k < |x| ==> x[k] == y[k];
    var u, v := a[s.end..], b[s.end..];
    assert forall k :: 0 <= k < |u| ==> u[k] == v[k];
  }

  /** Tier 2: copy pieces and replacements into a larger buffer. */
  method Spliced(b: seq<nat>, dst: array<nat>, ghost find: Search) returns (n: nat)
    requires find == Find(b) && dst.Length == |b| + Growth(find, |b|, 0)
    modifies dst
    ensures n <= dst.Length && dst[..n] == Replaced(find, b, 0, false)
  {
    var pos := 0;
    n := 0;
    Lengths(find, b, 0, false);
    ghost var whole := Replaced(find, b, 0, false);
    while true
      invariant pos <= |b| && n + |Replaced(find, b, pos, false)| == |whole| <= dst.Length
      invariant whole == dst[..n] + Replaced(find, b, pos, false)
      decreases |b| - pos
    {
      var s := FindNext(b, pos);
      if s.None? {
        n := Put(dst, n, b[pos..]);
        return;
      }
      var piece, block := b[pos..s.value.begin], Block(s.value, false);
      Regroup(piece, block, Replaced(find, b, s.value.end, false));
      Regroup(dst[..n], piece + block, Replaced(find, b, s.value.end, false));
      Regroup(dst[..n], piece, block);
      n := Put(dst, n, piece);
      n := Put(dst, n, block);
      pos := s.value.end;
    }
  }

  method Put(dst: array<nat>, at: nat, w: seq<nat>) returns (n: nat)
    requires at + |w| <= dst.Length
    modifies dst
    ensures n == at + |w| && dst[..n] == old(dst[..at]) + w
  {
    Overwrite(dst, at, w);
    n := at + |w|;
    assert dst[..n] == dst[..][..n];
  }

  datatype Outcome = NoMagic | NoTriple | Retargeted(bytes: seq<nat>)

  predicate HasMagic(b: seq<nat>) { |b| >= 4 && b[..4] == MAGIC }

  /** The whole retargeter: in place if it can, by splicing if it must. */
  method RetargetToSpirv(b: seq<nat>) returns (r: Outcome)
    ensures r.NoMagic? <==> !HasMagic(b)
    ensures r.NoTriple? <==> HasMagic(b) && Next(Find(b), |b|, 0).None?
    ensures r.Retargeted? ==> r.bytes == Replaced(Find(b), b, 0, AllLong(Find(b), |b|, 0)) && Clean(r.bytes)
    ensures r.Retargeted? ==> |r.bytes| == |b| + if AllLong(Find(b), |b|, 0) then 0 else Delta(Find(b), |b|, 0, false)
  {
    if |b| < 4 || b[..4] != MAGIC { return NoMagic; }
    var found, allLong, growth := Survey(b);
    if !found { return NoTriple; }
    ReplacedClean(b, 0, allLong);
    Lengths(Find(b), b, 0, allLong);
    if allLong {
      var copy := new nat[|b|](i requires 0 <= i < |b| => b[i]);
      assert copy[..] == b;
      InPlace(copy, b, Find(b));
      return Retargeted(copy[..]);
    }
    var dst := new nat[|b| + growth](_ => 0);
    var n := Spliced(b, dst, Find(b));
    return Retargeted(dst[..n]);
  }
}
