/** What the retargeter recognises and what it writes, in characters. */
module RetargetText {
  import opened Wrappers
  import opened Retarget

  function Text(s: string): (b: seq<nat>)
    ensures |b| == |s| && forall i :: 0 <= i < |s| ==> b[i] == s[i] as nat
  {
    seq(|s|, (i: nat) requires i < |s| => s[i] as nat)
  }

  predicate Between(lo: char, c: nat, hi: char) { lo as nat <= c <= hi as nat }

  predicate GapByte(c: nat) { Between('a', c, 'z') || Between('0', c, '9') || c == '-' as nat || c == '_' as nat }

  predicate VersionByte(c: nat) { Between('0', c, '9') || c == '.' as nat }

  /** "air64", a gap of g bytes, "apple-macosx". */
  predicate AirAt(b: seq<nat>, i: nat, g: nat) {
    && 1 <= g <= 8 && i + 17 + g <= |b|
    && b[i..i + 5] == Text("air64") && b[i + 5 + g..i + 17 + g] == Text("apple-macosx")
    && forall k :: i + 5 <= k < i + 5 + g ==> GapByte(b[k])
  }

  lemma Fixed()
    ensures PREFIX == Text("air64") && INFIX == Text("apple-macosx") && TRIPLE == Text("spir64-unknown-vulkan1.3")
  {
  }

  lemma AirIs(b: seq<nat>, i: nat, g: nat)
    ensures AirAt(b, i, g) <==> MatchAt(b, i, g)
  {
    Fixed();
    if 1 <= g <= MAX_GAP && i + 17 + g <= |b| {
      if forall k :: i + 5 <= k < i + 5 + g ==> IsGap(b[k]) {
        WindowIs(b, i, g);
      } else {
        var k :| i + 5 <= k < i + 5 + g && !IsGap(b[k]);
        assert b[i..i + 17 + g][k - i] == b[k];
      }
    }
  }

  lemma {:induction false} TailIs(b: seq<nat>, i: nat)
    requires i <= |b|
    ensures var e := i + TailLength(b, i);
            (forall k :: i <= k < e ==> VersionByte(b[k])) && (e == |b| || !VersionByte(b[e]))
    decreases |b| - i
  {
    if i < |b| && IsTail(b[i]) { TailIs(b, i + 1); }
  }

  lemma {:induction false} LeastGap(b: seq<nat>, i: nat, g: nat)
    ensures var r := GapFrom(b, i, g);
            r.Some? ==> g <= r.value && forall h: nat :: g <= h < r.value ==> !MatchAt(b, i, h)
    decreases MAX_GAP + 1 - g
  {
    if g <= MAX_GAP && !MatchAt(b, i, g) { LeastGap(b, i, g + 1); }
  }

  /** A SPAN, exactly: one starts at i if and only if "air64", a short gap and "apple-macosx"
      do; it takes the least gap, and then every digit and dot up to the first other byte. */
  lemma SpanIs(b: seq<nat>, i: nat) returns (g: nat)
    ensures SpanFrom(b, i).None? <==> forall h: nat :: !AirAt(b, i, h)
    ensures SpanFrom(b, i).Some? ==>
              var s := SpanFrom(b, i).value;
              && s.begin == i && AirAt(b, i, g) && (forall h: nat :: h < g ==> !AirAt(b, i, h))
              && i + 17 + g <= s.end <= |b| && (forall k :: i + 17 + g <= k < s.end ==> VersionByte(b[k]))
              && (s.end == |b| || !VersionByte(b[s.end]))
  {
    g := 0;
    forall h: nat ensures AirAt(b, i, h) <==> MatchAt(b, i, h) { AirIs(b, i, h); }
    GapFromIs(b, i, 1);
    LeastGap(b, i, 1);
    if GapFrom(b, i, 1).Some? {
      g := GapFrom(b, i, 1).value;
      TailIs(b, i + 17 + g);
    }
  }

  /** The search finds the first place from i on where a span starts. */
  lemma FoundIs(b: seq<nat>, i: nat)
    ensures var r := Find(b)(i);
            && (r.None? <==> forall j: nat, g: nat :: i <= j ==> !AirAt(b, j, g))
            && (r.Some? ==> i <= r.value.begin && SpanFrom(b, r.value.begin) == r
                            && forall j: nat, g: nat :: i <= j < r.value.begin ==> !AirAt(b, j, g))
  {
    var r := Find(b)(i);
    FindIs(b, i);
    FirstAt(Starts(b), |b|, i);
    forall j: nat, g: nat ensures AirAt(b, j, g) <==> MatchAt(b, j, g) { AirIs(b, j, g); }
    if r.Some? {
      var g := SpanIs(b, r.value.begin);
      assert AirAt(b, r.value.begin, g);
    }
  }

  lemma {:induction false} FirstAt(at: Search, n: nat, i: nat)
    requires Proper(at, n)
    ensures var r := First(at, n, i); r.Some? ==> i <= r.value.begin && at(r.value.begin) == r
    decreases n - i
  {
    if i < n && at(i).None? { FirstAt(at, n, i + 1); }
  }

  // ----- what is written -----

  /** s is one of the spans that are replaced from i on. */
  ghost predicate Among(find: Search, n: nat, i: nat, s: Span)
    decreases n - i
  {
    match Next(find, n, i)
    case None => false
    case Some(t) => s == t || Among(find, n, t.end, s)
  }

  /** In place if and only if every span has room for the 24 bytes of the new triple. */
  lemma {:induction false} InPlaceExactly(find: Search, n: nat, i: nat)
    ensures AllLong(find, n, i) <==> forall s :: Among(find, n, i, s) ==> s.end - s.begin >= 24
    decreases n - i
  {
    match Next(find, n, i)
    case None =>
    case Some(t) =>
      InPlaceExactly(find, n, t.end);
      assert Among(find, n, i, t);
  }

  /** By how much the spans are longer than the new triple, where they are. */
  function Surplus(find: Search, n: nat, i: nat): nat
    decreases n - i
  {
    match Next(find, n, i)
    case None => 0
    case Some(s) => (if s.end - s.begin > 24 then s.end - s.begin - 24 else 0) + Surplus(find, n, s.end)
  }

  /** The splicing tier allocates exactly what the shorter spans need. */
  lemma {:induction false} AllocatedExactly(find: Search, n: nat, i: nat)
    ensures Growth(find, n, i) == Delta(find, n, i, false) + Surplus(find, n, i)
    ensures AllLong(find, n, i) ==> Growth(find, n, i) == 0
    decreases n - i
  {
    match Next(find, n, i)
    case None =>
    case Some(s) =>
      Changes(s);
      AllocatedExactly(find, n, s.end);
  }

  /** Where the replacement of span s is in the text made from i on. */
  function Place(find: Search, n: nat, i: nat, pad: bool, s: Span): int {
    s.begin - i + Shift(find, n, i, pad, s.begin) - Change(s, pad)
  }

  lemma {:induction false} AmongBehind(find: Search, n: nat, i: nat, s: Span)
    requires Among(find, n, i, s)
    ensures i <= s.begin < s.end <= n
    decreases n - i
  {
    var t := Next(find, n, i).value;
    if s != t { AmongBehind(find, n, t.end, s); }
  }

  /** EVERY SPAN BECOMES THE NEW TRIPLE: its text stands where the span was, moved by the
      changes before it; in place, NULs fill the rest of the span. */
  lemma {:induction false} NewTriple(find: Search, b: seq<nat>, i: nat, pad: bool, s: Span)
    requires i <= |b| && Among(find, |b|, i, s)
    ensures var r, y := Replaced(find, b, i, pad), Place(find, |b|, i, pad, s);
            && 0 <= y && y + 24 <= |r| && r[y..y + 24] == Text("spir64-unknown-vulkan1.3")
            && (pad && s.end - s.begin >= 24 ==>
                  y + (s.end - s.begin) <= |r| && forall k :: y + 24 <= k < y + (s.end - s.begin) ==> r[k] == 0)
    decreases |b| - i
  {
    Fixed();
    var t := Next(find, |b|, i).value;
    var piece, block, rest := b[i..t.begin], Block(t, pad), Replaced(find, b, t.end, pad);
    if s == t {
      NothingYet(find, |b|, t.end, pad, s.begin);
      BlockText(piece, block, rest);
    } else {
      AmongBehind(find, |b|, t.end, s);
      NewTriple(find, b, t.end, pad, s);
      Behind(piece, block, rest, Place(find, |b|, t.end, pad, s), 24);
      if pad && s.end - s.begin >= 24 {
        Behind(piece, block, rest, Place(find, |b|, t.end, pad, s), s.end - s.begin);
      }
    }
  }

  lemma NothingYet(find: Search, n: nat, i: nat, pad: bool, x: nat)
    requires x < i
    ensures Shift(find, n, i, pad, x) == 0
  {
  }

  lemma BlockText(piece: seq<nat>, block: seq<nat>, rest: seq<nat>)
    requires |block| >= 24
    ensures var r, y := piece + (block + rest), |piece|;
            r[y..y + 24] == block[..24] && forall k :: y + 24 <= k < y + |block| ==> r[k] == block[k - y]
  {
  }

  lemma Behind(piece: seq<nat>, block: seq<nat>, rest: seq<nat>, y: nat, n: nat)
    requires y + n <= |rest|
    ensures var r, x := piece + (block + rest), |piece| + |block| + y;
            && x + n <= |r| && r[x..x + n] == rest[y..y + n]
            && forall k {:trigger r[k]} :: x <= k < x + n ==> r[k] == rest[k - |piece| - |block|]
  {
  }

  /** The wrapper magic, byte by byte. */
  lemma MagicIs(b: seq<nat>)
    ensures HasMagic(b) <==> |b| >= 4 && b[0] == 0xDE && b[1] == 0xC0 && b[2] == 0x17 && b[3] == 0x0B
  {
    if |b| >= 4 { assert b[..4] == [b[0], b[1], b[2], b[3]]; }
  }
}
