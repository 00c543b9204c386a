/** The settle latch of the display: a frame that was signalled is held back while draws
    keep arriving, but not forever.  Times are nanoseconds of a clock that has started. */
module Settle {

  /** A frame is waiting; when the last signal came (0: never); since when a frame has been
      held back (0: not). */
  datatype Latch = Latch(ready: bool, lastSignal: nat, holdStart: nat)

  datatype Event = Signal(t: nat) | Read(t: nat)

  /** The longest hold, in settle times. */
  const MAX_HOLD: nat := 8

  function HoldSince(s: Latch, t: nat): nat { if s.holdStart == 0 then t else s.holdStart }

  /** A read at t is held back: the stream is not quiet and the hold has not lasted too long. */
  predicate Holds(s: Latch, settle: nat, t: nat) {
    s.lastSignal != 0 && t - s.lastSignal < settle && t - HoldSince(s, t) < MAX_HOLD * settle
  }

  predicate Presents(s: Latch, settle: nat, t: nat) { s.ready && !Holds(s, settle, t) }

  function Next(s: Latch, settle: nat, e: Event): Latch {
    match e
    case Signal(t) => s.(ready := true, lastSignal := t)
    case Read(t) =>
      if !s.ready then s
      else if Holds(s, settle, t) then s.(holdStart := HoldSince(s, t))
      else Latch(false, s.lastSignal, if s.lastSignal != 0 then 0 else s.holdStart)
  }

  /** The latch before event k. */
  function At(es: seq<Event>, settle: nat, k: nat): Latch
    requires k <= |es|
  {
    if k == 0 then Latch(false, 0, 0) else Next(At(es, settle, k - 1), settle, es[k - 1])
  }

  predicate Presented(es: seq<Event>, settle: nat, k: nat)
    requires k < |es|
  {
    es[k].Read? && Presents(At(es, settle, k), settle, es[k].t)
  }

  predicate Held(es: seq<Event>, settle: nat, k: nat)
    requires k < |es|
  {
    es[k].Read? && At(es, settle, k).ready && !Presented(es, settle, k)
  }

  /** The clock has started and does not go back. */
  ghost predicate Clocked(es: seq<Event>) {
    (forall i :: 0 <= i < |es| ==> es[i].t > 0) && (forall i, j :: 0 <= i < j < |es| ==> es[i].t <= es[j].t)
  }

  ghost predicate Quiet(es: seq<Event>, settle: nat, i: nat, k: nat)
    requires k <= |es|
  {
    forall j :: i <= j < k ==> !Presented(es, settle, j)
  }

  /** A FRAME IS NEVER LOST: once signalled it stays ready until a read presents it. */
  lemma {:induction false} NeverLost(es: seq<Event>, settle: nat, i: nat, k: nat)
    requires i < k <= |es| && es[i].Signal? && Quiet(es, settle, i, k)
    ensures At(es, settle, k).ready
    decreases k
  {
    if k > i + 1 {
      NeverLost(es, settle, i, k - 1);
      assert !Presented(es, settle, k - 1);
    }
  }

  /** The latch remembers the time of the last signal. */
  lemma {:induction false} LastSignalIs(es: seq<Event>, settle: nat, k: nat) returns (i: nat)
    requires k <= |es| && At(es, settle, k).lastSignal != 0
    ensures i < k && es[i] == Signal(At(es, settle, k).lastSignal) && forall j :: i < j < k ==> !es[j].Signal?
    decreases k
  {
    if es[k - 1].Signal? { i := k - 1; } else { i := LastSignalIs(es, settle, k - 1); }
  }

  lemma {:induction false} NoSignal(es: seq<Event>, settle: nat, k: nat)
    requires k <= |es| && Clocked(es) && At(es, settle, k).lastSignal == 0
    ensures forall j :: 0 <= j < k ==> !es[j].Signal?
    decreases k
  {
    if k > 0 { NoSignal(es, settle, k - 1); }
  }

  /** A running hold started at a held read, and nothing was presented since. */
  lemma {:induction false} HoldIs(es: seq<Event>, settle: nat, k: nat) returns (i: nat)
    requires k <= |es| && Clocked(es) && At(es, settle, k).holdStart != 0
    ensures i < k && es[i] == Read(At(es, settle, k).holdStart) && Held(es, settle, i)
    ensures At(es, settle, i).holdStart == 0
    ensures Quiet(es, settle, i, k) && At(es, settle, k).ready && At(es, settle, k).lastSignal != 0
    decreases k
  {
    var s := At(es, settle, k - 1);
    if s.holdStart != 0 {
      i := HoldIs(es, settle, k - 1);
    } else {
      i := k - 1;
    }
  }

  /** NO EARLY FRAME: a frame is presented within the settle time of the last signal only
      if frames have been held back since a read at least eight settle times ago. */
  lemma NoEarlyFrame(es: seq<Event>, settle: nat, k: nat, i: nat) returns (h: nat)
    requires k < |es| && Clocked(es) && Presented(es, settle, k) && settle > 0
    requires i < k && es[i].Signal? && (forall j :: i < j < k ==> !es[j].Signal?) && es[k].t - es[i].t < settle
    ensures h < k && Held(es, settle, h) && Quiet(es, settle, h, k) && es[k].t - es[h].t >= MAX_HOLD * settle
  {
    var s := At(es, settle, k);
    if s.lastSignal == 0 { NoSignal(es, settle, k); }
    var l := LastSignalIs(es, settle, k);
    assert l == i;
    assert HoldSince(s, es[k].t) != es[k].t;
    h := HoldIs(es, settle, k);
  }

  /** While a hold lasts, every read comes before its limit. */
  lemma {:induction false} HeldBefore(es: seq<Event>, settle: nat, i: nat, k: nat)
    requires i < k <= |es| && Clocked(es) && Held(es, settle, i) && At(es, settle, i).holdStart == 0
    requires Quiet(es, settle, i, k)
    ensures At(es, settle, k).holdStart == es[i].t && At(es, settle, k).ready && At(es, settle, k).lastSignal != 0
    ensures es[k - 1].Read? ==> es[k - 1].t - es[i].t < MAX_HOLD * settle
    decreases k
  {
    if k > i + 1 {
      HeldBefore(es, settle, i, k - 1);
      assert !Presented(es, settle, k - 1);
    }
  }

  /** Reads are at most d apart: whenever more than d passes after a read, another comes. */
  ghost predicate Polled(es: seq<Event>, d: nat) {
    forall a, b :: 0 <= a < b < |es| && es[a].Read? && es[b].t > es[a].t + d ==> exists c :: a < c <= b && es[c].Read?
  }

  lemma {:induction false} LastRead(es: seq<Event>, i: nat, k: nat) returns (a: nat)
    requires i <= k < |es| && es[i].Read?
    ensures i <= a <= k && es[a].Read? && forall c :: a < c <= k ==> !es[c].Read?
    decreases k - i
  {
    if es[k].Read? || k == i { a := k; } else { a := LastRead(es, i, k - 1); }
  }

  /** A FRAME IS PRESENTED IN TIME: with reads at most d apart, a frame first held back at
      a read is presented within eight settle times plus d of that read. */
  lemma PresentedInTime(es: seq<Event>, settle: nat, d: nat, i: nat, k: nat)
    requires i < k < |es| && Clocked(es) && Polled(es, d) && settle > 0
    requires Held(es, settle, i) && At(es, settle, i).holdStart == 0 && es[k].t > es[i].t + MAX_HOLD * settle + d
    ensures exists j :: i < j <= k && Presented(es, settle, j)
  {
    NotQuiet(es, settle, d, i, k);
    var j :| i <= j < k + 1 && Presented(es, settle, j);
    assert j != i;
  }

  lemma NotQuiet(es: seq<Event>, settle: nat, d: nat, i: nat, k: nat)
    requires i < k < |es| && Clocked(es) && Polled(es, d) && settle > 0
    requires Held(es, settle, i) && At(es, settle, i).holdStart == 0 && es[k].t > es[i].t + MAX_HOLD * settle + d
    ensures !Quiet(es, settle, i, k + 1)
  {
    if Quiet(es, settle, i, k + 1) {
      EarlyIfQuiet(es, settle, i, k);
      OutOfTime(es, d, i, k, es[i].t + MAX_HOLD * settle);
    }
  }

  /** Every read from i to k comes before the limit. */
  ghost predicate Early(es: seq<Event>, i: nat, k: nat, limit: nat)
    requires k < |es|
  {
    forall c :: i <= c <= k && es[c].Read? ==> es[c].t < limit
  }

  lemma EarlyIfQuiet(es: seq<Event>, settle: nat, i: nat, k: nat)
    requires i <= k < |es| && Clocked(es) && Held(es, settle, i) && At(es, settle, i).holdStart == 0
    requires Quiet(es, settle, i, k + 1) && settle > 0
    ensures Early(es, i, k, es[i].t + MAX_HOLD * settle)
  {
    forall c | i <= c <= k && es[c].Read? ensures es[c].t < es[i].t + MAX_HOLD * settle {
      if c > i { HeldBefore(es, settle, i, c + 1); }
    }
  }

  lemma OutOfTime(es: seq<Event>, d: nat, i: nat, k: nat, limit: nat)
    requires i <= k < |es| && Polled(es, d) && es[i].Read? && Early(es, i, k, limit)
    ensures es[k].t <= limit + d
  {
    var a := LastRead(es, i, k);
    assert es[a].t < limit;
    LastReadNear(es, d, a, k);
  }

  lemma LastReadNear(es: seq<Event>, d: nat, a: nat, k: nat)
    requires Polled(es, d) && a <= k < |es| && es[a].Read? && forall c :: a < c <= k ==> !es[c].Read?
    ensures es[k].t <= es[a].t + d
  {
  }

  /** The latch holds the time of the last signal. */
  lemma {:induction false} LatchAfterSignal(es: seq<Event>, settle: nat, i: nat, k: nat)
    requires i < k <= |es| && es[i].Signal? && forall j :: i < j < k ==> !es[j].Signal?
    ensures At(es, settle, k).lastSignal == es[i].t
    decreases k
  {
    if k > i + 1 { LatchAfterSignal(es, settle, i, k - 1); }
  }

  /** A QUIET FRAME IS PRESENTED AT ONCE: the first read that comes a settle time or more
      after the last signal takes the frame, whether or not it has been held back before. */
  lemma QuietFrame(es: seq<Event>, settle: nat, i: nat, k: nat)
    requires i < k < |es| && es[i].Signal? && (forall j :: i < j < k ==> !es[j].Signal?)
    requires es[k].Read? && At(es, settle, k).ready && es[k].t - es[i].t >= settle
    ensures Presented(es, settle, k) && At(es, settle, k + 1) == Latch(false, es[i].t, if es[i].t == 0 then
            At(es, settle, k).holdStart else 0)
  {
    LatchAfterSignal(es, settle, i, k);
  }

  /** WHEN A READ PRESENTS, exactly: a frame is waiting, and there was no signal, or none for a
      settle time, or frames have been held back for eight settle times. */
  lemma PresentsExactly(s: Latch, settle: nat, t: nat)
    requires s.lastSignal <= t && s.holdStart <= t
    ensures Presents(s, settle, t) <==>
              s.ready && (s.lastSignal == 0 || t >= s.lastSignal + settle || settle == 0
                          || (s.holdStart != 0 && t >= s.holdStart + 8 * settle))
  {
  }

  // ----- the display -----

  class Display {
    var ready: bool
    var lastSignal: nat
    var holdStart: nat

    ghost function State(): Latch
      reads this
    {
      Latch(ready, lastSignal, holdStart)
    }

    constructor ()
      ensures State() == Latch(false, 0, 0)
    {
      ready, lastSignal, holdStart := false, 0, 0;
    }

    method SignalFrameReady(now: nat)
      modifies this
      ensures State() == Next(old(State()), 0, Signal(now)) && ready && lastSignal == now && holdStart == old(holdStart)
    {
      lastSignal := now;
      ready := true;
    }

    /** One read; `live`: the render target is ready and the latch is not switched off.  A read
        that is not live takes the frame at once. */
    method ReadFrame(now: nat, settle: nat, live: bool) returns (presented: bool)
      requires lastSignal <= now && holdStart <= now
      modifies this
      ensures live ==>
                presented == Presents(old(State()), settle, now) && State() == Next(old(State()), settle, Read(now))
      ensures live && old(ready) && now - old(lastSignal) >= settle ==> presented && !ready
      ensures live && presented && old(lastSignal) != 0 && now - old(lastSignal) < settle ==>
                old(holdStart) != 0 && now - old(holdStart) >= 8 * settle
      ensures !live ==> presented == old(ready) && State() == old(State()).(ready := false)
    {
      if !ready { return false; }
      if live && lastSignal != 0 {
        if now - lastSignal < settle {
          if holdStart == 0 { holdStart := now; }
          if now - holdStart < settle * MAX_HOLD { return false; }
        }
        holdStart := 0;
      }
      ready := false;
      return true;
    }
  }
}
