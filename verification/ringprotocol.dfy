/** The producer/consumer protocol over a ring, as a state machine: the guest appends
    commands while they fit, the host drains on each doorbell. */
module RingProtocol {
  import opened Wrappers
  import opened Ring

  /** Ring memory, the host's read pointer, the guest's write pointer, and what the host
      has dispatched so far. */
  datatype System = System(ring: seq<nat>, rp: nat, tail: nat, log: seq<Cmd>)

  /** The guest produces a command, or rings the doorbell with its write pointer; the
      reader of a doorbell may fail wherever it likes, but does not lie. */
  datatype Act = Produce(c: Cmd) | Doorbell(read: RingReader)

  function Circ(ring: seq<nat>): Content
    requires ring != []
  {
    (x: nat) => ring[x % |ring|]
  }

  /** How far position j of the ring is ahead of `off`, going around. */
  function Ahead(j: nat, off: nat, size: nat): nat
    requires size > 0 && j < size
  {
    (j + size - off % size) % size
  }

  /** Bytes written around the ring from `off`. */
  function Write(ring: seq<nat>, off: nat, b: seq<nat>): (r: seq<nat>)
    requires ring != []
    ensures |r| == |ring|
  {
    var size := |ring|;
    seq(size, (j: nat) requires j < size => if Ahead(j, off, size) < |b| then b[Ahead(j, off, size)] else ring[j])
  }

  function Next(s: System, span: nat, budget: nat, a: Act): (s': System)
    requires s.ring != [] && span > 0
    ensures |s'.ring| == |s.ring|
  {
    match a
    case Produce(c) => s.(ring := Write(s.ring, s.tail, Bytes(c)), tail := (s.tail + c.Length()) % span)
    case Doorbell(read) => Dispatched(s, Drain(FinderOf(read, |s.ring|), span, s.rp, s.tail, budget))
  }

  function Dispatched(s: System, d: Drained): System { s.(rp := d.rp, log := s.log + d.log) }

  /** Bytes between the two pointers. */
  function Outstanding(s: System, span: nat): nat
    requires span > 0 && s.rp < span && s.tail < span
  {
    (s.tail + span - s.rp) % span
  }

  /** The guest only produces what fits; the host's reads are backed by the ring. */
  ghost predicate Enabled(s: System, span: nat, a: Act) {
    && s.ring != [] && span > 0 && s.rp < span && s.tail < span
    && match a
       case Produce(c) => CmdOk(c, |s.ring|) && Outstanding(s, span) + c.Length() < |s.ring|
       case Doorbell(read) => Backed(read, Circ(s.ring), |s.ring|, span)
  }

  // ----- arithmetic -----

  lemma ModOfMod(x: nat, span: nat, size: nat)
    requires size > 0 && span > 0 && span % size == 0
    ensures x % span % size == x % size
  {
    var k, q, r := span / size, x / span, x % span;
    var m, t := r / size, r % size;
    WrapSum(span, size, k, q, m);
    ModUnique(x, size, k * q + m, t);
  }

  lemma WrapSum(span: nat, size: nat, k: nat, q: nat, m: nat)
    requires span == size * k
    ensures span * q + size * m == size * (k * q + m)
  {
    assert span * q == size * (k * q);
  }

  /** Going around from y to x. */
  lemma AheadIs(x: nat, y: nat, size: nat)
    requires size > 0 && y <= x < y + size
    ensures Ahead(x % size, y, size) == x - y
  {
    var d := x - y;
    ModAdd(y, d, size);
    if y % size + d < size { ModUnique(d + size, size, 1, d); } else { ModUnique(d, size, 0, d); }
  }

  /** And for an x that comes before y. */
  lemma AheadBefore(x: nat, y: nat, size: nat)
    requires size > 0 && x < y <= x + size
    ensures Ahead(x % size, y, size) == x + size - y
  {
    ModAdd(x, size, size);
    AddSize(x, size);
    AheadIs(x + size, y, size);
  }

  lemma AddSize(x: nat, size: nat)
    requires size > 0
    ensures (x + size) % size == x % size
  {
    Distribute(size, x / size, 1);
    ModUnique(x + size, size, x / size + 1, x % size);
  }

  lemma AheadMod(j: nat, x: nat, y: nat, size: nat)
    requires size > 0 && j < size && x % size == y % size
    ensures Ahead(j, x, size) == Ahead(j, y, size)
  {
  }

  // ----- writing -----

  /** What is written stands there, and the size - |b| bytes before it are untouched. */
  lemma WriteAt(ring: seq<nat>, off: nat, y: nat, b: seq<nat>, x: nat)
    requires ring != [] && |b| <= |ring| && off % |ring| == y % |ring|
    ensures y <= x < y + |b| ==> Circ(Write(ring, off, b))(x) == b[x - y]
    ensures x < y <= x + |ring| - |b| ==> Circ(Write(ring, off, b))(x) == Circ(ring)(x)
  {
    var size := |ring|;
    AheadMod(x % size, off, y, size);
    if y <= x < y + |b| { AheadIs(x, y, size); }
    if x < y <= x + size - |b| { AheadBefore(x, y, size); }
  }

  ghost predicate SameFrom(at: Content, at': Content, p: nat, n: nat) {
    forall x: nat {:trigger at'(x)} :: p <= x < p + n ==> at'(x) == at(x)
  }

  lemma SliceSame(at: Content, at': Content, p: nat, n: nat, m: nat)
    requires SameFrom(at, at', p, m) && n <= m
    ensures Slice(at', p, n) == Slice(at, p, n)
  {
    var s, t := Slice(at', p, n), Slice(at, p, n);
    forall i | 0 <= i < n ensures s[i] == t[i] { assert at'(p + i) == at(p + i); }
  }

  /** Commands that stood in the ring still stand, and one more behind them. */
  lemma {:induction false} LaidMore(at: Content, at': Content, size: nat, p: nat, cs: seq<Cmd>, c: Cmd)
    requires Laid(at, size, p, cs) && SameFrom(at, at', p, Total(cs)) && CmdOk(c, size)
    requires Slice(at', p + Total(cs), c.Length()) == Bytes(c)
    ensures Laid(at', size, p, cs + [c]) && Total(cs + [c]) == Total(cs) + c.Length()
    decreases |cs|
  {
    if cs == [] {
      assert cs + [c] == [c];
      assert [c][1..] == [];
    } else {
      var n := cs[0].Length();
      SliceSame(at, at', p, n, Total(cs));
      assert (cs + [c])[1..] == cs[1..] + [c];
      LaidMore(at, at', size, p + n, cs[1..], c);
    }
  }

  lemma {:induction false} LaidRest(at: Content, size: nat, p: nat, cs: seq<Cmd>, k: nat)
    requires Laid(at, size, p, cs) && k <= |cs|
    ensures Laid(at, size, p + Total(cs[..k]), cs[k..]) && Total(cs) == Total(cs[..k]) + Total(cs[k..])
    decreases k
  {
    if k == 0 {
      assert cs[..0] == [] && cs[0..] == cs;
    } else {
      LaidRest(at, size, p + cs[0].Length(), cs[1..], k - 1);
      PrefixNext(cs, k - 1);
      assert cs[1..][k - 1..] == cs[k..];
    }
  }

  // ----- the invariant -----

  /** What the protocol is about: the absolute read position, the commands still in the
      ring and everything the guest has produced. */
  datatype History = History(p: nat, pending: seq<Cmd>, produced: seq<Cmd>)

  ghost predicate Inv(s: System, span: nat, h: History) {
    && s.ring != [] && |s.ring| <= span && span % |s.ring| == 0
    && s.rp == h.p % span && s.tail == (h.p + Total(h.pending)) % span
    && Total(h.pending) < |s.ring| && Laid(Circ(s.ring), |s.ring|, h.p, h.pending)
    && s.log + h.pending == h.produced
  }

  lemma OutstandingIs(s: System, span: nat, h: History)
    requires Inv(s, span, h)
    ensures Outstanding(s, span) == Total(h.pending)
  {
    AheadIs(h.p + Total(h.pending), h.p, span);
  }

  /** A write behind position y leaves what is between p and y. */
  lemma WriteKeeps(ring: seq<nat>, off: nat, p: nat, y: nat, b: seq<nat>, ring': seq<nat>)
    requires ring != [] && off % |ring| == y % |ring| && p <= y && y - p + |b| <= |ring| && ring' == Write(ring, off, b)
    ensures SameFrom(Circ(ring), Circ(ring'), p, y - p) && Slice(Circ(ring'), y, |b|) == b
  {
    var at' := Circ(ring');
    forall x: nat | p <= x < y ensures at'(x) == Circ(ring)(x) { WriteAt(ring, off, y, b, x); }
    var t := Slice(at', y, |b|);
    forall i | 0 <= i < |b| ensures t[i] == b[i] { WriteAt(ring, off, y, b, y + i); }
    assert t == b;
  }

  lemma ProduceKeeps(s: System, span: nat, budget: nat, h: History, c: Cmd)
    requires Inv(s, span, h) && Enabled(s, span, Produce(c))
    ensures Inv(Next(s, span, budget, Produce(c)), span, History(h.p, h.pending + [c], h.produced + [c]))
  {
    var size, y := |s.ring|, h.p + Total(h.pending);
    var ring' := Write(s.ring, s.tail, Bytes(c));
    OutstandingIs(s, span, h);
    ModOfMod(y, span, size);
    WriteKeeps(s.ring, s.tail, h.p, y, Bytes(c), ring');
    ProducedInv(s, span, h, c, ring');
  }

  lemma ProducedInv(s: System, span: nat, h: History, c: Cmd, ring': seq<nat>)
    requires Inv(s, span, h) && CmdOk(c, |s.ring|) && Total(h.pending) + c.Length() < |s.ring| == |ring'|
    requires SameFrom(Circ(s.ring), Circ(ring'), h.p, Total(h.pending))
    requires Slice(Circ(ring'), h.p + Total(h.pending), c.Length()) == Bytes(c)
    ensures Inv(s.(ring := ring', tail := (s.tail + c.Length()) % span), span,
            History(h.p, h.pending + [c], h.produced + [c]))
  {
    LaidMore(Circ(s.ring), Circ(ring'), |s.ring|, h.p, h.pending, c);
    ModAdd(h.p + Total(h.pending), c.Length(), span);
    OneMoreProduced(s.log, h.pending, c);
  }

  lemma OneMoreProduced(log: seq<Cmd>, pending: seq<Cmd>, c: Cmd)
    ensures log + (pending + [c]) == log + pending + [c]
  {
  }

  /** Dispatching a prefix of the pending commands. */
  lemma DispatchedInv(s: System, span: nat, h: History, k: nat)
    requires Inv(s, span, h) && k <= |h.pending|
    ensures Inv(Dispatched(s, Drained((h.p + Total(h.pending[..k])) % span, h.pending[..k])), span,
                History(h.p + Total(h.pending[..k]), h.pending[k..], h.produced))
  {
    LaidRest(Circ(s.ring), |s.ring|, h.p, h.pending, k);
    Requeue(s.log, h.pending, k);
  }

  lemma DoorbellKeeps(s: System, span: nat, budget: nat, h: History, read: RingReader) returns (k: nat)
    requires Inv(s, span, h) && Enabled(s, span, Doorbell(read))
    ensures k <= |h.pending| && k <= budget
    ensures Next(s, span, budget, Doorbell(read))
            == Dispatched(s, Drained((h.p + Total(h.pending[..k])) % span, h.pending[..k]))
    ensures Inv(Next(s, span, budget, Doorbell(read)), span,
            History(h.p + Total(h.pending[..k]), h.pending[k..], h.produced))
    ensures Reliable(read) ==> k == if |h.pending| < budget then |h.pending| else budget
  {
    k := DrainBacked(Circ(s.ring), |s.ring|, span, budget, h.p, h.pending, read);
    DispatchedInv(s, span, h, k);
  }

  lemma DrainBacked(at: Content, size: nat, span: nat, budget: nat, p: nat, cs: seq<Cmd>, read: RingReader)
    returns (k: nat)
    requires 0 < size <= span && Laid(at, size, p, cs) && Total(cs) < size && Backed(read, at, size, span)
    ensures k <= |cs| && k <= budget
    ensures Drain(FinderOf(read, size), span, p % span, (p + Total(cs)) % span, budget)
            == Drained((p + Total(cs[..k])) % span, cs[..k])
    ensures Reliable(read) ==> k == if |cs| < budget then |cs| else budget
  {
    LaidFinds(read, at, size, span, p, cs);
    var find := FinderOf(read, size);
    k := DrainsPrefix(find, span, p, cs, budget);
    if Reliable(read) && k < |cs| {
      LaidFound(read, at, size, span, p, cs);
      FoundAt(find, span, p, cs, k);
    }
  }

  lemma Requeue(log: seq<Cmd>, pending: seq<Cmd>, k: nat)
    requires k <= |pending|
    ensures log + pending[..k] + pending[k..] == log + pending
  {
  }

  // ----- runs -----

  function Exec(s: System, span: nat, budget: nat, acts: seq<Act>): (s': System)
    requires s.ring != [] && span > 0
    ensures |s'.ring| == |s.ring|
    decreases |acts|
  {
    if acts == [] then s else Next(Exec(s, span, budget, acts[..|acts| - 1]), span, budget, acts[|acts| - 1])
  }

  function Produced(acts: seq<Act>): seq<Cmd> {
    if acts == [] then []
    else Produced(acts[..|acts| - 1]) + if acts[|acts| - 1].Produce? then [acts[|acts| - 1].c] else []
  }

  /** Every act was possible when it happened. */
  ghost predicate Legal(s: System, span: nat, budget: nat, acts: seq<Act>)
    requires s.ring != [] && span > 0
    decreases |acts|
  {
    acts == [] || (Legal(s, span, budget, acts[..|acts| - 1])
      && Enabled(Exec(s, span, budget, acts[..|acts| - 1]), span, acts[|acts| - 1]))
  }

  lemma StepKeeps(s: System, span: nat, budget: nat, h: History, a: Act) returns (h': History)
    requires Inv(s, span, h) && Enabled(s, span, a)
    ensures Inv(Next(s, span, budget, a), span, h') && h'.produced == h.produced + if a.Produce? then [a.c] else []
  {
    match a
    case Produce(c) =>
      ProduceKeeps(s, span, budget, h, c);
      h' := History(h.p, h.pending + [c], h.produced + [c]);
    case Doorbell(read) =>
      var k := DoorbellKeeps(s, span, budget, h, read);
      h' := History(h.p + Total(h.pending[..k]), h.pending[k..], h.produced);
      assert h.produced + [] == h.produced;
  }

  /** EVERY RUN IS SAFE: from an empty ring, whatever the guest produces and whenever it
      rings, however reads fail, the host has dispatched each command at most once and in
      order: what it dispatched followed by what is still in the ring is exactly what the
      guest produced. */
  lemma {:induction false} RunsAreSafe(ring: seq<nat>, span: nat, budget: nat, p: nat, acts: seq<Act>)
    returns (h: History)
    requires ring != [] && |ring| <= span && span % |ring| == 0
    requires Legal(System(ring, p % span, p % span, []), span, budget, acts)
    ensures Inv(Exec(System(ring, p % span, p % span, []), span, budget, acts), span, h) && h.produced == Produced(acts)
    decreases |acts|
  {
    var s := System(ring, p % span, p % span, []);
    if acts == [] {
      h := History(p, [], []);
    } else {
      var n := |acts| - 1;
      var h0 := RunsAreSafe(ring, span, budget, p, acts[..n]);
      h := StepKeeps(Exec(s, span, budget, acts[..n]), span, budget, h0, acts[n]);
    }
  }

  /** Commands left of n after k drains of at most `budget` each. */
  function Remaining(n: nat, budget: nat, k: nat): nat {
    if k == 0 then n else
    var r := Remaining(n, budget, k - 1);
    if r < budget then 0 else r - budget
  }

  lemma {:induction false} RemainingIs(n: nat, budget: nat, k: nat)
    ensures Remaining(n, budget, k) == if n <= budget * k then 0 else n - budget * k
  {
    if k > 0 {
      RemainingIs(n, budget, k - 1);
      assert budget * k == budget * (k - 1) + budget;
    }
  }

  /** The doorbells of a host whose reads work. */
  ghost predicate Working(bells: seq<Act>, ring: seq<nat>, span: nat)
    requires ring != [] && span > 0
  {
    forall i :: 0 <= i < |bells| ==>
      bells[i].Doorbell? && Reliable(bells[i].read) && Backed(bells[i].read, Circ(ring), |ring|, span)
  }

  /** A host whose reads work catches up: each doorbell takes up to `budget` commands. */
  lemma {:induction false} CatchesUp(s: System, span: nat, budget: nat, h: History, bells: seq<Act>)
    returns (h': History)
    requires Inv(s, span, h) && Working(bells, s.ring, span)
    ensures Inv(Exec(s, span, budget, bells), span, h') && h'.produced == h.produced
    ensures |h'.pending| == Remaining(|h.pending|, budget, |bells|)
    decreases |bells|
  {
    h' := h;
    if bells != [] {
      var n := |bells| - 1;
      h' := CatchesUp(s, span, budget, h, bells[..n]);
      TailStays(s, span, budget, bells[..n]);
      h' := OneMore(Exec(s, span, budget, bells[..n]), span, budget, h', bells[n]);
    }
  }

  lemma OneMore(s: System, span: nat, budget: nat, h: History, bell: Act) returns (h': History)
    requires Inv(s, span, h) && bell.Doorbell? && Reliable(bell.read) && Backed(bell.read, Circ(s.ring), |s.ring|, span)
    ensures Inv(Next(s, span, budget, bell), span, h') && h'.produced == h.produced
    ensures |h'.pending| == if |h.pending| < budget then 0 else |h.pending| - budget
  {
    var k := DoorbellKeeps(s, span, budget, h, bell.read);
    h' := History(h.p + Total(h.pending[..k]), h.pending[k..], h.produced);
  }

  /** ALL IS DISPATCHED after enough working doorbells: every produced command once, in
      order, and the read pointer has reached the write pointer. */
  lemma AllDispatched(s: System, span: nat, budget: nat, h: History, bells: seq<Act>)
    requires Inv(s, span, h) && Working(bells, s.ring, span) && |h.pending| <= budget * |bells|
    ensures Exec(s, span, budget, bells).log == h.produced && Exec(s, span, budget, bells).rp == s.tail
  {
    var h' := CatchesUp(s, span, budget, h, bells);
    RemainingIs(|h.pending|, budget, |bells|);
    TailStays(s, span, budget, bells);
    var e := Exec(s, span, budget, bells);
    assert e.log + [] == e.log;
  }

  lemma {:induction false} TailStays(s: System, span: nat, budget: nat, bells: seq<Act>)
    requires s.ring != [] && span > 0 && forall i :: 0 <= i < |bells| ==> bells[i].Doorbell?
    ensures Exec(s, span, budget, bells).tail == s.tail && Exec(s, span, budget, bells).ring == s.ring
    decreases |bells|
  {
    if bells != [] { TailStays(s, span, budget, bells[..|bells| - 1]); }
  }
}
