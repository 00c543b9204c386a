/** The host side of the rings: wrap-aware reads of the root channel's contiguous ring,
    page-by-page gathering for compute channels, the drain loops, and the registers that
    set the ring's geometry. */
module RingHost {
  import opened Wrappers
  import opened Ring
  import opened RingProtocol

  const PAGE: nat := 0x1000
  const COMPUTE_RING_SIZE: nat := 0x1_0000
  const DISPLAY_RING_SIZE: nat := 0x1000

  /** A DMA read of guest memory: address and length. */
  type Dma = (nat, nat) -> Option<seq<nat>>

  /** Reads that succeed give the bytes of memory. */
  ghost predicate Honest(dma: Dma, mem: Content) {
    forall g: nat, n: nat {:trigger dma(g, n)} :: dma(g, n).Some? ==> dma(g, n).value == Slice(mem, g, n)
  }

  // ----- the root channel: one contiguous ring -----

  function Join(a: Option<seq<nat>>, b: Option<seq<nat>>): Option<seq<nat>> {
    if a.None? || b.None? then None else Some(a.value + b.value)
  }

  /** n bytes at a pointer: one read, or two when they pass the end of the ring. */
  function WrappedAt(dma: Dma, base: nat, size: nat, rp: nat, n: nat): Option<seq<nat>>
    requires size > 0
  {
    var r := rp % size;
    var head := size - r;
    if head >= n then dma(base + r, n) else Join(dma(base + r, head), dma(base, n - head))
  }

  function RootReader(dma: Dma, base: nat, size: nat): RingReader
    requires size > 0
  {
    (rp: nat, n: nat) => WrappedAt(dma, base, size, rp, n)
  }

  function RootContent(mem: Content, base: nat, size: nat): Content
    requires size > 0
  {
    (x: nat) => mem(base + x % size)
  }

  lemma RootBacked(dma: Dma, mem: Content, base: nat, size: nat)
    requires size > 0 && Honest(dma, mem)
    ensures Backed(RootReader(dma, base, size), RootContent(mem, base, size), size, size)
  {
    var read, at := RootReader(dma, base, size), RootContent(mem, base, size);
    forall p: nat, n: nat | n <= size && read(p % size, n).Some? ensures read(p % size, n).value == Slice(at, p, n) {
      WrappedIs(dma, mem, base, size, p, n);
    }
  }

  lemma WrappedIs(dma: Dma, mem: Content, base: nat, size: nat, p: nat, n: nat)
    requires size > 0 && Honest(dma, mem) && n <= size && WrappedAt(dma, base, size, p % size, n).Some?
    ensures WrappedAt(dma, base, size, p % size, n).value == Slice(RootContent(mem, base, size), p, n)
  {
    var r := p % size;
    ModUnique(r, size, 0, r);
    var x, y := WrappedAt(dma, base, size, r, n).value, Slice(RootContent(mem, base, size), p, n);
    forall i | 0 <= i < n ensures x[i] == y[i] { ModAdd(p, i, size); }
  }

  // ----- compute channels: a ring of scattered pages -----

  /** The address of ring offset `off`, through the ring's page table. */
  function ResolveAt(dma: Dma, table: nat, size: nat, off: nat): Option<nat>
    requires size > 0
  {
    var o := off % size;
    match dma(table + 4 * (o / PAGE), 4)
    case None => None
    case Some(b) =>
      if |b| != 4 then None else
      var pfn := Get32(b, 0);
      if pfn == 0 then None else Some(pfn * PAGE + o % PAGE)
  }

  /** Collect n bytes from offset `off`, up to a page end at a time, `done` so far. */
  function GatherFrom(dma: Dma, table: nat, size: nat, off: nat, n: nat, done: seq<nat>): Option<seq<nat>>
    requires size > 0
    decreases n - |done|
  {
    if |done| >= n then Some(done) else
    match ResolveAt(dma, table, size, (off + |done|) % WORD)
    case None => None
    case Some(gpa) =>
      var len := ChunkLength(gpa, n - |done|);
      match dma(gpa, len)
      case None => None
      case Some(b) => if |b| != len then None else GatherFrom(dma, table, size, off, n, done + b)
  }

  function ChunkLength(gpa: nat, left: nat): (k: nat)
    requires left > 0
    ensures 0 < k <= left && gpa % PAGE + k <= PAGE
  {
    var room := PAGE - gpa % PAGE;
    if room > left then left else room
  }

  function ChannelReader(dma: Dma, table: nat, size: nat): RingReader
    requires size > 0
  {
    (rp: nat, n: nat) => GatherFrom(dma, table, size, rp, n, [])
  }

  /** The byte at a position of the ring: the page comes from the table in memory. */
  function ChannelContent(mem: Content, table: nat, size: nat): Content
    requires size > 0
  {
    (x: nat) => RingByte(mem, table, x % size)
  }

  /** The page number in entry q of the ring's page table. */
  function PageNumber(mem: Content, table: nat, q: nat): nat { Get32(Slice(mem, table + 4 * q, 4), 0) }

  function RingByte(mem: Content, table: nat, o: nat): nat { mem(PageNumber(mem, table, o / PAGE) * PAGE + o % PAGE) }

  /** Offsets in one page resolve to one run of addresses. */
  lemma SamePage(x: nat, i: nat, size: nat)
    requires size > 0 && size % PAGE == 0 && x % size % PAGE + i < PAGE
    ensures (x + i) % size == x % size + i && (x + i) % size / PAGE == x % size / PAGE
    ensures (x + i) % size % PAGE == x % size % PAGE + i
  {
    var o := x % size;
    var k, q := size / PAGE, o / PAGE;
    assert o == PAGE * q + o % PAGE && size == PAGE * k;
    Room(k, q, o, size);
    ModAdd(x, i, size);
    ModUnique(o + i, PAGE, q, o % PAGE + i);
  }

  lemma Room(k: nat, q: nat, o: nat, size: nat)
    requires size == PAGE * k && o < size && PAGE * q <= o
    ensures PAGE * q + PAGE <= size
  {
  }

  lemma ChunkByte(mem: Content, table: nat, size: nat, x: nat, pfn: nat, i: nat, r: nat)
    requires size > 0 && size % PAGE == 0 && r == x % size % PAGE && r + i < PAGE
    requires pfn == PageNumber(mem, table, x % size / PAGE)
    ensures ChannelContent(mem, table, size)(x + i) == mem(pfn * PAGE + (r + i))
  {
    SamePage(x, i, size);
  }

  /** A chunk is the ring's bytes from x on. */
  lemma ChunkIs(dma: Dma, mem: Content, table: nat, size: nat, x: nat, gpa: nat, len: nat, at: Content)
    requires size > 0 && size % PAGE == 0 && Honest(dma, mem) && ResolveAt(dma, table, size, x) == Some(gpa)
    requires gpa % PAGE + len <= PAGE
    requires at == ChannelContent(mem, table, size)
    ensures Slice(mem, gpa, len) == Slice(at, x, len)
  {
    var s, t := Slice(mem, gpa, len), Slice(at, x, len);
    var pfn, r := PageOf(dma, mem, table, size, x, gpa);
    forall i | 0 <= i < len ensures s[i] == t[i] { ChunkByte(mem, table, size, x, pfn, i, r); }
  }

  lemma PageOf(dma: Dma, mem: Content, table: nat, size: nat, x: nat, gpa: nat) returns (pfn: nat, r: nat)
    requires size > 0 && Honest(dma, mem) && ResolveAt(dma, table, size, x) == Some(gpa)
    ensures pfn == PageNumber(mem, table, x % size / PAGE) && r == x % size % PAGE && gpa == pfn * PAGE + r
    ensures gpa % PAGE == r
  {
    pfn, r := PageNumber(mem, table, x % size / PAGE), x % size % PAGE;
    assert dma(table + 4 * (x % size / PAGE), 4).Some?;
    ModUnique(gpa, PAGE, pfn, r);
  }

  /** Content that repeats every `size` positions. */
  ghost predicate Periodic(at: Content, size: nat)
    requires size > 0
  {
    forall x: nat :: at(x) == at(x % size)
  }

  lemma ChannelPeriodic(mem: Content, table: nat, size: nat)
    requires size > 0
    ensures Periodic(ChannelContent(mem, table, size), size)
  {
    forall x: nat ensures ChannelContent(mem, table, size)(x) == ChannelContent(mem, table, size)(x % size) {
      ModUnique(x % size, size, 0, x % size);
    }
  }

  lemma RootPeriodic(mem: Content, base: nat, size: nat)
    requires size > 0
    ensures Periodic(RootContent(mem, base, size), size)
  {
    forall x: nat ensures RootContent(mem, base, size)(x) == RootContent(mem, base, size)(x % size) {
      ModUnique(x % size, size, 0, x % size);
    }
  }

  /** An absolute pointer wraps at 2^32, and names the same bytes, since the size divides it. */
  lemma ContentWraps(at: Content, size: nat, x: nat, n: nat)
    requires size > 0 && WORD % size == 0 && Periodic(at, size)
    ensures Slice(at, x % WORD, n) == Slice(at, x, n)
  {
    var s, t := Slice(at, x % WORD, n), Slice(at, x, n);
    forall i | 0 <= i < n ensures s[i] == t[i] {
      PositionWraps(x, i, size);
      assert at(x % WORD + i) == at((x % WORD + i) % size) && at(x + i) == at((x + i) % size);
    }
  }

  lemma PositionWraps(x: nat, i: nat, size: nat)
    requires size > 0 && WORD % size == 0
    ensures (x % WORD + i) % size == (x + i) % size
  {
    ModAdd(x, i, WORD);
    ModOfMod(x % WORD + i, WORD, size);
    ModOfMod(x + i, WORD, size);
  }

  /** GATHERING is the per-byte circular read, over pages that need not be contiguous and
      also when the absolute pointer wraps. */
  lemma {:induction false} GatherIs(dma: Dma, mem: Content, table: nat, size: nat, off: nat, n: nat, done: seq<nat>,
                                at: Content)
    requires size > 0 && size % PAGE == 0 && WORD % size == 0 && Honest(dma, mem) && |done| <= n
    requires at == ChannelContent(mem, table, size)
    requires done == Slice(at, off, |done|) && GatherFrom(dma, table, size, off, n, done).Some?
    ensures GatherFrom(dma, table, size, off, n, done).value == Slice(at, off, n)
    decreases n - |done|
  {
    if |done| < n {
      var b := NextChunk(dma, mem, table, size, off, n, done, at);
      GatherIs(dma, mem, table, size, off, n, done + b, at);
    }
  }

  lemma NextChunk(dma: Dma, mem: Content, table: nat, size: nat, off: nat, n: nat, done: seq<nat>, at: Content)
    returns (b: seq<nat>)
    requires size > 0 && size % PAGE == 0 && WORD % size == 0 && Honest(dma, mem) && |done| < n
    requires at == ChannelContent(mem, table, size)
    requires done == Slice(at, off, |done|) && GatherFrom(dma, table, size, off, n, done).Some?
    ensures 0 < |b| <= n - |done| && done + b == Slice(at, off, |done + b|)
    ensures GatherFrom(dma, table, size, off, n, done) == GatherFrom(dma, table, size, off, n, done + b)
  {
    var gpa;
    gpa, b := GatherTurn(dma, table, size, off, n, done);
    ChunkIs(dma, mem, table, size, (off + |done|) % WORD, gpa, |b|, at);
    ChannelPeriodic(mem, table, size);
    JoinChunk(at, size, off, done, b);
  }

  lemma GatherTurn(dma: Dma, table: nat, size: nat, off: nat, n: nat, done: seq<nat>) returns (gpa: nat, b: seq<nat>)
    requires size > 0 && |done| < n && GatherFrom(dma, table, size, off, n, done).Some?
    ensures ResolveAt(dma, table, size, (off + |done|) % WORD) == Some(gpa) && dma(gpa, |b|) == Some(b)
    ensures 0 < |b| <= n - |done| && gpa % PAGE + |b| <= PAGE
    ensures GatherFrom(dma, table, size, off, n, done) == GatherFrom(dma, table, size, off, n, done + b)
  {
    gpa := ResolveAt(dma, table, size, (off + |done|) % WORD).value;
    b := dma(gpa, ChunkLength(gpa, n - |done|)).value;
  }

  lemma JoinChunk(at: Content, size: nat, off: nat, done: seq<nat>, b: seq<nat>)
    requires size > 0 && WORD % size == 0 && Periodic(at, size) && done == Slice(at, off, |done|)
    requires b == Slice(at, (off + |done|) % WORD, |b|)
    ensures done + b == Slice(at, off, |done + b|)
  {
    ContentWraps(at, size, off + |done|, |b|);
    SliceJoin(at, off, |done|, |b|);
  }

  lemma SliceJoin(at: Content, p: nat, k: nat, len: nat)
    ensures Slice(at, p, k) + Slice(at, p + k, len) == Slice(at, p, k + len)
  {
    var x, y := Slice(at, p, k) + Slice(at, p + k, len), Slice(at, p, k + len);
    assert forall i :: 0 <= i < |y| ==> x[i] == y[i];
  }

  lemma ChannelBacked(dma: Dma, mem: Content, table: nat, size: nat)
    requires size > 0 && size % PAGE == 0 && WORD % size == 0 && Honest(dma, mem)
    ensures Backed(ChannelReader(dma, table, size), ChannelContent(mem, table, size), size, WORD)
  {
    var read, at := ChannelReader(dma, table, size), ChannelContent(mem, table, size);
    forall p: nat, n: nat | n <= size && read(p % WORD, n).Some? ensures read(p % WORD, n).value == Slice(at, p, n) {
      GatherIs(dma, mem, table, size, p % WORD, n, [], at);
      ChannelPeriodic(mem, table, size);
      ContentWraps(at, size, p, n);
    }
  }

  // ----- content as ring memory -----

  /** Content that repeats with the ring is the content of a ring. */
  function RingOf(at: Content, size: nat): seq<nat> { seq(size, (j: nat) => at(j)) }

  lemma BackedByRing(read: RingReader, at: Content, size: nat, span: nat)
    requires size > 0 && span > 0 && Backed(read, at, size, span) && Periodic(at, size)
    ensures Backed(read, Circ(RingOf(at, size)), size, span)
  {
    var ring := RingOf(at, size);
    forall p: nat, n: nat | n <= size && read(p % span, n).Some?
      ensures read(p % span, n).value == Slice(Circ(ring), p, n)
    {
      var s, t := Slice(Circ(ring), p, n), Slice(at, p, n);
      forall i | 0 <= i < n ensures s[i] == t[i] { assert at(p + i) == at((p + i) % size); }
      assert s == t;
    }
  }

  /** The root channel's reads are backed by the ring in guest memory, so its drains are
      doorbell steps of the protocol, with pointers modulo the ring's size. */
  lemma RootIsRing(dma: Dma, mem: Content, base: nat, size: nat)
    requires size > 0 && Honest(dma, mem)
    ensures Backed(RootReader(dma, base, size), Circ(RingOf(RootContent(mem, base, size), size)), size, size)
  {
    RootBacked(dma, mem, base, size);
    RootPeriodic(mem, base, size);
    BackedByRing(RootReader(dma, base, size), RootContent(mem, base, size), size, size);
  }

  /** And so are those of a compute or display channel, with pointers modulo 2^32. */
  lemma ChannelIsRing(dma: Dma, mem: Content, table: nat, size: nat)
    requires Honest(dma, mem) && size > 0 && size % PAGE == 0 && WORD % size == 0
    ensures Backed(ChannelReader(dma, table, size), Circ(RingOf(ChannelContent(mem, table, size), size)), size, WORD)
  {
    ChannelBacked(dma, mem, table, size);
    ChannelPeriodic(mem, table, size);
    BackedByRing(ChannelReader(dma, table, size), ChannelContent(mem, table, size), size, WORD);
  }

  // ----- the drains -----

  method ReadWrapped(dma: Dma, base: nat, size: nat, rp: nat, n: nat) returns (r: Option<seq<nat>>)
    requires size > 0
    ensures r == WrappedAt(dma, base, size, rp, n)
  {
    var p := rp % size;
    var head := size - p;
    if head >= n { return dma(base + p, n); }
    var first := dma(base + p, head);
    if first.None? { return None; }
    var second := dma(base, n - head);
    if second.None? { return None; }
    return Some(first.value + second.value);
  }

  method Gather(dma: Dma, table: nat, size: nat, off: nat, n: nat) returns (r: Option<seq<nat>>)
    requires size > 0
    ensures r == GatherFrom(dma, table, size, off, n, [])
  {
    var done: seq<nat> := [];
    while |done| < n
      invariant GatherFrom(dma, table, size, off, n, []) == GatherFrom(dma, table, size, off, n, done)
      decreases n - |done|
    {
      var gpa := ResolveAt(dma, table, size, (off + |done|) % WORD);
      if gpa.None? { return None; }
      var inPage := gpa.value % PAGE;
      var len := PAGE - inPage;
      if len > n - |done| { len := n - |done|; }
      var b := dma(gpa.value, len);
      if b.None? || |b.value| != len { return None; }
      done := done + b.value;
    }
    return Some(done);
  }

  /** Header, length checks, then the whole command. */
  method RootCommand(dma: Dma, base: nat, size: nat, rp: nat) returns (c: Option<Cmd>)
    requires size > 0
    ensures c == CommandAt(RootReader(dma, base, size), size, rp)
  {
    var h := ReadWrapped(dma, base, size, rp, HEADER_BYTES);
    if h.None? || |h.value| != HEADER_BYTES { return None; }
    var length := Get32(h.value, 4);
    if length < HEADER_BYTES || length > MAX_CMD_BYTES || length > size { return None; }
    var b := ReadWrapped(dma, base, size, rp, length);
    if b.None? || |b.value| != length { return None; }
    return Some(Cmd(Get16(h.value, 0), Get16(h.value, 2), Get32(h.value, 8), b.value[HEADER_BYTES..]));
  }

  method ChannelCommand(dma: Dma, table: nat, size: nat, rp: nat) returns (c: Option<Cmd>)
    requires size > 0
    ensures c == CommandAt(ChannelReader(dma, table, size), size, rp)
  {
    var h := Gather(dma, table, size, rp, HEADER_BYTES);
    if h.None? || |h.value| != HEADER_BYTES { return None; }
    var length := Get32(h.value, 4);
    if length < HEADER_BYTES || length > MAX_CMD_BYTES || length > size { return None; }
    var b := Gather(dma, table, size, rp, length);
    if b.None? || |b.value| != length { return None; }
    return Some(Cmd(Get16(h.value, 0), Get16(h.value, 2), Get32(h.value, 8), b.value[HEADER_BYTES..]));
  }

  /** A drain in progress. */
  function Joined(log: seq<Cmd>, d: Drained): Drained { Drained(d.rp, log + d.log) }

  lemma JoinedNext(find: Finder, span: nat, rp: nat, wp: nat, budget: nat, log: seq<Cmd>, c: Cmd)
    requires span > 0 && budget > 0 && rp != wp && find(rp) == Some(c)
    ensures Joined(log, Drain(find, span, rp, wp, budget))
            == Joined(log + [c], Drain(find, span, (rp + c.Length()) % span, wp, budget - 1))
  {
    var d := Drain(find, span, (rp + c.Length()) % span, wp, budget - 1);
    assert log + ([c] + d.log) == log + [c] + d.log;
  }

  lemma JoinedStop(find: Finder, span: nat, rp: nat, wp: nat, budget: nat, log: seq<Cmd>)
    requires span > 0 && (budget == 0 || rp == wp || find(rp) == None)
    ensures Joined(log, Drain(find, span, rp, wp, budget)) == Drained(rp, log)
  {
    assert log + [] == log;
  }

  /** A marker that makes a command at a pointer visible to a proof. */
  ghost predicate Mark(rp: nat) { true }

  /** find is the search with this reader; used where a proof must not look into it. */
  ghost predicate Searches(find: Finder, read: RingReader, size: nat) {
    forall rp: nat {:trigger Mark(rp)} :: find(rp) == CommandAt(read, size, rp)
  }

  method ChannelFind(dma: Dma, table: nat, size: nat, rp: nat, ghost find: Finder) returns (c: Option<Cmd>)
    requires size > 0 && Searches(find, ChannelReader(dma, table, size), size)
    ensures c == find(rp)
  {
    assert Mark(rp);
    c := ChannelCommand(dma, table, size, rp);
  }

  /** The drain of a compute channel, from the descriptor's pointers; the new read pointer
      is what gets published. */
  method ChannelLoop(dma: Dma, table: nat, size: nat, rp0: nat, wp: nat, max: nat, ghost find: Finder)
    returns (rp: nat, log: seq<Cmd>)
    requires size > 0 && Searches(find, ChannelReader(dma, table, size), size)
    ensures Drained(rp, log) == Drain(find, WORD, rp0, wp, max)
  {
    rp, log := rp0, [];
    var i := 0;
    ghost var whole := Drain(find, WORD, rp0, wp, max);
    assert whole == Joined([], whole) by { assert [] + whole.log == whole.log; }
    while i < max
      invariant i <= max && whole == Joined(log, Drain(find, WORD, rp, wp, max - i))
    {
      if rp == wp { break; }
      var c := ChannelFind(dma, table, size, rp, find);
      if c.None? { break; }
      JoinedNext(find, WORD, rp, wp, max - i, log, c.value);
      log := log + [c.value];
      rp := (rp + c.value.Length()) % WORD;
      i := i + 1;
    }
    JoinedStop(find, WORD, rp, wp, max - i, log);
  }

  /** A channel's descriptor in the shared page: its own address, the two pointers, and the
      page table of its ring. */
  datatype Descriptor = Descriptor(gpa: nat, wp: nat, rp: nat, table: nat)

  const DESC_BASE: nat := 0x400
  const DESC_BYTES: nat := 20

  function DescriptorAt(dma: Dma, sharedPfn: nat, chan: nat): Option<Descriptor> {
    if sharedPfn == 0 || chan == 0 then None else
    var gpa := sharedPfn * PAGE + DESC_BASE + (chan - 1) * DESC_BYTES;
    match dma(gpa, DESC_BYTES)
    case None => None
    case Some(d) =>
      if |d| != DESC_BYTES || Get32(d, 16) == 0 then None
      else Some(Descriptor(gpa, Get32(d, 0), Get32(d, 4), Get32(d, 16) * PAGE))
  }

  /** What a drain of a channel does: commands dispatched, stamps completed, and the read
      pointer published, with its address. */
  datatype Drainage = Drainage(log: seq<Cmd>, stamps: seq<nat>, published: Option<(nat, nat)>)

  const NOTHING := Drainage([], [], None)

  function DrainDescribed(dma: Dma, d: Descriptor, size: nat, max: nat): Drainage
    requires size > 0
  {
    var r := Drain(FinderOf(ChannelReader(dma, d.table, size), size), WORD, d.rp, d.wp, max);
    Drainage(r.log, Stamps(r.log), Some((d.gpa + 4, r.rp)))
  }

  function DrainChannel(dma: Dma, sharedPfn: nat, chan: nat, size: nat, max: nat): Drainage
    requires size > 0
  {
    match DescriptorAt(dma, sharedPfn, chan)
    case None => NOTHING
    case Some(d) => if d.wp == d.rp then NOTHING else DrainDescribed(dma, d, size, max)
  }

  /** The ring size of the channels that have a descriptor: 1 to 4 compute, 5 to 15 display. */
  function RingSize(chan: nat): Option<nat> {
    if 1 <= chan <= 4 then Some(COMPUTE_RING_SIZE) else if 5 <= chan <= 15 then Some(DISPLAY_RING_SIZE) else None
  }

  /** What ringing for a channel other than the root drains. */
  function Rung(dma: Dma, sharedPfn: nat, chan: nat, max: nat): Drainage {
    match RingSize(chan)
    case None => NOTHING
    case Some(size) => DrainChannel(dma, sharedPfn, chan, size, max)
  }

  method ReadDescriptor(dma: Dma, sharedPfn: nat, chan: nat) returns (d: Option<Descriptor>)
    ensures d == DescriptorAt(dma, sharedPfn, chan)
  {
    if sharedPfn == 0 || chan == 0 { return None; }
    var gpa := sharedPfn * PAGE + DESC_BASE + (chan - 1) * DESC_BYTES;
    var b := dma(gpa, DESC_BYTES);
    if b.None? || |b.value| != DESC_BYTES { return None; }
    var pfn := Get32(b.value, 16);
    if pfn == 0 { return None; }
    return Some(Descriptor(gpa, Get32(b.value, 0), Get32(b.value, 4), pfn * PAGE));
  }

  method ChannelDrain(dma: Dma, sharedPfn: nat, chan: nat, size: nat, max: nat) returns (r: Drainage)
    requires size > 0
    ensures r == DrainChannel(dma, sharedPfn, chan, size, max)
  {
    var d := ReadDescriptor(dma, sharedPfn, chan);
    if d.None? || d.value.wp == d.value.rp { return NOTHING; }
    r := DrainRingAt(dma, d.value, size, max);
  }

  method DrainRingAt(dma: Dma, d: Descriptor, size: nat, max: nat) returns (r: Drainage)
    requires size > 0
    ensures r == DrainDescribed(dma, d, size, max)
  {
    var rp, log := ChannelLoop(dma, d.table, size, d.rp, d.wp, max, FinderOf(ChannelReader(dma, d.table, size), size));
    r := Drainage(log, Stamps(log), Some((d.gpa + 4, rp)));
  }

  /** Four bytes of memory, low byte first. */
  function Word(mem: Content, g: nat): nat {
    mem(g) + 256 * mem(g + 1) + 0x1_0000 * mem(g + 2) + 0x100_0000 * mem(g + 3)
  }

  /** A DESCRIPTOR, byte by byte: 20 bytes per channel from 0x400 of the shared page on; the
      write pointer, the read pointer, and at 16 the page of the ring's page table. */
  lemma DescriptorIs(dma: Dma, mem: Content, sharedPfn: nat, chan: nat)
    requires Honest(dma, mem) && chan > 0
    ensures var g, d := 4096 * sharedPfn + 0x400 + 20 * (chan - 1), DescriptorAt(dma, sharedPfn, chan);
            && (d.Some? <==> sharedPfn != 0 && dma(g, 20).Some? && Word(mem, g + 16) != 0)
            && (d.Some? ==> d.value == Descriptor(g, Word(mem, g), Word(mem, g + 4), 4096 * Word(mem, g + 16)))
  {
    var g := 4096 * sharedPfn + 0x400 + 20 * (chan - 1);
    assert DescriptorAt(dma, sharedPfn, chan) == if sharedPfn == 0 then None else Described(g, dma(g, 20));
    if dma(g, 20).Some? {
      assert dma(g, 20).value == Slice(mem, g, 20);
      DescribedIs(mem, g);
    }
  }

  function Described(g: nat, b: Option<seq<nat>>): Option<Descriptor> {
    if b.None? || |b.value| != 20 || Get32(b.value, 16) == 0 then None
    else Some(Descriptor(g, Get32(b.value, 0), Get32(b.value, 4), Get32(b.value, 16) * 4096))
  }

  lemma DescribedIs(mem: Content, g: nat)
    ensures Described(g, Some(Slice(mem, g, 20)))
         == if Word(mem, g + 16) == 0 then None
            else Some(Descriptor(g, Word(mem, g), Word(mem, g + 4), 4096 * Word(mem, g + 16)))
  {
    WordOf(mem, g, 20, 0);
    WordOf(mem, g, 20, 4);
    WordOf(mem, g, 20, 16);
  }

  lemma WordOf(mem: Content, g: nat, n: nat, i: nat)
    requires i + 4 <= n
    ensures Get32(Slice(mem, g, n), i) == Word(mem, g + i)
  {
  }

  /** A CHANNEL'S DRAIN IS SAFE, AND USEFUL: with reads that do not lie and a descriptor that
      shows the two pointers, it dispatches a prefix of the pending commands, and what it
      publishes, behind the write pointer in the descriptor, is the read pointer under which
      the protocol invariant holds again.  When no read fails and the page table is filled in,
      the prefix is all that is pending, up to the budget. */
  lemma ChannelDrainIsSafe(dma: Dma, mem: Content, sharedPfn: nat, chan: nat, s: System, max: nat, h: History)
    returns (k: nat)
    requires Honest(dma, mem) && 1 <= chan <= 15 && DescriptorAt(dma, sharedPfn, chan).Some?
    requires var d := DescriptorAt(dma, sharedPfn, chan).value;
             && s.rp == d.rp && s.tail == d.wp && d.rp != d.wp
             && s.ring == RingOf(ChannelContent(mem, d.table, RingSize(chan).value), RingSize(chan).value)
    requires Inv(s, WORD, h)
    ensures k <= |h.pending| && k <= max
    ensures Working(dma) && Mapped(mem, DescriptorAt(dma, sharedPfn, chan).value.table, RingSize(chan).value) ==>
              k == if |h.pending| < max then |h.pending| else max
    ensures var r := Rung(dma, sharedPfn, chan, max);
            && r.log == h.pending[..k]
            && r.published.Some? && r.published.value.0 == 4096 * sharedPfn + 0x404 + 20 * (chan - 1)
            && Inv(s.(rp := r.published.value.1, log := s.log + r.log), WORD,
                   History(h.p + Total(h.pending[..k]), h.pending[k..], h.produced))
  {
    var d, size := DescriptorAt(dma, sharedPfn, chan).value, RingSize(chan).value;
    ChannelIsRing(dma, mem, d.table, size);
    if Working(dma) && Mapped(mem, d.table, size) { ChannelReliable(dma, mem, d.table, size); }
    k := BackedDrain(s, WORD, max, h, ChannelReader(dma, d.table, size));
  }

  // ----- registers and the root channel -----

  /** What the geometry registers determine. */
  datatype Geometry = Geometry(size: nat, start: nat, pfn: nat, base: nat)

  const REG_SIZE: nat := 0x1004
  const REG_START: nat := 0x1010
  const REG_PFN: nat := 0x1030

  function Written(g: Geometry, reg: nat, v: nat): Geometry {
    if reg == REG_SIZE then g.(size := if v != 0 then v else 0x1_0000)
    else if reg == REG_START then g.(start := v, base := g.pfn * PAGE + v)
    else if reg == REG_PFN then
      g.(pfn := v, base := v * PAGE + g.start, size := if g.size == 0 then 0x1_0000 else g.size)
    else g
  }

  /** The geometry registers, by number: a size of 0 means 64 KiB, and a page number sets that
      size too when none was set. */
  lemma GeometryIs(g: Geometry, reg: nat, v: nat)
    ensures var h := Written(g, reg, v);
            && h.start == (if reg == 0x1010 then v else g.start) && h.pfn == (if reg == 0x1030 then v else g.pfn)
            && h.base == (if reg == 0x1010 || reg == 0x1030 then 4096 * h.pfn + h.start else g.base)
            && h.size == (if reg == 0x1004 then if v == 0 then 0x1_0000 else v
                          else if reg == 0x1030 && g.size == 0 then 0x1_0000 else g.size)
  {
  }

  /** The ring base does not depend on the order of the two writes that set it. */
  lemma GeometryOrder(g: Geometry, start: nat, pfn: nat)
    ensures Written(Written(g, REG_START, start), REG_PFN, pfn) == Written(Written(g, REG_PFN, pfn), REG_START, start)
    ensures Written(Written(g, REG_START, start), REG_PFN, pfn).base == pfn * PAGE + start
  {
  }

  /** The shadow cell of a register: 16 of them, at 0x1000 to 0x103f. */
  function RegIndex(reg: nat): Option<nat> {
    if reg < 0x1000 || reg >= 0x2000 || reg % 0x1000 / 4 >= 16 then None else Some(reg % 0x1000 / 4)
  }

  function Shadowed(shadow: seq<nat>, reg: nat, v: nat): (r: seq<nat>)
    requires |shadow| == 16
    ensures |r| == 16 && forall j :: 0 <= j < 16 ==> r[j] == if reg / 4 == 0x400 + j then v else shadow[j]
  {
    if RegIndex(reg).Some? then shadow[RegIndex(reg).value := v] else shadow
  }

  class Protocol {
    var shadow: seq<nat>
    var sharedPfn: nat
    var channel: nat
    var armed: bool
    var geometry: Geometry
    var readPtr: nat
    var writePtr: nat
    var log: seq<Cmd>
    var stamps: seq<nat>
    const maxCmds: nat

    constructor ()
      ensures |shadow| == 16 && (forall j :: 0 <= j < 16 ==> shadow[j] == if j == 0 then 1 else 0)
      ensures sharedPfn == channel == 0
      ensures !armed && geometry == Geometry(0, 0, 0, 0) && readPtr == writePtr == 0 && log == [] && stamps == []
      ensures maxCmds == 128
    {
      shadow, sharedPfn, channel := seq(16, i => if i == 0 then 1 else 0), 0, 0;
      armed, geometry, readPtr, writePtr, log, stamps := false, Geometry(0, 0, 0, 0), 0, 0, [], [];
      maxCmds := DRAIN_MAX_CMDS;
    }

    ghost predicate Ready()
      reads this
    {
      armed && geometry.size != 0 && geometry.base != 0
    }

    /** Find the next command, dispatch it, complete its stamp and move on. */
    method DrainOne(dma: Dma, ghost find: Finder) returns (ok: bool, ghost c: Cmd)
      requires Ready() && Searches(find, RootReader(dma, geometry.base, geometry.size), geometry.size)
      modifies this`readPtr, this`log, this`stamps
      ensures if ok then find(old(readPtr)) == Some(c) && readPtr == (old(readPtr) + c.Length()) % geometry.size
                         && log == old(log) + [c] && stamps == old(stamps) + [c.stamp]
              else find(old(readPtr)) == None && readPtr == old(readPtr) && log == old(log) && stamps == old(stamps)
    {
      assert Mark(readPtr);
      var r := RootCommand(dma, geometry.base, geometry.size, readPtr);
      c := Cmd(0, 0, 0, []);
      if r.None? { return false, c; }
      c := r.value;
      log := log + [r.value];
      stamps := stamps + [r.value.stamp];
      ModAdd(readPtr, r.value.Length(), geometry.size);
      readPtr := (readPtr % geometry.size + r.value.Length()) % geometry.size;
      ok := true;
    }

    method DrainLoop(dma: Dma, ghost find: Finder)
      requires Ready() && Searches(find, RootReader(dma, geometry.base, geometry.size), geometry.size)
      modifies this`readPtr, this`log, this`stamps
      ensures var d := Drain(find, geometry.size, old(readPtr), writePtr, maxCmds);
              readPtr == d.rp && log == old(log) + d.log && stamps == old(stamps) + Stamps(d.log)
    {
      var i := 0;
      ghost var span, done := geometry.size, [];
      ghost var whole := Drain(find, span, readPtr, writePtr, maxCmds);
      assert whole == Joined([], whole) by { assert [] + whole.log == whole.log; }
      while i < maxCmds
        invariant i <= maxCmds && whole == Joined(done, Drain(find, span, readPtr, writePtr, maxCmds - i))
        invariant log == old(log) + done && stamps == old(stamps) + Stamps(done)
      {
        if readPtr == writePtr { break; }
        ghost var rp := readPtr;
        ghost var c;
        var ok;
        ok, c := DrainOne(dma, find);
        if !ok { break; }
        JoinedNext(find, span, rp, writePtr, maxCmds - i, done, c);
        StampsNext(done, c);
        done := done + [c];
        i := i + 1;
      }
      JoinedStop(find, span, readPtr, writePtr, maxCmds - i, done);
    }

    method DrainRing(dma: Dma)
      requires Ready()
      modifies this`readPtr, this`log, this`stamps
      ensures var d := Drain(FinderOf(RootReader(dma, geometry.base, geometry.size), geometry.size), geometry.size,
              old(readPtr), writePtr, maxCmds);
              readPtr == d.rp && log == old(log) + d.log && stamps == old(stamps) + Stamps(d.log)
    {
      DrainLoop(dma, FinderOf(RootReader(dma, geometry.base, geometry.size), geometry.size));
    }

    /** The root channel as a system of the protocol, when the ring's contents are `ring`. */
    ghost function View(ring: seq<nat>): System
      reads this
    {
      System(ring, readPtr, writePtr, log)
    }

    /** Drain the root channel if it is set up: a doorbell step of the protocol. */
    method RingRoot(dma: Dma)
      modifies this`readPtr, this`log, this`stamps
      ensures !Ready() ==> readPtr == old(readPtr) && log == old(log) && stamps == old(stamps)
      ensures Ready() ==>
                && (forall ring: seq<nat> {:trigger View(ring)} :: |ring| == geometry.size ==>
                      View(ring) == RingProtocol.Next(System(ring, old(readPtr), writePtr, old(log)), geometry.size,
                                                      maxCmds,
                                                      Doorbell(RootReader(dma, geometry.base, geometry.size))))
                && old(log) <= log && stamps == old(stamps) + Stamps(log[|old(log)|..])
    {
      if armed && geometry.size != 0 && geometry.base != 0 { DrainRing(dma); }
    }

    /** A register write: the shadow, geometry, arming, the shared page, or one of the two
        doorbells.  Ringing for the root channel, with a new write pointer or by its number,
        is a step of the protocol; ringing for another channel drains that channel. */
    method HandleWrite(reg: nat, v: nat, dma: Dma) returns (r: Drainage)
      requires |shadow| == 16
      modifies this
      ensures shadow == Shadowed(old(shadow), reg, v)
      ensures armed == if reg == 0x1000 then v != 0 else old(armed)
      ensures sharedPfn == if reg == 0x101c then v else old(sharedPfn)
      ensures channel == if reg == 0x1008 then 0 else if reg == 0x1020 then v % 0x100 else old(channel)
      ensures geometry == Written(old(geometry), reg, v)
      ensures writePtr == if reg == 0x1008 then v else old(writePtr)
      ensures !(reg == 0x1008 || (reg == 0x1020 && v % 0x100 == 0)) || !old(Ready()) ==>
                readPtr == old(readPtr) && log == old(log) && stamps == old(stamps)
      ensures (reg == 0x1008 || (reg == 0x1020 && v % 0x100 == 0)) && old(Ready()) ==>
                && (forall ring: seq<nat> {:trigger View(ring)} :: |ring| == geometry.size ==>
                      View(ring) == RingProtocol.Next(System(ring, old(readPtr), writePtr, old(log)), geometry.size,
                                                      maxCmds,
                                                      Doorbell(RootReader(dma, geometry.base, geometry.size))))
                && old(log) <= log && stamps == old(stamps) + Stamps(log[|old(log)|..])
      ensures r == if reg == 0x1020 && 1 <= v % 0x100 <= 4 then
                     DrainChannel(dma, sharedPfn, v % 0x100, 0x1_0000, maxCmds)
                   else if reg == 0x1020 && 5 <= v % 0x100 <= 15 then
                     DrainChannel(dma, sharedPfn, v % 0x100, 0x1000, maxCmds)
                   else Drainage([], [], None)
    {
      r := NOTHING;
      shadow := Shadowed(shadow, reg, v);
      if reg == 0x1000 {
        armed := v != 0;
      } else if reg == 0x1008 {
        writePtr, channel := v, 0;
        RingRoot(dma);
      } else if reg == 0x101c {
        sharedPfn := v;
      } else if reg == 0x1020 {
        channel := v % 0x100;
        if channel == 0 {
          RingRoot(dma);
        } else if 1 <= channel <= 4 {
          r := ChannelDrain(dma, sharedPfn, channel, COMPUTE_RING_SIZE, maxCmds);
        } else if channel <= 15 {
          r := ChannelDrain(dma, sharedPfn, channel, DISPLAY_RING_SIZE, maxCmds);
        }
      } else {
        geometry := Written(geometry, reg, v);
      }
    }
  }

  /** DMA that succeeds everywhere. */
  ghost predicate Working(dma: Dma) { forall g: nat, n: nat :: dma(g, n).Some? }

  /** Reads of the root ring work when DMA does, also across the end of the ring. */
  lemma RootReliable(dma: Dma, base: nat, size: nat)
    requires size > 0 && Working(dma)
    ensures Reliable(RootReader(dma, base, size))
  {
    forall rp: nat, n: nat ensures RootReader(dma, base, size)(rp, n).Some? {
      assert WrappedAt(dma, base, size, rp, n).Some?;
    }
  }

  /** Every entry of the ring's page table names a page. */
  ghost predicate Mapped(mem: Content, table: nat, size: nat) {
    forall q: nat :: q * 4096 < size ==> PageNumber(mem, table, q) != 0
  }

  /** And those of a channel, when its page table is filled in. */
  lemma ChannelReliable(dma: Dma, mem: Content, table: nat, size: nat)
    requires size > 0 && Honest(dma, mem) && Working(dma) && Mapped(mem, table, size)
    ensures Reliable(ChannelReader(dma, table, size))
  {
    forall rp: nat, n: nat ensures ChannelReader(dma, table, size)(rp, n).Some? {
      GatherWorks(dma, mem, table, size, rp, n, []);
    }
  }

  lemma ResolveWorks(dma: Dma, mem: Content, table: nat, size: nat, off: nat)
    requires size > 0 && Honest(dma, mem) && Working(dma) && Mapped(mem, table, size)
    ensures ResolveAt(dma, table, size, off).Some?
  {
    var q := off % size / PAGE;
    assert q * 4096 <= off % size < size;
    assert dma(table + 4 * q, 4).value == Slice(mem, table + 4 * q, 4);
    assert PageNumber(mem, table, q) != 0;
  }

  lemma {:induction false} GatherWorks(dma: Dma, mem: Content, table: nat, size: nat, off: nat, n: nat, done: seq<nat>)
    requires size > 0 && Honest(dma, mem) && Working(dma) && Mapped(mem, table, size)
    ensures GatherFrom(dma, table, size, off, n, done).Some?
    decreases n - |done|
  {
    if |done| < n {
      ResolveWorks(dma, mem, table, size, (off + |done|) % WORD);
      var gpa := ResolveAt(dma, table, size, (off + |done|) % WORD).value;
      var len := ChunkLength(gpa, n - |done|);
      assert dma(gpa, len).value == Slice(mem, gpa, len);
      GatherWorks(dma, mem, table, size, off, n, done + dma(gpa, len).value);
    }
  }

  /** A DOORBELL IS SAFE, AND USEFUL: with reads that do not lie, ringing it with the guest's
      write pointer dispatches a prefix of the pending commands and keeps the protocol
      invariant: dispatched followed by pending is still what was produced.  When no read
      fails, the prefix is all that is pending, up to the budget. */
  lemma DoorbellIsSafe(dma: Dma, mem: Content, base: nat, s: System, budget: nat, h: History) returns (k: nat)
    requires Honest(dma, mem) && s.ring != [] && s.ring == RingOf(RootContent(mem, base, |s.ring|), |s.ring|)
    requires Inv(s, |s.ring|, h)
    ensures k <= |h.pending| && k <= budget
    ensures Working(dma) ==> k == if |h.pending| < budget then |h.pending| else budget
    ensures var s' := RingProtocol.Next(s, |s.ring|, budget, Doorbell(RootReader(dma, base, |s.ring|)));
            && s'.log == s.log + h.pending[..k]
            && Inv(s', |s.ring|, History(h.p + Total(h.pending[..k]), h.pending[k..], h.produced))
  {
    RootIsRing(dma, mem, base, |s.ring|);
    if Working(dma) { RootReliable(dma, base, |s.ring|); }
    k := BackedDrain(s, |s.ring|, budget, h, RootReader(dma, base, |s.ring|));
  }

  /** Doorbell after doorbell through the same DMA. */
  function Bells(dma: Dma, base: nat, size: nat, n: nat): (bells: seq<Act>)
    requires size > 0
    ensures |bells| == n && forall i :: 0 <= i < n ==> bells[i] == Doorbell(RootReader(dma, base, size))
  {
    seq(n, _ => Doorbell(RootReader(dma, base, size)))
  }

  /** THE HOST CATCHES UP: where DMA works, ringing often enough dispatches everything that
      was produced, once and in order, and the read pointer reaches the write pointer. */
  lemma DoorbellsCatchUp(dma: Dma, mem: Content, base: nat, s: System, budget: nat, h: History, n: nat)
    requires Honest(dma, mem) && Working(dma) && s.ring != []
    requires s.ring == RingOf(RootContent(mem, base, |s.ring|), |s.ring|)
    requires Inv(s, |s.ring|, h) && |h.pending| <= budget * n
    ensures var e := RingProtocol.Exec(s, |s.ring|, budget, Bells(dma, base, |s.ring|, n));
            e.log == h.produced && e.rp == s.tail
  {
    RootIsRing(dma, mem, base, |s.ring|);
    RootReliable(dma, base, |s.ring|);
    AllDispatched(s, |s.ring|, budget, h, Bells(dma, base, |s.ring|, n));
  }

  lemma BackedDrain(s: System, span: nat, budget: nat, h: History, read: RingReader) returns (k: nat)
    requires s.ring != [] && span > 0 && Inv(s, span, h) && Backed(read, Circ(s.ring), |s.ring|, span)
    ensures k <= |h.pending| && k <= budget
    ensures Reliable(read) ==> k == if |h.pending| < budget then |h.pending| else budget
    ensures var d := Drain(FinderOf(read, |s.ring|), span, s.rp, s.tail, budget);
            && d.log == h.pending[..k]
            && Inv(Dispatched(s, d), span, History(h.p + Total(h.pending[..k]), h.pending[k..], h.produced))
  {
    assert Enabled(s, span, Doorbell(read));
    k := DoorbellKeeps(s, span, budget, h, read);
    assert RingProtocol.Next(s, span, budget, Doorbell(read))
      == Dispatched(s, Drain(FinderOf(read, |s.ring|), span, s.rp, s.tail, budget));
    SameTail(s.log, Drain(FinderOf(read, |s.ring|), span, s.rp, s.tail, budget).log, h.pending[..k]);
  }

  lemma SameTail<T>(a: seq<T>, b: seq<T>, c: seq<T>)
    ensures a + b == a + c ==> b == c
  {
    if a + b == a + c { assert b == (a + b)[|a|..] && c == (a + c)[|a|..]; }
  }

  /** The stamps to complete, in order. */
  function Stamps(cs: seq<Cmd>): (r: seq<nat>)
    ensures |r| == |cs| && forall i :: 0 <= i < |cs| ==> r[i] == cs[i].stamp
  {
    if cs == [] then [] else Stamps(cs[..|cs| - 1]) + [cs[|cs| - 1].stamp]
  }

  lemma StampsNext(cs: seq<Cmd>, c: Cmd)
    ensures Stamps(cs + [c]) == Stamps(cs) + [c.stamp]
  {
    assert (cs + [c])[..|cs|] == cs;
  }
}
