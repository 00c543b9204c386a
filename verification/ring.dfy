/** The command rings: a guest writes commands into a circular buffer and rings a doorbell;
    the host drains them.  `size` is the ring's size; pointers are kept modulo `span`, a
    multiple of it (the size itself for the root channel, 2^32 for compute channels). */
module Ring {
  import opened Wrappers

  const HEADER_BYTES: nat := 12
  const MAX_CMD_BYTES: nat := 4096
  const DRAIN_MAX_CMDS: nat := 128

  /** A command as dispatched: the derived header and the payload. */
  datatype Cmd = Cmd(opcode: nat, args: nat, stamp: nat, payload: seq<nat>) {
    function Length(): nat { HEADER_BYTES + |payload| }
  }

  function Le16(v: nat): seq<nat> { [v % 256, v / 256 % 256] }

  function Le32(v: nat): seq<nat> { Le16(v % 0x1_0000) + Le16(v / 0x1_0000) }

  function Bytes(c: Cmd): (b: seq<nat>)
    ensures |b| == c.Length()
  {
    Le16(c.opcode) + Le16(c.args) + Le32(c.Length()) + Le32(c.stamp) + c.payload
  }

  function Get16(b: seq<nat>, i: nat): nat
    requires i + 2 <= |b|
  {
    b[i] + 256 * b[i + 1]
  }

  function Get32(b: seq<nat>, i: nat): nat
    requires i + 4 <= |b|
  {
    Get16(b, i) + 0x1_0000 * Get16(b, i + 2)
  }

  predicate CmdOk(c: Cmd, size: nat) {
    c.opcode < 0x1_0000 && c.args < 0x1_0000 && c.stamp < 0x1_0000_0000 && c.Length() <= MAX_CMD_BYTES
      && c.Length() <= size
  }

  lemma Get16Le(v: nat)
    requires v < 0x1_0000
    ensures v % 256 + 256 * (v / 256 % 256) == v
  {
  }

  /** Header fields and payload are read back from a command's bytes. */
  lemma HeaderRoundTrip(c: Cmd, size: nat)
    requires CmdOk(c, size)
    ensures var b := Bytes(c);
            && Get16(b, 0) == c.opcode && Get16(b, 2) == c.args && Get32(b, 4) == c.Length() && Get32(b, 8) == c.stamp
            && b[HEADER_BYTES..] == c.payload
  {
    var b, n := Bytes(c), c.Length();
    Get16Le(c.opcode);
    Get16Le(c.args);
    Get16Le(n % 0x1_0000);
    Get16Le(n / 0x1_0000);
    Get16Le(c.stamp % 0x1_0000);
    Get16Le(c.stamp / 0x1_0000);
    assert b[4..8] == Le32(n) && b[8..12] == Le32(c.stamp);
    assert b[4] == Le32(n)[0] && b[5] == Le32(n)[1] && b[6] == Le32(n)[2] && b[7] == Le32(n)[3];
    assert b[8] == Le32(c.stamp)[0] && b[9] == Le32(c.stamp)[1] && b[10] == Le32(c.stamp)[2]
      && b[11] == Le32(c.stamp)[3];
  }

  // ----- draining -----

  /** Read n ring bytes at a pointer; None when the DMA fails. */
  type RingReader = (nat, nat) -> Option<seq<nat>>

  /** The command at the read pointer; None when a read fails or the length is bad. */
  function CommandAt(read: RingReader, size: nat, rp: nat): Option<Cmd> {
    match read(rp, HEADER_BYTES)
    case None => None
    case Some(h) =>
      if |h| != HEADER_BYTES then None else
      var length := Get32(h, 4);
      if length < HEADER_BYTES || length > MAX_CMD_BYTES || length > size then None else
      match read(rp, length)
      case None => None
      case Some(b) =>
        if |b| != length then None else Some(Cmd(Get16(h, 0), Get16(h, 2), Get32(h, 8), b[HEADER_BYTES..]))
  }

  type Finder = nat -> Option<Cmd>

  function FinderOf(read: RingReader, size: nat): Finder { (rp: nat) => CommandAt(read, size, rp) }

  /** What a drain dispatched, in order, and where it left the read pointer. */
  datatype Drained = Drained(rp: nat, log: seq<Cmd>)

  function Drain(find: Finder, span: nat, rp: nat, wp: nat, budget: nat): Drained
    requires span > 0
    decreases budget
  {
    if budget == 0 || rp == wp then Drained(rp, []) else
    match find(rp)
    case None => Drained(rp, [])
    case Some(c) =>
      var d := Drain(find, span, (rp + c.Length()) % span, wp, budget - 1);
      Drained(d.rp, [c] + d.log)
  }

  // ----- what is in the ring -----

  /** The byte at an absolute position; positions that differ by the size are the same byte. */
  type Content = nat -> nat

  function Slice(at: Content, p: nat, n: nat): (s: seq<nat>)
    ensures |s| == n && forall i :: 0 <= i < n ==> s[i] == at(p + i)
  {
    seq(n, i requires 0 <= i < n => at(p + i))
  }

  function Total(cs: seq<Cmd>): nat { if cs == [] then 0 else cs[0].Length() + Total(cs[1..]) }

  /** The commands stand one after another from position p. */
  ghost predicate Laid(at: Content, size: nat, p: nat, cs: seq<Cmd>)
    decreases |cs|
  {
    cs == [] || (CmdOk(cs[0], size) && Slice(at, p, cs[0].Length()) == Bytes(cs[0])
      && Laid(at, size, p + cs[0].Length(), cs[1..]))
  }

  /** Reads, when they succeed, give the ring's bytes from the pointer on. */
  ghost predicate Backed(read: RingReader, at: Content, size: nat, span: nat)
    requires span > 0
  {
    forall p: nat, n: nat {:trigger Slice(at, p, n)} :: n <= size && read(p % span, n).Some? ==>
      read(p % span, n).value == Slice(at, p, n)
  }

  ghost predicate Reliable(read: RingReader) { forall rp: nat, n: nat :: read(rp, n).Some? }

  lemma SliceHead(at: Content, p: nat, n: nat, k: nat)
    requires k <= n
    ensures Slice(at, p, k) == Slice(at, p, n)[..k]
  {
  }

  /** The first command of the ring is what the drain finds, or a read failed. */
  lemma FindsFirst(read: RingReader, at: Content, size: nat, span: nat, p: nat, c: Cmd)
    requires span > 0 && Backed(read, at, size, span) && CmdOk(c, size) && Slice(at, p, c.Length()) == Bytes(c)
    ensures CommandAt(read, size, p % span) == Some(c) || CommandAt(read, size, p % span) == None
    ensures Reliable(read) ==> CommandAt(read, size, p % span) == Some(c)
  {
    var h, b := Slice(at, p, HEADER_BYTES), Slice(at, p, c.Length());
    SliceHead(at, p, c.Length(), HEADER_BYTES);
    HeaderRoundTrip(c, size);
    assert Get16(h, 0) == Get16(b, 0) && Get16(h, 2) == Get16(b, 2) && Get32(h, 4) == Get32(b, 4)
      && Get32(h, 8) == Get32(b, 8);
  }

  /** A COMMAND, byte by byte: opcode and argument count, length and stamp, low byte first;
      found if and only if the length is that of a header or more, at most 4096 and at most
      the ring, and its bytes can be read. */
  lemma CommandIs(read: RingReader, at: Content, size: nat, span: nat, p: nat)
    requires span > 0 && size >= 12 && Backed(read, at, size, span) && read(p % span, 12).Some?
    ensures var n := at(p + 4) + 256 * at(p + 5) + 0x1_0000 * at(p + 6) + 0x100_0000 * at(p + 7);
            var found := CommandAt(read, size, p % span);
            && (found.Some? <==> 12 <= n <= 4096 && n <= size && read(p % span, n).Some?)
            && (found.Some? ==>
                  && found.value.opcode == at(p) + 256 * at(p + 1) && found.value.args == at(p + 2) + 256 * at(p + 3)
                  && found.value.stamp
                     == at(p + 8) + 256 * at(p + 9) + 0x1_0000 * at(p + 10) + 0x100_0000 * at(p + 11)
                  && found.value.payload == Slice(at, p + 12, n - 12))
  {
    var h, n := Slice(at, p, 12), at(p + 4) + 256 * at(p + 5) + 0x1_0000 * at(p + 6) + 0x100_0000 * at(p + 7);
    assert read(p % span, 12).value == h && Get32(h, 4) == n;
    if 12 <= n <= size {
      assert Slice(at, p, n)[12..] == Slice(at, p + 12, n - 12);
    }
  }

  /** Before the last command the pointers differ. */
  lemma NotCaughtUp(p: nat, total: nat, span: nat)
    requires 0 < total < span
    ensures p % span != (p + total) % span
  {
    ModAdd(p, total, span);
  }

  lemma ModAdd(p: nat, n: nat, span: nat)
    requires span > 0
    ensures (p % span + n) % span == (p + n) % span
    ensures n < span ==> (p + n) % span == if p % span + n < span then p % span + n else p % span + n - span
  {
    var q, r := p / span, p % span;
    var k, s := (r + n) / span, (r + n) % span;
    assert p + n == span * q + (span * k + s);
    Distribute(span, q, k);
    ModUnique(p + n, span, q + k, s);
    if n < span {
      if r + n < span {
        ModUnique(r + n, span, 0, r + n);
      } else {
        ModUnique(r + n, span, 1, r + n - span);
      }
    }
  }

  lemma Distribute(d: nat, q: nat, k: nat)
    ensures d * q + d * k == d * (q + k)
  {
  }

  /** Quotient and remainder are unique. */
  lemma ModUnique(x: nat, d: nat, q: nat, r: nat)
    requires d > 0 && x == d * q + r && r < d
    ensures x % d == r && x / d == q
  {
    var diff := x / d - q;
    assert d * diff == d * (x / d) - d * q;
    Multiple(d, diff);
  }

  lemma Multiple(d: nat, k: int)
    ensures k >= 1 ==> d * k >= d
    ensures k <= -1 ==> d * k <= 0 - d
  {
  }

  /** From position p on, the drain finds these commands, unless a read fails. */
  ghost predicate Finds(find: Finder, span: nat, p: nat, cs: seq<Cmd>)
    requires span > 0
    decreases |cs|
  {
    cs == [] || ((find(p % span) == Some(cs[0]) || find(p % span) == None)
      && Finds(find, span, p + cs[0].Length(), cs[1..]))
  }

  lemma {:induction false} LaidFinds(read: RingReader, at: Content, size: nat, span: nat, p: nat, cs: seq<Cmd>)
    requires span > 0 && Backed(read, at, size, span) && Laid(at, size, p, cs)
    ensures Finds(FinderOf(read, size), span, p, cs)
    decreases |cs|
  {
    if cs != [] {
      FindsFirst(read, at, size, span, p, cs[0]);
      LaidFinds(read, at, size, span, p + cs[0].Length(), cs[1..]);
    }
  }

  /** From position p on, the drain finds all of these commands. */
  ghost predicate FindsAll(find: Finder, span: nat, p: nat, cs: seq<Cmd>)
    requires span > 0
    decreases |cs|
  {
    cs == [] || (find(p % span) == Some(cs[0]) && FindsAll(find, span, p + cs[0].Length(), cs[1..]))
  }

  lemma {:induction false} LaidFound(read: RingReader, at: Content, size: nat, span: nat, p: nat, cs: seq<Cmd>)
    requires span > 0 && Backed(read, at, size, span) && Laid(at, size, p, cs) && Reliable(read)
    ensures FindsAll(FinderOf(read, size), span, p, cs)
    decreases |cs|
  {
    if cs != [] {
      FindsFirst(read, at, size, span, p, cs[0]);
      LaidFound(read, at, size, span, p + cs[0].Length(), cs[1..]);
    }
  }

  lemma {:induction false} FoundAt(find: Finder, span: nat, p: nat, cs: seq<Cmd>, k: nat)
    requires span > 0 && FindsAll(find, span, p, cs) && k < |cs|
    ensures find((p + Total(cs[..k])) % span) == Some(cs[k])
    decreases k
  {
    if k > 0 {
      FoundAt(find, span, p + cs[0].Length(), cs[1..], k - 1);
      PrefixNext(cs, k - 1);
    } else {
      assert cs[..0] == [];
    }
  }

  /** IN ORDER, EXACTLY ONCE: a drain dispatches a prefix of the pending commands, at most
      `budget` of them, and leaves the pointer right after that prefix; it stops early only
      where nothing was found. */
  lemma {:induction false} DrainsPrefix(find: Finder, span: nat, p: nat, cs: seq<Cmd>, budget: nat) returns (k: nat)
    requires span > 0 && Finds(find, span, p, cs) && Total(cs) < span
    ensures k <= budget && k <= |cs|
    ensures Drain(find, span, p % span, (p + Total(cs)) % span, budget) == Drained((p + Total(cs[..k])) % span, cs[..k])
    ensures k < budget && k < |cs| ==> find((p + Total(cs[..k])) % span) == None
    decreases |cs|
  {
    k := 0;
    assert cs[..0] == [];
    if budget > 0 && cs != [] {
      var n := cs[0].Length();
      NotCaughtUp(p, Total(cs), span);
      if find(p % span).Some? {
        ModAdd(p, n, span);
        var j := DrainsPrefix(find, span, p + n, cs[1..], budget - 1);
        k := j + 1;
        PrefixNext(cs, j);
      }
    }
  }

  lemma PrefixNext(cs: seq<Cmd>, j: nat)
    requires cs != [] && j < |cs|
    ensures cs[..j + 1] == [cs[0]] + cs[1..][..j] && Total(cs[..j + 1]) == cs[0].Length() + Total(cs[1..][..j])
  {
    assert cs[..j + 1][1..] == cs[1..][..j];
  }
}
