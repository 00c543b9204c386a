/** The packed table of metadata strings: a blob that holds the lengths, six-bit chunks,
    and then the characters of all strings. */
module MetadataStrings {
  import opened Wrappers
  import opened Bits
  import opened Bitstream

  const MAX_STRINGS: nat := 4096

  /** The inline decoder of the length table: like a VBR read of width w, but it does not
      stop when the shift passes 32 bits. */
  function InlineFrom(b: seq<bool>, p: nat, w: nat, acc: seq<bool>): (r: Read<nat>)
    requires w >= 2
    ensures r.Got? ==> p < r.next <= |b|
    decreases |b| - p
  {
    if p + w > |b| then Fail else
    var data := acc + b[p..p + w - 1];
    if !b[p + w - 1] then Got(Val(Low(data, 32)), p + w) else InlineFrom(b, p + w, w, data)
  }

  /** It agrees with the bitstream's VBR read, in value and position, whenever that one
      succeeds. */
  lemma {:induction false} InlineAgrees(b: seq<bool>, p: nat, w: nat, acc: seq<bool>)
    requires w >= 2 && |acc| < 32 && VbrFrom(b, p, w, 32, acc).Got?
    ensures InlineFrom(b, p, w, acc) == VbrFrom(b, p, w, 32, acc)
    decreases |b| - p
  {
    if b[p + w - 1] { InlineAgrees(b, p + w, w, acc + b[p..p + w - 1]); }
  }

  lemma InlineRoundTrip(b: seq<bool>, p: nat, w: nat, v: nat)
    requires 2 <= w <= 32 && v < Pow2(32) && Has(b, p, EncVbr(v, w))
    ensures InlineFrom(b, p, w, []) == Got(v, p + |EncVbr(v, w)|)
  {
    VbrRoundTrip(b, p, v, w, 32);
    InlineAgrees(b, p, w, []);
  }

  // ----- the table -----

  function SizeReader(b: seq<bool>, w: nat): nat -> Read<nat>
    requires w >= 2
  {
    (p: nat) => InlineFrom(b, p, w, [])
  }

  /** Up to n strings, as consecutive slices of the characters; decoding stops where the
      table or the characters run out, or when the total is reached. */
  function StringsFrom(size: nat -> Read<nat>, chars: seq<nat>, n: nat, p: nat, off: nat,
                       done: seq<seq<nat>>): seq<seq<nat>>
    requires off <= |chars|
    decreases n
  {
    if n == 0 || |done| >= MAX_STRINGS then done else
    match size(p)
    case Fail => done
    case Got(len, q) =>
      if len > |chars| - off then done
      else StringsFrom(size, chars, n - 1, q, off + len, done + [chars[off..off + len]])
  }

  function Concat(ss: seq<seq<nat>>): seq<nat> { if ss == [] then [] else ss[0] + Concat(ss[1..]) }

  function SizeEncoder(w: nat): nat -> seq<bool>
    requires w >= 2
  {
    (v: nat) => EncVbr(v, w)
  }

  /** The encoded lengths of the strings. */
  function Sizes(enc: nat -> seq<bool>, ss: seq<seq<nat>>): seq<bool> {
    if ss == [] then [] else enc(|ss[0]|) + Sizes(enc, ss[1..])
  }

  lemma SizeUndone(b: seq<bool>, w: nat, v: nat)
    requires 2 <= w <= 32 && v < Pow2(32)
    ensures Undoes<nat>(b, SizeReader(b, w), SizeEncoder(w), v)
  {
    forall p: nat | Has(b, p, EncVbr(v, w)) ensures InlineFrom(b, p, w, []) == Got(v, p + |EncVbr(v, w)|) {
      InlineRoundTrip(b, p, w, v);
    }
  }

  lemma {:induction false} StringsRoundTrip(b: seq<bool>, size: nat -> Read<nat>, enc: nat -> seq<bool>,
                                chars: seq<nat>, ss: seq<seq<nat>>,
                                            p: nat, off: nat, done: seq<seq<nat>>)
    requires (forall i :: 0 <= i < |ss| ==> Undoes<nat>(b, size, enc, |ss[i]|)) && Has(b, p, Sizes(enc, ss))
    requires off <= |chars| && chars[off..] == Concat(ss) && |done| + |ss| <= MAX_STRINGS
    ensures StringsFrom(size, chars, |ss|, p, off, done) == done + ss
    decreases |ss|
  {
    if ss == [] {
      assert done + ss == done;
    } else {
      var s, more := ss[0], ss[1..];
      var q := SizeStep(b, size, enc, p, |s|, Sizes(enc, more));
      NextSlice(chars, off, s, Concat(more));
      StringsStep(size, chars, |ss|, p, off, done, s, q);
      StringsRoundTrip(b, size, enc, chars, more, q, off + |s|, done + [s]);
      Shifted(done, ss);
    }
  }

  lemma SizeStep(b: seq<bool>, size: nat -> Read<nat>, enc: nat -> seq<bool>, p: nat, v: nat, rest: seq<bool>)
    returns (q: nat)
    requires Undoes<nat>(b, size, enc, v) && Has(b, p, enc(v) + rest)
    ensures size(p) == Got(v, q) && Has(b, q, rest)
  {
    HasBoth(b, p, enc(v), rest);
    q := p + |enc(v)|;
  }

  lemma StringsStep(size: nat -> Read<nat>, chars: seq<nat>, n: nat, p: nat, off: nat, done: seq<seq<nat>>, s: seq<nat>,
                    q: nat)
    requires n > 0 && |done| < MAX_STRINGS && size(p) == Got(|s|, q) && off + |s| <= |chars|
    requires chars[off..off + |s|] == s
    ensures StringsFrom(size, chars, n, p, off, done) == StringsFrom(size, chars, n - 1, q, off + |s|, done + [s])
  {
  }

  lemma Shifted(done: seq<seq<nat>>, ss: seq<seq<nat>>)
    requires ss != []
    ensures done + [ss[0]] + ss[1..] == done + ss
  {
  }

  lemma NextSlice(chars: seq<nat>, off: nat, s: seq<nat>, rest: seq<nat>)
    requires off <= |chars| && chars[off..] == s + rest
    ensures off + |s| <= |chars| && chars[off..off + |s|] == s && chars[off + |s|..] == rest
  {
    assert chars[off..off + |s|] == chars[off..][..|s|] && chars[off + |s|..] == chars[off..][|s|..];
  }

  /** The strings after one METADATA_STRINGS record: its operands are the count and the bytes
      of the length table at the head of the blob; malformed records add nothing, and the
      total never exceeds the cap. */
  function BatchOf(have: seq<seq<nat>>, ops: seq<nat>, blob: Option<seq<nat>>): seq<seq<nat>> {
    if |ops| < 2 || blob.None? || blob.value == [] || ops[1] % WORD > |blob.value| then have
    else
      var n, t := ops[0] % WORD, ops[1] % WORD;
      StringsFrom(SizeReader(Stream(blob.value[..t]), 6), blob.value[t..], n, 0, 0, have)
  }

  /** Decoding an encoded list of strings adds the list to what was there. */
  lemma DecodeStrings(b: seq<bool>, chars: seq<nat>, ss: seq<seq<nat>>, have: seq<seq<nat>>)
    requires Has(b, 0, Sizes(SizeEncoder(6), ss)) && chars == Concat(ss)
    requires |have| + |ss| <= MAX_STRINGS && forall i :: 0 <= i < |ss| ==> |ss[i]| < Pow2(32)
    ensures StringsFrom(SizeReader(b, 6), chars, |ss|, 0, 0, have) == have + ss
  {
    forall i | 0 <= i < |ss|
      ensures Undoes<nat>(b, SizeReader(b, 6), SizeEncoder(6), |ss[i]|)
    {
      SizeUndone(b, 6, |ss[i]|);
    }
    assert chars[0..] == chars;
    StringsRoundTrip(b, SizeReader(b, 6), SizeEncoder(6), chars, ss, 0, 0, have);
  }

  lemma SplitAt(table: seq<nat>, chars: seq<nat>)
    ensures (table + chars)[..|table|] == table && (table + chars)[|table|..] == chars
  {
  }

  lemma BatchIs(have: seq<seq<nat>>, ops: seq<nat>, blob: seq<nat>, n: nat, table: seq<nat>, chars: seq<nat>)
    requires |ops| == 2 && ops[0] % WORD == n && ops[1] % WORD == |table| <= |blob| && blob != []
    requires blob[..|table|] == table && blob[|table|..] == chars
    ensures BatchOf(have, ops, Some(blob)) == StringsFrom(SizeReader(Stream(table), 6), chars, n, 0, 0, have)
  {
  }

  /** A batch is split at the length of its table. */
  lemma BatchSplit(have: seq<seq<nat>>, n: nat, table: seq<nat>, chars: seq<nat>)
    requires n < WORD && |table| < WORD && table != []
    ensures BatchOf(have, [n, |table|], Some(table + chars))
            == StringsFrom(SizeReader(Stream(table), 6), chars, n, 0, 0, have)
  {
    SplitAt(table, chars);
    BatchIs(have, [n, |table|], table + chars, n, table, chars);
  }

  /** STRINGS ROUND TRIP: the record of a batch adds exactly its strings to those read before,
      whatever the padding of the table. */
  lemma BatchRoundTrip(have: seq<seq<nat>>, table: seq<nat>, ss: seq<seq<nat>>)
    requires Has(Stream(table), 0, Sizes(SizeEncoder(6), ss)) && forall i :: 0 <= i < |ss| ==> |ss[i]| < Pow2(32)
    requires |have| + |ss| <= MAX_STRINGS && |table| < WORD && table != []
    ensures BatchOf(have, [|ss|, |table|], Some(table + Concat(ss))) == have + ss
  {
    DecodeStrings(Stream(table), Concat(ss), ss, have);
    BatchSplit(have, |ss|, table, Concat(ss));
  }

  lemma {:induction false} CapHolds(size: nat -> Read<nat>, chars: seq<nat>, n: nat, p: nat, off: nat,
                                done: seq<seq<nat>>)
    requires off <= |chars| && |done| <= MAX_STRINGS
    ensures |StringsFrom(size, chars, n, p, off, done)| <= MAX_STRINGS
    ensures done <= StringsFrom(size, chars, n, p, off, done)
    decreases n
  {
    if n > 0 && |done| < MAX_STRINGS && size(p).Got? && size(p).value <= |chars| - off {
      var len := size(p).value;
      CapHolds(size, chars, n - 1, size(p).next, off + len, done + [chars[off..off + len]]);
    }
  }

  /** EXACTLY HOW FAR a batch is read: the strings are consecutive slices of the characters, their
      lengths read one after another; reading stops before all n only at 4096 strings, where a
      length does not read, or where it goes beyond the characters; what was read stays. */
  lemma {:induction false} StringsExactly(size: nat -> Read<nat>, chars: seq<nat>, n: nat, p: nat, off: nat,
                                      done: seq<seq<nat>>) returns (k: nat, ps: seq<nat>, offs: seq<nat>)
    requires off <= |chars|
    ensures k <= n && |ps| == |offs| == k + 1 && ps[0] == p && offs[0] == off
    ensures forall i :: 0 <= i <= k ==> offs[i] <= |chars|
    ensures var r := StringsFrom(size, chars, n, p, off, done);
            && |r| == |done| + k && r[..|done|] == done
            && (forall i :: 0 <= i < k ==>
                  offs[i] <= offs[i + 1] && size(ps[i]) == Got(offs[i + 1] - offs[i], ps[i + 1])
                  && r[|done| + i] == chars[offs[i]..offs[i + 1]])
            && (k > 0 ==> |r| <= 4096)
            && (k < n && |r| < 4096 ==> size(ps[k]).Fail? || size(ps[k]).value > |chars| - offs[k])
    decreases n
  {
    k, ps, offs := 0, [p], [off];
    if n > 0 && |done| < MAX_STRINGS && size(p).Got? && size(p).value <= |chars| - off {
      var len, q := size(p).value, size(p).next;
      var more := done + [chars[off..off + len]];
      var k', ps', offs' := StringsExactly(size, chars, n - 1, q, off + len, more);
      k, ps, offs := k' + 1, [p] + ps', [off] + offs';
      var r := StringsFrom(size, chars, n, p, off, done);
      assert r[..|more|] == more && r[..|done|] == r[..|more|][..|done|];
      assert r[|done|] == r[..|more|][|done|];
    }
  }

  /** THE CAP HOLDS across batches, and no batch disturbs the strings before it. */
  lemma BatchCapped(have: seq<seq<nat>>, ops: seq<nat>, blob: Option<seq<nat>>)
    requires |have| <= 4096
    ensures |BatchOf(have, ops, blob)| <= 4096 && have <= BatchOf(have, ops, blob)
  {
    if !(|ops| < 2 || blob.None? || blob.value == [] || ops[1] % WORD > |blob.value|) {
      var t := ops[1] % WORD;
      CapHolds(SizeReader(Stream(blob.value[..t]), 6), blob.value[t..], ops[0] % WORD, 0, 0, have);
    }
  }

  // ----- programs -----

  /** Bit i of the buffer's stream is bit i % 8 of byte i / 8. */
  lemma BitIs(buf: seq<nat>, i: nat)
    requires AreBytes(buf) && i < 8 * |buf|
    ensures Stream(buf)[i] == (Shr(buf[i / 8], i % 8) % 2 == 1)
  {
    var q, r := i / 8, i % 8;
    StreamAt(buf, q);
    assert Stream(buf)[i] == Stream(buf)[8 * q..8 * q + 8][r];
    BitOf(buf[q], 8, r);
  }

  lemma {:induction false} BitOf(v: nat, n: nat, k: nat)
    requires k < n
    ensures BitsOf(v, n)[k] == (Shr(v, k) % 2 == 1)
  {
    if k > 0 { BitOf(v / 2, n - 1, k - 1); }
  }

  /** w bits, one at a time. */
  method ReadChunk(buf: seq<nat>, p: nat, w: nat) returns (chunk: seq<bool>)
    requires AreBytes(buf) && p + w <= 8 * |buf|
    ensures chunk == Stream(buf)[p..p + w]
  {
    chunk := [];
    var k := 0;
    while k < w
      invariant 0 <= k <= w && chunk == Stream(buf)[p..p + k]
    {
      BitIs(buf, p + k);
      chunk := chunk + [Shr(buf[(p + k) / 8], (p + k) % 8) % 2 == 1];
      k := k + 1;
    }
  }

  /** One length of the table. */
  method ReadSize(buf: seq<nat>, p0: nat, w: nat) returns (r: Read<nat>)
    requires AreBytes(buf) && w >= 2
    ensures r == InlineFrom(Stream(buf), p0, w, [])
  {
    var p, data: seq<bool> := p0, [];
    while true
      invariant InlineFrom(Stream(buf), p0, w, []) == InlineFrom(Stream(buf), p, w, data)
      decreases 8 * |buf| - p
    {
      if p + w > 8 * |buf| { return Fail; }
      var chunk := ReadChunk(buf, p, w);
      TakeFlag(Stream(buf), p, w, chunk);
      data := data + chunk[..w - 1];
      p := p + w;
      if !chunk[w - 1] { return Got(Val(Low(data, 32)), p); }
    }
  }

  lemma TakeFlag(b: seq<bool>, p: nat, w: nat, chunk: seq<bool>)
    requires w >= 2 && p + w <= |b| && chunk == b[p..p + w]
    ensures chunk[..w - 1] == b[p..p + w - 1] && chunk[w - 1] == b[p + w - 1]
  {
  }

  /** One METADATA_STRINGS record. */
  method ReadStrings(have: seq<seq<nat>>, ops: seq<nat>, blob: Option<seq<nat>>) returns (ss: seq<seq<nat>>)
    requires blob.Some? ==> AreBytes(blob.value)
    ensures ss == BatchOf(have, ops, blob)
  {
    if |ops| < 2 || blob.None? || blob.value == [] { return have; }
    var n, t := ops[0] % WORD, ops[1] % WORD;
    if t > |blob.value| { return have; }
    ss := ReadUpTo(blob.value[..t], blob.value[t..], n, have, SizeReader(Stream(blob.value[..t]), 6));
  }

  method SizeBy(table: seq<nat>, p: nat, ghost size: nat -> Read<nat>) returns (r: Read<nat>)
    requires AreBytes(table) && Same(size, SizeReader(Stream(table), 6))
    ensures r == size(p)
  {
    assert Mark(p);
    r := ReadSize(table, p, 6);
  }

  method ReadUpTo(table: seq<nat>, chars: seq<nat>, n: nat, have: seq<seq<nat>>, ghost size: nat -> Read<nat>)
    returns (ss: seq<seq<nat>>)
    requires AreBytes(table) && Same(size, SizeReader(Stream(table), 6))
    ensures ss == StringsFrom(size, chars, n, 0, 0, have)
  {
    ss := have;
    var i: nat, p: nat, off: nat := 0, 0, 0;
    ghost var whole := StringsFrom(size, chars, n, 0, 0, have);
    while i < n
      invariant 0 <= i <= n && off <= |chars| && whole == StringsFrom(size, chars, n - i, p, off, ss)
    {
      if |ss| >= MAX_STRINGS { return; }
      var r := SizeBy(table, p, size);
      if r.Fail? || r.value > |chars| - off { return; }
      ss := ss + [chars[off..off + r.value]];
      p, off := r.next, off + r.value;
      i := i + 1;
    }
  }
}
