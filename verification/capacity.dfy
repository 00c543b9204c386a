/** The operand buffer of the record decoder: when its capacity check keeps every record
    within it. */
module Capacity {
  import opened Wrappers
  import opened Bits
  import opened Bitstream
  import opened Abbrev
  import opened Records

  /** The field at i is an array whose length makes the 32-bit check wrap around. */
  predicate WrapsAt(b: seq<bool>, pat: Pattern, i: nat, p: nat, a: Acc) {
    && i + 1 < |pat| && pat[i].Array?
    && var n := VbrAt(b, p, LENGTH_WIDTH, 32); n.Got? && |a.ops| + n.value >= WORD
  }

  /** Some array of the record, from field i on, makes the check wrap around. */
  predicate Wraps(b: seq<bool>, pat: Pattern, read: (nat, nat, Acc) -> Read<Acc>, i: nat, p: nat, a: Acc)
    decreases |pat| - i
  {
    i < |pat| &&
    (WrapsAt(b, pat, i, p, a) ||
     (read(i, p, a).Got? && Wraps(b, pat, read, i + 1 + Extra(pat)(i), read(i, p, a).next, read(i, p, a).value)))
  }

  lemma {:induction false} PushedLength(a: Acc, vs: seq<nat>)
    ensures |a.ops| + |vs| - 1 <= |PushAll(a, vs).ops| <= |a.ops| + |vs|
    ensures |a.ops| <= |PushAll(a, vs).ops|
    ensures a.code.Some? ==> |PushAll(a, vs).ops| == |a.ops| + |vs|
    ensures a.code.Some? || vs != [] ==> PushAll(a, vs).code.Some?
    ensures a.code.None? && vs != [] ==> |PushAll(a, vs).ops| == |a.ops| + |vs| - 1
    decreases |vs|
  {
    if vs != [] { PushedLength(a, vs[..|vs| - 1]); }
  }

  lemma {:induction false} ManyLength<T>(read: nat -> Read<T>, p: nat, n: nat, done: seq<T>)
    ensures Many(read, p, n, done).Got? ==> |Many(read, p, n, done).value| == |done| + n
    decreases n
  {
    if n > 0 && read(p).Got? { ManyLength(read, read(p).next, n - 1, done + [read(p).value]); }
  }

  /** How one field moves the operand count. */
  ghost predicate Counts(wraps: bool, a: Acc, a': Acc) {
    && (wraps ==> |a'.ops| > MAX_RECORD_OPS)
    && (|a.ops| > MAX_RECORD_OPS ==> |a'.ops| > MAX_RECORD_OPS)
    && (!wraps && |a.ops| <= MAX_RECORD_OPS ==> |a'.ops| <= MAX_RECORD_OPS)
  }

  lemma ListCounts(b: seq<bool>, n: nat, q: nat, elem: Op, a: Acc)
    requires ListAfter(b, n, q, elem, a).Got?
    ensures Counts(|a.ops| + n >= WORD, a, ListAfter(b, n, q, elem, a).value)
  {
    ManyLength(ValueReader(b, elem), q, n, []);
    PushedLength(a, Many(ValueReader(b, elem), q, n, []).value);
    RoomMeans(|a.ops|, n);
  }

  lemma RoomMeans(m: nat, n: nat)
    ensures m + n < WORD ==> (m + n) % WORD == m + n
  {
  }

  lemma ArrayCounts(b: seq<bool>, p: nat, w: nat, elem: Op, a: Acc, n: Read<nat>)
    requires ListAt(b, p, w, elem, a).Got? && n == VbrAt(b, p, w, 32)
    ensures n.Got? && Counts(|a.ops| + n.value >= WORD, a, ListAt(b, p, w, elem, a).value)
  {
    ListCounts(b, n.value, n.next, elem, a);
  }

  lemma FieldCounts(b: seq<bool>, pat: Pattern, i: nat, p: nat, a: Acc)
    requires FieldAt(b, pat, i, p, a).Got?
    ensures Counts(WrapsAt(b, pat, i, p, a), a, FieldAt(b, pat, i, p, a).value)
  {
    if pat[i].Array? {
      ArrayCounts(b, p, LENGTH_WIDTH, pat[i + 1], a, VbrAt(b, p, LENGTH_WIDTH, 32));
    }
  }

  lemma {:induction false} FieldsCount(b: seq<bool>, pat: Pattern, read: (nat, nat, Acc) -> Read<Acc>, i: nat, p: nat,
                                a: Acc)
    requires forall i, p, a :: read(i, p, a).Got? ==> Counts(WrapsAt(b, pat, i, p, a), a, read(i, p, a).value)
    requires RecordFrom(read, Extra(pat), |pat|, i, p, a).Got?
    ensures var r := RecordFrom(read, Extra(pat), |pat|, i, p, a).value;
            |r.ops| <= MAX_RECORD_OPS <==> |a.ops| <= MAX_RECORD_OPS && !Wraps(b, pat, read, i, p, a)
    decreases |pat| - i
  {
    if i < |pat| {
      FieldsCount(b, pat, read, i + 1 + Extra(pat)(i), read(i, p, a).next, read(i, p, a).value);
    }
  }

  /** OPERANDS STAY WITHIN THE BUFFER, EXACTLY WHEN no array length brings the operand count
      to 2^32 or more: the check is done in 32 bits. */
  lemma OperandsFit(b: seq<bool>, pat: Pattern, p: nat)
    requires RecordAt(b, pat, p).Got?
    ensures |RecordAt(b, pat, p).value.ops| <= MAX_RECORD_OPS <==> !Wraps(b, pat, FieldReader(b, pat), 0, p, EMPTY)
  {
    forall i, p, a | FieldReader(b, pat)(i, p, a).Got?
      ensures Counts(WrapsAt(b, pat, i, p, a), a, FieldReader(b, pat)(i, p, a).value)
    {
      FieldCounts(b, pat, i, p, a);
    }
    FieldsCount(b, pat, FieldReader(b, pat), 0, p, EMPTY);
  }

  // ----- the buffer overrun -----

  /** One operand, then an array of values that take no bits. */
  function LongPattern(): Pattern { [Literal(1), Literal(2), Array, Literal(7)] }

  lemma {:induction false} LiteralsRead(b: seq<bool>, v: nat, q: nat, n: nat, done: seq<nat>)
    ensures Many(ValueReader(b, Literal(v)), q, n, done).Got? && Many(ValueReader(b, Literal(v)), q, n, done).next == q
    decreases n
  {
    if n > 0 { LiteralsRead(b, v, q, n - 1, done + [v]); }
  }

  lemma LongList(b: seq<bool>, n: nat, q: nat, a: Acc)
    requires n == WORD - 1 && |a.ops| == 1 && a.code.Some?
    ensures var r := ListAfter(b, n, q, Literal(7), a);
            r.Got? && r.next == q && |r.value.ops| == WORD && r.value.code.Some?
  {
    LiteralsRead(b, 7, q, n, []);
    ManyLength(ValueReader(b, Literal(7)), q, n, []);
    PushedLength(a, Many(ValueReader(b, Literal(7)), q, n, []).value);
    assert Room(a, n);
  }

  lemma ShrFive(v: nat)
    ensures Shr(v, 5) == v / 32
  {
    var a, b, c, d := v / 2, v / 4, v / 8, v / 16;
    assert b == a / 2 && c == b / 2 && d == c / 2 && v / 32 == d / 2;
    assert Shr(v, 5) == Shr(a, 4) == Shr(b, 3) == Shr(c, 2) == Shr(d, 1) == Shr(d / 2, 0);
  }

  lemma OneMoreChunk(v: nat, w: nat)
    requires w == v / 32
    ensures |EncVbr(v, 6)| == if w == 0 then 6 else 6 + |EncVbr(w, 6)|
  {
    ShrFive(v);
  }

  lemma LongLength()
    ensures |EncVbr(WORD - 1, 6)| == 42
  {
    OneMoreChunk(WORD - 1, 0x7FF_FFFF);
    OneMoreChunk(0x7FF_FFFF, 0x3F_FFFF);
    OneMoreChunk(0x3F_FFFF, 0x1_FFFF);
    OneMoreChunk(0x1_FFFF, 0xFFF);
    OneMoreChunk(0xFFF, 0x7F);
    OneMoreChunk(0x7F, 3);
    OneMoreChunk(3, 0);
  }

  lemma Pow2Word()
    ensures Pow2(32) == WORD
  {
    assert Pow2(8) == 0x100 && Pow2(16) == 0x1_0000 && Pow2(24) == 0x100_0000;
  }

  lemma LongRecord(b: seq<bool>, q: nat, read: (nat, nat, Acc) -> Read<Acc>)
    requires read == FieldReader(b, LongPattern()) && VbrAt(b, 0, LENGTH_WIDTH, 32) == Got(WORD - 1, q)
    ensures var r := RecordFrom(read, Extra(LongPattern()), 4, 0, 0, EMPTY); r.Got? && |r.value.ops| == WORD
  {
    var a1, a2 := Acc(Some(1), [], None), Acc(Some(1), [2], None);
    assert read(0, 0, EMPTY) == Got(a1, 0);
    assert a1.ops + [2] == a2.ops;
    assert read(1, 0, a1) == Got(a2, 0);
    LongList(b, WORD - 1, q, a2);
    assert read(2, 0, a2) == ListAfter(b, WORD - 1, q, Literal(7), a2);
    var a3 := read(2, 0, a2).value;
    assert RecordFrom(read, Extra(LongPattern()), 4, 4, q, a3) == Got(Record(a3.code.value, a3.ops, a3.blob), q);
    assert RecordFrom(read, Extra(LongPattern()), 4, 2, 0, a2) == RecordFrom(read, Extra(LongPattern()), 4, 4, q, a3);
    assert RecordFrom(read, Extra(LongPattern()), 4, 1, 0, a1) == RecordFrom(read, Extra(LongPattern()), 4, 2, 0, a2);
  }

  /** Seven chunks of six bits decode to a record of 2^32 operands. */
  lemma Overrun() returns (b: seq<bool>)
    ensures |b| == 42 && RecordAt(b, LongPattern(), 0).Got? && |RecordAt(b, LongPattern(), 0).value.ops| == WORD
  {
    b := EncVbr(WORD - 1, LENGTH_WIDTH);
    LongLength();
    Pow2Word();
    assert Has(b, 0, b);
    VbrRoundTrip(b, 0, WORD - 1, LENGTH_WIDTH, 32);
    LongRecord(b, |b|, FieldReader(b, LongPattern()));
  }
}
