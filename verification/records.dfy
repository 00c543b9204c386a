/** Records written with an abbreviation: the decoder, the encoder and their round trip. */
module Records {
  import opened Wrappers
  import opened Bits
  import opened Bitstream
  import opened Abbrev

  datatype Record = Record(code: nat, ops: seq<nat>, blob: Option<seq<nat>>)

  /** A record being decoded: the first value is its code. */
  datatype Acc = Acc(code: Option<nat>, ops: seq<nat>, blob: Option<seq<nat>>) {
    function Push(v: nat): Acc {
      if code.None? then this.(code := Some(v % WORD)) else this.(ops := ops + [v])
    }
  }

  /** The chunk width of array and blob lengths. */
  const LENGTH_WIDTH: nat := 6

  const EMPTY: Acc := Acc(None, [], None)

  function PushAll(a: Acc, vs: seq<nat>): Acc
    decreases |vs|
  {
    if vs == [] then a else PushAll(a, vs[..|vs| - 1]).Push(vs[|vs| - 1])
  }

  // ----- the decoder -----

  function ValueReader(b: seq<bool>, op: Op): nat -> Read<nat> { (p: nat) => ValueAt(b, p, op) }

  /** Bytes at bit position p. */
  function BytesAt(b: seq<bool>, p: nat, n: nat): seq<nat>
    requires p + 8 * n <= |b|
  {
    seq(n, (i: nat) requires i < n => Val(b[p + 8 * i..p + 8 * i + 8]))
  }

  /** The capacity check of an array of n elements, in 32 bits. */
  predicate Room(a: Acc, n: nat) { (|a.ops| + n) % WORD <= MAX_RECORD_OPS }

  /** An array's elements from q on, when its length has been read. */
  function ListAfter(b: seq<bool>, n: nat, q: nat, elem: Op, a: Acc): (r: Read<Acc>)
    ensures r.Got? ==> q <= r.next
  {
    if !Room(a, n) then Fail else
    ManyGrows(ValueReader(b, elem), q, n, []);
    match Many(ValueReader(b, elem), q, n, [])
    case Fail => Fail
    case Got(vs, r) => Got(PushAll(a, vs), r)
  }

  function ListAt(b: seq<bool>, p: nat, w: nat, elem: Op, a: Acc): (r: Read<Acc>)
    ensures r.Got? ==> p < r.next
  {
    match VbrAt(b, p, w, 32)
    case Fail => Fail
    case Got(n, q) => ListAfter(b, n, q, elem, a)
  }

  lemma ByteRoom(s: nat, n: nat, len: nat)
    requires s % 32 == 0 && s / 8 + n <= len / 8
    ensures s + 8 * n <= len
  {
  }

  function BlobAt(b: seq<bool>, p: nat, w: nat, a: Acc): (r: Read<Acc>)
    ensures r.Got? ==> p < r.next
  {
    match VbrAt(b, p, w, 32)
    case Fail => Fail
    case Got(n, q) =>
      var s := Align32(q);
      if s / 8 + n > |b| / 8 then Fail
      else ByteRoom(s, n, |b|); Got(a.(blob := Some(BytesAt(b, s, n))), Align32(s + 8 * n))
  }

  function ScalarAt(b: seq<bool>, p: nat, op: Op, a: Acc): (r: Read<Acc>)
    ensures r.Got? ==> p <= r.next
  {
    match ValueAt(b, p, op)
    case Fail => Fail
    case Got(v, q) => if a.code.Some? && |a.ops| >= MAX_RECORD_OPS then Fail else Got(a.Push(v), q)
  }

  /** One operation of the pattern, with the element type for an array. */
  function FieldAt(b: seq<bool>, pat: Pattern, i: nat, p: nat, a: Acc): (r: Read<Acc>)
    ensures r.Got? ==> p <= r.next
  {
    if i >= |pat| then Fail else
    match pat[i]
    case Array => if i + 1 >= |pat| then Fail else ListAt(b, p, LENGTH_WIDTH, pat[i + 1], a)
    case Blob => BlobAt(b, p, LENGTH_WIDTH, a)
    case op => ScalarAt(b, p, op, a)
  }

  function FieldReader(b: seq<bool>, pat: Pattern): (nat, nat, Acc) -> Read<Acc> {
    (i: nat, p: nat, a: Acc) => FieldAt(b, pat, i, p, a)
  }

  /** Operations of the pattern beyond the first that the field at i takes. */
  function Extra(pat: Pattern): nat -> nat {
    (i: nat) => if i < |pat| && pat[i].Array? then 1 else 0
  }

  /** Field after field up to operation n of the pattern. */
  function RecordFrom(read: (nat, nat, Acc) -> Read<Acc>, extra: nat -> nat, n: nat, i: nat, p: nat,
                      a: Acc): Read<Record>
    decreases n - i
  {
    if i >= n then if a.code.None? then Fail else Got(Record(a.code.value, a.ops, a.blob), p) else
    match read(i, p, a)
    case Fail => Fail
    case Got(a', q) => RecordFrom(read, extra, n, i + 1 + extra(i), q, a')
  }

  lemma {:induction false} RecordGrows(read: (nat, nat, Acc) -> Read<Acc>, extra: nat -> nat, n: nat, i: nat, p: nat,
                                a: Acc)
    requires forall i: nat, p: nat, a :: read(i, p, a).Got? ==> p <= read(i, p, a).next
    ensures RecordFrom(read, extra, n, i, p, a).Got? ==> p <= RecordFrom(read, extra, n, i, p, a).next
    decreases n - i
  {
    if i < n && read(i, p, a).Got? {
      RecordGrows(read, extra, n, i + 1 + extra(i), read(i, p, a).next, read(i, p, a).value);
    }
  }

  /** A record written with a pattern, at p. */
  function RecordAt(b: seq<bool>, pat: Pattern, p: nat): (r: Read<Record>)
    ensures r.Got? ==> p <= r.next
  {
    RecordGrows(FieldReader(b, pat), Extra(pat), |pat|, 0, p, EMPTY);
    RecordFrom(FieldReader(b, pat), Extra(pat), |pat|, 0, p, EMPTY)
  }

  // ----- the encoder -----

  /** What a writer supplies for each field of a pattern. */
  datatype Field = Scalar(v: nat) | List(vs: seq<nat>) | Bytes(bs: seq<nat>)

  function Zeros(n: nat): (z: seq<bool>)
    ensures |z| == n
  {
    seq(n, _ => false)
  }

  function Pad(p: nat): seq<bool> { Zeros(Align32(p) - p) }

  function ValueEncoder(op: Op): nat -> seq<bool> { (v: nat) => if Carries(op, v) then EncValue(op, v) else [] }

  function EncBlob(w: nat, bs: seq<nat>, p: nat): seq<bool>
    requires w >= 2
  {
    EncVbr(|bs|, w) + EncPayload(bs, p + |EncVbr(|bs|, w)|)
  }

  function EncPayload(bs: seq<nat>, p: nat): (e: seq<bool>)
    ensures p + |e| == Align32(Align32(p) + 8 * |bs|)
  {
    Pad(p) + Stream(bs) + Pad(Align32(p) + 8 * |bs|)
  }

  /** The field fits the operation, and the record stays within its capacity. */
  predicate FieldOk(pat: Pattern, i: nat, f: Field, a: Acc) {
    i < |pat| &&
    match f
    case Scalar(v) => Carries(pat[i], v) && (a.code.Some? ==> |a.ops| < MAX_RECORD_OPS)
    case List(vs) => pat[i].Array? && i + 1 < |pat| && |a.ops| + |vs| <= MAX_RECORD_OPS
                     && forall k :: 0 <= k < |vs| ==> Carries(pat[i + 1], vs[k])
    case Bytes(bs) => pat[i].Blob? && |bs| < Pow2(32) && AreBytes(bs)
  }

  function EncField(pat: Pattern, i: nat, f: Field, p: nat): seq<bool> {
    match f
    case Scalar(v) => if i < |pat| then ValueEncoder(pat[i])(v) else []
    case List(vs) => if i + 1 < |pat| then EncVbr(|vs|, LENGTH_WIDTH) + EncAll(ValueEncoder(pat[i + 1]), vs) else []
    case Bytes(bs) => EncBlob(LENGTH_WIDTH, bs, p)
  }

  /** What a field contributes to the record. */
  function Collect(a: Acc, f: Field): Acc {
    match f
    case Scalar(v) => a.Push(v)
    case List(vs) => PushAll(a, vs)
    case Bytes(bs) => a.(blob := Some(bs))
  }

  /** A pattern as a format: which fields fit where, how they are spelled, how many
      operations they take. */
  datatype Format = Format(n: nat, extra: nat -> nat, fits: (nat, Field, Acc) -> bool,
    spell: (nat, Field, nat) -> seq<bool>)

  function FormatOf(pat: Pattern): Format {
    Format(|pat|, Extra(pat), (i: nat, f: Field, a: Acc) => FieldOk(pat, i, f, a),
      (i: nat, f: Field, p: nat) => EncField(pat, i, f, p))
  }

  /** The fields fit the format from operation i on; something supplied the code. */
  predicate FieldsOk(t: Format, i: nat, fs: seq<Field>, a: Acc)
    decreases |fs|
  {
    if fs == [] then i == t.n && a.code.Some?
    else i < t.n && t.fits(i, fs[0], a) && FieldsOk(t, i + 1 + t.extra(i), fs[1..], Collect(a, fs[0]))
  }

  function EncFields(t: Format, i: nat, fs: seq<Field>, p: nat): seq<bool>
    decreases |fs|
  {
    if fs == [] then [] else
    var e := t.spell(i, fs[0], p);
    e + EncFields(t, i + 1 + t.extra(i), fs[1..], p + |e|)
  }

  function CollectAll(a: Acc, fs: seq<Field>): Acc
    decreases |fs|
  {
    if fs == [] then a else CollectAll(Collect(a, fs[0]), fs[1..])
  }

  /** The fields fit the pattern. */
  predicate Fits(pat: Pattern, fs: seq<Field>) { FieldsOk(FormatOf(pat), 0, fs, EMPTY) }

  function EncRecord(pat: Pattern, fs: seq<Field>, p: nat): seq<bool> { EncFields(FormatOf(pat), 0, fs, p) }

  /** The record that the fields spell. */
  function RecordOf(pat: Pattern, fs: seq<Field>): Record
    requires Fits(pat, fs)
  {
    CollectSome(FormatOf(pat), 0, fs, EMPTY);
    var a := CollectAll(EMPTY, fs);
    Record(a.code.value, a.ops, a.blob)
  }

  lemma {:induction false} CollectSome(t: Format, i: nat, fs: seq<Field>, a: Acc)
    requires FieldsOk(t, i, fs, a)
    ensures CollectAll(a, fs).code.Some?
    decreases |fs|
  {
    if fs != [] { CollectSome(t, i + 1 + t.extra(i), fs[1..], Collect(a, fs[0])); }
  }

  // ----- the round trip -----

  lemma Slices(b: seq<bool>, p: nat, n: nat, i: nat, j: nat)
    requires p + n <= |b| && i <= j <= n
    ensures b[p..p + n][i..j] == b[p + i..p + j]
  {
    var x, y := b[p..p + n][i..j], b[p + i..p + j];
    assert forall k :: 0 <= k < |x| ==> x[k] == y[k];
  }

  lemma HasSlice(b: seq<bool>, p: nat, e: seq<bool>, i: nat, j: nat)
    requires Has(b, p, e) && i <= j <= |e|
    ensures b[p + i..p + j] == e[i..j]
  {
    Slices(b, p, |e|, i, j);
  }

  lemma ByteSame(b: seq<bool>, p: nat, e: seq<bool>, i: nat, v: nat)
    requires Has(b, p, e) && 8 * i + 8 <= |e| && Val(e[8 * i..8 * i + 8]) == v
    ensures Val(b[p + 8 * i..p + 8 * i + 8]) == v
  {
    HasSlice(b, p, e, 8 * i, 8 * i + 8);
  }

  lemma ByteUndo(b: seq<bool>, p: nat, bs: seq<nat>, i: nat)
    requires AreBytes(bs) && Has(b, p, Stream(bs)) && i < |bs|
    ensures Val(b[p + 8 * i..p + 8 * i + 8]) == bs[i]
  {
    ByteValue(bs, i);
    ByteSame(b, p, Stream(bs), i, bs[i]);
  }

  lemma BytesUndo(b: seq<bool>, p: nat, bs: seq<nat>)
    requires AreBytes(bs) && Has(b, p, Stream(bs))
    ensures BytesAt(b, p, |bs|) == bs
  {
    forall i | 0 <= i < |bs| ensures BytesAt(b, p, |bs|)[i] == bs[i] { ByteUndo(b, p, bs, i); }
  }

  lemma BlobParts(b: seq<bool>, p: nat, w: nat, bs: seq<nat>) returns (q: nat)
    requires 2 <= w <= 32 && Has(b, p, EncBlob(w, bs, p)) && |bs| < Pow2(32)
    ensures VbrAt(b, p, w, 32) == Got(|bs|, q) && Has(b, q, EncPayload(bs, q))
    ensures p + |EncBlob(w, bs, p)| == q + |EncPayload(bs, q)|
  {
    q := CountStep(b, p, |bs|, w, EncPayload(bs, p + |EncVbr(|bs|, w)|));
  }

  lemma PayloadAt(b: seq<bool>, q: nat, bs: seq<nat>)
    requires Has(b, q, EncPayload(bs, q))
    ensures Has(b, Align32(q), Stream(bs))
  {
    Middle(b, q, Pad(q), Stream(bs), Pad(Align32(q) + 8 * |bs|));
  }

  lemma Middle(b: seq<bool>, q: nat, c: seq<bool>, d: seq<bool>, e: seq<bool>)
    requires Has(b, q, c + d + e)
    ensures Has(b, q + |c|, d)
  {
    HasBoth(b, q, c + d, e);
    HasBoth(b, q, c, d);
  }

  lemma BlobRoundTrip(b: seq<bool>, p: nat, w: nat, bs: seq<nat>, a: Acc)
    requires 2 <= w <= 32 && Has(b, p, EncBlob(w, bs, p)) && |bs| < Pow2(32) && AreBytes(bs)
    ensures BlobAt(b, p, w, a) == Got(a.(blob := Some(bs)), p + |EncBlob(w, bs, p)|)
  {
    var q := BlobParts(b, p, w, bs);
    BlobRest(b, p, w, a, q, bs, EncPayload(bs, q));
  }

  lemma BlobRest(b: seq<bool>, p: nat, w: nat, a: Acc, q: nat, bs: seq<nat>, e: seq<bool>)
    requires VbrAt(b, p, w, 32) == Got(|bs|, q) && Has(b, q, e) && e == EncPayload(bs, q) && AreBytes(bs)
    ensures BlobAt(b, p, w, a) == Got(a.(blob := Some(bs)), q + |e|)
  {
    PayloadAt(b, q, bs);
    BytesUndo(b, Align32(q), bs);
    BlobOf(b, p, w, a, q, Align32(q), bs);
  }

  lemma BlobOf(b: seq<bool>, p: nat, w: nat, a: Acc, q: nat, s: nat, bs: seq<nat>)
    requires VbrAt(b, p, w, 32) == Got(|bs|, q) && s == Align32(q) && s + 8 * |bs| <= |b| && BytesAt(b, s, |bs|) == bs
    ensures BlobAt(b, p, w, a) == Got(a.(blob := Some(bs)), Align32(s + 8 * |bs|))
  {
  }

  lemma ListRoundTrip(b: seq<bool>, p: nat, w: nat, elem: Op, vs: seq<nat>, a: Acc)
    requires 2 <= w <= 32 && |a.ops| + |vs| <= MAX_RECORD_OPS && forall k :: 0 <= k < |vs| ==> Carries(elem, vs[k])
    requires Has(b, p, EncVbr(|vs|, w) + EncAll(ValueEncoder(elem), vs))
    ensures ListAt(b, p, w, elem, a) == Got(PushAll(a, vs), p + |EncVbr(|vs|, w) + EncAll(ValueEncoder(elem), vs)|)
  {
    Pow2Kilo();
    var q := CountStep(b, p, |vs|, w, EncAll(ValueEncoder(elem), vs));
    var r := ElementsRoundTrip(b, q, elem, vs);
    ListOf(b, p, w, elem, a, q, vs, r);
  }

  lemma ListOf(b: seq<bool>, p: nat, w: nat, elem: Op, a: Acc, q: nat, vs: seq<nat>, r: nat)
    requires VbrAt(b, p, w, 32) == Got(|vs|, q) && |a.ops| + |vs| <= MAX_RECORD_OPS
    requires Many(ValueReader(b, elem), q, |vs|, []) == Got(vs, r)
    ensures ListAt(b, p, w, elem, a) == Got(PushAll(a, vs), r)
  {
    ListFits(b, |vs|, q, elem, a, vs, r);
  }

  lemma ListFits(b: seq<bool>, n: nat, q: nat, elem: Op, a: Acc, vs: seq<nat>, r: nat)
    requires |a.ops| + n <= MAX_RECORD_OPS && Many(ValueReader(b, elem), q, n, []) == Got(vs, r)
    ensures ListAfter(b, n, q, elem, a) == Got(PushAll(a, vs), r)
  {
    assert Room(a, n);
  }

  lemma ElementsRoundTrip(b: seq<bool>, q: nat, elem: Op, vs: seq<nat>) returns (r: nat)
    requires (forall k :: 0 <= k < |vs| ==> Carries(elem, vs[k])) && Has(b, q, EncAll(ValueEncoder(elem), vs))
    ensures r == q + |EncAll(ValueEncoder(elem), vs)| && Many(ValueReader(b, elem), q, |vs|, []) == Got(vs, r)
  {
    forall k | 0 <= k < |vs|
      ensures Undoes(b, ValueReader(b, elem), ValueEncoder(elem), vs[k])
    {
      ValueUndone(b, elem, vs[k]);
    }
    ManyRoundTrip(b, ValueReader(b, elem), ValueEncoder(elem), q, vs, []);
    assert [] + vs == vs;
    r := q + |EncAll(ValueEncoder(elem), vs)|;
  }

  lemma ValueUndone(b: seq<bool>, op: Op, v: nat)
    requires Carries(op, v)
    ensures Undoes(b, ValueReader(b, op), ValueEncoder(op), v)
  {
    forall p: nat | Has(b, p, EncValue(op, v)) ensures ValueAt(b, p, op) == Got(v, p + |EncValue(op, v)|) {
      ValueRoundTrip(b, p, op, v);
    }
  }

  lemma FieldRoundTrip(b: seq<bool>, pat: Pattern, i: nat, f: Field, p: nat, a: Acc)
    requires FieldOk(pat, i, f, a) && Has(b, p, EncField(pat, i, f, p))
    ensures FieldAt(b, pat, i, p, a) == Got(Collect(a, f), p + |EncField(pat, i, f, p)|)
  {
    match f
    case Scalar(v) => ValueRoundTrip(b, p, pat[i], v);
    case List(vs) => ListRoundTrip(b, p, LENGTH_WIDTH, pat[i + 1], vs, a);
    case Bytes(bs) => BlobRoundTrip(b, p, LENGTH_WIDTH, bs, a);
  }

  /** The reader undoes the format, field by field. */
  ghost predicate Faithful(b: seq<bool>, read: (nat, nat, Acc) -> Read<Acc>, t: Format) {
    forall i: nat, f, p: nat, a {:trigger t.spell(i, f, p), read(i, p, a)} ::
      t.fits(i, f, a) && Has(b, p, t.spell(i, f, p)) ==> read(i, p, a) == Got(Collect(a, f), p + |t.spell(i, f, p)|)
  }

  lemma PatternFaithful(b: seq<bool>, pat: Pattern)
    ensures Faithful(b, FieldReader(b, pat), FormatOf(pat))
  {
    var read, t := FieldReader(b, pat), FormatOf(pat);
    forall i: nat, f, p: nat, a | t.fits(i, f, a) && Has(b, p, t.spell(i, f, p))
      ensures read(i, p, a) == Got(Collect(a, f), p + |t.spell(i, f, p)|)
    {
      FieldRoundTrip(b, pat, i, f, p, a);
    }
  }

  lemma {:induction false} FieldsRoundTrip(b: seq<bool>, read: (nat, nat, Acc) -> Read<Acc>, t: Format, i: nat,
                                fs: seq<Field>, p: nat, a: Acc)
    requires Faithful(b, read, t) && FieldsOk(t, i, fs, a) && Has(b, p, EncFields(t, i, fs, p))
    ensures var c := CollectAll(a, fs);
            c.code.Some? && RecordFrom(read, t.extra, t.n, i, p, a)
              == Got(Record(c.code.value, c.ops, c.blob), p + |EncFields(t, i, fs, p)|)
    decreases |fs|
  {
    if fs != [] {
      var e, j, a' := t.spell(i, fs[0], p), i + 1 + t.extra(i), Collect(a, fs[0]);
      HasBoth(b, p, e, EncFields(t, j, fs[1..], p + |e|));
      assert read(i, p, a) == Got(a', p + |e|);
      FieldsRoundTrip(b, read, t, j, fs[1..], p + |e|, a');
    }
  }

  /** RECORD ROUND TRIP: for every pattern and every list of fields that fits it, decoding
      the encoding gives code, operands and blob back and consumes exactly its bits. */
  lemma RecordRoundTrip(b: seq<bool>, pat: Pattern, fs: seq<Field>, p: nat)
    requires Fits(pat, fs) && Has(b, p, EncRecord(pat, fs, p))
    ensures RecordAt(b, pat, p) == Got(RecordOf(pat, fs), p + |EncRecord(pat, fs, p)|)
  {
    PatternFaithful(b, pat);
    FieldsRoundTrip(b, FieldReader(b, pat), FormatOf(pat), 0, fs, p, EMPTY);
  }

  // ----- what the record is -----

  function Values(fs: seq<Field>): seq<nat> {
    if fs == [] then [] else
    (match fs[0] case Scalar(v) => [v] case List(vs) => vs case Bytes(_) => []) + Values(fs[1..])
  }

  lemma {:induction false} PushAllAppend(a: Acc, us: seq<nat>, vs: seq<nat>)
    ensures PushAll(a, us + vs) == PushAll(PushAll(a, us), vs)
    decreases |vs|
  {
    if vs == [] {
      assert us + vs == us;
    } else {
      assert (us + vs)[..|us + vs| - 1] == us + vs[..|vs| - 1];
      PushAllAppend(a, us, vs[..|vs| - 1]);
    }
  }

  lemma {:induction false} PushAllMeans(a: Acc, vs: seq<nat>)
    ensures var c := PushAll(a, vs);
            && c.blob == a.blob
            && (a.code.Some? ==> c.code == a.code && c.ops == a.ops + vs)
            && (a.code.None? && vs == [] ==> c == a)
            && (a.code.None? && vs != [] ==> c.code == Some(vs[0] % WORD) && c.ops == a.ops + vs[1..])
    decreases |vs|
  {
    if vs != [] {
      PushAllMeans(a, vs[..|vs| - 1]);
      assert vs[..|vs| - 1] + [vs[|vs| - 1]] == vs;
    }
  }

  lemma {:induction false} CollectMeans(a: Acc, fs: seq<Field>)
    ensures CollectAll(a, fs).(blob := a.blob) == PushAll(a, Values(fs))
    decreases |fs|
  {
    if fs != [] {
      var a' := Collect(a, fs[0]);
      CollectMeans(a', fs[1..]);
      match fs[0]
      case Scalar(v) =>
        assert PushAll(a, [v]) == a.Push(v) by { assert [v][..0] == []; }
        PushAllAppend(a, [v], Values(fs[1..]));
        PushAllMeans(a, Values(fs));
      case List(vs) =>
        PushAllAppend(a, vs, Values(fs[1..]));
        PushAllMeans(a, vs);
        PushAllMeans(a, Values(fs));
      case Bytes(bs) =>
        assert [] + Values(fs[1..]) == Values(fs[1..]);
        PushAllMeans(a, Values(fs));
        PushAllMeans(a', Values(fs));
    }
  }

  /** The first value is the code, as 32 bits; the others are the operands, in order. */
  lemma RecordMeans(pat: Pattern, fs: seq<Field>)
    requires Fits(pat, fs)
    ensures var vs, r := Values(fs), RecordOf(pat, fs);
            vs != [] && r.code == vs[0] % WORD && r.ops == vs[1..]
  {
    CollectSome(FormatOf(pat), 0, fs, EMPTY);
    CollectMeans(EMPTY, fs);
    PushAllMeans(EMPTY, Values(fs));
  }
}
