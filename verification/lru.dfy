/** The shader cache as a list, most recently used first: what requests do to it, and what
    holds of two caches of different capacity that serve the same requests. */
module Lru {
  import opened Wrappers

  type Key = seq<nat>

  /** A translation: the buffer that holds it (0 is no buffer), its length and stage. */
  datatype Translation = Translation(buffer: nat, len: nat, stage: nat)

  datatype Item = Item(key: Key, value: Translation)

  datatype Request = Get(key: Key) | Put(key: Key, value: Translation)

  predicate Contains(l: seq<Item>, k: Key) { exists i :: 0 <= i < |l| && l[i].key == k }

  predicate DistinctKeys(l: seq<Item>) { forall i, j :: 0 <= i < j < |l| ==> l[i].key != l[j].key }

  /** The list without its item for k. */
  function Without(l: seq<Item>, k: Key): seq<Item> {
    if l == [] then [] else if l[0].key == k then l[1..] else [l[0]] + Without(l[1..], k)
  }

  function Lookup(l: seq<Item>, k: Key): Option<Translation> {
    if l == [] then None else if l[0].key == k then Some(l[0].value) else Lookup(l[1..], k)
  }

  /** What a request leaves in a cache of capacity cap. */
  function Serve(l: seq<Item>, cap: nat, q: Request): seq<Item> {
    match q
    case Get(k) => if Lookup(l, k).Some? then [Item(k, Lookup(l, k).value)] + Without(l, k) else l
    case Put(k, v) =>
      if Lookup(l, k).Some? then [Item(k, v)] + Without(l, k)
      else if l != [] && |l| >= cap then [Item(k, v)] + l[..|l| - 1]
      else [Item(k, v)] + l
  }

  predicate Hit(l: seq<Item>, q: Request) { q.Get? && Lookup(l, q.key).Some? }

  predicate Inserts(l: seq<Item>, q: Request) { q.Put? && Lookup(l, q.key).None? }

  predicate Evicts(l: seq<Item>, cap: nat, q: Request) { Inserts(l, q) && l != [] && |l| >= cap }

  /** The buffer a request frees, if any. */
  function Freed(l: seq<Item>, cap: nat, q: Request): multiset<nat> {
    if q.Get? then multiset{}
    else if Lookup(l, q.key).Some? then multiset{Lookup(l, q.key).value.buffer}
    else if Evicts(l, cap, q) then multiset{l[|l| - 1].value.buffer}
    else multiset{}
  }

  function Accepted(q: Request): multiset<nat> { if q.Put? then multiset{q.value.buffer} else multiset{} }

  /** A cache with its history: statistics, new keys so far, buffers accepted and freed. */
  datatype Cache = Cache(list: seq<Item>, hits: nat, misses: nat, evictions: nat, insertions: nat,
                         accepted: multiset<nat>, freed: multiset<nat>)

  const NEW: Cache := Cache([], 0, 0, 0, 0, multiset{}, multiset{})

  function One(b: bool): nat { if b then 1 else 0 }

  function After(c: Cache, cap: nat, q: Request): Cache {
    Cache(Serve(c.list, cap, q), c.hits + One(Hit(c.list, q)), c.misses + One(q.Get? && !Hit(c.list, q)),
          c.evictions + One(Evicts(c.list, cap, q)), c.insertions + One(Inserts(c.list, q)),
          c.accepted + Accepted(q), c.freed + Freed(c.list, cap, q))
  }

  /** A new cache of capacity cap after the first n requests. */
  function Run(cap: nat, qs: seq<Request>, n: nat): Cache
    requires n <= |qs|
  {
    if n == 0 then NEW else After(Run(cap, qs, n - 1), cap, qs[n - 1])
  }

  // ----- lists -----

  lemma {:induction false} LookupIff(l: seq<Item>, k: Key)
    ensures Lookup(l, k).Some? <==> Contains(l, k)
  {
    if l != [] && l[0].key != k {
      LookupIff(l[1..], k);
      if Contains(l, k) {
        var i :| 0 <= i < |l| && l[i].key == k;
        assert l[1..][i - 1].key == k;
      }
      if Contains(l[1..], k) {
        var i :| 0 <= i < |l[1..]| && l[1..][i].key == k;
        assert l[i + 1].key == k;
      }
    }
  }

  /** The item at i is the one looked up and the one removed. */
  lemma {:induction false} AtIndex(l: seq<Item>, i: nat)
    requires i < |l| && DistinctKeys(l)
    ensures Lookup(l, l[i].key) == Some(l[i].value) && Without(l, l[i].key) == l[..i] + l[i + 1..]
  {
    if i > 0 {
      assert l[1..][i - 1] == l[i];
      AtIndex(l[1..], i - 1);
      assert l[..i] + l[i + 1..] == [l[0]] + (l[1..][..i - 1] + l[1..][i..]);
    }
  }

  lemma {:induction false} WithoutAbsent(l: seq<Item>, k: Key)
    requires Lookup(l, k).None?
    ensures Without(l, k) == l
  {
    if l != [] { WithoutAbsent(l[1..], k); }
  }

  // ----- order-preserving sublists -----

  predicate Sub(s: seq<Item>, t: seq<Item>)
    decreases |t|
  {
    s == [] || (t != [] && if s[0] == t[0] then Sub(s[1..], t[1..]) else Sub(s, t[1..]))
  }

  lemma {:induction false} SubSelf(s: seq<Item>)
    ensures Sub(s, s)
  {
    if s != [] { SubSelf(s[1..]); }
  }

  lemma {:induction false} SubShorter(s: seq<Item>, t: seq<Item>)
    requires Sub(s, t)
    ensures |s| <= |t|
    decreases |t|
  {
    if s != [] { if s[0] == t[0] { SubShorter(s[1..], t[1..]); } else { SubShorter(s, t[1..]); } }
  }

  /** Dropping the first item of s. */
  lemma {:induction false} SubTail(s: seq<Item>, t: seq<Item>)
    requires Sub(s, t) && s != []
    ensures Sub(s[1..], t)
    decreases |t|
  {
    if s[0] == t[0] {
      if |s| > 1 && s[1] == t[0] { SubTail(s[1..], t[1..]); }
    } else {
      SubTail(s, t[1..]);
      if |s| > 1 && s[1] == t[0] && |s| > 2 { SubTail(s[1..], t[1..]); }
    }
  }

  lemma SubCons(x: Item, s: seq<Item>, t: seq<Item>)
    requires Sub(s, t)
    ensures Sub([x] + s, [x] + t) && Sub(s, [x] + t)
  {
    assert ([x] + s)[1..] == s && ([x] + t)[1..] == t;
    if s != [] && s[0] == x { SubTail(s, t); }
  }

  /** Shared keys carry equal values. */
  lemma {:induction false} SubLookup(s: seq<Item>, t: seq<Item>, k: Key)
    requires Sub(s, t) && DistinctKeys(t)
    ensures Lookup(s, k).Some? ==> Lookup(t, k) == Lookup(s, k)
    decreases |t|
  {
    if s != [] {
      if s[0] == t[0] {
        SubLookup(s[1..], t[1..], k);
      } else {
        SubLookup(s, t[1..], k);
        if t[0].key == k {
          NotLater(t);
          assert Lookup(t[1..], k).None?;
        }
      }
    }
  }

  lemma NotLater(t: seq<Item>)
    requires DistinctKeys(t) && t != []
    ensures Lookup(t[1..], t[0].key).None?
  {
    LookupIff(t[1..], t[0].key);
    assert forall i :: 0 <= i < |t[1..]| ==> t[1..][i] == t[i + 1];
  }

  lemma {:induction false} SubWithout(s: seq<Item>, t: seq<Item>, k: Key)
    requires Sub(s, t) && DistinctKeys(t)
    ensures Sub(Without(s, k), Without(t, k))
    decreases |t|
  {
    if s != [] {
      if s[0] == t[0] {
        if s[0].key != k {
          SubWithout(s[1..], t[1..], k);
          SubCons(s[0], Without(s[1..], k), Without(t[1..], k));
        }
      } else if t[0].key == k {
        NotLater(t);
        SubLookup(s, t[1..], k);
        WithoutAbsent(s, k);
      } else {
        SubWithout(s, t[1..], k);
        SubCons(t[0], Without(s, k), Without(t[1..], k));
      }
    }
  }

  /** Dropping the last item of both. */
  lemma {:induction false} SubFronts(s: seq<Item>, t: seq<Item>)
    requires Sub(s, t) && s != []
    ensures Sub(s[..|s| - 1], t[..|t| - 1])
    decreases |t|
  {
    if |s| > 1 {
      if s[0] == t[0] {
        SubShorter(s[1..], t[1..]);
        SubFronts(s[1..], t[1..]);
        assert s[1..][..|s| - 2] == s[..|s| - 1][1..] && t[1..][..|t| - 2] == t[..|t| - 1][1..];
      } else {
        SubShorter(s, t[1..]);
        SubFronts(s, t[1..]);
        assert t[1..][..|t| - 2] == t[..|t| - 1][1..];
      }
    }
  }

  lemma {:induction false} SubFront(s: seq<Item>, t: seq<Item>)
    requires Sub(s, t) && s != []
    ensures Sub(s[..|s| - 1], t)
    decreases |t|
  {
    if |s| > 1 {
      if s[0] == t[0] {
        SubFront(s[1..], t[1..]);
        assert s[1..][..|s| - 2] == s[..|s| - 1][1..];
      } else {
        SubFront(s, t[1..]);
      }
    }
  }

  // ----- every list reached is well formed -----

  lemma {:induction false} WithoutKeys(l: seq<Item>, k: Key)
    requires DistinctKeys(l)
    ensures DistinctKeys(Without(l, k)) && !Contains(Without(l, k), k)
    ensures |Without(l, k)| == if Lookup(l, k).Some? then |l| - 1 else |l|
  {
    if Lookup(l, k).Some? {
      LookupIff(l, k);
      var i :| 0 <= i < |l| && l[i].key == k;
      AtIndex(l, i);
    } else {
      WithoutAbsent(l, k);
      LookupIff(l, k);
    }
  }

  lemma ServeKeys(l: seq<Item>, cap: nat, q: Request)
    requires DistinctKeys(l) && |l| <= cap && cap > 0
    ensures DistinctKeys(Serve(l, cap, q)) && |Serve(l, cap, q)| <= cap
  {
    WithoutKeys(l, q.key);
    LookupIff(l, q.key);
  }

  // ----- inclusion -----

  /** The smaller cache holds a sublist of the larger, and the same list until it is full. */
  ghost predicate Included(s: seq<Item>, t: seq<Item>, a: nat, b: nat) {
    && 0 < a <= b && DistinctKeys(s) && DistinctKeys(t) && |s| <= a && |t| <= b
    && Sub(s, t) && (|s| < a ==> s == t)
  }

  lemma ServeIncluded(s: seq<Item>, t: seq<Item>, a: nat, b: nat, q: Request)
    requires Included(s, t, a, b)
    ensures Included(Serve(s, a, q), Serve(t, b, q), a, b)
  {
    ServeKeys(s, a, q);
    ServeKeys(t, b, q);
    WithoutKeys(s, q.key);
    SubLookup(s, t, q.key);
    SubWithout(s, t, q.key);
    if q.Get? { GetIncluded(s, t, q.key); } else { PutIncluded(s, t, a, b, q.key, q.value); }
  }

  lemma GetIncluded(s: seq<Item>, t: seq<Item>, k: Key)
    requires Sub(s, t) && DistinctKeys(t) && Sub(Without(s, k), Without(t, k))
    requires Lookup(s, k).Some? ==> Lookup(t, k) == Lookup(s, k)
    ensures Sub(Serve(s, 1, Get(k)), Serve(t, 1, Get(k)))
  {
    if Lookup(t, k).Some? {
      var x := Item(k, Lookup(t, k).value);
      SubCons(x, Without(s, k), Without(t, k));
      if Lookup(s, k).None? { WithoutAbsent(s, k); }
    }
  }

  lemma PutIncluded(s: seq<Item>, t: seq<Item>, a: nat, b: nat, k: Key, v: Translation)
    requires Included(s, t, a, b) && Sub(Without(s, k), Without(t, k))
    requires Lookup(s, k).Some? ==> Lookup(t, k) == Lookup(s, k)
    ensures Sub(Serve(s, a, Put(k, v)), Serve(t, b, Put(k, v)))
  {
    var x := Item(k, v);
    if Lookup(s, k).Some? {
      SubCons(x, Without(s, k), Without(t, k));
    } else {
      WithoutAbsent(s, k);
      if Lookup(t, k).Some? {
        SubFront(s, Without(t, k));
        SubCons(x, s[..|s| - 1], Without(t, k));
      } else {
        NewKeyIncluded(s, t, a, b, x);
      }
    }
  }

  lemma NewKeyIncluded(s: seq<Item>, t: seq<Item>, a: nat, b: nat, x: Item)
    requires Included(s, t, a, b)
    ensures Sub([x] + (if s != [] && |s| >= a then s[..|s| - 1] else s),
                [x] + if t != [] && |t| >= b then t[..|t| - 1] else t)
  {
    if |t| >= b {
      SubFronts(s, t);
      SubCons(x, s[..|s| - 1], t[..|t| - 1]);
    } else if |s| >= a {
      SubFront(s, t);
      SubCons(x, s[..|s| - 1], t);
    } else {
      SubCons(x, s, t);
    }
  }

  lemma HitBoth(s: seq<Item>, t: seq<Item>, a: nat, b: nat, q: Request)
    requires Included(s, t, a, b)
    ensures Hit(s, q) ==> Hit(t, q)
  {
    SubLookup(s, t, q.key);
  }

  ghost predicate Dominated(c: Cache, d: Cache, a: nat, b: nat) { Included(c.list, d.list, a, b) && c.hits <= d.hits }

  lemma AfterDominated(c: Cache, d: Cache, a: nat, b: nat, q: Request)
    requires Dominated(c, d, a, b)
    ensures Dominated(After(c, a, q), After(d, b, q), a, b)
  {
    ServeIncluded(c.list, d.list, a, b, q);
    HitBoth(c.list, d.list, a, b, q);
  }

  /** INCLUSION: on any trace of requests, a smaller cache's contents are at every moment
      a sublist of a larger one's (same keys, same values, same recency order), and it has
      had no more hits. */
  lemma {:induction false} Inclusion(a: nat, b: nat, qs: seq<Request>, n: nat)
    requires 0 < a <= b && n <= |qs|
    ensures Dominated(Run(a, qs, n), Run(b, qs, n), a, b)
  {
    if n > 0 {
      Inclusion(a, b, qs, n - 1);
      AfterDominated(Run(a, qs, n - 1), Run(b, qs, n - 1), a, b, qs[n - 1]);
    }
  }

  /** In terms of lookups: whatever the smaller cache knows, the larger knows too. */
  lemma InclusionLookup(a: nat, b: nat, qs: seq<Request>, n: nat, k: Key)
    requires 0 < a <= b && n <= |qs|
    ensures Lookup(Run(a, qs, n).list, k).Some? ==> Lookup(Run(b, qs, n).list, k) == Lookup(Run(a, qs, n).list, k)
  {
    Inclusion(a, b, qs, n);
    SubLookup(Run(a, qs, n).list, Run(b, qs, n).list, k);
  }

  // ----- conservation -----

  function BuffersOf(l: seq<Item>): multiset<nat> {
    if l == [] then multiset{} else multiset{l[0].value.buffer} + BuffersOf(l[1..])
  }

  lemma {:induction false} BuffersAppend(a: seq<Item>, b: seq<Item>)
    ensures BuffersOf(a + b) == BuffersOf(a) + BuffersOf(b)
  {
    if a == [] {
      assert a + b == b;
    } else {
      assert (a + b)[1..] == a[1..] + b;
      BuffersAppend(a[1..], b);
    }
  }

  lemma BuffersOne(x: Item)
    ensures BuffersOf([x]) == multiset{x.value.buffer}
  {
    assert [x][1..] == [];
  }

  lemma {:induction false} BuffersWithout(l: seq<Item>, k: Key)
    requires Lookup(l, k).Some?
    ensures BuffersOf(l) == multiset{Lookup(l, k).value.buffer} + BuffersOf(Without(l, k))
  {
    if l[0].key != k {
      BuffersWithout(l[1..], k);
      assert ([l[0]] + Without(l[1..], k))[1..] == Without(l[1..], k);
    }
  }

  lemma BuffersCons(x: Item, l: seq<Item>)
    ensures BuffersOf([x] + l) == multiset{x.value.buffer} + BuffersOf(l)
  {
    assert ([x] + l)[1..] == l;
  }

  lemma BuffersLast(l: seq<Item>)
    requires l != []
    ensures BuffersOf(l) == BuffersOf(l[..|l| - 1]) + multiset{l[|l| - 1].value.buffer}
  {
    var n := |l| - 1;
    BuffersOne(l[n]);
    BuffersAppend(l[..n], [l[n]]);
    assert l[..n] + [l[n]] == l;
  }

  /** No buffer is lost, duplicated or freed while live. */
  lemma ServeBuffers(l: seq<Item>, cap: nat, q: Request)
    ensures BuffersOf(l) + Accepted(q) == BuffersOf(Serve(l, cap, q)) + Freed(l, cap, q)
  {
    if q.Get? { GetBuffers(l, cap, q.key); } else { PutBuffers(l, cap, q.key, q.value); }
  }

  lemma GetBuffers(l: seq<Item>, cap: nat, k: Key)
    ensures BuffersOf(l) == BuffersOf(Serve(l, cap, Get(k)))
  {
    if Lookup(l, k).Some? {
      BuffersWithout(l, k);
      BuffersCons(Item(k, Lookup(l, k).value), Without(l, k));
    }
  }

  lemma PutBuffers(l: seq<Item>, cap: nat, k: Key, v: Translation)
    ensures BuffersOf(l) + multiset{v.buffer} == BuffersOf(Serve(l, cap, Put(k, v))) + Freed(l, cap, Put(k, v))
  {
    var q := Put(k, v);
    if Lookup(l, k).Some? {
      BuffersWithout(l, k);
      BuffersCons(Item(k, v), Without(l, k));
      Rearrange(multiset{Lookup(l, k).value.buffer}, BuffersOf(Without(l, k)), multiset{v.buffer});
    } else if Evicts(l, cap, q) {
      BuffersLast(l);
      BuffersCons(Item(k, v), l[..|l| - 1]);
      Rearrange(BuffersOf(l[..|l| - 1]), multiset{l[|l| - 1].value.buffer}, multiset{v.buffer});
    } else {
      BuffersCons(Item(k, v), l);
    }
  }

  lemma Rearrange(a: multiset<nat>, b: multiset<nat>, c: multiset<nat>)
    ensures a + b + c == (c + b) + a && a + b + c == (c + a) + b
  {
  }

  lemma Carry(all: multiset<nat>, one: multiset<nat>, live: multiset<nat>, gone: multiset<nat>, live': multiset<nat>,
              freed: multiset<nat>)
    requires all == live + gone && live + one == live' + freed
    ensures all + one == live' + (gone + freed)
  {
    assert all + one == (live + one) + gone;
    assert (live' + freed) + gone == live' + (gone + freed);
  }

  /** New keys are either still there or were evicted, and accepted buffers are either
      live or were freed. */
  ghost predicate Conserved(c: Cache, cap: nat) {
    && cap > 0 && DistinctKeys(c.list) && |c.list| <= cap
    && c.insertions == |c.list| + c.evictions
    && c.accepted == BuffersOf(c.list) + c.freed
  }

  lemma AfterConserved(c: Cache, cap: nat, q: Request)
    requires Conserved(c, cap)
    ensures Conserved(After(c, cap, q), cap)
  {
    ServeKeys(c.list, cap, q);
    ServeCount(c.list, cap, q);
    ServeBuffers(c.list, cap, q);
    Carry(c.accepted, Accepted(q), BuffersOf(c.list), c.freed, BuffersOf(Serve(c.list, cap, q)), Freed(c.list, cap, q));
  }

  lemma ServeCount(l: seq<Item>, cap: nat, q: Request)
    requires DistinctKeys(l)
    ensures |Serve(l, cap, q)| + One(Evicts(l, cap, q)) == |l| + One(Inserts(l, q))
  {
    WithoutKeys(l, q.key);
  }

  /** CONSERVATION, on any trace. */
  lemma {:induction false} Conservation(cap: nat, qs: seq<Request>, n: nat)
    requires cap > 0 && n <= |qs|
    ensures Conserved(Run(cap, qs, n), cap)
  {
    if n > 0 {
      Conservation(cap, qs, n - 1);
      AfterConserved(Run(cap, qs, n - 1), cap, qs[n - 1]);
    }
  }

  /** A buffer handed over once is live, or was freed, exactly once. */
  lemma LiveOrFreedOnce(cap: nat, qs: seq<Request>, n: nat, buf: nat)
    requires cap > 0 && n <= |qs| && Run(cap, qs, n).accepted[buf] == 1
    ensures BuffersOf(Run(cap, qs, n).list)[buf] + Run(cap, qs, n).freed[buf] == 1
  {
    Conservation(cap, qs, n);
  }
}
