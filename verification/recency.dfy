/** Least recently used: what a cache holds, in which order, and which entry it gives up. */
module Recency {
  import opened Wrappers
  import opened Lru

  /** Request i uses its key: it puts it, or finds it. */
  predicate Touches(cap: nat, qs: seq<Request>, i: nat)
    requires i < |qs|
  {
    qs[i].Put? || Contains(Run(cap, qs, i).list, qs[i].key)
  }

  /** t says which requests use their keys. */
  ghost predicate Marks(cap: nat, qs: seq<Request>, t: seq<bool>) {
    |t| == |qs| && forall i :: 0 <= i < |qs| ==> t[i] == Touches(cap, qs, i)
  }

  /** When k was last used, before request n. */
  function LastUse(qs: seq<Request>, t: seq<bool>, n: nat, k: Key): Option<nat>
    requires n <= |qs| == |t|
  {
    if n == 0 then None
    else if qs[n - 1].key == k && t[n - 1] then Some(n - 1)
    else LastUse(qs, t, n - 1, k)
  }

  /** The value that was last put under k. */
  function LastPut(qs: seq<Request>, n: nat, k: Key): Option<Translation>
    requires n <= |qs|
  {
    if n == 0 then None
    else if qs[n - 1].Put? && qs[n - 1].key == k then Some(qs[n - 1].value)
    else LastPut(qs, n - 1, k)
  }

  type Use = Key -> Option<nat>

  type Value = Key -> Option<Translation>

  /** Entries with distinct keys, used before n, the later the further in front, each with the
      value its key has. */
  ghost predicate Ranked(l: seq<Item>, use: Use, value: Value, n: nat) {
    && DistinctKeys(l)
    && (forall i :: 0 <= i < |l| ==> Used(l[i], use, value, n))
    && (forall i, j :: 0 <= i < j < |l| ==> Later(use, l[i].key, l[j].key))
  }

  predicate Used(x: Item, use: Use, value: Value, n: nat) {
    use(x.key).Some? && use(x.key).value < n && value(x.key) == Some(x.value)
  }

  predicate Later(use: Use, k: Key, k': Key) { use(k).Some? && use(k').Some? && use(k).value > use(k').value }

  /** Request n changes the last use and the value of its key, if it uses or puts it. */
  ghost predicate Moved(use: Use, value: Value, use': Use, value': Value, n: nat, q: Request, touch: bool) {
    && (forall k :: use'(k) == if touch && k == q.key then Some(n) else use(k))
    && (forall k :: value'(k) == if q.Put? && k == q.key then Some(q.value) else value(k))
  }

  /** rest is l with some entries left out. */
  ghost predicate Embeds(l: seq<Item>, rest: seq<Item>, f: nat -> nat) {
    && (forall i: nat :: i < |rest| ==> f(i) < |l| && rest[i] == l[f(i)])
    && (forall i: nat, j: nat :: i < j < |rest| ==> f(i) < f(j))
  }

  lemma RestRanked(l: seq<Item>, rest: seq<Item>, f: nat -> nat, use: Use, value: Value, n: nat)
    requires Ranked(l, use, value, n) && Embeds(l, rest, f)
    ensures Ranked(rest, use, value, n)
  {
    forall i, j | 0 <= i < j < |rest|
      ensures rest[i].key != rest[j].key && Later(use, rest[i].key, rest[j].key)
    {
      assert f(i) < f(j) && rest[i] == l[f(i)] && rest[j] == l[f(j)];
    }
    forall i: nat | i < |rest| ensures Used(rest[i], use, value, n) { assert rest[i] == l[f(i)]; }
  }

  /** Entries of other keys stay as they are. */
  lemma OthersStay(l: seq<Item>, use: Use, value: Value, use': Use, value': Value, n: nat, q: Request, touch: bool)
    requires Ranked(l, use, value, n) && Moved(use, value, use', value', n, q, touch)
    requires forall i :: 0 <= i < |l| ==> l[i].key != q.key
    ensures Ranked(l, use', value', n)
  {
    forall i, j | 0 <= i < j < |l| ensures Later(use', l[i].key, l[j].key) { assert Later(use, l[i].key, l[j].key); }
    forall i | 0 <= i < |l| ensures Used(l[i], use', value', n) { assert Used(l[i], use, value, n); }
  }

  lemma InFront(x: Item, rest: seq<Item>, use: Use, value: Value, n: nat)
    requires Ranked(rest, use, value, n) && use(x.key) == Some(n) && value(x.key) == Some(x.value)
    requires forall i :: 0 <= i < |rest| ==> rest[i].key != x.key
    ensures Ranked([x] + rest, use, value, n + 1)
  {
    var l := [x] + rest;
    forall i, j | 0 <= i < j < |l| ensures l[i].key != l[j].key && Later(use, l[i].key, l[j].key) {
      assert l[j] == rest[j - 1];
      if i > 0 { assert l[i] == rest[i - 1] && Later(use, rest[i - 1].key, rest[j - 1].key); }
    }
    forall i | 0 <= i < |l| ensures Used(l[i], use, value, n + 1) {
      if i > 0 { assert l[i] == rest[i - 1] && Used(rest[i - 1], use, value, n); }
    }
  }

  /** A request for a key that is there. */
  lemma FoundRanked(l: seq<Item>, i: nat, q: Request, use: Use, value: Value, use': Use, value': Value, n: nat)
    requires Ranked(l, use, value, n) && Moved(use, value, use', value', n, q, true) && i < |l| && l[i].key == q.key
    ensures Ranked([Item(q.key, if q.Get? then l[i].value else q.value)] + (l[..i] + l[i + 1..]), use', value', n + 1)
  {
    var rest := LeaveOut(l, i, use, value, n);
    OthersStay(rest, use, value, use', value', n, q, true);
    InFront(Item(q.key, if q.Get? then l[i].value else q.value), rest, use', value', n);
  }

  lemma LeaveOut(l: seq<Item>, i: nat, use: Use, value: Value, n: nat) returns (rest: seq<Item>)
    requires Ranked(l, use, value, n) && i < |l|
    ensures rest == l[..i] + l[i + 1..] && Ranked(rest, use, value, n)
    ensures forall j :: 0 <= j < |rest| ==> rest[j].key != l[i].key
  {
    rest := l[..i] + l[i + 1..];
    RestRanked(l, rest, (j: nat) => if j < i then j else j + 1, use, value, n);
    forall j | 0 <= j < |rest| ensures rest[j].key != l[i].key { assert rest[j] == l[if j < i then j else j + 1]; }
  }

  /** A new key in front of what is kept. */
  lemma NewRanked(l: seq<Item>, m: nat, q: Request, use: Use, value: Value, use': Use, value': Value, n: nat)
    requires Ranked(l, use, value, n) && Moved(use, value, use', value', n, q, true) && m <= |l| && q.Put?
    requires forall j :: 0 <= j < |l| ==> l[j].key != q.key
    ensures Ranked([Item(q.key, q.value)] + l[..m], use', value', n + 1)
  {
    RestRanked(l, l[..m], (j: nat) => j, use, value, n);
    OthersStay(l[..m], use, value, use', value', n, q, true);
    InFront(Item(q.key, q.value), l[..m], use', value', n);
  }

  /** One request. */
  lemma ServeRanked(l: seq<Item>, cap: nat, q: Request, use: Use, value: Value, use': Use, value': Value, n: nat)
    requires Ranked(l, use, value, n) && Moved(use, value, use', value', n, q, q.Put? || Contains(l, q.key))
    ensures Ranked(Serve(l, cap, q), use', value', n + 1)
  {
    LookupIff(l, q.key);
    if i :| 0 <= i < |l| && l[i].key == q.key {
      AtIndex(l, i);
      FoundRanked(l, i, q, use, value, use', value', n);
    } else if q.Get? {
      OthersStay(l, use, value, use', value', n, q, false);
    } else {
      assert l[..|l|] == l;
      NewRanked(l, if l != [] && |l| >= cap then |l| - 1 else |l|, q, use, value, use', value', n);
    }
  }

  function UseAt(qs: seq<Request>, t: seq<bool>, n: nat): Use
    requires n <= |qs| == |t|
  {
    (k: Key) => LastUse(qs, t, n, k)
  }

  function ValueAt(qs: seq<Request>, n: nat): Value
    requires n <= |qs|
  {
    (k: Key) => LastPut(qs, n, k)
  }

  /** Request i, given the lists before and after it. */
  ghost predicate Served(list: nat -> seq<Item>, cap: nat, qs: seq<Request>, t: seq<bool>, i: nat)
    requires i < |qs| == |t|
  {
    list(i + 1) == Serve(list(i), cap, qs[i]) && t[i] == (qs[i].Put? || Contains(list(i), qs[i].key))
  }

  lemma {:induction false} ServedRanked(list: nat -> seq<Item>, cap: nat, qs: seq<Request>, t: seq<bool>, n: nat)
    requires n <= |qs| == |t| && list(0) == [] && forall i: nat :: i < n ==> Served(list, cap, qs, t, i)
    ensures Ranked(list(n), UseAt(qs, t, n), ValueAt(qs, n), n)
  {
    if n > 0 {
      ServedRanked(list, cap, qs, t, n - 1);
      assert Served(list, cap, qs, t, n - 1);
      RankedNext(list(n - 1), cap, qs, t, n - 1);
    }
  }

  function ListOf(cap: nat, qs: seq<Request>): nat -> seq<Item> {
    (i: nat) => if i <= |qs| then Run(cap, qs, i).list else []
  }

  lemma RunServed(cap: nat, qs: seq<Request>, t: seq<bool>, i: nat)
    requires Marks(cap, qs, t) && i < |qs|
    ensures Served(ListOf(cap, qs), cap, qs, t, i)
  {
    var l, r := Run(cap, qs, i).list, Run(cap, qs, i + 1).list;
    RunNext(cap, qs, i);
    assert t[i] == Touches(cap, qs, i);
    ServedBy(ListOf(cap, qs), l, r, cap, qs, t, i);
  }

  lemma ServedBy(list: nat -> seq<Item>, l: seq<Item>, r: seq<Item>, cap: nat, qs: seq<Request>, t: seq<bool>, i: nat)
    requires i < |qs| == |t| && list(i) == l && list(i + 1) == r
    requires r == Serve(l, cap, qs[i]) && t[i] == (qs[i].Put? || Contains(l, qs[i].key))
    ensures Served(list, cap, qs, t, i)
  {
  }

  /** ORDER AND CONTENTS: on any trace the entries stand in the order of their last use, the
      latest first, each with the value last put under its key. */
  lemma RecentFirst(cap: nat, qs: seq<Request>, t: seq<bool>, n: nat)
    requires n <= |qs| && Marks(cap, qs, t)
    ensures Ranked(Run(cap, qs, n).list, UseAt(qs, t, n), ValueAt(qs, n), n)
  {
    forall i: nat | i < n ensures Served(ListOf(cap, qs), cap, qs, t, i) { RunServed(cap, qs, t, i); }
    ServedRanked(ListOf(cap, qs), cap, qs, t, n);
  }

  lemma RankedNext(l: seq<Item>, cap: nat, qs: seq<Request>, t: seq<bool>, n: nat)
    requires n < |qs| == |t| && t[n] == (qs[n].Put? || Contains(l, qs[n].key))
    requires Ranked(l, UseAt(qs, t, n), ValueAt(qs, n), n)
    ensures Ranked(Serve(l, cap, qs[n]), UseAt(qs, t, n + 1), ValueAt(qs, n + 1), n + 1)
  {
    UseMoves(qs, t, n);
    ServeRanked(l, cap, qs[n], UseAt(qs, t, n), ValueAt(qs, n), UseAt(qs, t, n + 1), ValueAt(qs, n + 1), n);
  }

  lemma RunNext(cap: nat, qs: seq<Request>, n: nat)
    requires n < |qs|
    ensures Run(cap, qs, n + 1).list == Serve(Run(cap, qs, n).list, cap, qs[n])
  {
  }

  lemma UseMoves(qs: seq<Request>, t: seq<bool>, n: nat)
    requires n < |qs| == |t|
    ensures Moved(UseAt(qs, t, n), ValueAt(qs, n), UseAt(qs, t, n + 1), ValueAt(qs, n + 1), n, qs[n], t[n])
  {
  }

  /** Every entry stays but the last one of a full cache when a new key is put. */
  lemma ServeKeeps(l: seq<Item>, cap: nat, q: Request, j: nat)
    requires DistinctKeys(l) && j < |l|
    ensures Contains(Serve(l, cap, q), l[j].key) <==>
              !(q.Put? && !Contains(l, q.key) && |l| >= cap && j == |l| - 1)
  {
    var r := Serve(l, cap, q);
    LookupIff(l, q.key);
    if s :| 0 <= s < |l| && l[s].key == q.key {
      AtIndex(l, s);
      assert r[if j == s then 0 else if j < s then j + 1 else j].key == l[j].key;
    } else if q.Get? {
      assert r[j].key == l[j].key;
    } else if |l| >= cap && j == |l| - 1 {
      forall i | 0 <= i < |r| ensures r[i].key != l[j].key { assert i > 0 ==> r[i] == l[i - 1]; }
    } else {
      assert r[j + 1].key == l[j].key;
    }
  }

  /** THE LEAST RECENTLY USED GOES, and nothing else ever does: a request makes an entry vanish
      only if it puts a new key into a full cache, and then it is the one whose last use is
      longest ago. */
  lemma GivesUp(cap: nat, qs: seq<Request>, t: seq<bool>, n: nat, i: nat)
    requires Marks(cap, qs, t) && n < |qs| && i < |Run(cap, qs, n).list|
    requires !Contains(Run(cap, qs, n + 1).list, Run(cap, qs, n).list[i].key)
    ensures var l := Run(cap, qs, n).list;
            && qs[n].Put? && !Contains(l, qs[n].key) && |l| >= cap
            && forall j :: 0 <= j < |l| && j != i ==>
                 Contains(Run(cap, qs, n + 1).list, l[j].key) && Later(UseAt(qs, t, n), l[j].key, l[i].key)
  {
    RecentFirst(cap, qs, t, n);
    var l := Run(cap, qs, n).list;
    ServeKeeps(l, cap, qs[n], i);
    forall j | 0 <= j < |l| && j != i
      ensures Contains(Run(cap, qs, n + 1).list, l[j].key) && Later(UseAt(qs, t, n), l[j].key, l[i].key)
    {
      ServeKeeps(l, cap, qs[n], j);
    }
  }

  /** What a put or a hit leaves in front is there to be found. */
  lemma ServedFirst(cap: nat, qs: seq<Request>, n: nat)
    requires n < |qs| && Touches(cap, qs, n)
    ensures var r := Run(cap, qs, n + 1).list;
            r != [] && r[0].key == qs[n].key && (qs[n].Put? ==> r[0].value == qs[n].value)
  {
    LookupIff(Run(cap, qs, n).list, qs[n].key);
  }

  function Gets(qs: seq<Request>, n: nat): nat
    requires n <= |qs|
  {
    if n == 0 then 0 else Gets(qs, n - 1) + if qs[n - 1].Get? then 1 else 0
  }

  /** Every lookup is a hit or a miss; it is a hit if and only if its key is there. */
  lemma {:induction false} EveryLookupCounts(cap: nat, qs: seq<Request>, n: nat)
    requires n <= |qs|
    ensures Run(cap, qs, n).hits + Run(cap, qs, n).misses == Gets(qs, n)
    ensures n > 0 && qs[n - 1].Get? ==>
              (Run(cap, qs, n).hits > Run(cap, qs, n - 1).hits <==> Contains(Run(cap, qs, n - 1).list, qs[n - 1].key))
  {
    if n > 0 {
      EveryLookupCounts(cap, qs, n - 1);
      CountedOnce(Run(cap, qs, n - 1), cap, qs[n - 1]);
    }
  }

  lemma CountedOnce(c: Cache, cap: nat, q: Request)
    ensures After(c, cap, q).hits == c.hits + One(q.Get? && Contains(c.list, q.key))
    ensures After(c, cap, q).misses == c.misses + One(q.Get? && !Contains(c.list, q.key))
  {
    LookupIff(c.list, q.key);
  }
}
