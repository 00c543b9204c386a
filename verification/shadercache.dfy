/** The shader cache: an array of entries with a use counter each, proved to behave as the
    list of module Lru.  `order` names the occupied slots, most recently used first. */
module ShaderCaches {
  import opened Wrappers
  import opened Lru

  datatype Entry = Entry(key: Key, value: Translation, lru: nat)

  const DEFAULT_ENTRIES: nat := 64

  function ItemAt(e: Entry): Item { Item(e.key, e.value) }

  function Items(es: seq<Entry>, order: seq<nat>): (l: seq<Item>)
    requires forall i :: 0 <= i < |order| ==> order[i] < |es|
    ensures |l| == |order| && forall i :: 0 <= i < |l| ==> l[i] == ItemAt(es[order[i]])
  {
    seq(|order|, (i: nat) requires i < |order| => ItemAt(es[order[i]]))
  }

  /** es are the occupied entries, order their slots by decreasing counter, all counters
      below `next`, all keys different. */
  ghost predicate Sorted(es: seq<Entry>, order: seq<nat>, next: nat) {
    && |order| == |es|
    && (forall i :: 0 <= i < |order| ==> order[i] < |es|)
    && (forall s :: 0 <= s < |es| ==> s in order)
    && (forall i, j :: 0 <= i < j < |order| ==> es[order[i]].lru > es[order[j]].lru)
    && (forall s :: 0 <= s < |es| ==> es[s].lru < next)
    && (forall s, t :: 0 <= s < t < |es| ==> es[s].key != es[t].key)
  }

  lemma SlotsDiffer(es: seq<Entry>, order: seq<nat>, next: nat, i: nat, j: nat)
    requires Sorted(es, order, next) && i < j < |order|
    ensures order[i] != order[j] && es[order[i]].key != es[order[j]].key
  {
    var s, t := order[i], order[j];
    assert es[s].lru > es[t].lru;
  }

  lemma ListDistinct(es: seq<Entry>, order: seq<nat>, next: nat)
    requires Sorted(es, order, next)
    ensures DistinctKeys(Items(es, order))
  {
    var l := Items(es, order);
    forall i, j | 0 <= i < j < |l| ensures l[i].key != l[j].key { SlotsDiffer(es, order, next, i, j); }
  }

  /** Moving the slot at place i to the front, with a new value and the newest counter. */
  lemma Touch(es: seq<Entry>, order: seq<nat>, next: nat, i: nat, k: Key, v: Translation)
    returns (es': seq<Entry>, order': seq<nat>)
    requires Sorted(es, order, next) && i < |order|
    requires forall s :: 0 <= s < |es| && s != order[i] ==> es[s].key != k
    ensures es' == es[order[i] := Entry(k, v, next)] && order' == [order[i]] + (order[..i] + order[i + 1..])
    ensures Sorted(es', order', next + 1)
    ensures Items(es', order') == [Item(k, v)] + (Items(es, order)[..i] + Items(es, order)[i + 1..])
  {
    var s := order[i];
    es', order' := es[s := Entry(k, v, next)], [s] + (order[..i] + order[i + 1..]);
    forall j | 0 <= j < |order| && j != i ensures order[j] != s {
      if j < i { SlotsDiffer(es, order, next, j, i); } else { SlotsDiffer(es, order, next, i, j); }
    }
    Moved(order, i, order');
    TouchSorted(es, order, next, i, Entry(k, v, next), es', order');
  }

  /** Place j of the new order holds what place Old(j) held. */
  function Old(i: nat, j: nat): nat
    requires j > 0
  {
    if j <= i then j - 1 else j
  }

  lemma Moved(order: seq<nat>, i: nat, order': seq<nat>)
    requires i < |order| && order' == [order[i]] + (order[..i] + order[i + 1..])
    ensures |order'| == |order| && order'[0] == order[i]
    ensures forall j :: 1 <= j < |order'| ==> order'[j] == order[Old(i, j)] && Old(i, j) != i
    ensures forall s :: s in order ==> s in order'
  {
    forall s | s in order ensures s in order' {
      var j :| 0 <= j < |order| && order[j] == s;
      assert order'[if j == i then 0 else if j < i then j + 1 else j] == s;
    }
  }

  lemma TouchSorted(es: seq<Entry>, order: seq<nat>, next: nat, i: nat, e: Entry, es': seq<Entry>, order': seq<nat>)
    requires Sorted(es, order, next) && i < |order| && e.lru == next && es' == es[order[i] := e]
    requires forall s :: 0 <= s < |es| && s != order[i] ==> es[s].key != e.key
    requires forall j :: 0 <= j < |order| && j != i ==> order[j] != order[i]
    requires |order'| == |order| && order'[0] == order[i] && forall s :: s in order ==> s in order'
    requires forall j :: 1 <= j < |order'| ==> order'[j] == order[Old(i, j)] && Old(i, j) != i
    ensures Sorted(es', order', next + 1)
    ensures Items(es', order')
         == [ItemAt(e)] + (Items(es, order)[..i] + Items(es, order)[i + 1..])
  {
    forall a, b | 0 <= a < b < |order'| ensures es'[order'[a]].lru > es'[order'[b]].lru {
      if a > 0 { assert es[order[Old(i, a)]].lru > es[order[Old(i, b)]].lru; }
    }
    TouchItems(es, order, i, e, es', order');
  }

  lemma TouchItems(es: seq<Entry>, order: seq<nat>, i: nat, e: Entry, es': seq<Entry>, order': seq<nat>)
    requires (forall j :: 0 <= j < |order| ==> order[j] < |es|) && i < |order| && es' == es[order[i] := e]
    requires forall j :: 0 <= j < |order| && j != i ==> order[j] != order[i]
    requires |order'| == |order| && order'[0] == order[i]
    requires forall j :: 1 <= j < |order'| ==> order'[j] == order[Old(i, j)] && Old(i, j) != i
    ensures (forall j :: 0 <= j < |order'| ==> order'[j] < |es'|)
    ensures Items(es', order') == [ItemAt(e)] + (Items(es, order)[..i] + Items(es, order)[i + 1..])
  {
    forall j | 0 <= j < |order'| ensures order'[j] < |es'| { if j > 0 { assert order'[j] == order[Old(i, j)]; } }
    var l, l' := Items(es, order), Items(es', order');
    forall j | 1 <= j < |l'| ensures l'[j] == l[Old(i, j)] { assert order'[j] == order[Old(i, j)]; }
    assert l' == [ItemAt(e)] + (l[..i] + l[i + 1..]);
  }

  /** A new slot at the end of the array becomes the front of the list. */
  lemma Append(es: seq<Entry>, order: seq<nat>, next: nat, k: Key, v: Translation)
    requires Sorted(es, order, next) && forall s :: 0 <= s < |es| ==> es[s].key != k
    ensures Sorted(es + [Entry(k, v, next)], [|es|] + order, next + 1)
    ensures Items(es + [Entry(k, v, next)], [|es|] + order) == [Item(k, v)] + Items(es, order)
  {
    var es', order' := es + [Entry(k, v, next)], [|es|] + order;
    Covers(es, order);
    forall a, b | 0 <= a < b < |order'| ensures es'[order'[a]].lru > es'[order'[b]].lru {
      assert order'[b] == order[b - 1] && order[b - 1] < |es|;
      if a > 0 { assert es[order[a - 1]].lru > es[order[b - 1]].lru; }
    }
    forall i | 0 <= i < |order'| ensures order'[i] < |es'| { if i > 0 { assert order'[i] == order[i - 1]; } }
    AppendItems(es, order, Entry(k, v, next));
  }

  lemma AppendItems(es: seq<Entry>, order: seq<nat>, e: Entry)
    requires forall i :: 0 <= i < |order| ==> order[i] < |es|
    ensures Items(es + [e], [|es|] + order) == [ItemAt(e)] + Items(es, order)
  {
  }

  lemma Covers(es: seq<Entry>, order: seq<nat>)
    requires forall s :: 0 <= s < |es| ==> s in order
    ensures forall s :: 0 <= s < |es| + 1 ==> s in [|es|] + order
  {
    forall s | 0 <= s < |es| + 1 ensures s in [|es|] + order { if s < |es| { assert s in order; } }
  }

  /** A key found in slot s is found at the place of s in the list. */
  lemma FoundAt(es: seq<Entry>, order: seq<nat>, next: nat, s: nat) returns (i: nat)
    requires Sorted(es, order, next) && s < |es|
    ensures i < |order| && order[i] == s
    ensures var l := Items(es, order);
            Lookup(l, es[s].key) == Some(es[s].value) && Without(l, es[s].key) == l[..i] + l[i + 1..]
  {
    assert s in order;
    i :| 0 <= i < |order| && order[i] == s;
    ListDistinct(es, order, next);
    AtIndex(Items(es, order), i);
  }

  lemma NotFound(es: seq<Entry>, order: seq<nat>, next: nat, k: Key)
    requires Sorted(es, order, next) && forall s :: 0 <= s < |es| ==> es[s].key != k
    ensures Lookup(Items(es, order), k).None?
  {
    LookupIff(Items(es, order), k);
  }

  lemma NothingSorted(es: seq<Entry>, order: seq<nat>, next: nat)
    requires |es| == 0 && order == []
    ensures Sorted(es, order, next) && Items(es, order) == []
  {
  }

  /** The slot with the least counter is the last in order. */
  lemma LeastIsLast(es: seq<Entry>, order: seq<nat>, next: nat, s: nat)
    requires Sorted(es, order, next) && s < |es| && forall t :: 0 <= t < |es| ==> es[s].lru <= es[t].lru
    ensures order[|order| - 1] == s
  {
    assert s in order;
    var n := |order| - 1;
    forall i | 0 <= i < n ensures order[i] != s { assert es[order[i]].lru > es[order[n]].lru; }
  }

  /** What putting a new key does. */
  lemma NewKey(l: seq<Item>, cap: nat, k: Key, v: Translation)
    requires Lookup(l, k).None? && cap > 0
    ensures var q := Request.Put(k, v);
            if |l| >= cap then
              && Serve(l, cap, q) == [Item(k, v)] + l[..|l| - 1]
              && Freed(l, cap, q) == multiset{l[|l| - 1].value.buffer} && Evicts(l, cap, q)
            else Serve(l, cap, q) == [Item(k, v)] + l && Freed(l, cap, q) == multiset{} && !Evicts(l, cap, q)
  {
  }

  lemma WithoutLast(l: seq<Item>)
    requires l != []
    ensures l[..|l| - 1] + l[|l|..] == l[..|l| - 1]
  {
  }

  class ShaderCache {
    const max: nat
    const entries: array<Entry>
    var count: nat
    var nextLru: nat
    var hits: nat
    var misses: nat
    var evictions: nat
    ghost var order: seq<nat>
    ghost var freed: multiset<nat>

    ghost predicate Valid()
      reads this, entries
    {
      && entries.Length == max && 0 < max && count <= max
      && Sorted(entries[..count], order, nextLru)
    }

    ghost function List(): (l: seq<Item>)
      reads this, entries
      requires Valid()
    {
      Items(entries[..count], order)
    }

    constructor (maxEntries: nat)
      ensures Valid() && fresh(entries) && max == (if maxEntries == 0 then 64 else maxEntries)
      ensures List() == [] && hits == misses == evictions == 0 && freed == multiset{}
    {
      var n := if maxEntries == 0 then DEFAULT_ENTRIES else maxEntries;
      max := n;
      entries := new Entry[n](_ => Entry([], Translation(0, 0, 0), 0));
      count, nextLru := 0, 1;
      hits, misses, evictions := 0, 0, 0;
      order, freed := [], multiset{};
      new;
      NothingSorted(entries[..count], order, nextLru);
    }

    /** The slot that holds a key. */
    method FindEntry(k: Key) returns (r: Option<nat>)
      requires Valid()
      ensures r.Some? ==> r.value < count && entries[r.value].key == k
      ensures r.None? ==> forall s :: 0 <= s < count ==> entries[s].key != k
    {
      var i := 0;
      while i < count
        invariant 0 <= i <= count && forall s :: 0 <= s < i ==> entries[s].key != k
      {
        if entries[i].key == k { return Some(i); }
        i := i + 1;
      }
      return None;
    }

    /** The least recently used slot. */
    method FindLru() returns (idx: nat)
      requires Valid() && count > 0
      ensures idx < count && order[count - 1] == idx
    {
      idx := 0;
      var least := entries[0].lru;
      var i := 1;
      while i < count
        invariant 1 <= i <= count && idx < i && least == entries[idx].lru
        invariant forall s :: 0 <= s < i ==> least <= entries[s].lru
      {
        if entries[i].lru < least { least, idx := entries[i].lru, i; }
        i := i + 1;
      }
      LeastIsLast(entries[..count], order, nextLru, idx);
    }

    method Get(k: Key) returns (r: Option<Translation>)
      requires Valid()
      modifies this, entries
      ensures Valid() && List() == Serve(old(List()), max, Request.Get(k)) && r == Lookup(old(List()), k)
      ensures hits == old(hits) + One(Hit(old(List()), Request.Get(k)))
      ensures misses == old(misses) + One(!Hit(old(List()), Request.Get(k)))
      ensures evictions == old(evictions) && freed == old(freed)
    {
      var idx := FindEntry(k);
      if idx.None? {
        NotFound(entries[..count], order, nextLru, k);
        misses := misses + 1;
        return None;
      }
      hits := hits + 1;
      r := Some(entries[idx.value].value);
      Refresh(idx.value, k, entries[idx.value].value);
    }

    /** Give slot s a key, a value and the newest counter. */
    method Overwrite(s: nat, ghost i: nat, k: Key, v: Translation, ghost l: seq<Item>)
      requires Valid() && s < count && i < count && order[i] == s
      requires forall t :: 0 <= t < count && t != s ==> entries[t].key != k
      requires l == List()
      modifies this`nextLru, this`order, entries
      ensures Valid() && List() == [Item(k, v)] + (l[..i] + l[i + 1..])
    {
      ghost var es, o := Touch(entries[..count], order, nextLru, i, k, v);
      entries[s] := Entry(k, v, nextLru);
      nextLru := nextLru + 1;
      order := o;
      assert entries[..count] == es;
    }

    /** The key is in slot s: a new value, and to the front. */
    method Refresh(s: nat, k: Key, v: Translation)
      requires Valid() && s < count && entries[s].key == k
      modifies this`nextLru, this`order, entries
      ensures Valid() && List() == [Item(k, v)] + Without(old(List()), k)
      ensures Lookup(old(List()), k) == Some(old(entries[s].value))
    {
      ghost var i := FoundAt(entries[..count], order, nextLru, s);
      Overwrite(s, i, k, v, List());
    }

    /** The key is new and the cache full: it takes the least recently used slot. */
    method Replace(k: Key, v: Translation, ghost l: seq<Item>) returns (gone: nat)
      requires Valid() && l == List() && count >= max && forall t :: 0 <= t < count ==> entries[t].key != k
      modifies this`nextLru, this`order, entries
      ensures Valid() && |l| == count > 0 && List() == [Item(k, v)] + l[..count - 1]
      ensures gone == l[count - 1].value.buffer
    {
      var s := FindLru();
      gone := entries[s].value.buffer;
      WithoutLast(l);
      Overwrite(s, count - 1, k, v, l);
    }

    /** The key is new and there is room: it takes the next free slot. */
    method Insert(k: Key, v: Translation, ghost l: seq<Item>)
      requires Valid() && l == List() && count < max && forall t :: 0 <= t < count ==> entries[t].key != k
      modifies this`nextLru, this`order, this`count, entries
      ensures Valid() && List() == [Item(k, v)] + l
    {
      Append(entries[..count], order, nextLru, k, v);
      ghost var es := entries[..count] + [Entry(k, v, nextLru)];
      entries[count] := Entry(k, v, nextLru);
      order := [count] + order;
      nextLru := nextLru + 1;
      count := count + 1;
      assert entries[..count] == es;
    }

    method PutNew(k: Key, v: Translation, ghost l: seq<Item>)
      requires Valid() && l == List() && forall t :: 0 <= t < count ==> entries[t].key != k
      modifies this, entries
      ensures Valid() && hits == old(hits) && misses == old(misses)
      ensures List() == Serve(l, max, Request.Put(k, v))
      ensures evictions == old(evictions) + One(Evicts(l, max, Request.Put(k, v)))
      ensures freed == old(freed) + Freed(l, max, Request.Put(k, v))
    {
      NotFound(entries[..count], order, nextLru, k);
      NewKey(l, max, k, v);
      if count >= max { Evict(k, v, l); } else { Insert(k, v, l); }
    }

    method Evict(k: Key, v: Translation, ghost l: seq<Item>)
      requires Valid() && l == List() && count >= max && forall t :: 0 <= t < count ==> entries[t].key != k
      modifies this, entries
      ensures Valid() && hits == old(hits) && misses == old(misses) && evictions == old(evictions) + 1
      ensures |l| == max && List() == [Item(k, v)] + l[..max - 1]
      ensures freed == old(freed) + multiset{l[max - 1].value.buffer}
    {
      var gone := Replace(k, v, l);
      freed := freed + multiset{gone};
      evictions := evictions + 1;
    }

    method Put(k: Key, v: Translation) returns (ok: bool)
      requires Valid()
      modifies this, entries
      ensures Valid() && ok == (v.buffer != 0) && hits == old(hits) && misses == old(misses)
      ensures !ok ==> List() == old(List()) && evictions == old(evictions) && freed == old(freed)
      ensures ok ==> List() == Serve(old(List()), max, Request.Put(k, v))
      ensures ok ==> evictions == old(evictions) + One(Evicts(old(List()), max, Request.Put(k, v)))
      ensures ok ==> freed == old(freed) + Freed(old(List()), max, Request.Put(k, v))
    {
      if v.buffer == 0 { return false; }
      var existing := FindEntry(k);
      if existing.Some? {
        freed := freed + multiset{entries[existing.value].value.buffer};
        Refresh(existing.value, k, v);
      } else {
        PutNew(k, v, List());
      }
      return true;
    }

    /** Closing frees every live buffer. */
    method Close()
      requires Valid()
      modifies this`freed
      ensures freed == old(freed) + BuffersOf(List())
    {
      ghost var was, es := freed, entries[..count];
      FreeSlots(es);
      SameBuffers(es, order, nextLru);
    }

    method FreeSlots(ghost es: seq<Entry>)
      requires count <= entries.Length && es == entries[..count]
      modifies this`freed
      ensures freed == old(freed) + SlotBuffers(es)
    {
      var i := 0;
      ghost var was := freed;
      NoneFreed(was, es);
      while i < count
        invariant 0 <= i <= count && Released(was, freed, es, i)
      {
        FreedNext(was, freed, es, i);
        freed := freed + multiset{entries[i].value.buffer};
        i := i + 1;
      }
      assert es[..count] == es;
    }
  }

  /** The buffers of the first i slots have been freed. */
  ghost predicate Released(was: multiset<nat>, freed: multiset<nat>, es: seq<Entry>, i: nat)
    requires i <= |es|
  {
    freed == was + SlotBuffers(es[..i])
  }

  lemma NoneFreed(was: multiset<nat>, es: seq<Entry>)
    ensures Released(was, was, es, 0)
  {
    assert es[..0] == [];
  }

  lemma FreedNext(was: multiset<nat>, freed: multiset<nat>, es: seq<Entry>, i: nat)
    requires i < |es| && Released(was, freed, es, i)
    ensures Released(was, freed + multiset{es[i].value.buffer}, es, i + 1)
  {
    var x := multiset{es[i].value.buffer};
    SlotBuffersNext(es[..i], es[i]);
    assert es[..i + 1] == es[..i] + [es[i]];
    assert was + SlotBuffers(es[..i]) + x == was + (SlotBuffers(es[..i]) + x);
  }

  function SlotBuffers(es: seq<Entry>): multiset<nat> {
    if es == [] then multiset{} else SlotBuffers(es[..|es| - 1]) + multiset{es[|es| - 1].value.buffer}
  }

  lemma SlotBuffersNext(es: seq<Entry>, e: Entry)
    ensures SlotBuffers(es + [e]) == SlotBuffers(es) + multiset{e.value.buffer}
  {
    assert (es + [e])[..|es|] == es;
  }

  /** order lists the numbers below n, each once. */
  ghost predicate Permutes(order: seq<nat>, n: nat) {
    && |order| == n && (forall i :: 0 <= i < n ==> order[i] < n) && (forall s :: 0 <= s < n ==> s in order)
    && (forall i, j :: 0 <= i < j < n ==> order[i] != order[j])
  }

  lemma RemoveTop(order: seq<nat>, n: nat) returns (i: nat)
    requires Permutes(order, n) && n > 0
    ensures i < n && order[i] == n - 1 && Permutes(order[..i] + order[i + 1..], n - 1)
  {
    assert n - 1 in order;
    i :| 0 <= i < n && order[i] == n - 1;
    var rest := order[..i] + order[i + 1..];
    forall j | 0 <= j < n - 1 ensures rest[j] < n - 1 {
      assert rest[j] == order[if j < i then j else j + 1];
    }
    forall s | 0 <= s < n - 1 ensures s in rest {
      assert s in order;
      var j :| 0 <= j < n && order[j] == s;
      assert rest[if j < i then j else j - 1] == s;
    }
  }

  lemma Around(l: seq<Item>, i: nat)
    requires i < |l|
    ensures l == l[..i] + ([l[i]] + l[i + 1..])
  {
  }

  lemma BuffersAround(a: seq<Item>, x: Item, b: seq<Item>)
    ensures BuffersOf(a + ([x] + b)) == BuffersOf(a + b) + multiset{x.value.buffer}
  {
    BuffersAppend(a, [x] + b);
    BuffersCons(x, b);
    BuffersAppend(a, b);
    Swap(BuffersOf(a + ([x] + b)), BuffersOf(a), multiset{x.value.buffer}, BuffersOf(b), BuffersOf(a + b));
  }

  lemma Swap(all: multiset<nat>, a: multiset<nat>, x: multiset<nat>, b: multiset<nat>, rest: multiset<nat>)
    requires all == a + (x + b) && rest == a + b
    ensures all == rest + x
  {
  }

  lemma ItemsWithout(es: seq<Entry>, order: seq<nat>, rest: seq<nat>, i: nat)
    requires |order| == |es| && i < |es| && rest == order[..i] + order[i + 1..]
    requires (forall j :: 0 <= j < |es| ==> order[j] < |es|) && forall j :: 0 <= j < |rest| ==> rest[j] < |es| - 1
    ensures Items(es[..|es| - 1], rest) == Items(es, order)[..i] + Items(es, order)[i + 1..]
  {
    var a, b := Items(es[..|es| - 1], rest), Items(es, order)[..i] + Items(es, order)[i + 1..];
    forall j | 0 <= j < |rest| ensures a[j] == b[j] {
      assert rest[j] == order[if j < i then j else j + 1];
    }
  }

  lemma LastSlot(es: seq<Entry>, order: seq<nat>, i: nat)
    requires i < |order| && (forall j :: 0 <= j < |order| ==> order[j] < |es|) && order[i] == |es| - 1
    ensures SlotBuffers(es) == SlotBuffers(es[..|es| - 1]) + multiset{Items(es, order)[i].value.buffer}
  {
  }

  lemma BuffersWithout(l: seq<Item>, i: nat)
    requires i < |l|
    ensures BuffersOf(l) == BuffersOf(l[..i] + l[i + 1..]) + multiset{l[i].value.buffer}
  {
    Around(l, i);
    BuffersAround(l[..i], l[i], l[i + 1..]);
  }

  lemma {:induction false} SamePermuted(es: seq<Entry>, order: seq<nat>)
    requires Permutes(order, |es|)
    ensures BuffersOf(Items(es, order)) == SlotBuffers(es)
    decreases |es|
  {
    if es == [] {
      assert Items(es, order) == [];
    } else {
      var i := RemoveTop(order, |es|);
      var rest := order[..i] + order[i + 1..];
      SamePermuted(es[..|es| - 1], rest);
      ItemsWithout(es, order, rest, i);
      LastSlot(es, order, i);
      BuffersWithout(Items(es, order), i);
    }
  }

  /** The slots and the list hold the same buffers. */
  lemma SameBuffers(es: seq<Entry>, order: seq<nat>, next: nat)
    requires Sorted(es, order, next)
    ensures SlotBuffers(es) == BuffersOf(Items(es, order))
  {
    forall i, j | 0 <= i < j < |order| ensures order[i] != order[j] { SlotsDiffer(es, order, next, i, j); }
    SamePermuted(es, order);
  }
}
