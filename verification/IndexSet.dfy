/** The free-list slot allocator behind the socket set. */
module IndexSets {
  import opened Bytes

  datatype Item<T> = NextFreeIndex(next: nat) | Exist(item: T)

  datatype AddResult<T> = Added(handle: nat) | Full(item: T)

  /** `chain` lists the free slots in the order the links visit them, starting at `first` and ending at |items|. */
  ghost predicate FreeChain<T>(items: seq<Item<T>>, first: nat, chain: seq<nat>)
    decreases |chain|
  {
    if chain == [] then first == |items|
    else
      && first < |items| && first == chain[0]
      && items[first].NextFreeIndex?
      && FreeChain(items, items[first].next, chain[1..])
  }

  ghost predicate Distinct(chain: seq<nat>) {
    forall a, b :: 0 <= a < b < |chain| ==> chain[a] != chain[b]
  }

  /** The free chain visits every free slot, and each exactly once. */
  ghost predicate Complete<T>(items: seq<Item<T>>, chain: seq<nat>) {
    && Distinct(chain)
    && (forall a :: 0 <= a < |chain| ==> chain[a] < |items| && items[chain[a]].NextFreeIndex?)
    && (forall i :: 0 <= i < |items| && items[i].NextFreeIndex? ==> i in chain)
  }

  /** The partial map from slots to items that the allocator implements. */
  function Slots<T>(items: seq<Item<T>>): (r: seq<Option<T>>)
    ensures |r| == |items|
    ensures forall i {:trigger r[i]} :: 0 <= i < |items| ==>
      r[i] == if items[i].Exist? then Some(items[i].item) else None
  {
    if items == [] then []
    else Slots(items[..|items| - 1]) + [match items[|items| - 1] case Exist(t) => Some(t) case NextFreeIndex(_) => None]
  }

  function Held<T>(slots: seq<Option<T>>): nat {
    if slots == [] then 0 else Held(slots[..|slots| - 1]) + if slots[|slots| - 1].Some? then 1 else 0
  }

  /** The held slots are the first `Held` ones: rank among the held slots and slot index agree. */
  ghost predicate Prefix<T>(slots: seq<Option<T>>) {
    forall i, j :: 0 <= i < j < |slots| && slots[j].Some? ==> slots[i].Some?
  }

  /** The chain is in ascending order without gaps: no slot has been removed since the set was new. */
  ghost predicate Ascending(chain: seq<nat>, n: nat) {
    |chain| <= n && forall a :: 0 <= a < |chain| ==> chain[a] == n - |chain| + a
  }

  /** k, k + 1, ..., n - 1. */
  ghost function Upward(k: nat, n: nat): (c: seq<nat>)
    requires k <= n
    ensures |c| == n - k && forall a :: 0 <= a < |c| ==> c[a] == k + a
    decreases n - k
  {
    if k == n then [] else [k] + Upward(k + 1, n)
  }

  /** Every slot links to the one after it. */
  ghost predicate AllLinked<T>(items: seq<Item<T>>) {
    forall i {:trigger items[i]} :: 0 <= i < |items| ==> items[i] == NextFreeIndex(i + 1)
  }

  lemma {:induction false} FreshChain<T>(items: seq<Item<T>>, k: nat)
    requires k <= |items| && AllLinked(items)
    ensures FreeChain(items, k, Upward(k, |items|))
    decreases |items| - k
  {
    if k < |items| {
      FreshChain(items, k + 1);
      assert Upward(k, |items|)[1..] == Upward(k + 1, |items|);
    }
  }

  lemma FreshComplete<T>(items: seq<Item<T>>)
    requires AllLinked(items)
    ensures Complete(items, Upward(0, |items|))
  {
    var c := Upward(0, |items|);
    forall i | 0 <= i < |items| ensures i in c { assert c[i] == i; }
  }

  class IndexSet<T> {
    var freeIndex: nat
    const items: array<Item<T>>
    ghost var chain: seq<nat>

    ghost predicate Valid()
      reads this, items
    {
      FreeChain(items[..], freeIndex, chain) && Complete(items[..], chain)
    }

    ghost function Contents(): (r: seq<Option<T>>)
      reads items
      ensures |r| == items.Length
    {
      Slots(items[..])
    }

    constructor (n: nat)
      ensures Valid() && fresh(items) && items.Length == n
      ensures forall i :: 0 <= i < n ==> Contents()[i].None?
      ensures Ascending(chain, n)
    {
      items := new Item<T>[n](_ => NextFreeIndex(0));
      freeIndex := 0;
      chain := Upward(0, n);
      new;
      var i := 0;
      while i < n
        invariant 0 <= i <= n && freeIndex == 0 && chain == Upward(0, n)
        invariant forall k :: 0 <= k < i ==> items[k] == NextFreeIndex(k + 1)
      {
        items[i] := NextFreeIndex(i + 1);
        i := i + 1;
      }
      FreshChain(items[..], 0);
      FreshComplete(items[..]);
    }

    /** Fails exactly when every slot is held; otherwise fills a slot that was free and changes no other. */
    method AddItem(item: T) returns (r: AddResult<T>)
      requires Valid()
      modifies this, items
      ensures Valid()
      ensures r.Full? <==> Held(old(Contents())) == items.Length
      ensures r.Full? ==> r.item == item && Contents() == old(Contents())
      ensures r.Added? ==> r.handle < items.Length && old(Contents())[r.handle].None?
      ensures r.Added? ==> Contents() == old(Contents())[r.handle := Some(item)]
      // without removals the handles are handed out in ascending order
      ensures old(Ascending(chain, items.Length)) ==> Ascending(chain, items.Length) && Prefix(Contents())
    {
      ghost var before := items[..];
      FreeIsRest(before, chain);
      if freeIndex < items.Length {
        match items[freeIndex] {
          case NextFreeIndex(next) =>
            var index := freeIndex;
            freeIndex := next;
            items[index] := Exist(item);
            TakeFirst(before, index, chain, Exist(item));
            chain := chain[1..];
            assert items[..] == before[index := Exist(item)];
            AscendingIsPrefix(items[..], chain);
            return Added(index);
          case Exist(_) =>
            assert false;
        }
      } else {
        AscendingIsPrefix(items[..], chain);
        return Full(item);
      }
    }

    /** Returns what the slot holds and frees it; a free or unknown slot changes nothing. */
    method RemoveItem(handle: nat) returns (r: Option<T>)
      requires Valid()
      modifies this, items
      ensures Valid()
      ensures r == if handle < items.Length then old(Contents())[handle] else None
      ensures Contents() == if handle < items.Length then old(Contents())[handle := None] else old(Contents())
    {
      ghost var before := items[..];
      if handle < items.Length {
        match items[handle] {
          case Exist(item) =>
            items[handle] := NextFreeIndex(freeIndex);
            GiveBack(before, freeIndex, chain, handle);
            freeIndex := handle;
            chain := [handle] + chain;
            assert items[..] == before[handle := NextFreeIndex(old(freeIndex))];
            return Some(item);
          case NextFreeIndex(_) =>
            return None;
        }
      } else {
        return None;
      }
    }

    method GetItem(handle: nat) returns (r: Option<T>)
      requires Valid()
      ensures r == if handle < items.Length then Contents()[handle] else None
    {
      if handle < items.Length {
        match items[handle] {
          case Exist(item) => return Some(item);
          case NextFreeIndex(_) => return None;
        }
      }
      return None;
    }

    /** A write through `get_item_mut`. */
    method UpdateItem(handle: nat, item: T) returns (ok: bool)
      requires Valid()
      modifies items
      ensures Valid()
      ensures ok <==> (handle < items.Length && old(Contents())[handle].Some?)
      ensures Contents() == if ok then old(Contents())[handle := Some(item)] else old(Contents())
    {
      ghost var before := items[..];
      if handle < items.Length && items[handle].Exist? {
        items[handle] := Exist(item);
        assert items[..] == before[handle := Exist(item)];
        ChainFrame(before, items[..], freeIndex, chain);
        return true;
      }
      return false;
    }
  }

  // ------------------------------------------------------------------ the free chain

  lemma {:induction false} ChainFrame<T>(items: seq<Item<T>>, items': seq<Item<T>>, first: nat, chain: seq<nat>)
    requires FreeChain(items, first, chain) && |items'| == |items|
    requires forall a :: 0 <= a < |chain| && chain[a] < |items| ==> items'[chain[a]] == items[chain[a]]
    ensures FreeChain(items', first, chain)
    decreases |chain|
  {
    if chain != [] {
      forall a | 0 <= a < |chain| - 1 && chain[1..][a] < |items|
        ensures items'[chain[1..][a]] == items[chain[1..][a]]
      {
        assert chain[1..][a] == chain[a + 1];
      }
      ChainFrame(items, items', items[first].next, chain[1..]);
    }
  }

  /** The links determine the chain. */
  lemma {:induction false} ChainUnique<T>(items: seq<Item<T>>, first: nat, c: seq<nat>, d: seq<nat>)
    requires FreeChain(items, first, c) && FreeChain(items, first, d)
    ensures c == d
    decreases |c|
  {
    if c != [] {
      ChainUnique(items, items[first].next, c[1..], d[1..]);
      assert c == [c[0]] + c[1..] && d == [d[0]] + d[1..];
    }
  }

  lemma TakeFirst<T>(items: seq<Item<T>>, first: nat, chain: seq<nat>, filled: Item<T>)
    requires FreeChain(items, first, chain) && Complete(items, chain) && chain != [] && filled.Exist?
    ensures FreeChain(items[first := filled], items[first].next, chain[1..])
    ensures Complete(items[first := filled], chain[1..])
    ensures Ascending(chain, |items|) ==> Ascending(chain[1..], |items|)
    ensures Slots(items[first := filled]) == Slots(items)[first := Some(filled.item)]
  {
    var items', rest := items[first := filled], chain[1..];
    assert forall a :: 0 <= a < |rest| ==> rest[a] == chain[a + 1];
    ChainFrame(items, items', items[first].next, rest);
  }

  lemma GiveBack<T>(items: seq<Item<T>>, first: nat, chain: seq<nat>, handle: nat)
    requires FreeChain(items, first, chain) && Complete(items, chain)
    requires handle < |items| && items[handle].Exist?
    ensures FreeChain(items[handle := NextFreeIndex(first)], handle, [handle] + chain)
    ensures Complete(items[handle := NextFreeIndex(first)], [handle] + chain)
  {
    var items', longer := items[handle := NextFreeIndex(first)], [handle] + chain;
    assert longer[1..] == chain;
    ChainFrame(items, items', first, chain);
    forall i | 0 <= i < |items'| && items'[i].NextFreeIndex? ensures i in longer {
      if i != handle { assert i in chain; }
    }
  }

  // ------------------------------------------------------------------ counting

  /** Free slots and held items add up to the capacity. */
  lemma {:induction false} FreeIsRest<T>(items: seq<Item<T>>, chain: seq<nat>)
    requires Complete(items, chain)
    ensures |chain| + Held(Slots(items)) == |items|
    decreases |items|
  {
    BelowLength(chain, |items|);
    if items != [] {
      var n := |items| - 1;
      assert Slots(items)[..n] == Slots(items[..n]);
      var c := Without(chain, n);
      WithoutLast(items, chain, n);
      FreeIsRest(items[..n], c);
    }
  }

  lemma BelowLength(chain: seq<nat>, n: nat)
    requires forall a :: 0 <= a < |chain| ==> chain[a] < n
    ensures chain != [] ==> n > 0
  {
    if chain != [] { assert chain[0] < n; }
  }

  ghost function Without(chain: seq<nat>, i: nat): (r: seq<nat>)
    requires Distinct(chain)
    ensures forall x :: x in r <==> x in chain && x != i
    ensures Distinct(r)
    ensures |r| == |chain| - if i in chain then 1 else 0
    decreases |chain|
  {
    if chain == [] then []
    else
      var rest := chain[1..];
      assert forall a :: 0 <= a < |rest| ==> rest[a] == chain[a + 1];
      assert chain == [chain[0]] + rest;
      if chain[0] == i then rest
      else
        var tail := Without(rest, i);
        assert forall a :: 0 <= a < |tail| ==> tail[a] in rest;
        [chain[0]] + tail
  }

  lemma WithoutLast<T>(items: seq<Item<T>>, chain: seq<nat>, n: nat)
    requires Complete(items, chain) && n == |items| - 1
    ensures Complete(items[..n], Without(chain, n))
    ensures n in chain <==> items[n].NextFreeIndex?
  {
    var c := Without(chain, n);
    forall a | 0 <= a < |c| ensures c[a] < n && items[..n][c[a]].NextFreeIndex? {
      assert c[a] in c;
      var b :| 0 <= b < |chain| && chain[b] == c[a];
    }
    forall i | 0 <= i < n && items[..n][i].NextFreeIndex? ensures i in c {
      assert items[i].NextFreeIndex?;
    }
  }

  lemma AscendingIsPrefix<T>(items: seq<Item<T>>, chain: seq<nat>)
    requires Complete(items, chain)
    ensures Ascending(chain, |items|) ==> Prefix(Slots(items))
  {
    if Ascending(chain, |items|) {
      forall i, j | 0 <= i < j < |items| && items[i].NextFreeIndex? ensures items[j].NextFreeIndex? {
        assert i in chain;
        assert chain[j - (|items| - |chain|)] == j;
      }
    }
  }
}
