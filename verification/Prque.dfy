/** The priority queue: heap sifting over the block stack, with the index of every value
    reported as it moves. */
module Prque {
  import opened Wrappers
  import opened Words
  import opened Sstack

  function Parent(i: nat): (p: nat)
    requires i > 0
    ensures p < i
  {
    (i - 1) / 2
  }

  // ----- Heap order

  /** The first n items, none before its parent; Above compares ranks. */
  ghost predicate Above<V>(lo: int, s: seq<Item<V>>, i: nat, j: nat)
    requires i < |s| && j < |s|
  {
    Rank(lo, s[i]) >= Rank(lo, s[j])
  }

  ghost predicate Heap<V>(lo: int, s: seq<Item<V>>, n: nat)
    requires n <= |s|
  {
    forall i :: 1 <= i < n ==> Above(lo, s, Parent(i), i)
  }

  /** A heap but for what is at k, whose children are still below its parent. */
  ghost predicate Hole<V>(lo: int, s: seq<Item<V>>, n: nat, k: nat)
    requires n <= |s| && k < |s|
  {
    && (forall i :: 1 <= i < n && i != k && Parent(i) != k ==> Above(lo, s, Parent(i), i))
    && (k > 0 ==> forall i :: 1 <= i < n && Parent(i) == k ==> Above(lo, s, Parent(k), i))
  }

  /** The item at k may only be too low, or only too high. */
  ghost predicate Sinks<V>(lo: int, s: seq<Item<V>>, n: nat, k: nat)
    requires n <= |s| && k < |s|
  {
    Hole(lo, s, n, k) && (0 < k < n ==> Above(lo, s, Parent(k), k))
  }

  ghost predicate Rises<V>(lo: int, s: seq<Item<V>>, n: nat, k: nat)
    requires n <= |s| && k < |s|
  {
    Hole(lo, s, n, k) && forall i :: 1 <= i < n && Parent(i) == k ==> Above(lo, s, k, i)
  }

  lemma {:induction false} RootIsGreatest<V>(lo: int, s: seq<Item<V>>, n: nat, k: nat)
    requires n <= |s| && k < n && Heap(lo, s, n)
    ensures Above(lo, s, 0, k)
  {
    hide Rank;
    if k > 0 {
      RootIsGreatest(lo, s, n, Parent(k));
      assert Above(lo, s, Parent(k), k);
    }
  }

  /** A too high item rises past its parent. */
  lemma RiseStep<V>(lo: int, s: seq<Item<V>>, n: nat, k: nat)
    requires n <= |s| && 0 < k < n && Rises(lo, s, n, k) && !Above(lo, s, Parent(k), k)
    ensures Rises(lo, Swapped(s, Parent(k), k), n, Parent(k))
  {
    hide Rank;
    var p := Parent(k);
    var t := Swapped(s, p, k);
    forall i | 1 <= i < n && i != p && Parent(i) != p
      ensures Above(lo, t, Parent(i), i)
    {
      if Parent(i) == k {
        assert Above(lo, s, p, i);
      } else {
        assert Above(lo, s, Parent(i), i);
      }
    }
    forall i | 1 <= i < n && Parent(i) == p
      ensures Above(lo, t, p, i) && (p > 0 ==> Above(lo, t, Parent(p), i))
    {
      if i != k {
        assert Above(lo, s, p, i);
      }
      if p > 0 {
        assert Above(lo, s, Parent(p), p);
      }
    }
  }

  /** A too low item sinks below the greater of its children. */
  lemma SinkStep<V>(lo: int, s: seq<Item<V>>, n: nat, k: nat, c: nat)
    requires n <= |s| && k < n && 0 < c < n && Parent(c) == k && Hole(lo, s, n, k)
    requires !Above(lo, s, k, c) && forall i :: 1 <= i < n && Parent(i) == k ==> Above(lo, s, c, i)
    ensures Sinks(lo, Swapped(s, k, c), n, c)
  {
    hide Rank;
    var t := Swapped(s, k, c);
    forall i | 1 <= i < n && i != c && Parent(i) != c
      ensures Above(lo, t, Parent(i), i)
    {
      if Parent(i) == k {
        assert Above(lo, s, c, i);
      } else if i == k {
        assert Above(lo, s, Parent(k), c);
      } else {
        assert Above(lo, s, Parent(i), i);
      }
    }
    forall i | 1 <= i < n && Parent(i) == c
      ensures Above(lo, t, k, i)
    {
      assert Above(lo, s, c, i);
    }
  }

  /** The only children are the two next to each other. */
  lemma Children(i: nat, k: nat)
    requires i > 0
    ensures Parent(i) == k <==> i == 2 * k + 1 || i == 2 * k + 2
  {
  }

  // ----- The reported indices

  /** The last index reported of a value is where it is, or -1 if it is gone. So no value
      is in the queue twice. */
  ghost predicate Indexed<V>(s: seq<Item<V>>, index: map<V, int>)
  {
    && (forall i :: 0 <= i < |s| ==> s[i].value in index && index[s[i].value] == i)
    && (forall v :: v in index ==> index[v] == -1 || (0 <= index[v] < |s| && s[index[v]].value == v))
  }

  ghost predicate Absent<V>(s: seq<Item<V>>, v: V)
  {
    forall i :: 0 <= i < |s| ==> s[i].value != v
  }

  lemma SwapIndexed<V>(s: seq<Item<V>>, index: map<V, int>, i: nat, j: nat)
    requires i < |s| && j < |s| && Indexed(s, index)
    ensures Indexed(Swapped(s, i, j), index[s[j].value := i][s[i].value := j])
  {
  }

  lemma PushIndexed<V>(s: seq<Item<V>>, index: map<V, int>, x: Item<V>)
    requires Indexed(s, index) && Absent(s, x.value)
    ensures Indexed(s + [x], index[x.value := |s|])
  {
  }

  lemma PopIndexed<V>(s: seq<Item<V>>, index: map<V, int>, x: Item<V>)
    requires Indexed(s + [x], index)
    ensures Indexed(s, index[x.value := -1])
  {
    assert (s + [x])[|s|] == x;
    forall i | 0 <= i < |s|
      ensures s[i].value in index && index[s[i].value] == i && s[i].value != x.value
    {
      assert (s + [x])[i] == s[i];
    }
  }

  // ----- Sifting, as container/heap does it

  /** Permutes the items of a stack, and keeps the reported indices exact. */
  twostate predicate Moved<V>(s: Stack<V>)
    reads s, s.blocks
  {
    && s.Valid() && s.blocks == old(s.blocks) && |s.items| == |old(s.items)|
    && multiset(s.items) == multiset(old(s.items))
    && (old(Indexed(s.items, s.index)) ==> Indexed(s.items, s.index))
  }

  method Swap<V(==)>(s: Stack<V>, i: nat, j: nat)
    requires s.Valid() && i < |s.items| && j < |s.items|
    modifies s`items, s`index, s.blocks
    ensures Moved(s) && s.items == Swapped(old(s.items), i, j)
  {
    hide Indexed, Stack.Valid, Swapped;
    s.Swap(i, j);
    SwapPermutes(old(s.items), i, j);
    if old(Indexed(s.items, s.index)) {
      SwapIndexed(old(s.items), old(s.index), i, j);
    }
  }

  method Up<V(==)>(s: Stack<V>, k: nat, ghost n: nat, ghost lo: int)
    requires s.Valid() && k < n <= |s.items| && Spread(lo, s.items) && Rises(lo, s.items, n, k)
    modifies s`items, s`index, s.blocks
    ensures Moved(s) && Spread(lo, s.items) && Heap(lo, s.items, n) && s.items[n..] == old(s.items[n..])
  {
    hide Indexed, Stack.Valid, Rank, Spread, Hole, Rises, Heap;
    var j: nat := k;
    while true
      invariant Moved(s) && j < n && Spread(lo, s.items) && Rises(lo, s.items, n, j)
      invariant s.items[n..] == old(s.items[n..])
      decreases j
    {
      if j == 0 {
        RisenAll(lo, s.items, n, j);
        break;
      }
      var i := Parent(j);
      var less := s.IsLess(j, i);
      Compare(lo, s.items, i, j);
      if !less {
        RisenAll(lo, s.items, n, j);
        break;
      }
      RiseStep(lo, s.items, n, j);
      SwapSpread(lo, s.items, i, j);
      label Before:
      Swap(s, i, j);
      assert s.items[n..] == old@Before(s.items[n..]);
      j := i;
    }
  }

  lemma RisenAll<V>(lo: int, s: seq<Item<V>>, n: nat, k: nat)
    requires k < n <= |s| && Rises(lo, s, n, k) && (k > 0 ==> Above(lo, s, Parent(k), k))
    ensures Heap(lo, s, n)
  {
  }

  lemma Compare<V>(lo: int, s: seq<Item<V>>, i: nat, j: nat)
    requires i < |s| && j < |s| && Spread(lo, s)
    ensures Less(s[j], s[i]) <==> !Above(lo, s, i, j)
  {
    LessIsRank(lo, s[j], s[i]);
  }

  method Down<V(==)>(s: Stack<V>, k: nat, n: nat, ghost lo: int) returns (moved: bool)
    requires s.Valid() && k < |s.items| && n <= |s.items| && Spread(lo, s.items) && Hole(lo, s.items, n, k)
    modifies s`items, s`index, s.blocks
    ensures Moved(s) && Spread(lo, s.items) && s.items[n..] == old(s.items[n..])
    ensures moved ==> Heap(lo, s.items, n)
    ensures !moved ==> Rises(lo, s.items, n, k) && s.items == old(s.items)
  {
    hide Indexed, Stack.Valid, Rank, Spread, Hole, Rises, Sinks, Heap;
    var i: nat, more := k, true;
    while more
      invariant Moved(s) && (i == k || k < i < n) && Spread(lo, s.items) && s.items[n..] == old(s.items[n..])
      invariant Hole(lo, s.items, n, i) && (i == k ==> s.items == old(s.items)) && (i > k ==> Sinks(lo, s.items, n, i))
      invariant !more ==> Rises(lo, s.items, n, i)
      decreases n - i, more
    {
      var next := Sink(s, i, n, lo);
      more, i := next != i, next;
    }
    if i > k {
      SunkAll(lo, s.items, n, i);
    }
    return i > k;
  }

  /** One pass of its loop; an item that stays is above its children. */
  method Sink<V(==)>(s: Stack<V>, i: nat, n: nat, ghost lo: int) returns (next: nat)
    requires s.Valid() && i < |s.items| && n <= |s.items| && Spread(lo, s.items) && Hole(lo, s.items, n, i)
    modifies s`items, s`index, s.blocks
    ensures Moved(s) && Spread(lo, s.items) && s.items[n..] == old(s.items[n..])
    ensures next == i || i < next < n
    ensures next == i ==> Rises(lo, s.items, n, i) && s.items == old(s.items) && s.index == old(s.index)
    ensures next > i ==> Sinks(lo, s.items, n, next) && Hole(lo, s.items, n, next)
  {
    hide Indexed, Stack.Valid, Rank, Spread, Hole, Rises, Sinks;
    var j := 2 * i + 1;
    if j >= n {
      NoChildren(lo, s.items, n, i);
      return i;
    }
    j := Greater(s, j, n, i, lo);
    var less := s.IsLess(j, i);
    Compare(lo, s.items, i, j);
    if !less {
      AboveBoth(lo, s.items, n, i, j);
      return i;
    }
    SinkStep(lo, s.items, n, i, j);
    SwapSpread(lo, s.items, i, j);
    Swap(s, i, j);
    SinksHole(lo, s.items, n, j);
    return j;
  }

  /** The child that comes first. */
  method Greater<V(==)>(s: Stack<V>, j: nat, n: nat, i: nat, ghost lo: int) returns (c: nat)
    requires s.Valid() && j == 2 * i + 1 < n <= |s.items| && Spread(lo, s.items)
    ensures 0 < c < n && Parent(c) == i
    ensures forall h :: 1 <= h < n && Parent(h) == i ==> Above(lo, s.items, c, h)
  {
    hide Stack.Valid, Spread, Rank;
    c := j;
    var less := false;
    if j + 1 < n {
      less := s.IsLess(j + 1, j);
      Compare(lo, s.items, j, j + 1);
    }
    if less {
      c := j + 1;
    }
    forall h | 1 <= h < n && Parent(h) == i
      ensures Above(lo, s.items, c, h)
    {
      Children(h, i);
    }
  }

  lemma NoChildren<V>(lo: int, s: seq<Item<V>>, n: nat, k: nat)
    requires k < |s| && n <= |s| && 2 * k + 1 >= n && Hole(lo, s, n, k)
    ensures Rises(lo, s, n, k)
  {
  }

  lemma AboveBoth<V>(lo: int, s: seq<Item<V>>, n: nat, k: nat, c: nat)
    requires k < |s| && n <= |s| && c < n && Hole(lo, s, n, k) && Above(lo, s, k, c)
    requires forall h :: 1 <= h < n && Parent(h) == k ==> Above(lo, s, c, h)
    ensures Rises(lo, s, n, k)
  {
    hide Rank;
    forall h | 1 <= h < n && Parent(h) == k
      ensures Above(lo, s, k, h)
    {
      assert Above(lo, s, c, h);
    }
  }

  lemma SinksHole<V>(lo: int, s: seq<Item<V>>, n: nat, k: nat)
    requires k < |s| && n <= |s| && Sinks(lo, s, n, k)
    ensures Hole(lo, s, n, k)
  {
  }

  lemma SunkAll<V>(lo: int, s: seq<Item<V>>, n: nat, k: nat)
    requires 0 < k < n <= |s| && Sinks(lo, s, n, k) && Rises(lo, s, n, k)
    ensures Heap(lo, s, n)
  {
  }

  // ----- The queue

  /** No item comes before its parent, by the comparison of the source. */
  ghost predicate HeapOrder<V>(s: seq<Item<V>>)
  {
    forall i :: 1 <= i < |s| ==> NotBefore(s, Parent(i), i)
  }

  ghost predicate NotBefore<V>(s: seq<Item<V>>, i: nat, j: nat)
    requires i < |s| && j < |s|
  {
    !Less(s[j], s[i])
  }

  /** In any window that holds the items this is the heap by ranks, so that the window may
      move as the priorities do. */
  lemma HeapInWindow<V>(lo: int, s: seq<Item<V>>)
    requires Spread(lo, s)
    ensures HeapOrder(s) <==> Heap(lo, s, |s|)
  {
    hide Less, Rank, Spread;
    forall i | 1 <= i < |s|
      ensures NotBefore(s, Parent(i), i) <==> Above(lo, s, Parent(i), i)
    {
      Compare(lo, s, Parent(i), i);
    }
  }

  /** An item put at the end may only be too high. */
  lemma PushRises<V>(lo: int, s: seq<Item<V>>, x: Item<V>)
    requires Heap(lo, s, |s|)
    ensures Rises(lo, s + [x], |s| + 1, |s|)
  {
    hide Rank;
    forall i | 1 <= i < |s|
      ensures Above(lo, s + [x], Parent(i), i)
    {
      assert Above(lo, s, Parent(i), i);
    }
  }

  /** The last item put in the place of another leaves a hole there. */
  lemma ReplaceLeavesHole<V>(lo: int, s: seq<Item<V>>, k: nat)
    requires k < |s| && Heap(lo, s, |s|)
    ensures Hole(lo, Swapped(s, k, |s| - 1), |s| - 1, k)
  {
    hide Rank;
    var n := |s| - 1;
    var t := Swapped(s, k, n);
    forall i | 1 <= i < n && i != k && Parent(i) != k
      ensures Above(lo, t, Parent(i), i)
    {
      assert Above(lo, s, Parent(i), i);
    }
    if 0 < k < n {
      forall i | 1 <= i < n && Parent(i) == k
        ensures Above(lo, t, Parent(k), i)
      {
        assert Above(lo, s, Parent(k), k) && Above(lo, s, k, i);
      }
    }
  }

  lemma HeapPrefix<V>(lo: int, s: seq<Item<V>>, x: Item<V>)
    requires Heap(lo, s + [x], |s|)
    ensures Heap(lo, s, |s|)
  {
    hide Rank;
    forall i | 1 <= i < |s|
      ensures Above(lo, s, Parent(i), i)
    {
      assert Above(lo, s + [x], Parent(i), i);
    }
  }

  lemma SpreadPrefix<V>(lo: int, s: seq<Item<V>>, x: Item<V>)
    ensures Spread(lo, s + [x]) <==> Spread(lo, s) && Rank(lo, x) < HALF
  {
    hide Rank;
    assert Spread(lo, s + [x]) ==> Rank(lo, (s + [x])[|s|]) < HALF;
    forall i | 0 <= i < |s|
      ensures (s + [x])[i] == s[i]
    {
    }
  }

  class Queue<V(==)> {
    const cont: Stack<V>

    /** The items are a heap, and their priorities lie within 2^63 of each other. */
    ghost predicate Valid()
      reads this, cont, cont.blocks
    {
      cont.Valid() && Fits(cont.items) && HeapOrder(cont.items)
    }

    /** The last call of setIndex for v said that it left. */
    ghost predicate Gone(v: V)
      reads cont
    {
      v in cont.index && cont.index[v] == -1
    }

    constructor ()
      ensures Valid() && cont.items == [] && Indexed(cont.items, cont.index) && fresh(cont) && fresh(cont.blocks)
    {
      cont := new Stack<V>();
      new;
      assert Spread(0, cont.items);
    }

    /** The window of what is in the queue. */
    lemma Window() returns (lo: int)
      requires Valid()
      ensures Spread(lo, cont.items) && Heap(lo, cont.items, |cont.items|)
    {
      lo :| Spread(lo, cont.items);
      HeapInWindow(lo, cont.items);
    }

    lemma InWindow(lo: int)
      requires cont.Valid() && Spread(lo, cont.items) && Heap(lo, cont.items, |cont.items|)
      ensures Valid()
    {
      HeapInWindow(lo, cont.items);
    }

    /** The caller sees to it that the new contents fit; a window for the old ones need not do. */
    method Push(data: V, priority: int)
      requires Valid() && Fits(cont.items + [Item(data, priority)])
      modifies cont, cont.blocks
      ensures Valid() && multiset(cont.items) == multiset(old(cont.items)) + multiset{Item(data, priority)}
      ensures old(Indexed(cont.items, cont.index)) && Absent(old(cont.items), data) ==> Indexed(cont.items, cont.index)
      ensures forall i :: 0 <= i < |cont.blocks| ==> cont.blocks[i] in old(cont.blocks) || fresh(cont.blocks[i])
    {
      hide Indexed, Stack.Valid, Rank, Spread, Hole, Rises, Heap, HeapOrder;
      var x := Item(data, priority);
      ghost var lo: int :| Spread(lo, cont.items + [x]);
      SpreadPrefix(lo, cont.items, x);
      HeapInWindow(lo, cont.items);
      cont.Push(x);
      PushRises(lo, old(cont.items), x);
      if old(Indexed(cont.items, cont.index)) && Absent(old(cont.items), data) {
        PushIndexed(old(cont.items), old(cont.index), x);
      }
      Up(cont, cont.size - 1, |cont.items|, lo);
      InWindow(lo);
    }

    /** Pop; none before the returned item is in the queue. */
    method Pop() returns (x: Item<V>)
      requires Valid() && |cont.items| > 0
      modifies cont, cont.blocks
      ensures Valid() && multiset(old(cont.items)) == multiset(cont.items) + multiset{x}
      ensures forall y :: y in old(cont.items) ==> !Less(y, x)
      ensures forall lo: int, y :: Spread(lo, old(cont.items)) && y in old(cont.items) ==> Rank(lo, y) <= Rank(lo, x)
      ensures forall lo: int, y :: Within(lo, old(cont.items)) && y in old(cont.items) ==> y.priority <= x.priority
      ensures old(Indexed(cont.items, cont.index)) ==> Indexed(cont.items, cont.index) && Gone(x.value)
      ensures cont.blocks == old(cont.blocks)
    {
      hide Indexed, Stack.Valid, Rank, Spread, Hole, Rises, Heap, HeapOrder, Fits, Less, Within;
      ghost var lo := Window();
      ghost var s := cont.items;
      var n := cont.Len();
      n := n - 1;
      Greatest(lo, s);
      GreatestRank(s);
      GreatestNumber(s);
      ReplaceLeavesHole(lo, s, 0);
      SwapSpread(lo, s, 0, n);
      Swap(cont, 0, n);
      var moved := Down(cont, 0, n, lo);
      if !moved {
        RisenRoot(lo, cont.items, n);
      }
      x := TakeLast(lo);
    }

    /** Remove of index i, -1 of which means nothing to remove. */
    method Remove(i: int) returns (x: Option<Item<V>>)
      requires Valid() && i < |cont.items|
      modifies cont, cont.blocks
      ensures Valid() && (x.None? <==> i < 0) && cont.blocks == old(cont.blocks)
      ensures x.None? ==> cont.items == old(cont.items) && cont.index == old(cont.index)
      ensures x.Some? ==> x.value == old(cont.items)[i] && multiset(old(cont.items)) == multiset(cont.items) + multiset{x.value}
      ensures x.Some? && old(Indexed(cont.items, cont.index)) ==>
                Indexed(cont.items, cont.index) && Gone(x.value.value)
    {
      hide Indexed, Stack.Valid, Rank, Spread, Hole, Rises, Heap, HeapOrder, Fits;
      if i < 0 {
        return None;
      }
      ghost var lo := Window();
      ghost var s := cont.items;
      var n := cont.Len();
      n := n - 1;
      if n != i {
        MoveToEnd(i, n, lo);
      } else {
        HeapShorter(lo, s, n);
      }
      var y := TakeLast(lo);
      x := Some(y);
    }

    /** The item at i changes places with the last, which finds its place. */
    method MoveToEnd(i: nat, n: nat, ghost lo: int)
      requires cont.Valid() && i < n == |cont.items| - 1 && Spread(lo, cont.items) && Heap(lo, cont.items, |cont.items|)
      modifies cont`items, cont`index, cont.blocks
      ensures Moved(cont) && Spread(lo, cont.items) && Heap(lo, cont.items, n) && cont.items[n] == old(cont.items)[i]
    {
      hide Indexed, Stack.Valid, Rank, Spread, Hole, Rises, Heap;
      ReplaceLeavesHole(lo, cont.items, i);
      SwapSpread(lo, cont.items, i, n);
      Swap(cont, i, n);
      ghost var last := cont.items[n..];
      assert last[0] == old(cont.items)[i];
      var moved := Down(cont, i, n, lo);
      if !moved {
        Up(cont, i, n, lo);
      }
      assert cont.items[n..][0] == last[0];
    }

    /** The item moved to the end leaves. */
    method TakeLast(ghost lo: int) returns (x: Item<V>)
      requires cont.Valid() && |cont.items| > 0 && Spread(lo, cont.items) && Heap(lo, cont.items, |cont.items| - 1)
      modifies cont, cont.blocks
      ensures Valid() && old(cont.items) == cont.items + [x] && cont.blocks == old(cont.blocks)
      ensures multiset(old(cont.items)) == multiset(cont.items) + multiset{x}
      ensures old(Indexed(cont.items, cont.index)) ==> Indexed(cont.items, cont.index) && Gone(x.value)
    {
      hide Indexed, Rank, Spread, Heap, Stack.Valid;
      var n := cont.Len();
      x := cont.Pop();
      HeapPrefix(lo, cont.items, x);
      SpreadPrefix(lo, cont.items, x);
      InWindow(lo);
      if old(Indexed(cont.items, cont.index)) {
        PopIndexed(cont.items, old(cont.index), x);
      }
    }
  }

  lemma Greatest<V>(lo: int, s: seq<Item<V>>)
    requires |s| > 0 && Heap(lo, s, |s|) && Spread(lo, s)
    ensures forall y :: y in s ==> !Less(y, s[0]) && Rank(lo, y) <= Rank(lo, s[0])
  {
    forall y | y in s
      ensures !Less(y, s[0]) && Rank(lo, y) <= Rank(lo, s[0])
    {
      var k :| 0 <= k < |s| && s[k] == y;
      RootIsGreatest(lo, s, |s|, k);
      Compare(lo, s, 0, k);
    }
  }

  /** In every window that holds the items. */
  lemma GreatestRank<V>(s: seq<Item<V>>)
    requires |s| > 0 && forall y :: y in s ==> !Less(y, s[0])
    ensures forall lo: int, y :: Spread(lo, s) && y in s ==> Rank(lo, y) <= Rank(lo, s[0])
  {
    hide Less, Rank;
    forall lo: int, y | Spread(lo, s) && y in s
      ensures Rank(lo, y) <= Rank(lo, s[0])
    {
      LessIsRank(lo, y, s[0]);
    }
  }

  /** As a number, too, if the numbers lie close enough together. */
  lemma GreatestNumber<V>(s: seq<Item<V>>)
    requires |s| > 0 && forall y :: y in s ==> !Less(y, s[0])
    ensures forall lo: int, y :: Within(lo, s) && y in s ==> y.priority <= s[0].priority
  {
    hide Less;
    forall lo: int, y | Within(lo, s) && y in s
      ensures y.priority <= s[0].priority
    {
      assert s[0] in s;
      LessIsGreater(y, s[0]);
    }
  }

  lemma RisenRoot<V>(lo: int, s: seq<Item<V>>, n: nat)
    requires 0 < |s| && n <= |s| && Rises(lo, s, n, 0)
    ensures Heap(lo, s, n)
  {
  }

  lemma HeapShorter<V>(lo: int, s: seq<Item<V>>, n: nat)
    requires n <= |s| && Heap(lo, s, |s|)
    ensures Heap(lo, s, n)
  {
  }

  /** Popping until the queue is empty delivers every item once, in order. */
  method Drain<V(==)>(q: Queue<V>) returns (out: seq<Item<V>>)
    requires q.Valid()
    modifies q.cont, q.cont.blocks
    ensures q.cont.items == [] && multiset(out) == multiset(old(q.cont.items))
    ensures forall i, j :: 0 <= i < j < |out| ==> !Less(out[j], out[i])
    ensures forall lo: int, i, j :: Within(lo, old(q.cont.items)) && 0 <= i < j < |out| ==> out[i].priority >= out[j].priority
  {
    hide Fits, HeapOrder, Stack.Valid, Less, Within;
    out := [];
    var n := q.cont.Len();
    while n > 0
      invariant q.Valid() && n == |q.cont.items| && q.cont.blocks == old(q.cont.blocks)
      invariant multiset(out) + multiset(q.cont.items) == multiset(old(q.cont.items))
      invariant forall i, j :: 0 <= i < j < |out| ==> !Less(out[j], out[i])
      invariant forall i, y :: 0 <= i < |out| && y in q.cont.items ==> !Less(y, out[i])
    {
      ghost var before := q.cont.items;
      var x := q.Pop();
      WereThere(before, q.cont.items, x);
      out := out + [x];
      n := q.cont.Len();
    }
    NonIncreasing(old(q.cont.items), out);
  }

  lemma WereThere<V>(s: seq<Item<V>>, t: seq<Item<V>>, x: Item<V>)
    requires multiset(s) == multiset(t) + multiset{x}
    ensures x in s && forall y :: y in t ==> y in s
  {
    assert x in multiset(s);
    forall y | y in t
      ensures y in s
    {
      assert y in multiset(t);
      assert y in multiset(s);
    }
  }

  lemma NonIncreasing<V>(s: seq<Item<V>>, out: seq<Item<V>>)
    requires multiset(out) == multiset(s) && forall i, j :: 0 <= i < j < |out| ==> !Less(out[j], out[i])
    ensures forall lo: int, i, j :: Within(lo, s) && 0 <= i < j < |out| ==> out[i].priority >= out[j].priority
  {
    hide Less;
    forall lo: int, i, j | Within(lo, s) && 0 <= i < j < |out|
      ensures out[i].priority >= out[j].priority
    {
      assert out[i] in multiset(out) && out[j] in multiset(out);
      assert out[i] in s && out[j] in s;
      LessIsGreater(out[j], out[i]);
    }
  }

  // ----- Any sequence of calls

  datatype Call<V> = PushItem(data: V, priority: int) | PopItem | RemoveAt(i: int)

  /** What the package demands of a call: an item to take, an index in the queue, and
      contents that fit, in whatever window. */
  predicate Allowed<V>(s: seq<Item<V>>, call: Call<V>)
  {
    match call
    case PushItem(data, priority) => Bottomed(s + [Item(data, priority)])
    case PopItem => |s| > 0
    case RemoveAt(i) => i < |s|
  }

  /** The queue between two calls. */
  datatype Snapshot<V> = Snapshot(items: seq<Item<V>>, index: map<V, int>)

  /** The item that a call puts in, and the one that it takes out. */
  ghost function Pushed<V>(call: Call<V>): (m: multiset<Item<V>>)
  {
    if call.PushItem? then multiset{Item(call.data, call.priority)} else multiset{}
  }

  ghost function Taken<V>(x: Option<Item<V>>): (m: multiset<Item<V>>)
  {
    if x.Some? then multiset{x.value} else multiset{}
  }

  /** One call: nothing is lost or made up, what is popped comes after nothing in the
      queue, what is removed was at the index, and the reported indices stay exact. */
  ghost predicate Right<V>(s: Snapshot<V>, call: Call<V>, x: Option<Item<V>>, t: Snapshot<V>)
  {
    && Fits(t.items) && HeapOrder(t.items)
    && multiset(s.items) + Pushed(call) == multiset(t.items) + Taken(x)
    && (call.PushItem? ==> x.None?)
    && (call.PopItem? ==> x.Some? && forall y :: y in s.items ==> !Less(y, x.value))
    && (call.PopItem? ==> forall lo: int, y :: Within(lo, s.items) && y in s.items ==> y.priority <= x.value.priority)
    && (call.RemoveAt? ==> if call.i < 0 then x.None? && s == t else call.i < |s.items| && x == Some(s.items[call.i]))
    && (Indexed(s.items, s.index) && (call.PushItem? ==> Absent(s.items, call.data)) ==>
          Indexed(t.items, t.index) && (x.Some? ==> x.value.value in t.index && t.index[x.value.value] == -1))
  }

  /** One call on the queue. */
  method Answer<V(==)>(q: Queue<V>, call: Call<V>) returns (x: Option<Item<V>>)
    requires q.Valid() && Allowed(q.cont.items, call)
    modifies q.cont, q.cont.blocks
    ensures q.Valid()
    ensures Right(old(Snapshot(q.cont.items, q.cont.index)), call, x, Snapshot(q.cont.items, q.cont.index))
    ensures forall i :: 0 <= i < |q.cont.blocks| ==> q.cont.blocks[i] in old(q.cont.blocks) || fresh(q.cont.blocks[i])
  {
    hide Stack.Valid, Fits, HeapOrder, Less, Indexed, Absent, Bottomed, Within;
    match call {
      case PushItem(data, priority) =>
        FitsIff(q.cont.items + [Item(data, priority)]);
        q.Push(data, priority);
        x := None;
      case PopItem =>
        var y := q.Pop();
        x := Some(y);
      case RemoveAt(i) =>
        x := q.Remove(i);
    }
  }

  /** Every sequence of calls on a new queue, up to the first that is not allowed. The
      window of the priorities may be another one after every call. */
  method Drive<V(==)>(calls: seq<Call<V>>) returns (out: seq<Option<Item<V>>>, ghost states: seq<Snapshot<V>>)
    ensures |out| <= |calls| && |states| == |out| + 1 && states[0].items == []
    ensures |out| < |calls| ==> !Allowed(states[|out|].items, calls[|out|])
    ensures forall k :: 0 <= k < |out| ==> Allowed(states[k].items, calls[k]) && Right(states[k], calls[k], out[k], states[k + 1])
    ensures AllPushed(calls[..|out|]) == AllTaken(out) + multiset(states[|out|].items)
    ensures (forall k :: 0 <= k < |out| && calls[k].PushItem? ==> Absent(states[k].items, calls[k].data)) ==>
              forall k :: 0 <= k <= |out| ==> Indexed(states[k].items, states[k].index)
  {
    var q := new Queue<V>();
    hide Stack.Valid, Right, Allowed, Indexed, Absent, Queue.Valid;
    out := [];
    states := [Snapshot(q.cont.items, q.cont.index)];
    while |out| < |calls|
      invariant q.Valid() && fresh(q) && fresh(q.cont) && fresh(q.cont.blocks)
      invariant |out| <= |calls| && |states| == |out| + 1 && states[0].items == [] && Indexed(states[0].items, states[0].index)
      invariant states[|out|] == Snapshot(q.cont.items, q.cont.index)
      invariant forall k :: 0 <= k < |out| ==> Allowed(states[k].items, calls[k]) && Right(states[k], calls[k], out[k], states[k + 1])
    {
      var call := calls[|out|];
      var s := Contents(q);
      if !Allowed(s, call) {
        break;
      }
      var x := Answer(q, call);
      out := out + [x];
      states := states + [Snapshot(q.cont.items, q.cont.index)];
    }
    Conserved(calls, out, states, |out|);
    if forall k :: 0 <= k < |out| && calls[k].PushItem? ==> Absent(states[k].items, calls[k].data) {
      IndexedAll(calls, out, states);
    }
    assert out[..|out|] == out;
  }

  /** What is in the queue, to see what is allowed. */
  method Contents<V(==)>(q: Queue<V>) returns (s: seq<Item<V>>)
    requires q.Valid()
    ensures s == q.cont.items
  {
    s := [];
    var n := q.cont.Len();
    for i := 0 to n
      invariant s == q.cont.items[..i]
    {
      s := s + [q.cont.blocks[i / BLOCK][i % BLOCK].value];
    }
  }

  ghost function AllPushed<V>(calls: seq<Call<V>>): (m: multiset<Item<V>>)
  {
    if calls == [] then multiset{} else AllPushed(calls[..|calls| - 1]) + Pushed(calls[|calls| - 1])
  }

  ghost function AllTaken<V>(out: seq<Option<Item<V>>>): (m: multiset<Item<V>>)
  {
    if out == [] then multiset{} else AllTaken(out[..|out| - 1]) + Taken(out[|out| - 1])
  }

  ghost predicate Chained<V>(calls: seq<Call<V>>, out: seq<Option<Item<V>>>, states: seq<Snapshot<V>>)
  {
    && |out| <= |calls| && |states| == |out| + 1
    && forall k :: 0 <= k < |out| ==> Right(states[k], calls[k], out[k], states[k + 1])
  }

  /** Everything pushed was taken out or is still there. */
  lemma {:induction false} Conserved<V>(calls: seq<Call<V>>, out: seq<Option<Item<V>>>, states: seq<Snapshot<V>>, n: nat)
    requires Chained(calls, out, states) && states[0].items == [] && n <= |out|
    ensures AllPushed(calls[..n]) == AllTaken(out[..n]) + multiset(states[n].items)
  {
    hide Right, AllPushed, AllTaken, Pushed, Taken;
    if n == 0 {
      NothingPushed(calls[..0], out[..0], states[0].items);
    } else {
      Conserved(calls, out, states, n - 1);
      assert Right(states[n - 1], calls[n - 1], out[n - 1], states[n]);
      PushedNext(calls, n);
      TakenNext(out, n);
      OneConserved(states[n - 1], calls[n - 1], out[n - 1], states[n], AllPushed(calls[..n - 1]), AllTaken(out[..n - 1]));
    }
  }

  lemma NothingPushed<V>(calls: seq<Call<V>>, out: seq<Option<Item<V>>>, s: seq<Item<V>>)
    requires calls == [] && out == [] && s == []
    ensures AllPushed(calls) == AllTaken(out) + multiset(s)
  {
  }

  lemma PushedNext<V>(calls: seq<Call<V>>, n: nat)
    requires 0 < n <= |calls|
    ensures AllPushed(calls[..n]) == AllPushed(calls[..n - 1]) + Pushed(calls[n - 1])
  {
    assert calls[..n][..n - 1] == calls[..n - 1];
    hide Pushed;
  }

  lemma TakenNext<V>(out: seq<Option<Item<V>>>, n: nat)
    requires 0 < n <= |out|
    ensures AllTaken(out[..n]) == AllTaken(out[..n - 1]) + Taken(out[n - 1])
  {
    assert out[..n][..n - 1] == out[..n - 1];
    hide Taken;
  }

  lemma OneConserved<V>(s: Snapshot<V>, call: Call<V>, x: Option<Item<V>>, t: Snapshot<V>,
                        p: multiset<Item<V>>, o: multiset<Item<V>>)
    requires Right(s, call, x, t) && p == o + multiset(s.items)
    ensures p + Pushed(call) == o + Taken(x) + multiset(t.items)
  {
    hide HeapOrder, Fits, Indexed, Less, Absent, Pushed, Taken, Within;
    calc {
      p + Pushed(call);
      o + (multiset(s.items) + Pushed(call));
      o + (multiset(t.items) + Taken(x));
      o + Taken(x) + multiset(t.items);
    }
  }

  lemma IndexedAll<V>(calls: seq<Call<V>>, out: seq<Option<Item<V>>>, states: seq<Snapshot<V>>)
    requires Chained(calls, out, states) && Indexed(states[0].items, states[0].index)
    requires forall k :: 0 <= k < |out| && calls[k].PushItem? ==> Absent(states[k].items, calls[k].data)
    ensures forall k :: 0 <= k <= |out| ==> Indexed(states[k].items, states[k].index)
  {
    hide HeapOrder, Fits, Indexed, Less, Absent, Within;
    for n := 0 to |out|
      invariant forall k :: 0 <= k <= n ==> Indexed(states[k].items, states[k].index)
    {
      assert Right(states[n], calls[n], out[n], states[n + 1]);
    }
  }
}
