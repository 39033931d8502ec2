/** The block-allocated stack under the priority queue, and its order. */
module Sstack {
  import opened Congruence
  import opened Words
  import opened Wrappers

  const BLOCK: nat := 4096

  /** An item with its int64 priority. */
  datatype Item<V> = Item(value: V, priority: int)

  /** int64 of a difference, wrapped around. */
  function Wrapped(d: int): (r: int)
  {
    (d + HALF) % W - HALF
  }

  /** a comes before b. */
  predicate Less<V>(a: Item<V>, b: Item<V>)
  {
    Wrapped(a.priority - b.priority) > 0
  }

  /** How far a priority lies above the lowest one, on the wrapped circle. */
  function Rank<V>(lo: int, a: Item<V>): (r: nat)
  {
    (a.priority - lo) % W
  }

  /** All priorities lie within less than 2^63 above lo. */
  ghost predicate Spread<V>(lo: int, s: seq<Item<V>>)
  {
    forall i :: 0 <= i < |s| ==> Rank(lo, s[i]) < HALF
  }

  /** Within the allowed spread the wrapped comparison is the order of the ranks. */
  lemma LessIsRank<V>(lo: int, a: Item<V>, b: Item<V>)
    requires Rank(lo, a) < HALF && Rank(lo, b) < HALF
    ensures Less(a, b) <==> Rank(lo, a) > Rank(lo, b)
  {
    var x, y := a.priority - lo, b.priority - lo;
    CongMod(x, W);
    CongMod(y, W);
    CongAdd(x % W, x, y % W, y, W);
    WrappedSmall(a.priority - b.priority, x % W - y % W);
  }

  /** The wrapped comparison looks at the difference on the circle of 2^64. */
  lemma LessOnCircle<V>(a: Item<V>, b: Item<V>)
    ensures Less(a, b) <==> 1 <= (a.priority - b.priority) % 0x1_0000_0000_0000_0000 <= 0x7FFF_FFFF_FFFF_FFFF
  {
    var d := a.priority - b.priority;
    var r, q := d % W, d / W;
    assert d == r + W * q;
    if r < HALF {
      RemainderUnique(r + HALF, q, W, d + HALF);
    } else {
      RemainderUnique(r - HALF, q + 1, W, d + HALF);
    }
  }

  /** Less than 2^63 apart, the item of the greater priority comes first. */
  lemma LessIsGreater<V>(a: Item<V>, b: Item<V>)
    requires -0x8000_0000_0000_0000 < a.priority - b.priority < 0x8000_0000_0000_0000
    ensures Less(a, b) <==> a.priority > b.priority
  {
    CongRefl(a.priority - b.priority, W);
    WrappedSmall(a.priority - b.priority, a.priority - b.priority);
  }

  /** All priorities lie within less than 2^63 above lo, as numbers. */
  ghost predicate Within<V>(lo: int, s: seq<Item<V>>)
  {
    forall i :: 0 <= i < |s| ==> lo <= s[i].priority < lo + 0x8000_0000_0000_0000
  }

  /** All priorities lie within less than 2^63 of each other, wherever that is. */
  ghost predicate Fits<V>(s: seq<Item<V>>)
  {
    exists lo: int :: Spread(lo, s)
  }

  /** Some item lies at most 2^63 - 1 below every other. */
  predicate Bottomed<V>(s: seq<Item<V>>)
  {
    s == [] || exists k | 0 <= k < |s| :: Lowest(s, k)
  }

  predicate Lowest<V>(s: seq<Item<V>>, k: nat)
    requires k < |s|
  {
    forall i | 0 <= i < |s| :: Rank(s[k].priority, s[i]) < HALF
  }

  /** The window may start at an item, so that it can be searched for. */
  lemma FitsIff<V>(s: seq<Item<V>>)
    ensures Fits(s) <==> Bottomed(s)
  {
    if s == [] {
      assert Spread(0, s);
      return;
    }
    if Fits(s) {
      var lo :| Spread(lo, s);
      var k := LowestRank(lo, s, |s|);
      hide Rank;
      forall i | 0 <= i < |s|
        ensures Rank(s[k].priority, s[i]) < HALF
      {
        RankFrom(lo, s[k], s[i]);
      }
      assert Lowest(s, k);
    }
    if Bottomed(s) {
      var k :| 0 <= k < |s| && Lowest(s, k);
      assert Spread(s[k].priority, s);
    }
  }

  lemma {:induction false} LowestRank<V>(lo: int, s: seq<Item<V>>, n: nat) returns (k: nat)
    requires 0 < n <= |s|
    ensures k < n && forall i :: 0 <= i < n ==> Rank(lo, s[k]) <= Rank(lo, s[i])
  {
    hide Rank;
    k := 0;
    if n > 1 {
      k := LowestRank(lo, s, n - 1);
      if Rank(lo, s[n - 1]) < Rank(lo, s[k]) {
        k := n - 1;
      }
    }
  }

  lemma RankFrom<V>(lo: int, a: Item<V>, b: Item<V>)
    requires Rank(lo, a) <= Rank(lo, b) < HALF
    ensures Rank(a.priority, b) == Rank(lo, b) - Rank(lo, a)
  {
    var x, y := b.priority - lo, a.priority - lo;
    CongMod(x, W);
    CongMod(y, W);
    CongAdd(x % W, x, y % W, y, W);
    CongMod(x - y, W);
    CongSym((x - y) % W, x - y, W);
    CongTrans(x % W - y % W, x - y, (x - y) % W, W);
    CongReduced(x % W - y % W, (x - y) % W, W);
  }

  lemma WrappedSmall(d: int, r: int)
    requires Cong(r, d, W) && -HALF < r < HALF
    ensures Wrapped(d) == r
  {
    CongRefl(HALF, W);
    CongAdd(r, d, HALF, HALF, W);
    CongMod(d + HALF, W);
    CongSym((d + HALF) % W, d + HALF, W);
    CongTrans(r + HALF, d + HALF, (d + HALF) % W, W);
    CongReduced(r + HALF, (d + HALF) % W, W);
  }

  function Swapped<T>(s: seq<T>, i: nat, j: nat): (r: seq<T>)
    requires i < |s| && j < |s|
    ensures |r| == |s|
  {
    s[i := s[j]][j := s[i]]
  }

  lemma SwapPermutes<T>(s: seq<T>, i: nat, j: nat)
    requires i < |s| && j < |s|
    ensures multiset(Swapped(s, i, j)) == multiset(s)
  {
  }

  lemma SwapSpread<V>(lo: int, s: seq<Item<V>>, i: nat, j: nat)
    requires i < |s| && j < |s| && Spread(lo, s)
    ensures Spread(lo, Swapped(s, i, j))
  {
    hide Rank;
  }

  class Stack<V(==)> {
    var size: nat
    var capacity: nat
    var offset: nat
    var blocks: seq<array<Option<Item<V>>>>
    var active: array<Option<Item<V>>>
    /** What the last setIndex call said of each value. */
    var index: map<V, int>
    ghost var items: seq<Item<V>>
    /** The number of the active block. */
    ghost var top: nat

    ghost predicate Valid()
      reads this, blocks
    {
      && Shaped()
      && |items| == size
      && forall i :: 0 <= i < size ==> blocks[i / BLOCK][i % BLOCK] == Some(items[i])
    }

    /** The blocks are separate arrays and the active one holds the end of the stack. */
    ghost predicate Shaped()
      reads this, blocks
    {
      && capacity == BLOCK * |blocks|
      && (forall i :: 0 <= i < |blocks| ==> blocks[i].Length == BLOCK)
      && (forall i, j :: 0 <= i < j < |blocks| ==> blocks[i] != blocks[j])
      && top < |blocks| && active == blocks[top] && offset <= BLOCK && size == BLOCK * top + offset
    }

    constructor ()
      ensures Valid() && items == [] && index == map[] && fresh(blocks)
    {
      var a := new Option<Item<V>>[BLOCK](_ => None);
      active, blocks := a, [a];
      capacity, size, offset, index, items, top := BLOCK, 0, 0, map[], [], 0;
    }

    method SetIndex(v: V, i: int)
      modifies this`index
      ensures index == old(index)[v := i]
    {
      index := index[v := i];
    }

    /** A place for one more item. */
    method Room()
      requires Valid()
      modifies this`active, this`blocks, this`capacity, this`offset, this`top
      ensures Valid() && offset < BLOCK
      ensures forall i :: 0 <= i < |blocks| ==> blocks[i] in old(blocks) || fresh(blocks[i])
    {
      if size == capacity {
        active := new Option<Item<V>>[BLOCK](_ => None);
        blocks := blocks + [active];
        capacity := capacity + BLOCK;
        offset := 0;
        top := |blocks| - 1;
      } else if offset == BLOCK {
        active := blocks[size / BLOCK];
        offset := 0;
        top := top + 1;
      }
    }

    method Push(x: Item<V>)
      requires Valid()
      modifies this, blocks
      ensures Valid() && items == old(items) + [x] && index == old(index)[x.value := |old(items)|] && size == |items|
      ensures forall i :: 0 <= i < |blocks| ==> blocks[i] in old(blocks) || fresh(blocks[i])
    {
      Room();
      SetIndex(x.value, size);
      assert active in blocks && size / BLOCK == top && size % BLOCK == offset;
      active[offset] := Some(x);
      items := items + [x];
      offset := offset + 1;
      size := size + 1;
      Places();
    }

    /** Different indices are different cells. */
    lemma Places()
      ensures forall i, j :: 0 <= i < j ==> i / BLOCK != j / BLOCK || i % BLOCK != j % BLOCK
    {
    }

    /** The place of the last item. */
    method Back()
      requires Valid() && |items| > 0
      modifies this`size, this`active, this`offset, this`top
      ensures Shaped() && size == old(size) - 1 && offset < BLOCK && size / BLOCK == top && size % BLOCK == offset
    {
      size := size - 1;
      if offset == 0 {
        offset := BLOCK - 1;
        active := blocks[size / BLOCK];
        top := top - 1;
      } else {
        offset := offset - 1;
      }
    }

    method Pop() returns (x: Item<V>)
      requires Valid() && |items| > 0
      modifies this, blocks
      ensures Valid() && old(items) == items + [x] && size == |items| && index == old(index)[x.value := -1]
      ensures blocks == old(blocks)
    {
      Back();
      assert blocks[size / BLOCK][size % BLOCK] == Some(items[size]);
      x := active[offset].value;
      active[offset] := None;
      items := items[..size];
      SetIndex(x.value, -1);
      Places();
    }

    method Len() returns (n: nat)
      requires Valid()
      ensures n == |items|
    {
      n := size;
    }

    method IsLess(i: nat, j: nat) returns (b: bool)
      requires Valid() && i < |items| && j < |items|
      ensures b == Less(items[i], items[j])
    {
      b := Wrapped(blocks[i / BLOCK][i % BLOCK].value.priority - blocks[j / BLOCK][j % BLOCK].value.priority) > 0;
    }

    method Swap(i: nat, j: nat)
      requires Valid() && i < |items| && j < |items|
      modifies this`items, this`index, blocks
      ensures Valid() && items == Swapped(old(items), i, j)
      ensures index == old(index)[old(items)[j].value := i][old(items)[i].value := j]
    {
      var a, b := blocks[j / BLOCK][j % BLOCK].value, blocks[i / BLOCK][i % BLOCK].value;
      SetIndex(a.value, i);
      SetIndex(b.value, j);
      blocks[i / BLOCK][i % BLOCK] := Some(a);
      blocks[j / BLOCK][j % BLOCK] := Some(b);
      items := Swapped(items, i, j);
      Places();
    }
  }
}
