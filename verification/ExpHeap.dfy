/** The expiry heap of the dial history (p2p/util.go), with the sift operations of a binary heap. */
module ExpHeap {
  type ID = nat

  datatype Item = Item(id: ID, exp: int)

  function Parent(i: int): int { if i <= 0 then 0 else (i - 1) / 2 }

  function Swap(h: seq<Item>, i: nat, j: nat): seq<Item>
    requires i < |h| && j < |h|
  {
    h[i := h[j]][j := h[i]]
  }

  lemma SwapKeeps(h: seq<Item>, i: nat, j: nat)
    requires i < |h| && j < |h|
    ensures multiset(Swap(h, i, j)) == multiset(h)
  {
  }

  /** No item expires before its parent. */
  ghost predicate Ordered(h: seq<Item>) {
    forall i, j | 0 <= j < i < |h| && j == Parent(i) :: h[j].exp <= h[i].exp
  }

  /** Heap order except that the item at `j` may belong higher up. */
  ghost predicate OrderedBut(h: seq<Item>, j: int) {
    && (forall i, k | 0 <= k < i < |h| && k == Parent(i) && i != j :: h[k].exp <= h[i].exp)
    && (forall i | 0 < i < |h| && Parent(i) == j && j > 0 :: h[Parent(j)].exp <= h[i].exp)
  }

  /** Heap order except that the item at `j` may belong further down. */
  ghost predicate OrderedAbove(h: seq<Item>, j: int) {
    && (forall i, k | 0 <= k < i < |h| && k == Parent(i) && k != j :: h[k].exp <= h[i].exp)
    && (forall i | 0 < i < |h| && Parent(i) == j && j > 0 :: h[Parent(j)].exp <= h[i].exp)
  }

  /** The root expires first. */
  lemma {:induction false} RootFirst(h: seq<Item>, i: nat)
    requires Ordered(h) && i < |h|
    ensures h[0].exp <= h[i].exp
    decreases i
  {
    if i > 0 { RootFirst(h, Parent(i)); }
  }

  /** After the swap, an item other than the moved one still does not expire before its parent. */
  lemma UpStepAt(h: seq<Item>, j: nat, i: nat)
    requires 0 < j < |h| && OrderedBut(h, j) && h[j].exp < h[Parent(j)].exp && 0 < i < |h| && i != Parent(j)
    ensures Swap(h, Parent(j), j)[Parent(i)].exp <= Swap(h, Parent(j), j)[i].exp
  {
    if i != j { assert h[Parent(i)].exp <= h[i].exp; }
  }

  lemma UpStep(h: seq<Item>, j: nat)
    requires 0 < j < |h| && OrderedBut(h, j) && h[j].exp < h[Parent(j)].exp
    ensures OrderedBut(Swap(h, Parent(j), j), Parent(j))
  {
    var p := Parent(j);
    var r := Swap(h, p, j);
    forall i, k | 0 <= k < i < |r| && k == Parent(i) && i != p ensures r[k].exp <= r[i].exp {
      UpStepAt(h, j, i);
    }
    forall i | 0 < i < |r| && Parent(i) == p && p > 0 ensures r[Parent(p)].exp <= r[i].exp {
      assert h[Parent(p)].exp <= h[p].exp;
      if i != j { assert h[p].exp <= h[i].exp; }
    }
  }

  ghost predicate SmallestChild(h: seq<Item>, i: int, j: int) {
    && 0 <= i < j < |h| && Parent(j) == i
    && forall k | 0 < k < |h| && Parent(k) == i :: h[j].exp <= h[k].exp
  }

  lemma PickChild(h: seq<Item>, i: nat)
    requires 2 * i + 1 < |h|
    ensures SmallestChild(h, i, if 2 * i + 2 < |h| && h[2 * i + 2].exp < h[2 * i + 1].exp then 2 * i + 2 else 2 * i + 1)
  {
    assert forall k | 0 < k && Parent(k) == i :: k == 2 * i + 1 || k == 2 * i + 2;
  }

  /** An item with no earlier child, or with no child at all, is in place. */
  lemma Settled(h: seq<Item>, i: nat, j: nat)
    requires OrderedAbove(h, i)
    requires 2 * i + 1 >= |h| || (SmallestChild(h, i, j) && h[j].exp >= h[i].exp)
    ensures Ordered(h)
  {
  }

  /** After the swap, a child of any item but the moved one still does not expire before its parent. */
  lemma DownStepAt(h: seq<Item>, i: nat, j: nat, k: nat)
    requires OrderedAbove(h, i) && SmallestChild(h, i, j) && h[j].exp < h[i].exp && 0 < k < |h| && Parent(k) != j
    ensures Swap(h, i, j)[Parent(k)].exp <= Swap(h, i, j)[k].exp
  {
    if k == i {
      assert h[Parent(i)].exp <= h[j].exp;
    } else if Parent(k) != i {
      assert h[Parent(k)].exp <= h[k].exp;
    }
  }

  lemma DownStep(h: seq<Item>, i: nat, j: nat)
    requires OrderedAbove(h, i) && SmallestChild(h, i, j) && h[j].exp < h[i].exp
    ensures OrderedAbove(Swap(h, i, j), j)
  {
    var r := Swap(h, i, j);
    forall k, p | 0 <= p < k < |r| && p == Parent(k) && p != j ensures r[p].exp <= r[k].exp {
      DownStepAt(h, i, j, k);
    }
    forall k | 0 < k < |r| && Parent(k) == j ensures r[i].exp <= r[k].exp {
      assert h[j].exp <= h[k].exp;
    }
  }

  /** Swaps the root with the last item and cuts it off; only the new root may be out of place. */
  method TakeRoot(h: seq<Item>) returns (rest: seq<Item>)
    requires Ordered(h) && h != []
    ensures |rest| == |h| - 1 && OrderedAbove(rest, 0) && multiset(h) == multiset(rest) + multiset{h[0]}
  {
    var n := |h| - 1;
    var s := Swap(h, 0, n);
    SwapKeeps(h, 0, n);
    rest := s[..n];
    assert s == rest + [s[n]];
  }

  lemma MinAll(h: seq<Item>)
    requires Ordered(h)
    ensures h != [] ==> forall y | y in multiset(h) :: h[0].exp <= y.exp
  {
    if h != [] {
      forall y | y in multiset(h) ensures h[0].exp <= y.exp {
        var i :| 0 <= i < |h| && h[i] == y;
        RootFirst(h, i);
      }
    }
  }

  class ExpHeap {
    var items: seq<Item>

    ghost predicate Valid()
      reads this
    {
      Ordered(items)
    }

    constructor ()
      ensures Valid() && items == []
    {
      items := [];
    }

    /** The earliest expiry. */
    function NextExpiry(): int
      requires items != []
      reads this
    {
      items[0].exp
    }

    method Contains(id: ID) returns (r: bool)
      ensures r <==> exists x :: x in multiset(items) && x.id == id
    {
      var i := 0;
      while i < |items|
        invariant 0 <= i <= |items|
        invariant forall k | 0 <= k < i :: items[k].id != id
      {
        if items[i].id == id {
          assert items[i] in multiset(items);
          return true;
        }
        i := i + 1;
      }
      forall x | x in multiset(items) ensures x.id != id {
        assert x in items;
      }
      r := false;
    }

    /** Appends an item and sifts it up. */
    method Add(id: ID, exp: int)
      requires Valid()
      modifies this
      ensures Valid() && multiset(items) == multiset(old(items)) + multiset{Item(id, exp)}
    {
      items := items + [Item(id, exp)];
      var j := |items| - 1;
      while Parent(j) != j && items[j].exp < items[Parent(j)].exp
        invariant 0 <= j < |items| && OrderedBut(items, j)
        invariant multiset(items) == multiset(old(items)) + multiset{Item(id, exp)}
        decreases j
      {
        UpStep(items, j);
        SwapKeeps(items, Parent(j), j);
        items := Swap(items, Parent(j), j);
        j := Parent(j);
      }
    }

    /** Moves the root down to where it belongs. */
    method SiftDown()
      requires OrderedAbove(items, 0)
      modifies this
      ensures Valid() && multiset(items) == multiset(old(items)) && |items| == |old(items)|
    {
      var n := |items|;
      var i := 0;
      while true
        invariant 0 <= i && |items| == n && OrderedAbove(items, i)
        invariant multiset(items) == multiset(old(items))
        decreases n - i
      {
        var j := 2 * i + 1;
        if j >= n { Settled(items, i, j); break; }
        PickChild(items, i);
        if j + 1 < n && items[j + 1].exp < items[j].exp { j := j + 1; }
        if items[j].exp >= items[i].exp { Settled(items, i, j); break; }
        DownStep(items, i, j);
        SwapKeeps(items, i, j);
        items := Swap(items, i, j);
        i := j;
      }
    }

    /** Removes the item that expires first, moving the last one to the root and sifting it down. */
    method Pop() returns (x: Item)
      requires Valid() && items != []
      modifies this
      ensures Valid() && |items| == |old(items)| - 1
      ensures x == old(items)[0] && multiset(old(items)) == multiset(items) + multiset{x}
      ensures forall y | y in multiset(old(items)) :: x.exp <= y.exp
    {
      x := items[0];
      MinAll(items);
      items := TakeRoot(items);
      SiftDown();
    }

    /** Removes every item whose expiry lies before `now`, and nothing else. */
    method Expire(now: int) returns (expired: seq<Item>)
      requires Valid()
      modifies this
      ensures Valid()
      ensures multiset(old(items)) == multiset(items) + multiset(expired)
      ensures forall x | x in multiset(items) :: x.exp >= now
      ensures forall x | x in multiset(expired) :: x.exp < now
    {
      expired := [];
      while |items| > 0 && NextExpiry() < now
        invariant Valid()
        invariant multiset(old(items)) == multiset(items) + multiset(expired)
        invariant forall x | x in multiset(expired) :: x.exp < now
        decreases |items|
      {
        var x := Pop();
        expired := expired + [x];
      }
      MinAll(items);
    }
  }
}
