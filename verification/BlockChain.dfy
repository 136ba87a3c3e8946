/** The canonical chain engine (core/blockchain.go): reorganisations rewrite the canonical
    index, the transaction index and the head markers incrementally. */
module BlockChain {
  import opened Basics
  import opened BlockTree
  import opened ForkChoice
  import opened ChainView

  // ---------------------------------------------------------------- fork point

  /** The highest height at or below `n` where the walks from `a` and `b` carry the same hash. */
  ghost function ForkBelow(s: Store, a: Header, b: Header, n: nat): nat
    requires n <= a.number && n <= b.number
    decreases n
  {
    if n == 0 || Walk(s, a.hash, a.number, n) == Walk(s, b.hash, b.number, n) then n
    else ForkBelow(s, a, b, n - 1)
  }

  ghost function ForkPoint(s: Store, a: Header, b: Header): nat
  {
    ForkBelow(s, a, b, if a.number <= b.number then a.number else b.number)
  }

  /** The two chains meet in a stored block. */
  ghost predicate Meets(s: Store, a: Header, b: Header) {
    var f := ForkPoint(s, a, b);
    && f <= a.number && f <= b.number
    && Walk(s, a.hash, a.number, f) == Walk(s, b.hash, b.number, f)
    && Get(s, Walk(s, a.hash, a.number, f), f).Some?
  }

  lemma {:induction false} ForkBelowBound(s: Store, a: Header, b: Header, n: nat)
    requires n <= a.number && n <= b.number
    ensures ForkBelow(s, a, b, n) <= n
    ensures Walk(s, a.hash, a.number, n) == Walk(s, b.hash, b.number, n) ==> ForkBelow(s, a, b, n) == n
    decreases n
  {
    if n > 0 { ForkBelowBound(s, a, b, n - 1); }
  }

  /** If either chain breaks off at or above the fork point, the chains do not meet. */
  lemma BrokenChainNeverMeets(s: Store, a: Header, b: Header, h: Header, n: nat)
    requires WellKeyed(s) && (h == a || h == b) && ForkPoint(s, a, b) <= n <= h.number
    requires Get(s, Walk(s, h.hash, h.number, n), n).None?
    ensures !Meets(s, a, b)
  {
    var f := ForkPoint(s, a, b);
    if f < n { WalkThroughMissing(s, h.hash, h.number, n, f); }
  }

  /** Chains of a closed store always meet, at the latest in genesis. */
  lemma {:induction false} LinkedChainsMeet(s: Store, g: Hash, a: Header, b: Header, n: nat)
    requires Linked(s, g, a.hash, a.number) && Linked(s, g, b.hash, b.number)
    requires n <= a.number && n <= b.number && ForkPoint(s, a, b) == ForkBelow(s, a, b, n)
    ensures Meets(s, a, b)
    decreases n
  {
    LinkedToGenesis(s, g, a.hash, a.number);
    LinkedToGenesis(s, g, b.hash, b.number);
    if n > 0 && Walk(s, a.hash, a.number, n) != Walk(s, b.hash, b.number, n) {
      LinkedChainsMeet(s, g, a, b, n - 1);
    } else {
      LinkedWalk(s, g, a.hash, a.number, n);
    }
  }

  /** The headers above height `f` on the walk from `h`, highest first. */
  ghost predicate IsSegment(s: Store, chain: seq<Header>, h: Header, f: nat)
  {
    && f <= h.number
    && |chain| == h.number - f
    && forall i | 0 <= i < |chain| ::
         Get(s, Walk(s, h.hash, h.number, h.number - i), h.number - i) == Some(chain[i])
  }

  lemma SegmentAt(s: Store, chain: seq<Header>, h: Header, f: nat, i: nat)
    requires IsSegment(s, chain, h, f) && i < |chain|
    ensures Get(s, Walk(s, h.hash, h.number, h.number - i), h.number - i) == Some(chain[i])
  {
  }

  // -------------------------------------------------------------- lost lookups

  /** No dropped transaction that is missing from the new blocks also occurs in the common part:
      reorg would delete an index entry that the new chain still needs. */
  ghost predicate NoLostTx(s: Store, bodies: Bodies, a: Header, b: Header)
  {
    var f := ForkPoint(s, a, b);
    f <= a.number && f <= b.number &&
    forall t | t in IndexAbove(s, bodies, a.hash, a.number, f) ::
      t in IndexAbove(s, bodies, b.hash, b.number, f)
      || t !in IndexAbove(s, bodies, Walk(s, b.hash, b.number, f), f, -1)
      || (b.hash in bodies && t in bodies[b.hash])
  }

  /** Chains that never repeat a transaction lose no index entry. */
  lemma UniqueLosesNothing(s: Store, bodies: Bodies, a: Header, b: Header)
    requires WellKeyed(s) && s.Keys == bodies.Keys && Meets(s, a, b) && UniqueTxs(s, bodies, a.hash, a.number)
    ensures NoLostTx(s, bodies, a, b)
  {
    UniqueSplit(s, bodies, a.hash, a.number, ForkPoint(s, a, b));
  }

  /** A transaction in a common block and again in a dropped one: switching from block 3 to block 4 deletes its index
      entry although block 2 still holds it. */
  lemma LookupLost()
    ensures var s: Store := map[1 := Header(1, 0, 0, 1, 0, 0), 2 := Header(2, 1, 1, 1, 0, 0),
            3 := Header(3, 2, 2, 1, 0, 0), 4 := Header(4, 2, 2, 2, 0, 0)];
            var bodies: Bodies := map[1 := [], 2 := [7], 3 := [7], 4 := []];
            Closed(s, 1) && Meets(s, s[3], s[4]) && !NoLostTx(s, bodies, s[3], s[4])
  {
    var s: Store := map[1 := Header(1, 0, 0, 1, 0, 0), 2 := Header(2, 1, 1, 1, 0, 0), 3 := Header(3, 2, 2, 1, 0, 0),
        4 := Header(4, 2, 2, 2, 0, 0)];
    var bodies: Bodies := map[1 := [], 2 := [7], 3 := [7], 4 := []];
    assert Linked(s, 1, 1, 0) && Linked(s, 1, 2, 1) && Linked(s, 1, 3, 2) && Linked(s, 1, 4, 2);
    assert Walk(s, 3, 2, 1) == 2 == Walk(s, 4, 2, 1);
    assert ForkPoint(s, s[3], s[4]) == 1;
    assert 7 in IndexAbove(s, bodies, 3, 2, 1) && 7 in Entries(bodies[2], 1);
    assert IndexAbove(s, bodies, 4, 2, 1) == map[];
  }

  lemma NothingLost(v: View, g: Hash, a: Header, b: Header)
    requires Consistent(v, g) && RepetitionFree(v)
    requires a.hash in v.headers && v.headers[a.hash] == a && b.hash in v.headers && v.headers[b.hash] == b
    ensures NoLostTx(v.headers, v.bodies, a, b)
  {
    assert LinkedHead(v.headers, g, a.hash) && LinkedHead(v.headers, g, b.hash);
    LinkedChainsMeet(v.headers, g, a, b, Min(a.number, b.number));
    UniqueLosesNothing(v.headers, v.bodies, a, b);
  }

  /** The effect of dropping `d`, adding `a` and writing the head entries `h` on an index
      `c + d`, compared with indexing the new chain from scratch. */
  lemma IndexPatch(c: map<Tx, nat>, d: map<Tx, nat>, a: map<Tx, nat>, h: map<Tx, nat>)
    ensures ((c + d + a) - (d.Keys - a.Keys)) + h == c + a + h
       <==> forall t | t in d :: t in a || t !in c || t in h
  {
    var patched := ((c + d + a) - (d.Keys - a.Keys)) + h;
    if t :| t in d && t !in a && t in c && t !in h {
      assert t in c + a + h && t !in patched;
    }
  }

  /** The elements of `a` that are not in `b`, in their order. */
  ghost function Without(a: seq<Tx>, b: seq<Tx>): seq<Tx> {
    if a == [] then []
    else Without(a[..|a| - 1], b) + if a[|a| - 1] in b then [] else [a[|a| - 1]]
  }

  lemma {:induction false} WithoutKeeps(a: seq<Tx>, b: seq<Tx>)
    ensures forall t :: t in Without(a, b) <==> t in a && t !in b
  {
    if a != [] {
      WithoutKeeps(a[..|a| - 1], b);
      assert a == a[..|a| - 1] + [a[|a| - 1]];
    }
  }

  method HashDifference(a: seq<Tx>, b: seq<Tx>) returns (keep: seq<Tx>)
    ensures keep == Without(a, b)
    ensures forall t :: t in keep <==> t in a && t !in b
  {
    keep := [];
    for i := 0 to |a|
      invariant keep == Without(a[..i], b)
    {
      assert a[..i + 1][..i] == a[..i];
      if a[i] !in b { keep := keep + [a[i]]; }
    }
    assert a[..|a|] == a;
    WithoutKeeps(a, b);
  }

  ghost function TxSet(txs: seq<Tx>): set<Tx> { set t | t in txs }

  datatype Fork = Fork(common: Header, oldChain: seq<Header>, newChain: seq<Header>, deletedTxs: seq<Tx>)

  ghost predicate IsFork(s: Store, bodies: Bodies, a: Header, b: Header, r: Fork) {
    var f := ForkPoint(s, a, b);
    && Meets(s, a, b)
    && r.common.number == f && r.common.hash == Walk(s, b.hash, b.number, f)
    && IsSegment(s, r.oldChain, a, f) && IsSegment(s, r.newChain, b, f)
    && TxSet(r.deletedTxs) == IndexAbove(s, bodies, a.hash, a.number, f).Keys
  }

  /** The walk from `h` has been read down to, but not including, height `n`: `cur` is the read at height `n`. */
  ghost predicate WalkedTo(s: Store, h: Header, n: int, chain: seq<Header>, cur: Option<Header>) {
    && 0 <= n <= h.number
    && IsSegment(s, chain, h, n)
    && cur == Get(s, Walk(s, h.hash, h.number, n), n)
  }

  lemma WalkedDown(s: Store, h: Header, n: int, chain: seq<Header>, cur: Header)
    requires WellKeyed(s) && n > 0 && WalkedTo(s, h, n, chain, Some(cur))
    ensures WalkedTo(s, h, n - 1, chain + [cur], Get(s, cur.parent, n - 1))
  {
    WalkStep(s, h.hash, h.number, n - 1);
  }

  lemma DroppedDown(s: Store, bodies: Bodies, h: Header, n: int, chain: seq<Header>, cur: Header, dropped: seq<Tx>)
    requires WellKeyed(s) && s.Keys == bodies.Keys && n > 0 && WalkedTo(s, h, n, chain, Some(cur))
    requires TxSet(dropped) == IndexAbove(s, bodies, h.hash, h.number, n).Keys
    ensures TxSet(dropped + bodies[cur.hash]) == IndexAbove(s, bodies, h.hash, h.number, n - 1).Keys
  {
    IndexStepDown(s, bodies, h.hash, h.number, n);
    assert TxSet(dropped + bodies[cur.hash]) == TxSet(dropped) + TxSet(bodies[cur.hash]);
    assert Entries(bodies[cur.hash], n).Keys == TxSet(bodies[cur.hash]);
  }

  /** The last backward loop: both chains step down together until they share a block. */
  method ReduceBoth(s: Store, bodies: Bodies, oldHead: Header, newHead: Header, oldTop: Header, newTop: Header,
                    oldTail: seq<Header>, newTail: seq<Header>, deleted: seq<Tx>) returns (r: Result<Fork>)
    requires WellKeyed(s) && s.Keys == bodies.Keys && oldTop.number == newTop.number
    requires WalkedTo(s, oldHead, oldTop.number, oldTail, Some(oldTop))
    requires WalkedTo(s, newHead, newTop.number, newTail, Some(newTop))
    requires oldTop.number == oldHead.number || newTop.number == newHead.number
    requires TxSet(deleted) == IndexAbove(s, bodies, oldHead.hash, oldHead.number, oldTop.number).Keys
    ensures r.Ok? <==> Meets(s, oldHead, newHead)
    ensures r.Ok? ==> IsFork(s, bodies, oldHead, newHead, r.value)
  {
    var oldBlock, newBlock, oldChain, newChain, deletedTxs := oldTop, newTop, oldTail, newTail, deleted;
    ghost var n := oldTop.number;
    while oldBlock.hash != newBlock.hash
      invariant WalkedTo(s, oldHead, n, oldChain, Some(oldBlock))
      invariant WalkedTo(s, newHead, n, newChain, Some(newBlock))
      invariant ForkPoint(s, oldHead, newHead) == ForkBelow(s, oldHead, newHead, n)
      invariant TxSet(deletedTxs) == IndexAbove(s, bodies, oldHead.hash, oldHead.number, n).Keys
      decreases n
    {
      if n > 0 {
        WalkedDown(s, oldHead, n, oldChain, oldBlock);
        WalkedDown(s, newHead, n, newChain, newBlock);
        DroppedDown(s, bodies, oldHead, n, oldChain, oldBlock, deletedTxs);
        ForkBelowBound(s, oldHead, newHead, n - 1);
      }
      oldChain := oldChain + [oldBlock];
      deletedTxs := deletedTxs + bodies[oldBlock.hash];
      newChain := newChain + [newBlock];
      var up := Get(s, oldBlock.parent, oldBlock.number - 1);
      if up.None? {
        if n > 0 { BrokenChainNeverMeets(s, oldHead, newHead, oldHead, n - 1); }
        return Err("invalid old chain");
      }
      oldBlock := up.value;
      up := Get(s, newBlock.parent, newBlock.number - 1);
      if up.None? {
        BrokenChainNeverMeets(s, oldHead, newHead, newHead, n - 1);
        return Err("invalid new chain");
      }
      newBlock := up.value;
      n := n - 1;
    }
    ForkBelowBound(s, oldHead, newHead, n);
    r := Ok(Fork(oldBlock, oldChain, newChain, deletedTxs));
  }

  /** The backward loops of reorg: bring both chains to the same height, then walk both down
      until the hashes agree. */
  method FindFork(s: Store, bodies: Bodies, oldHead: Header, newHead: Header) returns (r: Result<Fork>)
    requires WellKeyed(s) && s.Keys == bodies.Keys
    requires newHead.hash in s && s[newHead.hash] == newHead
    ensures r.Ok? <==> Meets(s, oldHead, newHead)
    ensures r.Ok? ==> IsFork(s, bodies, oldHead, newHead, r.value)
  {
    var oldChain, newChain, deletedTxs := [], [], [];
    ForkBelowBound(s, oldHead, newHead, if oldHead.number <= newHead.number then oldHead.number else newHead.number);
    var oldBlock, newBlock := Get(s, oldHead.hash, oldHead.number), Some(newHead);
    if oldBlock.None? {
      BrokenChainNeverMeets(s, oldHead, newHead, oldHead, oldHead.number);
      return Err("current head block missing");
    }
    if oldBlock.value.number > newHead.number {
      ghost var n: int := oldHead.number;
      while oldBlock.Some? && oldBlock.value.number != newHead.number
        invariant newHead.number <= n && WalkedTo(s, oldHead, n, oldChain, oldBlock)
        invariant TxSet(deletedTxs) == IndexAbove(s, bodies, oldHead.hash, oldHead.number, n).Keys
        decreases n
      {
        WalkedDown(s, oldHead, n, oldChain, oldBlock.value);
        DroppedDown(s, bodies, oldHead, n, oldChain, oldBlock.value, deletedTxs);
        oldChain := oldChain + [oldBlock.value];
        deletedTxs := deletedTxs + bodies[oldBlock.value.hash];
        n := n - 1;
        oldBlock := Get(s, oldBlock.value.parent, oldBlock.value.number - 1);
      }
      if oldBlock.None? { BrokenChainNeverMeets(s, oldHead, newHead, oldHead, n); }
    } else {
      ghost var n: int := newHead.number;
      while newBlock.Some? && newBlock.value.number != oldHead.number
        invariant oldHead.number <= n && WalkedTo(s, newHead, n, newChain, newBlock)
        decreases n
      {
        WalkedDown(s, newHead, n, newChain, newBlock.value);
        newChain := newChain + [newBlock.value];
        n := n - 1;
        newBlock := Get(s, newBlock.value.parent, newBlock.value.number - 1);
      }
      if newBlock.None? { BrokenChainNeverMeets(s, oldHead, newHead, newHead, n); }
    }
    if oldBlock.None? { return Err("invalid old chain"); }
    if newBlock.None? { return Err("invalid new chain"); }
    r := ReduceBoth(s, bodies, oldHead, newHead, oldBlock.value, newBlock.value, oldChain, newChain, deletedTxs);
  }

  /** `m` agrees with the walk from `h` up to height `top` and is defined on `0..bound` exactly. */
  ghost predicate IndexedTo(s: Store, m: map<nat, Hash>, h: Header, top: nat, bound: nat) {
    && top <= h.number && top <= bound
    && (forall n: nat :: n in m <==> n <= bound)
    && (forall n: nat | n <= top :: m[n] == Walk(s, h.hash, h.number, n))
  }

  /** At a fork, the old index agrees with the new chain up to the fork point, and the new chain's second block is its
      head's parent. */
  lemma ForkIndexed(s: Store, bodies: Bodies, canon: map<nat, Hash>, g: Hash, a: Header, b: Header, fork: Fork)
    requires WellKeyed(s) && LinkedHead(s, g, a.hash) && s[a.hash] == a && canon == CanonOf(s, a.hash)
    requires b.hash in s && s[b.hash] == b && IsFork(s, bodies, a, b, fork)
    ensures IndexedTo(s, canon, b, ForkPoint(s, a, b), a.number)
    ensures |fork.newChain| > 1 ==>
              b.parent in s && s[b.parent] == fork.newChain[1] && fork.newChain[1].number == b.number - 1
  {
    var f := ForkPoint(s, a, b);
    forall n: nat | n <= f ensures canon[n] == Walk(s, b.hash, b.number, n) {
      WalksAgreeBelow(s, a.hash, a.number, b.hash, b.number, f, n);
    }
    if |fork.newChain| > 1 {
      WalkStep(s, b.hash, b.number, b.number - 1);
      assert Get(s, Walk(s, b.hash, b.number, b.number - 1), b.number - 1) == Some(fork.newChain[1]);
    }
  }

  /** The new chain has been made canonical up to height `top`. */
  ghost predicate Applied(s: Store, bodies: Bodies, newHead: Header, f: nat, bound: nat, top: nat,
                          canon: map<nat, Hash>, before: map<Tx, nat>, lookup: map<Tx, nat>, addedTxs: seq<Tx>)
  {
    && f <= top && IndexedTo(s, canon, newHead, top, Max(bound, top))
    && var added := IndexAbove(s, bodies, Walk(s, newHead.hash, newHead.number, top), top, f);
       TxSet(addedTxs) == added.Keys && lookup == before + added
  }

  lemma AppliedNone(s: Store, bodies: Bodies, newHead: Header, f: nat, bound: nat, canon: map<nat, Hash>,
                    lookup: map<Tx, nat>)
    requires IndexedTo(s, canon, newHead, f, bound)
    ensures Applied(s, bodies, newHead, f, bound, f, canon, lookup, lookup, [])
  {
  }

  lemma AppliedNext(s: Store, bodies: Bodies, newHead: Header, f: nat, bound: nat, top: nat,
                    canon: map<nat, Hash>, before: map<Tx, nat>, lookup: map<Tx, nat>, addedTxs: seq<Tx>, b: Header)
    requires WellKeyed(s) && s.Keys == bodies.Keys && top < newHead.number
    requires Applied(s, bodies, newHead, f, bound, top, canon, before, lookup, addedTxs)
    requires Get(s, Walk(s, newHead.hash, newHead.number, top + 1), top + 1) == Some(b)
    ensures Applied(s, bodies, newHead, f, bound, top + 1, canon[b.number := b.hash], before,
                    lookup + Entries(bodies[b.hash], b.number), addedTxs + bodies[b.hash])
  {
    WalkStep(s, newHead.hash, newHead.number, top);
    var added := IndexAbove(s, bodies, Walk(s, newHead.hash, newHead.number, top), top, f);
    var e := Entries(bodies[b.hash], top + 1);
    assert IndexAbove(s, bodies, Walk(s, newHead.hash, newHead.number, top + 1), top + 1, f) == added + e;
    MergeAssociative(before, added, e);
    assert TxSet(addedTxs + bodies[b.hash]) == TxSet(addedTxs) + TxSet(bodies[b.hash]);
    assert e.Keys == TxSet(bodies[b.hash]);
  }

  // ----------------------------------------------------------------- side chains

  /** The first block hangs off a stored one, and every block fits what is stored. */
  ghost predicate Hangs(v: View, chain: seq<Block>) {
    |chain| > 0 && chain[0].header.parent in v.headers && forall i | 0 <= i < |chain| :: AdmissibleBlock(v, chain[i])
  }

  /** Each block follows the one before, and equal hashes mean equal blocks. */
  ghost predicate Batch(chain: seq<Block>) {
    && (forall i, j | 0 <= i < |chain| && 0 <= j < |chain| && i == j + 1 ::
          chain[i].header.parent == chain[j].header.hash && chain[i].header.number == chain[j].header.number + 1)
    && (forall i, j | 0 <= i < |chain| && 0 <= j < |chain| && chain[i].header.hash == chain[j].header.hash ::
          chain[i] == chain[j])
  }

  /** What verification guarantees about a batch of blocks whose first block hangs off a stored one. */
  ghost predicate SideChain(v: View, chain: seq<Block>) {
    Batch(chain) && Hangs(v, chain)
  }

  /** `w` is `v` with the first `seen` blocks of a batch: nothing else has changed, and of the other blocks of the batch
      exactly those are stored that were. */
  ghost predicate Untouched(v: View, w: View, chain: seq<Block>, seen: nat) {
    && (forall h | h in v.headers :: h in w.headers && w.headers[h] == v.headers[h])
    && (forall i | seen <= i < |chain| && chain[i].header.hash in w.headers :: chain[i].header.hash in v.headers)
  }

  /** The numbers of a batch ascend. */
  lemma {:induction false} BatchNumbers(chain: seq<Block>, i: nat, j: nat)
    requires Batch(chain) && i <= j < |chain|
    ensures chain[j].header.number == chain[i].header.number + (j - i)
    decreases j
  {
    if i < j { BatchNumbers(chain, i, j - 1); }
  }

  lemma UntouchedNext(v: View, w: View, chain: seq<Block>, seen: nat)
    requires Batch(chain) && seen < |chain| && Untouched(v, w, chain, seen) && chain[seen].header.parent in w.tds
    requires chain[seen].header.hash in w.headers ==> w.headers[chain[seen].header.hash] == chain[seen].header
    ensures Untouched(v, Written(w, chain[seen]), chain, seen + 1)
  {
    forall i | seen < i < |chain| ensures chain[i].header.hash != chain[seen].header.hash {
      BatchNumbers(chain, seen, i);
    }
  }

  /** Where the side import loop should be after some blocks: the view, whether none was refused, the last side block,
      and the total difficulty up to the last block. */
  datatype Milestone = Milestone(view: View, fine: bool, last: Header, td: Option<nat>)

  ghost function TdIn(v: View, h: Hash): nat {
    if h in v.headers then Td(v.headers, h) else 0
  }

  /** A side block is refused if it claims the state of the canonical block of its height, or if it would have to be
      stored after the import was interrupted. */
  ghost predicate Refused(s: Store, canon: map<nat, Hash>, b: Header, stopped: bool) {
    || (b.number in canon && canon[b.number] != b.hash && canon[b.number] in s && s[canon[b.number]].root == b.root)
    || (stopped && b.hash !in s)
  }

  ghost predicate NoneRefused(s: Store, canon: map<nat, Hash>, chain: seq<Block>, stopped: seq<bool>, k: nat)
    requires k <= |chain| == |stopped|
  {
    k == 0 || (NoneRefused(s, canon, chain, stopped, k - 1) && !Refused(s, canon, chain[k - 1].header, stopped[k - 1]))
  }

  ghost predicate IsCanonical(canon: map<nat, Hash>, b: Header) {
    b.number in canon && canon[b.number] == b.hash
  }

  /** The last of the first `k` blocks that is not canonical, or the first block if all are. */
  ghost function LastSide(canon: map<nat, Hash>, chain: seq<Block>, k: nat): Header
    requires k <= |chain| && chain != []
  {
    if k == 0 then chain[0].header
    else if IsCanonical(canon, chain[k - 1].header) then LastSide(canon, chain, k - 1)
    else chain[k - 1].header
  }

  ghost function MilestoneAt(start: View, canon: map<nat, Hash>, chain: seq<Block>, stopped: seq<bool>,
                             k: nat): Milestone
    requires k <= |chain| == |stopped| && chain != []
  {
    var view := SideAll(start, chain, k);
    Milestone(view, NoneRefused(start.headers, canon, chain, stopped, k), LastSide(canon, chain, k),
              if k == 0 then None else Some(TdIn(view, chain[k - 1].header.hash)))
  }

  ghost function NextMilestone(start: View, canon: map<nat, Hash>, m: Milestone, b: Block, stop: bool): Milestone {
    var view := Side(m.view, b);
    Milestone(view, m.fine && !Refused(start.headers, canon, b.header, stop),
              if IsCanonical(canon, b.header) then m.last else b.header, Some(TdIn(view, b.header.hash)))
  }

  /** At the `k`-th milestone the batch still hangs off the view, which holds what it held and the blocks passed. */
  ghost predicate OnCourse(start: View, chain: seq<Block>, k: nat, m: Milestone) {
    && Hangs(m.view, chain) && Untouched(start, m.view, chain, k) && (k == 0 ==> m.td.None?)
    && (0 < k <= |chain| ==>
          && m.last.hash in m.view.headers && chain[k - 1].header.hash in m.view.headers
          && m.td == Some(Td(m.view.headers, chain[k - 1].header.hash)))
  }

  /** A block fits the view, the running total is its parent's, and it is refused as it would be at the start. */
  ghost predicate Importable(start: View, v: View, canon: map<nat, Hash>, block: Block, stop: bool,
                             externTd: Option<nat>) {
    && AdmissibleBlock(v, block) && block.header.parent in v.tds
    && (externTd.Some? ==> externTd.value == v.tds[block.header.parent])
    && (Refused(v.headers, canon, block.header, stop) <==> Refused(start.headers, canon, block.header, stop))
  }

  /** The block fits, and importing it leads from one milestone to the next. */
  ghost predicate Leg(start: View, canon: map<nat, Hash>, m: Milestone, b: Block, stop: bool, m': Milestone) {
    Importable(start, m.view, canon, b, stop, m.td) && m' == NextMilestone(start, canon, m, b, stop)
  }

  ghost predicate Charted(start: View, canon: map<nat, Hash>, chain: seq<Block>, stopped: seq<bool>,
                          marks: seq<Milestone>) {
    && |marks| == |chain| + 1 == |stopped| + 1
    && forall i, j | 0 <= i < |chain| && 0 <= j < |marks| && j == i + 1 ::
         Leg(start, canon, marks[i], chain[i], stopped[i], marks[j])
  }

  lemma SideChainKept(v: View, chain: seq<Block>, i: nat, g: Hash)
    requires Consistent(v, g) && SideChain(v, chain) && i < |chain| && (i > 0 ==> chain[i - 1].header.hash in v.headers)
    ensures chain[i].header.parent in v.tds
    ensures SideChain(Written(v, chain[i]), chain)
    ensures forall h | h in v.tds :: Written(v, chain[i]).tds[h] == v.tds[h]
  {
    WrittenConsistent(v, chain[i], g);
    var w := Written(v, chain[i]);
    forall k | 0 <= k < |chain| ensures AdmissibleBlock(w, chain[k]) {
      assert AdmissibleBlock(v, chain[k]);
      if k > 0 && chain[k].header.parent == chain[i].header.hash { assert chain[k - 1] == chain[i]; }
    }
  }

  lemma CourseNext(start: View, g: Hash, chain: seq<Block>, k: nat, m: Milestone, m': Milestone)
    requires k < |chain| && Batch(chain) && Consistent(m.view, g) && OnCourse(start, chain, k, m)
    requires m'.view == Side(m.view, chain[k]) && m'.td == Some(TdIn(m'.view, chain[k].header.hash))
    requires m'.last == m.last || m'.last == chain[k].header
    requires k == 0 ==> m'.last == chain[0].header
    ensures Consistent(m'.view, g) && OnCourse(start, chain, k + 1, m')
  {
    SideChainKept(m.view, chain, k, g);
    UntouchedNext(start, m.view, chain, k);
    WrittenConsistent(m.view, chain[k], g);
  }

  lemma {:induction false} StaysOnCourse(start: View, canon: map<nat, Hash>, g: Hash, chain: seq<Block>,
                                         stopped: seq<bool>, k: nat)
    requires k <= |chain| == |stopped| && SideChain(start, chain) && Consistent(start, g)
    ensures Consistent(SideAll(start, chain, k), g)
    ensures OnCourse(start, chain, k, MilestoneAt(start, canon, chain, stopped, k))
  {
    if k > 0 {
      StaysOnCourse(start, canon, g, chain, stopped, k - 1);
      CourseNext(start, g, chain, k - 1, MilestoneAt(start, canon, chain, stopped, k - 1),
                 MilestoneAt(start, canon, chain, stopped, k));
    }
  }

  /** The next block fits wherever the import is on course. */
  lemma OnCourseFits(start: View, canon: map<nat, Hash>, g: Hash, chain: seq<Block>, stopped: seq<bool>, k: nat,
                     m: Milestone)
    requires k < |chain| == |stopped| && Batch(chain) && Consistent(m.view, g) && OnCourse(start, chain, k, m)
    requires forall n | n in canon :: canon[n] in start.headers
    ensures Importable(start, m.view, canon, chain[k], stopped[k], m.td)
  {
    if k > 0 { assert chain[k].header.parent == chain[k - 1].header.hash; }
  }

  lemma MilestoneFits(start: View, canon: map<nat, Hash>, g: Hash, chain: seq<Block>, stopped: seq<bool>, i: nat)
    requires i < |chain| == |stopped| && SideChain(start, chain) && Consistent(start, g)
    requires forall n | n in canon :: canon[n] in start.headers
    ensures Leg(start, canon, MilestoneAt(start, canon, chain, stopped, i), chain[i], stopped[i],
                MilestoneAt(start, canon, chain, stopped, i + 1))
  {
    StaysOnCourse(start, canon, g, chain, stopped, i);
    OnCourseFits(start, canon, g, chain, stopped, i, MilestoneAt(start, canon, chain, stopped, i));
  }

  /** A canonical entry names a stored block of its height. */
  lemma CanonStored(v: View, canon: map<nat, Hash>, g: Hash, n: nat)
    requires Consistent(v, g) && canon == CanonOf(v.headers, v.head)
    ensures n in canon <==> n <= v.headers[v.head].number
    ensures n in canon ==> Get(v.headers, canon[n], n).Some?
  {
    if n in canon { LinkedWalk(v.headers, g, v.head, v.headers[v.head].number, n); }
  }

  lemma CanonAllStored(v: View, canon: map<nat, Hash>, g: Hash)
    requires Consistent(v, g) && canon == CanonOf(v.headers, v.head)
    ensures forall n | n in canon :: canon[n] in v.headers
  {
    forall n | n in canon ensures canon[n] in v.headers { CanonStored(v, canon, g, n); }
  }

  lemma Milestones(start: View, canon: map<nat, Hash>, g: Hash, chain: seq<Block>, stopped: seq<bool>)
    returns (marks: seq<Milestone>)
    requires |chain| == |stopped| && SideChain(start, chain) && Consistent(start, g)
    requires canon == CanonOf(start.headers, start.head)
    ensures Charted(start, canon, chain, stopped, marks)
    ensures forall k | 0 <= k <= |chain| :: marks[k] == MilestoneAt(start, canon, chain, stopped, k)
  {
    CanonAllStored(start, canon, g);
    marks := seq(|chain| + 1, k requires 0 <= k <= |chain| => MilestoneAt(start, canon, chain, stopped, k));
    forall i, j | 0 <= i < |chain| && 0 <= j < |marks| && j == i + 1
      ensures Leg(start, canon, marks[i], chain[i], stopped[i], marks[j])
    {
      MilestoneFits(start, canon, g, chain, stopped, i);
    }
  }

  lemma ChartedAt(start: View, canon: map<nat, Hash>, chain: seq<Block>, stopped: seq<bool>, marks: seq<Milestone>,
                  i: nat)
    requires Charted(start, canon, chain, stopped, marks) && i < |chain|
    ensures Leg(start, canon, marks[i], chain[i], stopped[i], marks[i + 1])
  {
  }

  /** What a milestone refers to is stored. */
  lemma MilestoneStored(start: View, canon: map<nat, Hash>, g: Hash, chain: seq<Block>, stopped: seq<bool>, k: nat)
    requires 0 < k <= |chain| == |stopped| && SideChain(start, chain) && Consistent(start, g)
    ensures var m := MilestoneAt(start, canon, chain, stopped, k);
            && m.last.hash in m.view.headers && m.last.hash in m.view.tds && chain[k - 1].header.hash in m.view.headers
            && m.td == Some(Td(m.view.headers, chain[k - 1].header.hash))
  {
    StaysOnCourse(start, canon, g, chain, stopped, k);
  }

  /** The state of the side import loop after `seen` blocks is the one charted. */
  ghost predicate Importing(v: View, marks: seq<Milestone>, seen: nat, externTd: Option<nat>, lastBlock: Header) {
    seen < |marks| && marks[seen] == Milestone(v, true, lastBlock, externTd)
  }

  /** None is refused: no block off the canonical chain has the state of the canonical block of its height, and
      none that was not stored before follows an interruption. */
  lemma {:induction false} NoneRefusedIff(s: Store, canon: map<nat, Hash>, chain: seq<Block>, stopped: seq<bool>,
                                          k: nat)
    requires k <= |chain| == |stopped|
    ensures NoneRefused(s, canon, chain, stopped, k) <==>
            forall i | 0 <= i < k ::
              var b := chain[i].header;
              && (b.hash in s || !stopped[i])
              && (b.number in canon && canon[b.number] in s ==>
                    canon[b.number] == b.hash || s[canon[b.number]].root != b.root)
  {
    if k > 0 { NoneRefusedIff(s, canon, chain, stopped, k - 1); }
  }

  /** The block offered to the fork choice: every later one is canonical, and so is this one only if all are. */
  lemma {:induction false} LastSideIs(canon: map<nat, Hash>, chain: seq<Block>, k: nat) returns (p: nat)
    requires 0 < k <= |chain|
    ensures p < k && LastSide(canon, chain, k) == chain[p].header
    ensures forall i | p < i < k ::
              chain[i].header.number in canon && canon[chain[i].header.number] == chain[i].header.hash
    ensures p > 0 && chain[p].header.number in canon ==> canon[chain[p].header.number] != chain[p].header.hash
  {
    if k == 1 || !IsCanonical(canon, chain[k - 1].header) {
      p := k - 1;
    } else {
      p := LastSideIs(canon, chain, k - 1);
    }
  }

  lemma {:induction false} RefusedStays(s: Store, canon: map<nat, Hash>, chain: seq<Block>, stopped: seq<bool>, i: nat,
                                        k: nat)
    requires i < k <= |chain| == |stopped| && Refused(s, canon, chain[i].header, stopped[i])
    ensures !NoneRefused(s, canon, chain, stopped, k)
  {
    if i < k - 1 { RefusedStays(s, canon, chain, stopped, i, k - 1); }
  }

  /** The first position from `i` on whose block is not reported as having a pruned ancestor. */
  ghost function PrunedPrefix(pruned: seq<bool>, i: nat): nat
    requires i <= |pruned|
    decreases |pruned| - i
  {
    if i == |pruned| || !pruned[i] then i else PrunedPrefix(pruned, i + 1)
  }

  lemma {:induction false} PrunedPrefixStops(pruned: seq<bool>, i: nat)
    requires i <= |pruned|
    ensures var n := PrunedPrefix(pruned, i);
            i <= n <= |pruned| && (n < |pruned| ==> !pruned[n]) && forall k | i <= k < n :: pruned[k]
    decreases |pruned| - i
  {
    if i < |pruned| && pruned[i] { PrunedPrefixStops(pruned, i + 1); }
  }

  lemma PrunedPrefixBounds(pruned: seq<bool>, i: nat)
    requires i <= |pruned|
    ensures i <= PrunedPrefix(pruned, i) <= |pruned| && (i < |pruned| && pruned[i] ==> i < PrunedPrefix(pruned, i))
  {
    PrunedPrefixStops(pruned, i);
  }

  // ---------------------------------------------------------------- the new head

  lemma ChildTd(s: Store, g: Hash, b: Header)
    requires LinkedHead(s, g, b.hash) && s[b.hash] == b && b.number > 0
    ensures b.parent in s && Td(s, b.hash) == b.difficulty + Td(s, b.parent)
  {
    assert Linked(s, g, b.parent, b.number - 1);
  }

  /** A child of the head meets it in the head itself. */
  lemma ChildMeetsParent(s: Store, a: Header, b: Header)
    requires a.hash in s && s[a.hash] == a && b.hash in s && s[b.hash] == b
    requires b.parent == a.hash && b.number == a.number + 1
    ensures Meets(s, a, b) && ForkPoint(s, a, b) == a.number
  {
    ForkBelowBound(s, a, b, a.number);
  }

  /** Writing the head entry completes the canonical index. */
  lemma HeadIndex(s: Store, g: Hash, m: map<nat, Hash>, a: Header, b: Header)
    requires WellKeyed(s) && LinkedHead(s, g, a.hash) && s[a.hash] == a && b.hash in s && s[b.hash] == b
             && Meets(s, a, b)
    requires var f := ForkPoint(s, a, b); var top := if b.number == f then f else b.number - 1;
             IndexedTo(s, m, b, top, top)
    ensures m[b.number := b.hash] == CanonOf(s, b.hash)
    ensures LinkedHead(s, g, b.hash)
  {
    LinkedWalk(s, g, a.hash, a.number, ForkPoint(s, a, b));
    LinkedFrom(s, g, b.hash, b.number, ForkPoint(s, a, b));
  }

  /** The index of the new chain: the common part, the added blocks, the head. */
  lemma NewIndex(s: Store, bodies: Bodies, b: Header, f: nat)
    requires WellKeyed(s) && s.Keys == bodies.Keys && b.hash in s && s[b.hash] == b && f <= b.number
    ensures var top := if b.number == f then f else b.number - 1;
            var c := IndexAbove(s, bodies, Walk(s, b.hash, b.number, f), f, -1);
            var added := IndexAbove(s, bodies, Walk(s, b.hash, b.number, top), top, f);
            var h := Entries(bodies[b.hash], b.number);
            && IndexOf(s, bodies, b.hash) == c + added + h
            && IndexAbove(s, bodies, b.hash, b.number, f) == (if b.number == f then map[] else added + h)
  {
    IndexSplit(s, bodies, b.hash, b.number, f, -1);
    if b.number > f {
      WalkStep(s, b.hash, b.number, b.number - 1);
      MergeAssociative(IndexAbove(s, bodies, Walk(s, b.hash, b.number, f), f, -1),
                       IndexAbove(s, bodies, b.parent, b.number - 1, f), Entries(bodies[b.hash], b.number));
    }
  }

  /** After the patch and the head entries, the index is exact if and only if nothing was lost. */
  lemma HeadLookup(s: Store, bodies: Bodies, a: Header, b: Header, before: map<Tx, nat>, lookup: map<Tx, nat>)
    requires WellKeyed(s) && s.Keys == bodies.Keys && a.hash in s && s[a.hash] == a && b.hash in s && s[b.hash] == b
    requires Meets(s, a, b) && before == IndexOf(s, bodies, a.hash)
    requires var f := ForkPoint(s, a, b);
             var top := if b.number == f then f else b.number - 1;
             var added := IndexAbove(s, bodies, Walk(s, b.hash, b.number, top), top, f);
             var dropped := IndexAbove(s, bodies, a.hash, a.number, f);
             lookup == (before + added) - (dropped.Keys - added.Keys)
    ensures lookup + Entries(bodies[b.hash], b.number) == IndexOf(s, bodies, b.hash) <==> NoLostTx(s, bodies, a, b)
  {
    var f := ForkPoint(s, a, b);
    var top := if b.number == f then f else b.number - 1;
    var c := IndexAbove(s, bodies, Walk(s, b.hash, b.number, f), f, -1);
    var d := IndexAbove(s, bodies, a.hash, a.number, f);
    var added := IndexAbove(s, bodies, Walk(s, b.hash, b.number, top), top, f);
    var h := Entries(bodies[b.hash], b.number);
    IndexSplit(s, bodies, a.hash, a.number, f, -1);
    IndexPatch(c, d, added, h);
    NewIndex(s, bodies, b, f);
  }

  /** Storing more blocks does not change the index of a chain that was already complete. */
  lemma {:induction false} IndexMonotone(s: Store, bodies: Bodies, s': Store, bodies': Bodies, g: Hash, h: Hash,
                                         number: nat, m: int)
    requires -1 <= m <= number && Linked(s, g, h, number) && s.Keys == bodies.Keys
    requires forall k | k in s :: k in s' && s'[k] == s[k] && k in bodies' && bodies'[k] == bodies[k]
    ensures IndexAbove(s', bodies', h, number, m) == IndexAbove(s, bodies, h, number, m)
    decreases number
  {
    if m < number && number > 0 { IndexMonotone(s, bodies, s', bodies', g, s[h].parent, number - 1, m); }
  }

  lemma WrittenKeepsIndexes(v: View, b: Block, g: Hash)
    requires Consistent(v, g) && b.header.parent in v.tds && AdmissibleBlock(v, b)
    ensures var w := Written(v, b);
            && Consistent(w, g)
            && CanonOf(w.headers, v.head) == CanonOf(v.headers, v.head)
            && IndexOf(w.headers, w.bodies, v.head) == IndexOf(v.headers, v.bodies, v.head)
  {
    WrittenConsistent(v, b, g);
    ClosedAdd(v.headers, g, b.header);
    var w := Written(v, b);
    IndexMonotone(v.headers, v.bodies, w.headers, w.bodies, g, v.head, v.headers[v.head].number, -1);
  }

  // ------------------------------------------------------------------- the chain

  class BlockChain {
    const genesis: Hash
    const ttd: Option<nat>

    // The database.
    var headers: Store
    var bodies: Bodies
    var tds: map<Hash, nat>
    var canon: map<nat, Hash>
    var lookup: map<Tx, nat>
    var headHeader: Hash
    var headFast: Hash
    var headBlock: Hash

    // In-memory markers.
    var currentHeader: Header
    var currentSnap: Header
    var currentBlock: Header

    ghost function Current(): View
      reads this
    {
      View.View(headers, bodies, tds, currentBlock.hash)
    }

    ghost predicate MarkersAt(b: Header)
      reads this
    {
      && headHeader == headFast == headBlock == b.hash
      && currentHeader == currentSnap == currentBlock == b
    }

    /** The stored blocks are keyed by hash and the current head's chain is complete; other
        stored blocks may lack ancestors. */
    ghost predicate Anchored()
      reads this
    {
      && WellKeyed(headers) && bodies.Keys == headers.Keys
      && LinkedHead(headers, genesis, currentBlock.hash) && headers[currentBlock.hash] == currentBlock
      && MarkersAt(currentBlock)
      && canon == CanonOf(headers, currentBlock.hash)
    }

    /** The invariant of every run: consistent blocks and difficulties, every marker on the head,
        and the canonical index equal to the parent walk from the head. */
    ghost predicate Valid()
      reads this
    {
      Consistent(Current(), genesis) && Anchored()
    }

    /** The transaction index is that of the canonical chain. */
    ghost predicate Indexed()
      reads this
    {
      currentBlock.hash in headers && lookup == IndexOf(headers, bodies, currentBlock.hash)
    }

    /** A fresh database holding the genesis block. */
    constructor (g: Header, ttd: Option<nat>)
      requires g.hash != ZERO_HASH && g.number == 0 && g.parent == ZERO_HASH
      ensures Valid() && Indexed() && genesis == g.hash && this.ttd == ttd
      ensures Current() == View.View(map[g.hash := g], map[g.hash := []], map[g.hash := g.difficulty], g.hash)
      ensures Heaviest(Current())
    {
      genesis, this.ttd := g.hash, ttd;
      headers, bodies, tds := map[g.hash := g], map[g.hash := []], map[g.hash := g.difficulty];
      canon, lookup := map[0 := g.hash], map[];
      headHeader, headFast, headBlock := g.hash, g.hash, g.hash;
      currentHeader, currentSnap, currentBlock := g, g, g;
      new;
      assert CanonOf(headers, g.hash) == map[0 := g.hash];
      assert IndexOf(headers, bodies, g.hash) == map[];
    }

    method WriteHeadBlock(b: Header)
      requires b.hash in bodies
      modifies this`canon, this`lookup, this`headHeader, this`headFast, this`headBlock, this`currentHeader,
               this`currentSnap, this`currentBlock
      ensures canon == old(canon)[b.number := b.hash]
      ensures lookup == old(lookup) + Entries(bodies[b.hash], b.number)
      ensures MarkersAt(b)
    {
      headHeader := b.hash;
      headFast := b.hash;
      canon := canon[b.number := b.hash];
      lookup := lookup + map t | t in bodies[b.hash] :: b.number;
      headBlock := b.hash;
      currentHeader := b;
      currentSnap := b;
      currentBlock := b;
    }

    /** Makes the next block of the new chain canonical. */
    method ApplyNext(newHead: Header, b: Header, addedTxs: seq<Tx>, ghost f: nat, ghost bound: nat, ghost top: nat,
                     ghost before: map<Tx, nat>) returns (addedTxs': seq<Tx>)
      requires WellKeyed(headers) && headers.Keys == bodies.Keys && top < newHead.number
      requires Applied(headers, bodies, newHead, f, bound, top, canon, before, lookup, addedTxs)
      requires Get(headers, Walk(headers, newHead.hash, newHead.number, top + 1), top + 1) == Some(b)
      modifies this`canon, this`lookup, this`headHeader, this`headFast, this`headBlock, this`currentHeader,
               this`currentSnap, this`currentBlock
      ensures Applied(headers, bodies, newHead, f, bound, top + 1, canon, before, lookup, addedTxs')
      ensures MarkersAt(b)
    {
      AppliedNext(headers, bodies, newHead, f, bound, top, canon, before, lookup, addedTxs, b);
      WriteHeadBlock(b);
      addedTxs' := addedTxs + bodies[b.hash];
    }

    /** Makes the new blocks canonical in ascending order, all but the new head itself. */
    method ApplyNewChain(newHead: Header, newChain: seq<Header>, ghost f: nat, ghost bound: nat)
      returns (addedTxs: seq<Tx>, ghost top: nat)
      requires WellKeyed(headers) && headers.Keys == bodies.Keys
      requires IsSegment(headers, newChain, newHead, f) && IndexedTo(headers, canon, newHead, f, bound)
      requires MarkersAt(currentBlock)
      modifies this`canon, this`lookup, this`headHeader, this`headFast, this`headBlock, this`currentHeader,
               this`currentSnap, this`currentBlock
      ensures top == if newHead.number == f then f else newHead.number - 1
      ensures Applied(headers, bodies, newHead, f, bound, top, canon, old(lookup), lookup, addedTxs)
      ensures MarkersAt(if |newChain| <= 1 then old(currentBlock) else newChain[1])
    {
      AppliedNone(headers, bodies, newHead, f, bound, canon, lookup);
      addedTxs := [];
      var i := |newChain| - 1;
      top := f;
      while i >= 1
        invariant top == newHead.number - i - 1 && -1 <= i < |newChain|
        invariant i == -1 <==> |newChain| == 0
        invariant Applied(headers, bodies, newHead, f, bound, top, canon, old(lookup), lookup, addedTxs)
        invariant MarkersAt(if top == f then old(currentBlock) else newChain[i + 1])
      {
        SegmentAt(headers, newChain, newHead, f, i);
        addedTxs := ApplyNext(newHead, newChain[i], addedTxs, f, bound, top, old(lookup));
        i := i - 1;
        top := top + 1;
      }
    }

    /** Deletes the index entries of dropped transactions and every canonical entry above `number`,
        collecting the deletions in one batch while reading the undisturbed index. */
    method DeleteStale(stale: seq<Tx>, number: nat, ghost bound: nat)
      requires forall n: nat :: n in canon <==> n <= bound
      requires number <= bound
      modifies this`canon, this`lookup
      ensures lookup == old(lookup) - TxSet(stale)
      ensures canon == map n | 0 <= n <= number :: old(canon)[n]
    {
      var staleNumbers: set<nat> := {};
      var i := number + 1;
      while i in canon
        invariant number < i <= bound + 1
        invariant forall n :: n in staleNumbers <==> number < n < i
        decreases bound + 1 - i
      {
        staleNumbers := staleNumbers + {i};
        i := i + 1;
      }
      lookup := lookup - (set t | t in stale);
      canon := canon - staleNumbers;
    }

    method DropIndexes(deletedTxs: seq<Tx>, addedTxs: seq<Tx>, number: nat, ghost bound: nat)
      requires (forall n: nat :: n in canon <==> n <= bound) && number <= bound
      modifies this`canon, this`lookup
      ensures lookup == old(lookup) - (TxSet(deletedTxs) - TxSet(addedTxs))
      ensures canon == map n | 0 <= n <= number :: old(canon)[n]
    {
      var stale := HashDifference(deletedTxs, addedTxs);
      assert TxSet(stale) == TxSet(deletedTxs) - TxSet(addedTxs);
      DeleteStale(stale, number, bound);
    }

    /** Rewrites the canonical chain to end just below `newHead`; the caller writes the new head.
        An error means the chains do not meet, and then nothing has been written. */
    method Reorg(oldHead: Header, newHead: Header) returns (r: Result<()>)
      requires Anchored() && oldHead == currentBlock
      requires newHead.hash in headers && headers[newHead.hash] == newHead
      modifies this
      ensures r.Ok? <==> Meets(old(headers), oldHead, newHead)
      ensures r.Err? ==> unchanged(this)
      ensures headers == old(headers) && bodies == old(bodies) && tds == old(tds)
      ensures r.Ok? ==>
        var f := ForkPoint(headers, oldHead, newHead);
        var top := if newHead.number == f then f else newHead.number - 1;
        && IndexedTo(headers, canon, newHead, top, top)
        && (var added := IndexAbove(headers, bodies, Walk(headers, newHead.hash, newHead.number, top), top, f);
            var dropped := IndexAbove(headers, bodies, oldHead.hash, oldHead.number, f);
            lookup == (old(lookup) + added) - (dropped.Keys - added.Keys))
        && (if newHead.number <= f + 1 then MarkersAt(oldHead)
            else newHead.parent in headers && MarkersAt(headers[newHead.parent]))
    {
      var fork := FindFork(headers, bodies, oldHead, newHead);
      if fork.Err? { return Err(fork.error); }
      var Fork(common, oldChain, newChain, deletedTxs) := fork.value;
      ghost var f := ForkPoint(headers, oldHead, newHead);
      ForkIndexed(headers, bodies, canon, genesis, oldHead, newHead, fork.value);
      var addedTxs; ghost var top;
      addedTxs, top := ApplyNewChain(newHead, newChain, f, oldHead.number);
      var number := common.number;
      if |newChain| > 1 { number := newChain[1].number; }
      DropIndexes(deletedTxs, addedTxs, number, Max(oldHead.number, top));
      r := Ok(());
    }

    /** Makes a stored block the head.  It fails exactly when the block's chain does not meet the
        canonical one, and then nothing changes.  Otherwise the canonical index becomes the parent
        walk from the new head, and an exact transaction index stays exact if and only if no index
        entry was lost. */
    method WriteKnownBlock(b: Header) returns (r: Result<()>)
      requires Anchored()
      requires b.hash in headers && headers[b.hash] == b
      requires b.parent == currentBlock.hash ==> b.number == currentBlock.number + 1
      modifies this
      ensures r.Ok? <==> Meets(old(headers), old(currentBlock), b)
      ensures r.Err? ==> unchanged(this)
      ensures headers == old(headers) && bodies == old(bodies) && tds == old(tds)
      ensures r.Ok? ==> Anchored() && currentBlock == b
      ensures r.Ok? && old(Indexed()) ==> (Indexed() <==> NoLostTx(headers, bodies, old(currentBlock), b))
    {
      ghost var before := currentBlock;
      var current := currentBlock;
      if b.parent != current.hash {
        r := Reorg(current, b);
        if r.Err? { return; }
      } else {
        ChildMeetsParent(headers, current, b);
      }
      HeadIndex(headers, genesis, canon, before, b);
      if old(Indexed()) { HeadLookup(headers, bodies, before, b, old(lookup), lookup); }
      WriteHeadBlock(b);
      r := Ok(());
    }

    method Put(block: Block, td: nat)
      requires block.header.parent in tds && td == block.header.difficulty + tds[block.header.parent]
      modifies this`headers, this`bodies, this`tds
      ensures Current() == Written(old(Current()), block)
    {
      tds := tds[block.header.hash := td];
      headers := headers[block.header.hash := block.header];
      bodies := bodies[block.header.hash := block.txs];
    }

    /** The batch that stores a block and its total difficulty. */
    method Store(block: Block, td: nat)
      requires Valid() && AdmissibleBlock(Current(), block)
      requires block.header.parent in tds && td == block.header.difficulty + tds[block.header.parent]
      modifies this`headers, this`bodies, this`tds
      ensures Current() == Written(old(Current()), block)
      ensures Valid() && (old(Indexed()) ==> Indexed())
    {
      WrittenKeepsIndexes(Current(), block, genesis);
      Put(block, td);
    }

    /** Stores a block with its total difficulty. */
    method WriteBlockWithState(block: Block) returns (r: Result<()>)
      requires Valid() && AdmissibleBlock(Current(), block)
      modifies this`headers, this`bodies, this`tds
      ensures r.Ok? <==> block.header.parent in old(tds)
      ensures r.Err? ==> unchanged(this)
      ensures r.Ok? ==> Current() == Written(old(Current()), block)
      ensures Valid() && (old(Indexed()) ==> Indexed())
    {
      var b := block.header;
      if b.parent !in tds { return Err("unknown ancestor"); }
      var externTd := b.difficulty + tds[b.parent];
      Store(block, externTd);
      r := Ok(());
    }

    ghost predicate Preferred(b: Header, tie: TieBreak)
      reads this
    {
      ReorgNeeded(ttd, Lookup(tds, currentBlock.hash), Lookup(tds, b.hash), currentBlock.number, b.number, tie)
          == Some(true)
    }

    /** The second half of writeBlockAndSetHead: a stored block becomes the head exactly when the fork choice prefers
        it. */
    method ChooseHead(b: Header, tie: TieBreak) returns (status: WriteStatus)
      requires Valid() && b.hash in headers && headers[b.hash] == b
      requires b.parent == currentBlock.hash ==> b.number == currentBlock.number + 1
      modifies this
      ensures Valid()
      ensures Current() == if old(Preferred(b, tie)) then old(Current()).(head := b.hash) else old(Current())
      ensures status == if old(Preferred(b, tie)) then CanonStat else SideStat
      ensures status.SideStat? ==> unchanged(this)
      ensures status.CanonStat? && old(Indexed()) ==> (Indexed() <==> NoLostTx(headers, bodies, old(currentBlock), b))
    {
      var current := currentBlock;
      var reorg := ReorgNeeded(ttd, Lookup(tds, current.hash), Lookup(tds, b.hash), current.number, b.number, tie);
      if !reorg.value { return SideStat; }
      LinkedChainsMeet(headers, genesis, current, b, Min(current.number, b.number));
      var k := WriteKnownBlock(b);
      status := CanonStat;
    }

    /** Stores a block and lets the fork choice decide whether it becomes the head. */
    method WriteBlockAndSetHead(block: Block, tie: TieBreak) returns (r: Result<WriteStatus>)
      requires Valid() && Admissible(Current(), Import(block, tie))
      modifies this
      ensures Valid()
      ensures Current() == Step(old(Current()), Import(block, tie), ttd)
      ensures r.Err? <==> block.header.parent !in old(tds)
      ensures r.Err? ==> unchanged(this)
      ensures r.Ok? ==> r.value == if Prefers(old(Current()), block, tie, ttd) then CanonStat else SideStat
      ensures ttd.None? && old(Foremost(Current())) ==> Foremost(Current())
      ensures r == Ok(CanonStat) ==> currentBlock == block.header
      ensures r == Ok(SideStat) ==> currentBlock == old(currentBlock) && canon == old(canon)
      ensures old(Indexed()) ==>
        (Indexed() <==> r != Ok(CanonStat) || NoLostTx(headers, bodies, old(currentBlock), currentBlock))
    {
      ghost var v := Current();
      var w := WriteBlockWithState(block);
      if w.Err? { return Err(w.error); }
      if Foremost(v) { ImportForemost(v, block, tie, ttd, genesis); }
      var status := ChooseHead(block.header, tie);
      r := Ok(status);
    }

    /** Stores a side block unless the import has been interrupted. */
    method WriteBlockWithoutState(block: Block, td: nat, stopped: bool) returns (r: Result<()>)
      requires Valid() && AdmissibleBlock(Current(), block)
      requires block.header.parent in tds && td == block.header.difficulty + tds[block.header.parent]
      modifies this`headers, this`bodies, this`tds
      ensures r.Err? <==> stopped
      ensures Current() == if stopped then old(Current()) else Written(old(Current()), block)
      ensures Valid() && (old(Indexed()) ==> Indexed())
    {
      if stopped { return Err("insertion is interrupted"); }
      Store(block, td);
      r := Ok(());
    }

    /** One round of insertSideChain's loop: a canonical block is skipped, any other is stored unless it already is.  It
        fails exactly on a block that claims a canonical block's state, or that would have to be stored after the import
        was interrupted.  The difficulty is read from the database where the block is canonical or first in line and
        summed up otherwise; either way it is the difficulty of the block's whole chain. */
    method ImportSideBlock(block: Block, td: Option<nat>, stopped: bool) returns (r: Result<nat>, skipped: bool)
      requires Valid() && AdmissibleBlock(Current(), block)
      requires block.header.parent in tds && (td.Some? ==> td.value == tds[block.header.parent])
      modifies this`headers, this`bodies, this`tds
      ensures Valid() && (old(Indexed()) ==> Indexed())
      ensures r.Err? <==> Refused(old(headers), canon, block.header, stopped)
      ensures r.Err? ==> unchanged(this)
      ensures r.Ok? ==> Current() == Written(old(Current()), block) && r.value == Td(headers, block.header.hash)
      ensures r.Ok? ==> (skipped <==> IsCanonical(canon, block.header))
    {
      var b := block.header;
      skipped := false;
      WrittenAgain(Current(), block, genesis);
      CanonStored(Current(), canon, genesis, b.number);
      if currentBlock.number >= b.number {
        var canonical := Get(headers, canon[b.number], b.number);
        if canonical.Some? && canonical.value.hash == b.hash { return Ok(tds[b.hash]), true; }
        if canonical.Some? && canonical.value.root == b.root { return Err("sidechain ghost-state attack"), false; }
      }
      var externTd := (if td.None? then tds[b.parent] else td.value) + b.difficulty;
      if b.hash !in headers {
        var w := WriteBlockWithoutState(block, externTd, stopped);
        if w.Err? { return Err(w.error), false; }
      } else {
        ChildTd(headers, genesis, b);
      }
      r := Ok(externTd);
    }

    /** One block further, from one milestone to the next. */
    method ImportNext(ghost start: View, ghost m: Milestone, block: Block, stop: bool, ghost m': Milestone,
                      externTd: Option<nat>, lastBlock: Header)
      returns (r: Result<nat>, lastBlock': Header)
      requires Valid() && m == Milestone(Current(), true, lastBlock, externTd) && Leg(start, canon, m, block, stop, m')
      modifies this`headers, this`bodies, this`tds
      ensures Valid() && (old(Indexed()) ==> Indexed())
      ensures r.Ok? ==> m' == Milestone(Current(), true, lastBlock', Some(r.value))
      ensures r.Err? ==> unchanged(this) && Refused(start.headers, canon, block.header, stop)
    {
      var skipped;
      r, skipped := ImportSideBlock(block, externTd, stop);
      lastBlock' := if skipped then lastBlock else block.header;
    }

    method ImportPruned(ghost start: View, ghost marks: seq<Milestone>, chain: seq<Block>, pruned: seq<bool>,
                        stopped: seq<bool>)
      returns (err: Option<string>, seen: nat, externTd: Option<nat>, lastBlock: Header)
      requires Valid() && |chain| == |pruned| == |stopped| > 0
      requires Charted(start, canon, chain, stopped, marks)
      requires Importing(Current(), marks, 0, None, chain[0].header)
      modifies this`headers, this`bodies, this`tds
      ensures Valid() && (old(Indexed()) ==> Indexed())
      ensures seen <= |chain| && Importing(Current(), marks, seen, externTd, lastBlock)
      ensures PrunedPrefix(pruned, seen) == PrunedPrefix(pruned, 0)
      ensures err.None? ==> seen == PrunedPrefix(pruned, 0)
      ensures err.Some? ==>
                seen < |chain| && pruned[seen] && Refused(start.headers, canon, chain[seen].header, stopped[seen])
    {
      externTd, lastBlock, seen := None, chain[0].header, 0;
      while seen < |chain| && pruned[seen]
        invariant 0 <= seen <= |chain| && Valid() && (old(Indexed()) ==> Indexed())
        invariant Importing(Current(), marks, seen, externTd, lastBlock)
        invariant PrunedPrefix(pruned, seen) == PrunedPrefix(pruned, 0)
      {
        assert PrunedPrefix(pruned, seen) == PrunedPrefix(pruned, seen + 1);
        ChartedAt(start, canon, chain, stopped, marks, seen);
        var step, last :=
          ImportNext(start, marks[seen], chain[seen], stopped[seen], marks[seen + 1], externTd, lastBlock);
        if step.Err? { return Some(step.error), seen, externTd, lastBlock; }
        externTd, lastBlock := Some(step.value), last;
        seen := seen + 1;
      }
      err := None;
    }

    /** The import loop of insertSideChain.  `pruned[i]` says that verification found block `i`'s ancestor pruned,
        `stopped[i]` that the import was interrupted before block `i` could be written.  The loop fails exactly at the
        first refused block of the pruned prefix.  The blocks before are stored one after the other, the running total
        is the difficulty of the last one, and the block offered to the fork choice, the last one that is not
        canonical, has a recorded difficulty. */
    method ImportSideChain(chain: seq<Block>, pruned: seq<bool>, stopped: seq<bool>)
      returns (r: Result<(Header, nat)>, seen: nat)
      requires Valid() && |chain| == |pruned| == |stopped| > 0 && pruned[0]
      requires SideChain(Current(), chain)
      modifies this`headers, this`bodies, this`tds
      ensures Valid() && (old(Indexed()) ==> Indexed())
      ensures seen <= PrunedPrefix(pruned, 0) <= |chain| && Current() == SideAll(old(Current()), chain, seen)
      ensures r.Ok? <==> NoneRefused(old(headers), canon, chain, stopped, PrunedPrefix(pruned, 0))
      ensures r.Err? ==>
        && seen < PrunedPrefix(pruned, 0) && NoneRefused(old(headers), canon, chain, stopped, seen)
        && Refused(old(headers), canon, chain[seen].header, stopped[seen])
      ensures forall i | 0 <= i < seen ::
        var b := chain[i].header;
        && (b.hash in old(headers) || !stopped[i])
        && (b.number in canon && canon[b.number] in old(headers) ==>
              canon[b.number] == b.hash || old(headers)[canon[b.number]].root != b.root)
      ensures r.Ok? ==>
        && 0 < seen == PrunedPrefix(pruned, 0)
        && chain[seen - 1].header.hash in headers && r.value.0.hash in tds
        && r.value == (LastSide(canon, chain, seen), Td(headers, chain[seen - 1].header.hash))
    {
      PrunedPrefixBounds(pruned, 0);
      ghost var start := Current();
      ghost var marks := Milestones(start, canon, genesis, chain, stopped);
      var err, externTd, lastBlock;
      err, seen, externTd, lastBlock := ImportPruned(start, marks, chain, pruned, stopped);
      PrunedPrefixBounds(pruned, seen);
      if seen > 0 { MilestoneStored(start, canon, genesis, chain, stopped, seen); }
      NoneRefusedIff(start.headers, canon, chain, stopped, seen);
      if err.Some? { RefusedStays(old(headers), canon, chain, stopped, seen, PrunedPrefix(pruned, 0)); }
      r := if err.Some? then Err(err.value) else Ok((lastBlock, externTd.value));
    }

    /** One step of a run. */
    method Perform(op: Op)
      requires Valid() && Admissible(Current(), op)
      modifies this
      ensures Valid()
      ensures Current() == Step(old(Current()), op, ttd)
      ensures old(Indexed()) && RepetitionFree(Current()) ==> Indexed()
    {
      ghost var before := currentBlock;
      match op {
        case Import(b, tie) =>
          var _ := WriteBlockAndSetHead(b, tie);
        case ImportSide(b) =>
          if b.header.parent in tds {
            var _ := WriteBlockWithoutState(b, b.header.difficulty + tds[b.header.parent], false);
          }
        case SwitchTo(h) =>
          assert LinkedHead(headers, genesis, h);
          assert headers[h].number > 0 ==> Linked(headers, genesis, headers[h].parent, headers[h].number - 1);
          LinkedChainsMeet(headers, genesis, currentBlock, headers[h], Min(currentBlock.number, headers[h].number));
          var _ := WriteKnownBlock(headers[h]);
      }
      if RepetitionFree(Current()) { NothingLost(Current(), genesis, before, currentBlock); }
    }

    /** Any sequence of imports and head switches from a valid state keeps the invariant and moves
        the view exactly as the specification's run does; when no chain repeats a transaction,
        the transaction index stays exact throughout. */
    method Replay(ops: seq<Op>)
      requires Valid() && AdmissibleRun(Current(), ops, ttd)
      modifies this
      ensures Valid()
      ensures Current() == Run(old(Current()), ops, ttd)
      ensures old(Indexed()) && RepetitionFreeRun(old(Current()), ops, ttd) ==> Indexed()
    {
      ghost var exact := Indexed() && RepetitionFreeRun(Current(), ops, ttd);
      var i := 0;
      while i < |ops|
        invariant 0 <= i <= |ops| && Valid() && AdmissibleRun(Current(), ops[i..], ttd)
        invariant Run(Current(), ops[i..], ttd) == Run(old(Current()), ops, ttd)
        invariant exact ==> Indexed() && RepetitionFreeRun(Current(), ops[i..], ttd)
      {
        assert ops[i..][0] == ops[i] && ops[i..][1..] == ops[i + 1..];
        Perform(ops[i]);
        i := i + 1;
      }
    }
  }
}
