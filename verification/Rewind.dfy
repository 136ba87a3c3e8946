/** Rewinding the chain: HeaderChain.setHead (core/headerchain.go) with the callbacks of
    BlockChain.setHeadBeyondRoot (core/blockchain.go), for a full-synced node without a freezer,
    a pivot or a root threshold. */
module Rewind {
  import opened Basics
  import opened BlockTree

  /** A rewind target: at most this number, or at most this timestamp. */
  datatype Target = ByNumber(number: nat) | ByTime(time: nat)

  predicate Done(target: Target, h: Header) {
    match target
    case ByNumber(n) => h.number <= n
    case ByTime(t) => h.time <= t
  }

  datatype Disk = Disk(headers: Store, bodies: set<Hash>, receipts: set<Hash>, tds: map<Hash, nat>,
                       canon: map<nat, Hash>, headHeader: Hash, headFast: Hash, headBlock: Hash)

  /** Every head marker names data that is present. */
  ghost predicate MarkersResolve(d: Disk) {
    && d.headHeader in d.headers
    && d.headFast in d.headers && d.headFast in d.bodies
    && d.headBlock in d.headers && d.headBlock in d.bodies
  }

  // ------------------------------------------------------------ stateful blocks

  /** The highest block at or below `(h, number)` on its walk whose state is present, else genesis. */
  ghost function BestState(s: Store, states: set<nat>, g: Header, h: Hash, number: nat): Header
    decreases number
  {
    match Get(s, h, number)
    case None => g
    case Some(b) =>
      if b.root in states then b
      else if number == 0 then g
      else BestState(s, states, g, b.parent, number - 1)
  }

  /** What "highest" means: the block is on the walk, has state unless it is genesis, and nothing above it
      on the walk has. */
  lemma {:induction false} BestStateHighest(s: Store, states: set<nat>, g: Header, h: Hash, number: nat, n: nat)
    requires WellKeyed(s) && Get(s, g.hash, 0) == Some(g) && Linked(s, g.hash, h, number)
    ensures var b := BestState(s, states, g, h, number);
            && b.number <= number && Get(s, b.hash, b.number) == Some(b) && Walk(s, h, number, b.number) == b.hash
            && (b.root in states || b == g)
            && (b.number < n <= number ==>
                  Get(s, Walk(s, h, number, n), n).Some? && s[Walk(s, h, number, n)].root !in states)
    decreases number
  {
    if number > 0 { BestStateHighest(s, states, g, s[h].parent, number - 1, n); }
    LinkedToGenesis(s, g.hash, h, number);
  }

  // -------------------------------------------------------------- heights

  /** All stored hashes of one height, on every fork. */
  function HashesAt(s: Store, n: nat): set<Hash> {
    set h | h in s && s[h].number == n
  }

  ghost function AtOrAbove(s: Store, n: nat): set<Hash> {
    set h | h in s && s[h].number >= n
  }

  ghost function Below(s: Store, n: nat): Store {
    map h | h in s && s[h].number <= n :: s[h]
  }

  lemma HeightFilled(s: Store, g: Hash, h: Hash, n: nat)
    requires Closed(s, g) && h in s && n <= s[h].number
    ensures HashesAt(s, n) != {}
  {
    LinkedWalk(s, g, h, s[h].number, n);
    assert Walk(s, h, s[h].number, n) in HashesAt(s, n);
  }

  /** In a closed store heights have no gaps. */
  lemma NoGaps(s: Store, g: Hash, n: nat)
    requires Closed(s, g) && HashesAt(s, n) == {}
    ensures AtOrAbove(s, n) == {}
  {
    if h :| h in AtOrAbove(s, n) { HeightFilled(s, g, h, n); }
  }

  /** Dropping everything above a height keeps the rest closed and its walks intact. */
  lemma {:induction false} LinkedBelow(s: Store, g: Hash, h: Hash, number: nat, k: nat)
    requires Linked(s, g, h, number) && number <= k
    ensures Linked(Below(s, k), g, h, number)
    ensures forall n: nat | n <= number :: Walk(Below(s, k), h, number, n) == Walk(s, h, number, n)
    decreases number
  {
    if number > 0 { LinkedBelow(s, g, s[h].parent, number - 1, k); }
  }

  lemma ClosedBelow(s: Store, g: Hash, k: nat)
    requires Closed(s, g)
    ensures Closed(Below(s, k), g)
  {
    forall h | h in Below(s, k) ensures LinkedHead(Below(s, k), g, h) {
      LinkedBelow(s, g, h, s[h].number, k);
    }
  }

  lemma CanonBelow(s: Store, g: Hash, head: Hash, k: nat)
    requires Closed(s, g) && head in s && k <= s[head].number
    ensures var a := Walk(s, head, s[head].number, k);
            && a in Below(s, k) && s[a].number == k
            && CanonOf(Below(s, k), a) == map n: nat | 0 <= n <= k :: CanonOf(s, head)[n]
  {
    LinkedWalk(s, g, head, s[head].number, k);
    var a := Walk(s, head, s[head].number, k);
    LinkedBelow(s, g, a, k, k);
    CanonOfAncestor(s, head, k);
    assert CanonOf(Below(s, k), a) == CanonOf(s, a);
  }

  // ------------------------------------------------------------------ going down

  ghost predicate OnWalk(s: Store, h: Header, b: Header) {
    b.number <= h.number && Walk(s, h.hash, h.number, b.number) == b.hash
  }

  ghost predicate AllResolve(ds: seq<Disk>) {
    forall d | d in ds :: MarkersResolve(d)
  }

  lemma AllResolveMore(a: seq<Disk>, b: seq<Disk>, d: Disk)
    requires a <= b && AllResolve(b[|a|..]) && MarkersResolve(d)
    ensures a <= b + [d] && AllResolve((b + [d])[|a|..])
  {
    assert (b + [d])[|a|..] == b[|a|..] + [d];
  }

  ghost predicate SameData(a: Disk, b: Disk) {
    a.headers == b.headers && a.bodies == b.bodies && a.receipts == b.receipts && a.tds == b.tds && a.canon == b.canon
  }

  ghost predicate NotDoneAt(s: Store, target: Target, head: Header, n: nat) {
    && n <= head.number
    && var w := Walk(s, head.hash, head.number, n);
       Get(s, w, n).Some? && !Done(target, s[w])
  }

  /** The walk from `head` has been followed down to `h` without meeting the target above it. */
  ghost predicate Passed(s: Store, target: Target, head: Header, h: Header) {
    && h.number <= head.number && Get(s, h.hash, h.number) == Some(h)
    && Walk(s, head.hash, head.number, h.number) == h.hash
    && forall n: nat | h.number < n <= head.number :: NotDoneAt(s, target, head, n)
  }

  lemma PassedDown(s: Store, g: Header, target: Target, head: Header, h: Header)
    requires WellKeyed(s) && Get(s, g.hash, 0) == Some(g) && Linked(s, g.hash, h.hash, h.number)
    requires Passed(s, target, head, h) && !Done(target, h) && Done(target, g)
    ensures h.number > 0 && Get(s, h.parent, h.number - 1).Some? && Passed(s, target, head, s[h.parent])
  {
    WalkStep(s, head.hash, head.number, h.number - 1);
    assert NotDoneAt(s, target, head, h.number);
  }

  /** Every header on the walk from `head` above height `k` is younger than `t`. */
  ghost predicate AllYounger(s: Store, head: Header, k: nat, t: nat) {
    forall n: nat | k < n <= head.number :: var w := Walk(s, head.hash, head.number, n); w in s && s[w].time > t
  }

  /** Of the database, exactly what belongs to a height up to `n` has survived. */
  ghost predicate CutAt(d: Disk, d': Disk, n: nat) {
    && (forall h :: h in d'.headers <==> h in d.headers && d.headers[h].number <= n)
    && (forall h | h in d'.headers ::
          d'.headers[h] == d.headers[h] && h in d.tds && h in d'.tds && d'.tds[h] == d.tds[h])
    && d'.bodies == d'.tds.Keys == d'.headers.Keys && d'.receipts == d.receipts * d'.headers.Keys
  }

  /** A rewind to a number ends at that number, one to a time at the highest header that is not younger. */
  lemma TargetMet(s: Store, target: Target, head: Header, h: Header)
    requires Passed(s, target, head, h) && Done(target, h)
    ensures target.ByNumber? ==> h.number == Min(target.number, head.number)
    ensures target.ByTime? ==> h.time <= target.time && AllYounger(s, head, h.number, target.time)
  {
    if h.number < head.number { assert NotDoneAt(s, target, head, h.number + 1); }
    if target.ByTime? {
      forall n: nat | h.number < n <= head.number
        ensures var w := Walk(s, head.hash, head.number, n); w in s && s[w].time > target.time
      {
        assert NotDoneAt(s, target, head, n);
      }
    }
  }

  /** The head block is the best one with state as of the start of the rewind, or stays put while that is lower.  Only
      the genesis state is ever added. */
  ghost predicate HeadBlockOk(s: Store, st: set<nat>, g: Header, h: Header, block: Header, b: Header, states: set<nat>,
                              origin: bool) {
    && (states == st || (b == g && states == st + {g.root}))
    && (origin ==> b == block && states == st)
    && (!origin ==> b == if h.number <= block.number then BestState(s, st, g, h.hash, h.number) else block)
  }

  lemma HeadBlockDown(s: Store, st: set<nat>, g: Header, h: Header, block: Header, b: Header, states: set<nat>,
                      origin: bool)
    requires WellKeyed(s) && Get(s, g.hash, 0) == Some(g) && Get(s, h.hash, h.number) == Some(h)
             && Linked(s, g.hash, h.hash, h.number)
    requires h.number > 0 && HeadBlockOk(s, st, g, h, block, b, states, origin) && OnWalk(s, h, b)
    ensures Get(s, h.parent, h.number - 1).Some?
    ensures var p := s[h.parent];
            var b' := if p.number <= b.number then BestState(s, states, g, p.hash, p.number) else b;
            && b' == (if p.number <= block.number then BestState(s, st, g, p.hash, p.number) else block)
            && (states == st || b' == g) && OnWalk(s, p, b')
  {
    var p := s[h.parent];
    assert Linked(s, g.hash, p.hash, p.number);
    BestStateHighest(s, st, g, p.hash, p.number, 0);
    BestStateHighest(s, states, g, p.hash, p.number, 0);
    if b.number < p.number { WalkCompose(s, h.hash, h.number, p.number, b.number); }
  }

  /** Below a stateless stretch the answer does not change. */
  lemma {:induction false} BestStateSkips(s: Store, states: set<nat>, g: Header, h: Hash, number: nat, n: nat)
    requires Get(s, g.hash, 0) == Some(g) && Linked(s, g.hash, h, number)
    requires BestState(s, states, g, h, number).number <= n <= number
    ensures BestState(s, states, g, Walk(s, h, number, n), n) == BestState(s, states, g, h, number)
    decreases number
  {
    LinkedToGenesis(s, g.hash, h, number);
    if n < number { BestStateSkips(s, states, g, s[h].parent, number - 1, n); }
  }

  /** If the head block was the head header or the best block below it, it ends up as the best block below the new
      one. */
  lemma HeadBlockSettled(s: Store, st: set<nat>, g: Header, head: Header, block: Header, h: Header)
    requires WellKeyed(s) && Get(s, g.hash, 0) == Some(g) && Linked(s, g.hash, head.hash, head.number)
    requires h.number <= head.number && Get(s, h.hash, h.number) == Some(h)
             && Walk(s, head.hash, head.number, h.number) == h.hash
    requires block == head || block == BestState(s, st, g, head.hash, head.number)
    ensures h.number > block.number ==> block == BestState(s, st, g, h.hash, h.number)
  {
    if h.number > block.number { BestStateSkips(s, st, g, head.hash, head.number, h.number); }
  }

  lemma HeadBlockFinal(s: Store, st: set<nat>, g: Header, head: Header, block: Header, h: Header, b: Header,
                       states: set<nat>, origin: bool)
    requires WellKeyed(s) && Get(s, g.hash, 0) == Some(g) && Linked(s, g.hash, head.hash, head.number)
    requires h.number <= head.number && Get(s, h.hash, h.number) == Some(h)
             && Walk(s, head.hash, head.number, h.number) == h.hash
    requires HeadBlockOk(s, st, g, h, block, b, states, origin)
    ensures !origin && (block == head || block == BestState(s, st, g, head.hash, head.number)) ==>
              b == BestState(s, st, g, h.hash, h.number)
  {
    if block == head || block == BestState(s, st, g, head.hash, head.number) {
      HeadBlockSettled(s, st, g, head, block, h);
    }
  }

  ghost predicate Heights(s: Store, k: nat, numbers: set<nat>) {
    forall n: nat :: n in numbers <==> k < n && HashesAt(s, n) != {}
  }

  /** Deleting everything above the new head header leaves a complete chain indexed by its walk. */
  lemma Surviving(d: Disk, g: Header, head: Header, h: Header, hashes: set<Hash>, numbers: set<nat>)
    requires Closed(d.headers, g.hash) && d.bodies == d.headers.Keys == d.tds.Keys
    requires head.hash in d.headers && d.headers[head.hash] == head && d.canon == CanonOf(d.headers, head.hash)
    requires h.number <= head.number && Walk(d.headers, head.hash, head.number, h.number) == h.hash
    requires hashes == AtOrAbove(d.headers, h.number + 1) && Heights(d.headers, h.number, numbers)
    ensures Closed(Below(d.headers, h.number), g.hash)
    ensures d.headers - hashes == Below(d.headers, h.number)
    ensures d.bodies - hashes == Below(d.headers, h.number).Keys == (d.tds - hashes).Keys
    ensures h.hash in Below(d.headers, h.number) && d.canon - numbers == CanonOf(Below(d.headers, h.number), h.hash)
  {
    ClosedBelow(d.headers, g.hash, h.number);
    CanonBelow(d.headers, g.hash, head.hash, h.number);
    forall n: nat | n <= head.number ensures n in numbers <==> n > h.number {
      HeightFilled(d.headers, g.hash, head.hash, n);
    }
  }

  lemma {:induction false} Subset(a: set<Hash>, b: set<Hash>)
    requires a <= b
    ensures |a| <= |b|
    decreases a
  {
    if x :| x in a { Subset(a - {x}, b - {x}); }
  }

  lemma Shrinks(s: Store, n: nat)
    requires HashesAt(s, n) != {}
    ensures |AtOrAbove(s, n + 1)| < |AtOrAbove(s, n)|
  {
    var h :| h in HashesAt(s, n);
    assert AtOrAbove(s, n + 1) <= AtOrAbove(s, n) - {h};
    Subset(AtOrAbove(s, n + 1), AtOrAbove(s, n) - {h});
  }

  // ------------------------------------------------------------------- the chain

  class Chain {
    const genesis: Header

    var disk: Disk
    var states: set<nat>
    var currentHeader: Header
    var currentSnap: Header
    var currentBlock: Header

    /** Every database state that was ever written. */
    ghost var written: seq<Disk>

    /** The blocks of a full-synced node: complete and linked to genesis. */
    ghost predicate Stored()
      reads this
    {
      && Closed(disk.headers, genesis.hash) && Get(disk.headers, genesis.hash, 0) == Some(genesis)
      && disk.bodies == disk.headers.Keys == disk.tds.Keys && disk.receipts <= disk.headers.Keys
    }

    ghost predicate Has(h: Header)
      reads this
    {
      h.hash in disk.headers && disk.headers[h.hash] == h
    }

    /** Markers on disk and in memory agree and resolve. */
    ghost predicate Marked()
      reads this
    {
      && Has(currentHeader) && Has(currentSnap) && Has(currentBlock)
      && disk.headHeader == currentHeader.hash && disk.headBlock == currentBlock.hash
      && disk.headFast == currentSnap.hash
    }

    /** Complete blocks, indexed along the head header's chain, on which the head block lies. */
    ghost predicate Valid()
      reads this
    {
      && Stored() && Marked()
      && disk.canon == CanonOf(disk.headers, currentHeader.hash)
      && OnWalk(disk.headers, currentHeader, currentBlock)
    }

    ghost function Best(st: set<nat>, h: Header): Header
      reads this
    {
      BestState(disk.headers, st, genesis, h.hash, h.number)
    }

    /** Rewinds the head block to one with state, recommitting the genesis state if it gets there. */
    method RewindBlock(header: Header) returns (b: Header)
      requires Stored() && Has(header)
      modifies this`states
      ensures b == old(Best(states, header)) && Has(b)
      ensures states == old(states) || (b == genesis && states == old(states) + {genesis.root})
    {
      b := header;
      assert LinkedHead(disk.headers, genesis.hash, header.hash);
      while b.root !in states && Get(disk.headers, b.parent, b.number - 1).Some?
        invariant Has(b) && Linked(disk.headers, genesis.hash, b.hash, b.number)
        invariant Best(states, b) == Best(states, header)
        decreases b.number
      {
        b := Get(disk.headers, b.parent, b.number - 1).value;
      }
      if b.root !in states { b := genesis; }
      if b.number == 0 && genesis.root !in states { states := states + {genesis.root}; }
    }

    /** Moves every marker down to `header` in one database write, before any data is deleted. */
    method MoveMarkers(header: Header)
      requires Stored() && Has(header) && Marked()
      modifies this
      ensures disk == old(disk).(headHeader := header.hash, headFast := currentSnap.hash,
              headBlock := currentBlock.hash)
      ensures Stored() && Marked() && currentHeader == header
      ensures currentBlock ==
              if header.number <= old(currentBlock).number then old(Best(states, header)) else old(currentBlock)
      ensures currentSnap == if header.number < old(currentSnap).number then header else old(currentSnap)
      ensures states == old(states) || (currentBlock == genesis && states == old(states) + {genesis.root})
      ensures written == old(written) + [disk] && MarkersResolve(disk)
    {
      var batch := disk;
      if header.number <= currentBlock.number {
        var b := RewindBlock(header);
        batch := batch.(headBlock := b.hash);
        currentBlock := b;
      }
      if header.number < currentSnap.number {
        batch := batch.(headFast := header.hash);
        currentSnap := header;
      }
      batch := batch.(headHeader := header.hash);
      disk := batch;
      written := written + [disk];
      currentHeader := header;
    }

    /** The heights above `num` that still hold headers on any fork, highest first. */
    method LeftoverHeights(num: nat) returns (nums: seq<nat>)
      requires Stored()
      ensures forall n: nat :: n in nums <==> num < n && HashesAt(disk.headers, n) != {}
    {
      nums := [];
      var n := num + 1;
      while HashesAt(disk.headers, n) != {}
        invariant num < n
        invariant forall k: nat :: k in nums <==> num < k < n
        invariant forall k: nat | num < k < n :: HashesAt(disk.headers, k) != {}
        decreases |AtOrAbove(disk.headers, n)|
      {
        nums := [n] + nums;
        Shrinks(disk.headers, n);
        n := n + 1;
      }
      NoGaps(disk.headers, genesis.hash, n);
      forall k: nat | k >= n ensures HashesAt(disk.headers, k) == {} {
        assert HashesAt(disk.headers, k) <= AtOrAbove(disk.headers, n);
      }
    }

    /** Collects everything stored at the given heights. */
    method Collect(nums: seq<nat>, orphan: Hash) returns (hashes: set<Hash>)
      requires Stored() && forall n | n in nums :: HashesAt(disk.headers, n) != {}
      ensures hashes == set h | h in disk.headers && disk.headers[h].number in nums
    {
      hashes := {};
      var i := 0;
      while i < |nums|
        invariant 0 <= i <= |nums|
        invariant hashes == set h | h in disk.headers && disk.headers[h].number in nums[..i]
      {
        var found := HashesAt(disk.headers, nums[i]);
        if found == {} { found := {orphan}; }
        assert nums[..i + 1] == nums[..i] + [nums[i]];
        hashes := hashes + found;
        i := i + 1;
      }
      assert nums[..|nums|] == nums;
    }

    /** Adds the height of `hdr`, on the first round together with everything above it, to what will be deleted. */
    method Condemn(hdr: Header, origin: bool, hashes: set<Hash>, numbers: set<nat>)
      returns (hashes': set<Hash>, numbers': set<nat>)
      requires Stored() && Has(hdr) && hdr.number > 0
      requires if origin then hashes == {} && numbers == {}
               else hashes == AtOrAbove(disk.headers, hdr.number + 1) && Heights(disk.headers, hdr.number, numbers)
      ensures hashes' == AtOrAbove(disk.headers, hdr.number) && Heights(disk.headers, hdr.number - 1, numbers')
    {
      var nums := [];
      if origin { nums := LeftoverHeights(hdr.number); }
      assert hdr.hash in HashesAt(disk.headers, hdr.number);
      nums := nums + [hdr.number];
      var doomed := Collect(nums, hdr.hash);
      hashes' := hashes + doomed;
      numbers' := numbers + set n | n in nums;
      forall h | h in AtOrAbove(disk.headers, hdr.number) ensures h in hashes' {
        assert h in HashesAt(disk.headers, disk.headers[h].number);
      }
    }

    /** The final batch: deletes what was condemned. */
    method Wipe(hashes: set<Hash>, numbers: set<nat>, ghost head: Header, ghost nothing: bool)
      requires Stored() && Marked() && Has(head) && disk.canon == CanonOf(disk.headers, head.hash)
      requires currentHeader.number <= head.number
               && Walk(disk.headers, head.hash, head.number, currentHeader.number) == currentHeader.hash
      requires nothing ==> hashes == {} && numbers == {} && head == currentHeader
      requires !nothing ==>
                 && hashes == AtOrAbove(disk.headers, currentHeader.number + 1)
                 && Heights(disk.headers, currentHeader.number, numbers)
      requires !nothing ==> currentBlock.number <= currentHeader.number && currentSnap.number <= currentHeader.number
      modifies this`disk, this`written
      ensures Stored() && Marked() && disk.canon == CanonOf(disk.headers, currentHeader.hash)
      ensures nothing ==> disk == old(disk)
      ensures !nothing ==>
        && disk.headers == Below(old(disk.headers), currentHeader.number)
        && disk.tds == (map h | h in disk.headers :: old(disk.tds)[h])
        && disk.receipts == old(disk.receipts) * disk.headers.Keys
      ensures written == old(written) + [disk] && MarkersResolve(disk)
    {
      if nothing {
        assert disk.headers - hashes == disk.headers && disk.tds - hashes == disk.tds
               && disk.canon - numbers == disk.canon;
        assert disk.receipts - hashes == disk.receipts && disk.bodies - hashes == disk.bodies;
      } else {
        Surviving(disk, genesis, head, currentHeader, hashes, numbers);
      }
      disk := disk.(headers := disk.headers - hashes, bodies := disk.bodies - hashes,
                    receipts := disk.receipts - hashes, tds := disk.tds - hashes, canon := disk.canon - numbers);
      written := written + [disk];
    }

    /** The state between two rounds of the rewind that started from disk `d`, states `st`, head header `head`,
        snap block `snap` and head block `block`; `origin` before the first round. */
    ghost predicate Rewinding(d: Disk, st: set<nat>, target: Target, head: Header, snap: Header, block: Header,
                              origin: bool, hashes: set<Hash>, numbers: set<nat>)
      reads this
    {
      && Stored() && Marked() && SameData(d, disk)
      && Passed(d.headers, target, head, currentHeader)
      && HeadBlockOk(d.headers, st, genesis, currentHeader, block, currentBlock, states, origin)
      && OnWalk(d.headers, currentHeader, currentBlock)
      && (origin ==>
            && disk == d && states == st && currentHeader == head && currentSnap == snap
            && hashes == {} && numbers == {})
      && (!origin ==>
            && !Done(target, head)
            && currentSnap == (if currentHeader.number < snap.number then currentHeader else snap)
            && hashes == AtOrAbove(disk.headers, currentHeader.number + 1)
            && Heights(disk.headers, currentHeader.number, numbers))
    }

    /** One round: markers down by one header, then one more height condemned. */
    method StepDown(ghost d: Disk, ghost st: set<nat>, target: Target, ghost head: Header, ghost snap: Header,
                    ghost block: Header, origin: bool, hashes: set<Hash>, numbers: set<nat>)
      returns (hashes': set<Hash>, numbers': set<nat>)
      requires Rewinding(d, st, target, head, snap, block, origin, hashes, numbers)
      requires Done(target, genesis) && !Done(target, currentHeader)
      modifies this
      ensures Rewinding(d, st, target, head, snap, block, false, hashes', numbers')
      ensures currentHeader.number < old(currentHeader).number
      ensures written == old(written) + [disk] && MarkersResolve(disk)
    {
      var hdr := currentHeader;
      assert LinkedHead(disk.headers, genesis.hash, hdr.hash);
      var found := Get(disk.headers, hdr.parent, hdr.number - 1);
      var parent := if found.Some? then found.value else genesis;
      PassedDown(disk.headers, genesis, target, head, hdr);
      HeadBlockDown(disk.headers, st, genesis, hdr, block, currentBlock, states, origin);
      MoveMarkers(parent);
      hashes', numbers' := Condemn(hdr, origin, hashes, numbers);
    }

    /** The loop of setHead: goes down until the target is met. */
    method Descend(ghost d: Disk, ghost st: set<nat>, target: Target, ghost head: Header, ghost snap: Header,
                   ghost block: Header)
      returns (hashes: set<Hash>, numbers: set<nat>, origin: bool)
      requires Rewinding(d, st, target, head, snap, block, true, {}, {}) && Done(target, genesis)
      modifies this
      ensures Rewinding(d, st, target, head, snap, block, origin, hashes, numbers) && Done(target, currentHeader)
      ensures target.ByNumber? ==> currentHeader.number == Min(target.number, head.number)
      ensures target.ByTime? ==>
                currentHeader.time <= target.time && AllYounger(d.headers, head, currentHeader.number, target.time)
      ensures old(written) <= written && AllResolve(written[|old(written)|..])
    {
      hashes, numbers, origin := {}, {}, true;
      while !Done(target, currentHeader)
        invariant Rewinding(d, st, target, head, snap, block, origin, hashes, numbers)
        invariant old(written) <= written && AllResolve(written[|old(written)|..])
        decreases currentHeader.number
      {
        ghost var before := written;
        hashes, numbers := StepDown(d, st, target, head, snap, block, origin, hashes, numbers);
        AllResolveMore(old(written), before, disk);
        origin := false;
      }
      TargetMet(d.headers, target, head, currentHeader);
    }

    /** The end of a rewind that has met its target. */
    method Complete(ghost d: Disk, ghost st: set<nat>, ghost target: Target, ghost head: Header, ghost snap: Header,
                    ghost block: Header, ghost start: seq<Disk>, origin: bool, hashes: set<Hash>, numbers: set<nat>)
      requires Rewinding(d, st, target, head, snap, block, origin, hashes, numbers)
      requires Has(head) && d.canon == CanonOf(d.headers, head.hash)
      requires start <= written && AllResolve(written[|start|..])
      modifies this`disk, this`written
      ensures Valid() && (origin ==> disk == d) && (!origin ==> CutAt(d, disk, currentHeader.number))
      ensures start < written && written[|written| - 1] == disk && AllResolve(written[|start|..])
    {
      assert LinkedHead(disk.headers, genesis.hash, currentHeader.hash);
      LinkedBelow(disk.headers, genesis.hash, currentHeader.hash, currentHeader.number, currentHeader.number);
      ghost var before := written;
      Wipe(hashes, numbers, head, origin);
      AllResolveMore(start, before, disk);
    }

    /** Rewinds the chain to the first header, going down, that meets the target.  If the head already does,
        nothing happens.  Otherwise no header, body, receipt, difficulty or canonical entry of any fork survives above
        the new head header, everything at or below it does, the canonical index is its parent walk, the head
        block is its best ancestor with state or stays where it was if that is lower, and in every database state
        on the way the markers resolve. */
    method SetHead(target: Target)
      requires Valid() && Done(target, genesis)
      modifies this
      ensures Valid()
      ensures old(Done(target, currentHeader)) ==>
                disk == old(disk) && unchanged(`states, `currentHeader, `currentBlock, `currentSnap)
      ensures Done(target, currentHeader) && Passed(old(disk.headers), target, old(currentHeader), currentHeader)
      ensures target.ByNumber? ==> currentHeader.number == Min(target.number, old(currentHeader.number))
      ensures target.ByTime? ==>
        && currentHeader.time <= target.time
        && AllYounger(old(disk.headers), old(currentHeader), currentHeader.number, target.time)
      ensures !old(Done(target, currentHeader)) ==>
        && CutAt(old(disk), disk, currentHeader.number)
        && (var best := BestState(old(disk.headers), old(states), genesis, currentHeader.hash, currentHeader.number);
            && currentBlock == (if currentHeader.number <= old(currentBlock).number then best else old(currentBlock))
            && (old(currentBlock == currentHeader || currentBlock == Best(states, currentHeader)) ==>
                  currentBlock == best))
        && currentSnap == (if currentHeader.number < old(currentSnap).number then currentHeader else old(currentSnap))
      ensures states == old(states) || (currentBlock == genesis && states == old(states) + {genesis.root})
      ensures old(written) < written && written[|written| - 1] == disk && AllResolve(written[|old(written)|..])
    {
      ghost var d, st, head, snap, block, start := disk, states, currentHeader, currentSnap, currentBlock, written;
      var hashes, numbers, origin := Descend(d, st, target, head, snap, block);
      assert LinkedHead(d.headers, genesis.hash, head.hash);
      HeadBlockFinal(d.headers, st, genesis, head, block, currentHeader, currentBlock, states, origin);
      Complete(d, st, target, head, snap, block, start, origin, hashes, numbers);
    }
  }
}
