/** Headers, the header store and the parent walk.

    The chain database is a tree of headers linked by parent hashes.  Everything the
    chain engine maintains incrementally (the canonical number index, total
    difficulties, the transaction index) has a simple definition as a walk along
    parent hashes; those definitions live here and the other modules prove their
    loops against them.
 */
module BlockTree {
  import opened Basics

  type Hash = nat
  const ZERO_HASH: Hash := 0

  /** A transaction is known to the chain engine by its hash only. */
  type Tx = nat

  datatype Header = Header(hash: Hash, parent: Hash, number: nat, difficulty: nat, root: nat, time: nat)

  type Store = map<Hash, Header>

  /** Headers are stored under their own hash, and no header hashes to zero. */
  ghost predicate WellKeyed(s: Store) {
    ZERO_HASH !in s && forall h | h in s :: s[h].hash == h
  }

  /** Reading a missing canonical entry yields the zero hash. */
  function ReadCanon(canon: map<nat, Hash>, n: int): Hash {
    if n in canon then canon[n] else ZERO_HASH
  }

  /** Database reads name a header by number and hash; a wrong number finds nothing.
      The number is an `int` because callers ask for `number - 1` of a genesis header. */
  function Get(s: Store, h: Hash, number: int): (r: Option<Header>) {
    if h in s && s[h].number == number then Some(s[h]) else None
  }

  /** The hash at height `n` on the parent walk from `(h, number)`, or the zero hash
      when a header on the way is missing.  The header at height `n` itself need not be stored. */
  function Walk(s: Store, h: Hash, number: nat, n: nat): Hash
    requires n <= number
    decreases number
  {
    if number == n then h
    else match Get(s, h, number)
      case None => ZERO_HASH
      case Some(b) => Walk(s, b.parent, number - 1, n)
  }

  /** Every header from `(h, number)` down to the genesis header `g`, which has no parent, is stored. */
  ghost predicate Linked(s: Store, g: Hash, h: Hash, number: nat)
    decreases number
  {
    && Get(s, h, number).Some?
    && (number == 0 ==> h == g && s[h].parent == ZERO_HASH)
    && (number > 0 ==> Linked(s, g, s[h].parent, number - 1))
  }

  ghost predicate LinkedHead(s: Store, g: Hash, h: Hash) {
    h in s && Linked(s, g, h, s[h].number)
  }

  /** Every stored header is linked to genesis. */
  ghost predicate Closed(s: Store, g: Hash) {
    WellKeyed(s) && forall h | h in s :: LinkedHead(s, g, h)
  }

  /** The canonical number index rebuilt naively: walk parents from the head. */
  ghost function CanonOf(s: Store, h: Hash): map<nat, Hash>
    requires h in s
  {
    map n: nat | 0 <= n <= s[h].number :: Walk(s, h, s[h].number, n)
  }

  /** The sum of difficulties from `(h, number)` back to genesis. */
  ghost function TotalDifficulty(s: Store, h: Hash, number: nat): nat
    decreases number
  {
    if Get(s, h, number).None? then 0
    else if number == 0 then s[h].difficulty
    else s[h].difficulty + TotalDifficulty(s, s[h].parent, number - 1)
  }

  ghost function Td(s: Store, h: Hash): nat
    requires h in s
  {
    TotalDifficulty(s, h, s[h].number)
  }

  lemma {:induction false} LinkedWalk(s: Store, g: Hash, h: Hash, number: nat, n: nat)
    requires n <= number && Linked(s, g, h, number)
    ensures Linked(s, g, Walk(s, h, number, n), n)
    decreases number
  {
    if number > n { LinkedWalk(s, g, s[h].parent, number - 1, n); }
  }

  /** Two linked chains share at least the genesis header. */
  lemma {:induction false} LinkedToGenesis(s: Store, g: Hash, h: Hash, number: nat)
    requires Linked(s, g, h, number)
    ensures Walk(s, h, number, 0) == g && Get(s, g, 0).Some?
    decreases number
  {
    if number > 0 { LinkedToGenesis(s, g, s[h].parent, number - 1); }
  }

  /** Walking in two stages is walking in one. */
  lemma {:induction false} WalkCompose(s: Store, h: Hash, number: nat, m: nat, n: nat)
    requires n <= m <= number && ZERO_HASH !in s
    ensures Walk(s, Walk(s, h, number, m), m, n) == Walk(s, h, number, n)
    decreases number
  {
    if number > m {
      match Get(s, h, number)
      case None =>
      case Some(b) => WalkCompose(s, b.parent, number - 1, m, n);
    }
  }

  /** One step further down the walk. */
  lemma WalkStep(s: Store, h: Hash, number: nat, n: nat)
    requires n < number && ZERO_HASH !in s
    ensures var w := Walk(s, h, number, n + 1);
            Walk(s, h, number, n) == (if Get(s, w, n + 1).Some? then s[w].parent else ZERO_HASH)
  {
    WalkCompose(s, h, number, n + 1, n);
  }

  /** The canonical index of a complete chain: one stored block for every height up to the head's, each the parent
      of the next, from genesis to the head. */
  lemma {:induction false} CanonChained(s: Store, g: Hash, h: Hash, n: nat)
    requires LinkedHead(s, g, h) && ZERO_HASH !in s
    ensures var canon := CanonOf(s, h);
            && (n in canon <==> n <= s[h].number) && canon[s[h].number] == h && canon[0] == g
            && (n in canon ==> Get(s, canon[n], n).Some?)
            && (0 < n && n in canon ==> s[canon[n]].parent == canon[n - 1])
  {
    LinkedToGenesis(s, g, h, s[h].number);
    if n <= s[h].number { LinkedWalk(s, g, h, s[h].number, n); }
    if 0 < n <= s[h].number { WalkStep(s, h, s[h].number, n - 1); }
  }

  // ------------------------------------------------------------------ the walk

  /** A walk that has to pass through a missing header finds nothing below it. */
  lemma WalkThroughMissing(s: Store, h: Hash, number: nat, m: nat, n: nat)
    requires n < m <= number && ZERO_HASH !in s
    requires Get(s, Walk(s, h, number, m), m).None?
    ensures Walk(s, h, number, n) == ZERO_HASH
  {
    WalkCompose(s, h, number, m, n);
  }

  /** A walk that reaches a linked header is itself linked. */
  lemma {:induction false} LinkedFrom(s: Store, g: Hash, h: Hash, number: nat, n: nat)
    requires n <= number && ZERO_HASH !in s && Linked(s, g, Walk(s, h, number, n), n)
    ensures Linked(s, g, h, number)
    decreases number
  {
    if number > n { LinkedFrom(s, g, s[h].parent, number - 1, n); }
  }

  /** A larger store leaves linked walks, and the sums along them, alone. */
  lemma {:induction false} LinkedMonotone(s: Store, s': Store, g: Hash, h: Hash, number: nat)
    requires Linked(s, g, h, number)
    requires forall k | k in s :: k in s' && s'[k] == s[k]
    ensures Linked(s', g, h, number)
    ensures TotalDifficulty(s', h, number) == TotalDifficulty(s, h, number)
    ensures forall n: nat | n <= number :: Walk(s', h, number, n) == Walk(s, h, number, n)
    decreases number
  {
    if number > 0 { LinkedMonotone(s, s', g, s[h].parent, number - 1); }
  }

  /** If two walks meet at a height they agree below it. */
  lemma WalksAgreeBelow(s: Store, a: Hash, na: nat, b: Hash, nb: nat, m: nat, n: nat)
    requires n <= m <= na && m <= nb && ZERO_HASH !in s
    requires Walk(s, a, na, m) == Walk(s, b, nb, m)
    ensures Walk(s, a, na, n) == Walk(s, b, nb, n)
  {
    WalkCompose(s, a, na, m, n);
    WalkCompose(s, b, nb, m, n);
  }

  /** The index of a header stored on the walk is the restriction of the head's index. */
  lemma CanonOfAncestor(s: Store, h: Hash, m: nat)
    requires WellKeyed(s) && h in s && m <= s[h].number
    requires Get(s, Walk(s, h, s[h].number, m), m).Some?
    ensures var a := Walk(s, h, s[h].number, m);
            CanonOf(s, a) == map n: nat | 0 <= n <= m :: CanonOf(s, h)[n]
  {
    var a := Walk(s, h, s[h].number, m);
    forall n: nat | n <= m ensures CanonOf(s, a)[n] == CanonOf(s, h)[n] {
      WalkCompose(s, h, s[h].number, m, n);
    }
  }

  /** Adding a header whose parent is known keeps the store closed. */
  lemma ClosedAdd(s: Store, g: Hash, b: Header)
    requires Closed(s, g)
    requires b.hash != ZERO_HASH && b.number > 0
    requires b.hash in s ==> s[b.hash] == b
    requires Get(s, b.parent, b.number - 1).Some?
    ensures Closed(s[b.hash := b], g)
    ensures forall h | h in s :: Td(s[b.hash := b], h) == Td(s, h) && CanonOf(s[b.hash := b], h) == CanonOf(s, h)
    ensures Td(s[b.hash := b], b.hash) == b.difficulty + Td(s, b.parent)
  {
    var s' := s[b.hash := b];
    forall h | h in s
      ensures LinkedHead(s', g, h) && Td(s', h) == Td(s, h) && CanonOf(s', h) == CanonOf(s, h)
    {
      LinkedMonotone(s, s', g, h, s[h].number);
    }
    assert LinkedHead(s', g, b.parent);
  }
}
