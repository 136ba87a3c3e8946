/** Fast ancestor lookups: GetAncestor (core/headerchain.go) jumps along the canonical index once a walk
    has reached it, GetHashFn (core/evm.go) caches a growing prefix of ancestor hashes.  Both are proved
    equal to the plain parent walk. */
module Ancestors {
  import opened Basics
  import opened BlockTree

  /** A store whose hashes are real ones, with the canonical index of a complete chain. */
  ghost predicate Indexed(s: Store, canon: map<nat, Hash>, g: Hash, head: Hash) {
    && WellKeyed(s) && (forall k | k in s && s[k].number > 0 :: s[k].parent != ZERO_HASH)
    && LinkedHead(s, g, head) && canon == CanonOf(s, head)
  }

  /** How many of the first `ancestor` steps down from `(h, number)`, counting from step `j`, start at
      a header that is not canonical. */
  ghost function Stretch(s: Store, canon: map<nat, Hash>, h: Hash, number: nat, ancestor: nat, j: nat): nat
    requires j <= ancestor <= number
    decreases ancestor - j
  {
    if j == ancestor || ReadCanon(canon, number - j) == Walk(s, h, number, number - j) then j
    else Stretch(s, canon, h, number, ancestor, j + 1)
  }

  /** The step, counting from step `j`, in which a missing header is found out, or `ancestor` if all are there. */
  ghost function Gap(s: Store, h: Hash, number: nat, ancestor: nat, j: nat): nat
    requires j <= ancestor <= number
    decreases ancestor - j
  {
    if j == ancestor then j
    else if Get(s, Walk(s, h, number, number - j), number - j).None? then j + 1
    else Gap(s, h, number, ancestor, j + 1)
  }

  lemma {:induction false} StretchBound(s: Store, canon: map<nat, Hash>, h: Hash, number: nat, ancestor: nat, j: nat)
    requires j <= ancestor <= number
    ensures j <= Stretch(s, canon, h, number, ancestor, j) <= ancestor
    ensures j <= Gap(s, h, number, ancestor, j) <= ancestor && (j < ancestor ==> j < Gap(s, h, number, ancestor, j))
    decreases ancestor - j
  {
    if j < ancestor { StretchBound(s, canon, h, number, ancestor, j + 1); }
  }

  /** What GetAncestor answers: the walk's hash, nothing if the budget does not reach, and what the index says if the
      zero hash is taken for a canonical one. */
  ghost function AncestorAnswer(s: Store, canon: map<nat, Hash>, hash: Hash, number: nat, ancestor: nat,
                                budget: nat): Hash {
    if ancestor > number then ZERO_HASH
    else if ancestor == 1 then Walk(s, hash, number, number - 1)
    else if hash == ZERO_HASH && number !in canon && ancestor > 1 then ReadCanon(canon, number - ancestor)
    else if Stretch(s, canon, hash, number, ancestor, 0) <= budget then Walk(s, hash, number, number - ancestor)
    else ZERO_HASH
  }

  /** What is left of the budget: the steps to the canonical chain, or to the first missing header, are paid for. */
  ghost function BudgetLeft(s: Store, canon: map<nat, Hash>, hash: Hash, number: nat, ancestor: nat, budget: nat): nat {
    if ancestor > number || ancestor == 1 then budget
    else budget - Min(budget, Min(Stretch(s, canon, hash, number, ancestor, 0), Gap(s, hash, number, ancestor, 0)))
  }

  /** The `j`-th ancestor is the one asked for, or canonical. */
  ghost predicate Landed(s: Store, canon: map<nat, Hash>, hash: Hash, number: nat, ancestor: nat, j: nat) {
    j <= ancestor <= number && (j == ancestor || ReadCanon(canon, number - j) == Walk(s, hash, number, number - j))
  }

  ghost predicate FirstLanding(s: Store, canon: map<nat, Hash>, hash: Hash, number: nat, ancestor: nat, j: nat) {
    && Landed(s, canon, hash, number, ancestor, j)
    && forall i: nat | i < j :: !Landed(s, canon, hash, number, ancestor, i)
  }

  /** Some ancestor within the budget is the one asked for, or canonical. */
  ghost predicate WithinBudget(s: Store, canon: map<nat, Hash>, hash: Hash, number: nat, ancestor: nat, budget: nat) {
    exists j: nat | j <= budget :: Landed(s, canon, hash, number, ancestor, j)
  }

  lemma {:induction false} StretchIsFirst(s: Store, canon: map<nat, Hash>, hash: Hash, number: nat, ancestor: nat,
                                          j: nat)
    requires j <= ancestor <= number
    ensures Landed(s, canon, hash, number, ancestor, Stretch(s, canon, hash, number, ancestor, j))
    ensures forall i: nat | j <= i < Stretch(s, canon, hash, number, ancestor, j) ::
              !Landed(s, canon, hash, number, ancestor, i)
    decreases ancestor - j
  {
    if !Landed(s, canon, hash, number, ancestor, j) { StretchIsFirst(s, canon, hash, number, ancestor, j + 1); }
    StretchBound(s, canon, hash, number, ancestor, j);
  }

  /** The answer in plain terms: for a real hash, the walk's ancestor if the parent is asked for or the walk lands
      within the budget, and nothing otherwise. */
  lemma AnswerIs(s: Store, canon: map<nat, Hash>, hash: Hash, number: nat, ancestor: nat, budget: nat)
    requires hash != ZERO_HASH
    ensures AncestorAnswer(s, canon, hash, number, ancestor, budget)
         == if ancestor <= number && (ancestor == 1 || WithinBudget(s, canon, hash, number, ancestor, budget))
            then Walk(s, hash, number, number - ancestor) else ZERO_HASH
  {
    if ancestor <= number {
      StretchIsFirst(s, canon, hash, number, ancestor, 0);
      StretchBound(s, canon, hash, number, ancestor, 0);
    }
  }

  lemma {:induction false} NoGap(s: Store, hash: Hash, number: nat, ancestor: nat, j: nat)
    requires j <= ancestor <= number && ZERO_HASH !in s && Walk(s, hash, number, number - ancestor) != ZERO_HASH
    ensures Gap(s, hash, number, ancestor, j) == ancestor
    decreases ancestor - j
  {
    if j < ancestor {
      if Get(s, Walk(s, hash, number, number - j), number - j).None? {
        WalkThroughMissing(s, hash, number, number - j, number - ancestor);
      }
      NoGap(s, hash, number, ancestor, j + 1);
    }
  }

  /** What a found ancestor costs: the number of steps to the first ancestor that is canonical or the one asked for, and
      nothing for a parent. */
  lemma CostIs(s: Store, canon: map<nat, Hash>, hash: Hash, number: nat, ancestor: nat, budget: nat)
    requires ancestor <= number && ZERO_HASH !in s && hash != ZERO_HASH
    requires Walk(s, hash, number, number - ancestor) != ZERO_HASH
    requires ancestor != 1 && WithinBudget(s, canon, hash, number, ancestor, budget)
    ensures var cost := budget - BudgetLeft(s, canon, hash, number, ancestor, budget);
            0 <= cost <= budget && FirstLanding(s, canon, hash, number, ancestor, cost)
  {
    StretchIsFirst(s, canon, hash, number, ancestor, 0);
    StretchBound(s, canon, hash, number, ancestor, 0);
    NoGap(s, hash, number, ancestor, 0);
  }

  /** A hash that is not the true ancestor's is answered if and only if the zero hash is asked for above the head and
      the index reaches the height in question; the parent shortcut and the identity are never wrong. */
  lemma WrongAnswerIff(s: Store, canon: map<nat, Hash>, g: Hash, head: Hash, hash: Hash, number: nat, ancestor: nat,
                       budget: nat)
    requires Indexed(s, canon, g, head) && ancestor <= number
    ensures var answer := AncestorAnswer(s, canon, hash, number, ancestor, budget);
            (answer != ZERO_HASH && answer != Walk(s, hash, number, number - ancestor))
            <==> hash == ZERO_HASH && number > s[head].number && 1 < ancestor && number - ancestor <= s[head].number
    ensures var answer := AncestorAnswer(s, canon, hash, number, ancestor, budget);
            (answer == ZERO_HASH && Walk(s, hash, number, number - ancestor) != ZERO_HASH)
            <==> && Walk(s, hash, number, number - ancestor) != ZERO_HASH
                 && ancestor != 1 && !WithinBudget(s, canon, hash, number, ancestor, budget)
  {
    if hash != ZERO_HASH {
      AnswerIs(s, canon, hash, number, ancestor, budget);
    } else {
      assert Walk(s, hash, number, number - ancestor) == ZERO_HASH;
    }
    if hash == ZERO_HASH && 1 < ancestor && number - ancestor <= s[head].number {
      LinkedWalk(s, g, head, s[head].number, number - ancestor);
    }
  }

  /** Asked for the second ancestor of the zero hash at height 2 above a head at height 1, it answers with genesis. */
  lemma ZeroHashAnswered()
    ensures var s: Store := map[1 := Header(1, 0, 0, 1, 0, 0), 2 := Header(2, 1, 1, 1, 0, 0)];
            && Indexed(s, map[0 := 1, 1 := 2], 1, 2)
            && AncestorAnswer(s, map[0 := 1, 1 := 2], ZERO_HASH, 2, 2, 0) == 1
            && Walk(s, ZERO_HASH, 2, 0) == ZERO_HASH
  {
    var s: Store := map[1 := Header(1, 0, 0, 1, 0, 0), 2 := Header(2, 1, 1, 1, 0, 0)];
    assert Linked(s, 1, 1, 0) && Walk(s, 2, 1, 0) == 1;
    assert CanonOf(s, 2) == map[0 := 1, 1 := 2];
  }

  /** From a canonical header the index and the walk find the same ancestor. */
  lemma CanonicalJump(s: Store, canon: map<nat, Hash>, g: Hash, head: Hash, h: Hash, number: nat, n: nat)
    requires Indexed(s, canon, g, head) && n <= number && h != ZERO_HASH && ReadCanon(canon, number) == h
    ensures n in canon && canon[n] == Walk(s, h, number, n)
  {
    WalkCompose(s, head, s[head].number, number, n);
  }

  /** The index holds real hashes only. */
  lemma IndexedHash(s: Store, canon: map<nat, Hash>, g: Hash, head: Hash, n: nat)
    requires Indexed(s, canon, g, head)
    ensures n in canon <==> ReadCanon(canon, n) != ZERO_HASH
  {
    if n in canon { LinkedWalk(s, g, head, s[head].number, n); }
  }

  /** `j` steps down, all from headers that are there and not canonical, have led to `h`. */
  ghost predicate Climbed(s: Store, canon: map<nat, Hash>, hash: Hash, number: nat, ancestor: nat, j: nat, h: Hash) {
    && j <= ancestor <= number && h == Walk(s, hash, number, number - j)
    && (j > 0 ==> h != ZERO_HASH && hash != ZERO_HASH)
    && Stretch(s, canon, hash, number, ancestor, 0) == Stretch(s, canon, hash, number, ancestor, j)
    && Gap(s, hash, number, ancestor, 0) == Gap(s, hash, number, ancestor, j)
  }

  /** From a canonical header, or the zero hash taken for one, the answer is the index's. */
  lemma OnCanonical(s: Store, canon: map<nat, Hash>, g: Hash, head: Hash, hash: Hash, number: nat, ancestor: nat,
                    budget: nat, j: nat, h: Hash)
    requires Indexed(s, canon, g, head) && Climbed(s, canon, hash, number, ancestor, j, h) && ancestor != 1
    requires j < ancestor && j <= budget && ReadCanon(canon, number - j) == h
    ensures AncestorAnswer(s, canon, hash, number, ancestor, budget) == ReadCanon(canon, number - ancestor)
    ensures BudgetLeft(s, canon, hash, number, ancestor, budget) == budget - j
  {
    StretchBound(s, canon, hash, number, ancestor, j);
    IndexedHash(s, canon, g, head, number - j);
    if h != ZERO_HASH {
      CanonicalJump(s, canon, g, head, h, number - j, number - ancestor);
      WalkCompose(s, hash, number, number - j, number - ancestor);
    }
  }

  /** From any other hash, the answer is nothing without budget or header, and the climb goes on otherwise. */
  lemma OffCanonical(s: Store, canon: map<nat, Hash>, g: Hash, head: Hash, hash: Hash, number: nat, ancestor: nat,
                     budget: nat, j: nat, h: Hash)
    requires Indexed(s, canon, g, head) && Climbed(s, canon, hash, number, ancestor, j, h) && ancestor != 1
    requires j < ancestor && j <= budget && ReadCanon(canon, number - j) != h
    ensures j == budget || Get(s, h, number - j).None? ==>
      && AncestorAnswer(s, canon, hash, number, ancestor, budget) == ZERO_HASH
      && BudgetLeft(s, canon, hash, number, ancestor, budget) == if j == budget then 0 else budget - j - 1
    ensures j < budget && Get(s, h, number - j).Some? ==> Climbed(s, canon, hash, number, ancestor, j + 1, s[h].parent)
  {
    StretchBound(s, canon, hash, number, ancestor, j);
    StretchBound(s, canon, hash, number, ancestor, j + 1);
    WalkStep(s, hash, number, number - j - 1);
    if Get(s, h, number - j).None? { WalkThroughMissing(s, hash, number, number - j, number - ancestor); }
  }

  /** The loop of GetAncestor: jumps along the index as soon as it is on the canonical chain. */
  method JumpOrWalk(s: Store, canon: map<nat, Hash>, hash: Hash, number: nat, ancestor: nat, maxNonCanonical: nat,
                    ghost g: Hash, ghost head: Hash)
    returns (h: Hash, n: nat, left: nat)
    requires Indexed(s, canon, g, head) && ancestor <= number && ancestor != 1
    ensures h == AncestorAnswer(s, canon, hash, number, ancestor, maxNonCanonical)
    ensures left == BudgetLeft(s, canon, hash, number, ancestor, maxNonCanonical)
    ensures h != ZERO_HASH ==> n == number - ancestor
  {
    left := maxNonCanonical;
    var rest: nat := ancestor;
    h, n := hash, number;
    ghost var j := 0;
    while rest != 0
      invariant j + rest == ancestor && n == number - j && j <= maxNonCanonical && left == maxNonCanonical - j
      invariant Climbed(s, canon, hash, number, ancestor, j, h)
    {
      if ReadCanon(canon, n) == h {
        OnCanonical(s, canon, g, head, hash, number, ancestor, maxNonCanonical, j, h);
        return ReadCanon(canon, n - rest), n - rest, left;
      }
      OffCanonical(s, canon, g, head, hash, number, ancestor, maxNonCanonical, j, h);
      if left == 0 { return ZERO_HASH, 0, left; }
      left := left - 1;
      rest := rest - 1;
      var header := Get(s, h, n);
      if header.None? { return ZERO_HASH, 0, left; }
      h, n, j := header.value.parent, n - 1, j + 1;
    }
    StretchBound(s, canon, hash, number, ancestor, j);
  }

  /** The `ancestor`-th ancestor, for every hash, real or not. */
  method GetAncestor(s: Store, canon: map<nat, Hash>, hash: Hash, number: nat, ancestor: nat, maxNonCanonical: nat,
                     ghost g: Hash, ghost head: Hash)
    returns (h: Hash, n: nat, left: nat)
    requires Indexed(s, canon, g, head)
    ensures h == AncestorAnswer(s, canon, hash, number, ancestor, maxNonCanonical)
    ensures left == BudgetLeft(s, canon, hash, number, ancestor, maxNonCanonical)
    ensures h != ZERO_HASH ==> n == number - ancestor
    ensures hash != ZERO_HASH ==>
      h == if ancestor <= number && (ancestor == 1 || WithinBudget(s, canon, hash, number, ancestor, maxNonCanonical))
           then Walk(s, hash, number, number - ancestor) else ZERO_HASH
    ensures ancestor == 1 && Get(s, hash, number).Some? && number > 0 ==>
      h == s[hash].parent && n == number - 1 && left == maxNonCanonical
    ensures hash != ZERO_HASH && h != ZERO_HASH && ancestor != 1 ==>
      FirstLanding(s, canon, hash, number, ancestor, maxNonCanonical - left)
  {
    if hash != ZERO_HASH { AnswerIs(s, canon, hash, number, ancestor, maxNonCanonical); }
    left := maxNonCanonical;
    if ancestor > number { return ZERO_HASH, 0, left; }
    if ancestor == 1 {
      WalkStep(s, hash, number, number - 1);
      var header := Get(s, hash, number);
      if header.Some? { return header.value.parent, number - 1, left; }
      return ZERO_HASH, 0, left;
    }
    h, n, left := JumpOrWalk(s, canon, hash, number, ancestor, maxNonCanonical, g, head);
    if hash != ZERO_HASH && h != ZERO_HASH { CostIs(s, canon, hash, number, ancestor, maxNonCanonical); }
  }

  // -------------------------------------------------------------- cached lookups

  /** The hash at height `n` below `ref` by a plain walk; nothing at or above `ref`. */
  ghost function Answer(s: Store, ref: Header, n: nat): Hash {
    if ref.number <= n then ZERO_HASH else Walk(s, ref.parent, ref.number - 1, n)
  }

  /** Headers stored between queries do not invalidate the cache. */
  lemma {:induction false} AnswersPersist(s: Store, s': Store, h: Hash, number: nat, n: nat)
    requires n <= number && (forall k | k in s :: k in s' && s'[k] == s[k])
    requires Walk(s, h, number, n) != ZERO_HASH
    ensures Walk(s', h, number, n) == Walk(s, h, number, n)
    decreases number
  {
    if n < number { AnswersPersist(s, s', s[h].parent, number - 1, n); }
  }

  ghost predicate Real(s: Store) {
    ZERO_HASH !in s && forall k | k in s && s[k].number > 0 :: s[k].parent != ZERO_HASH
  }

  ghost predicate Extends(s: Store, s': Store) {
    forall k | k in s :: k in s' && s'[k] == s[k]
  }

  /** The closure GetHashFn returns, with its captured cache. */
  class HashLookup {
    const ref: Header
    var cache: seq<Hash>

    constructor (ref: Header)
      ensures this.ref == ref && cache == []
    {
      this.ref, cache := ref, [];
    }

    /** The cache holds the hashes of a prefix of the ancestors of `ref`, nearest first. */
    ghost predicate Valid(s: Store)
      reads this
    {
      && |cache| <= ref.number
      && forall i | 0 <= i < |cache| :: cache[i] == Answer(s, ref, ref.number - 1 - i) && cache[i] != ZERO_HASH
    }

    /** Answers one query: whatever was asked before and in whatever order, the result is that of the
        uncached walk, and the cache only grows. */
    method GetHash(s: Store, n: nat) returns (h: Hash)
      requires ZERO_HASH !in s && (ref.number > 0 ==> ref.parent != ZERO_HASH)
      requires forall k | k in s && s[k].number > 0 :: s[k].parent != ZERO_HASH
      requires Valid(s)
      modifies this
      ensures Valid(s) && old(cache) <= cache
      ensures h == Answer(s, ref, n)
    {
      if ref.number <= n { return ZERO_HASH; }
      if |cache| == 0 { cache := [ref.parent]; }
      var idx := ref.number - n - 1;
      if idx < |cache| { return cache[idx]; }
      var lastKnownHash, lastKnownNumber := cache[|cache| - 1], ref.number - |cache|;
      while true
        invariant Valid(s) && old(cache) <= cache && 0 < |cache| <= idx
        invariant lastKnownNumber == ref.number - |cache| && lastKnownHash == cache[|cache| - 1]
        decreases lastKnownNumber
      {
        // The header read here is above height n, so it is never the genesis header.
        var header := Get(s, lastKnownHash, lastKnownNumber);
        if header.None? {
          WalkThroughMissing(s, ref.parent, ref.number - 1, lastKnownNumber, n);
          return ZERO_HASH;
        }
        WalkStep(s, ref.parent, ref.number - 1, lastKnownNumber - 1);
        cache := cache + [header.value.parent];
        lastKnownHash := header.value.parent;
        lastKnownNumber := header.value.number - 1;
        if n == lastKnownNumber { return lastKnownHash; }
      }
    }
  }

  /** Any sequence of queries against a growing store: every answer is that of the uncached walk in the
      store of its time. */
  method AnswerAll(f: HashLookup, stores: seq<Store>, queries: seq<nat>) returns (answers: seq<Hash>)
    requires |stores| == |queries| && f.cache == [] && (f.ref.number > 0 ==> f.ref.parent != ZERO_HASH)
    requires forall i | 0 <= i < |stores| :: Real(stores[i])
    requires forall i | 0 < i < |stores| :: Extends(stores[i - 1], stores[i])
    modifies f
    ensures |answers| == |queries|
    ensures forall i | 0 <= i < |queries| :: answers[i] == Answer(stores[i], f.ref, queries[i])
  {
    answers := [];
    var i := 0;
    while i < |queries|
      invariant 0 <= i <= |queries| && |answers| == i
      invariant i > 0 ==> f.Valid(stores[i - 1])
      invariant i == 0 ==> f.cache == []
      invariant forall k | 0 <= k < i :: answers[k] == Answer(stores[k], f.ref, queries[k])
    {
      if i > 0 {
        assert Extends(stores[i - 1], stores[i]);
        forall k | 0 <= k < |f.cache| ensures f.cache[k] == Answer(stores[i], f.ref, f.ref.number - 1 - k) {
          assert f.cache[k] == Answer(stores[i - 1], f.ref, f.ref.number - 1 - k);
          AnswersPersist(stores[i - 1], stores[i], f.ref.parent, f.ref.number - 1, f.ref.number - 1 - k);
        }
      }
      var h := f.GetHash(stores[i], queries[i]);
      answers := answers + [h];
      i := i + 1;
    }
  }
}
