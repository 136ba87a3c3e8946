/** The chain indexer (core/chain_indexer.go) as a concurrent state machine: sections are processed with
    the lock released, while the chain underneath may change arbitrarily, and are re-validated before they
    are stored.  Without checkpoints and child indexers. */
module ChainIndexer {
  import opened Basics
  import opened BlockTree

  /** The first block number of a section. */
  function SectionStart(size: nat, section: nat): nat {
    section * size
  }

  /** The last block number of a section. */
  function SectionEnd(size: nat, section: nat): int {
    SectionStart(size, section + 1) - 1
  }

  /** `h` is a header of the universe at number `n`. */
  ghost predicate At(u: Store, h: Hash, n: int) {
    h != ZERO_HASH && Get(u, h, n).Some?
  }

  /** `low` at number `n` is the ancestor of `high` at number `m`. */
  ghost predicate Descends(u: Store, high: Hash, m: int, low: Hash, n: int) {
    0 <= n <= m && Walk(u, high, m, n) == low
  }

  /** Each stored section head ends its section, and is the `size`-th ancestor of the next one. */
  ghost predicate HeadsChained(u: Store, size: nat, stored: nat, heads: map<nat, Hash>) {
    && size > 0
    && (forall i: nat :: i in heads <==> i < stored)
    && (forall i: nat | i < stored :: At(u, heads[i], SectionEnd(size, i)))
    && (forall i: nat, j: nat | i < stored && j < stored && i == j + 1 ::
          Descends(u, heads[i], SectionEnd(size, i), heads[j], SectionEnd(size, j)))
  }

  lemma SectionStartNext(size: nat, i: nat)
    ensures SectionStart(size, i + 1) == SectionStart(size, i) + size
  {
  }

  lemma {:induction false} SectionStartMonotone(size: nat, i: nat, j: nat)
    requires i <= j && size > 0
    ensures SectionStart(size, i) <= SectionStart(size, j)
    ensures i < j ==> SectionStart(size, i) < SectionStart(size, j)
    decreases j
  {
    if i < j {
      SectionStartMonotone(size, i, j - 1);
      SectionStartNext(size, j - 1);
    }
  }

  lemma SectionEndMonotone(size: nat, i: nat, j: nat)
    requires i <= j && size > 0
    ensures 0 <= SectionEnd(size, i) <= SectionEnd(size, j)
    ensures i < j ==> SectionEnd(size, i) < SectionEnd(size, j)
    ensures SectionEnd(size, i) + 1 == (i + 1) * size
  {
    SectionStartMonotone(size, 0, i + 1);
    SectionStartMonotone(size, i + 1, j + 1);
  }

  /** Every stored section head is the `k`-sections-back ancestor of every later one. */
  lemma {:induction false} HeadsDescend(u: Store, size: nat, stored: nat, heads: map<nat, Hash>, i: nat, j: nat)
    requires HeadsChained(u, size, stored, heads) && i <= j < stored && ZERO_HASH !in u
    ensures Descends(u, heads[j], SectionEnd(size, j), heads[i], SectionEnd(size, i))
    decreases j
  {
    SectionEndMonotone(size, i, j);
    if i < j {
      HeadsDescend(u, size, stored, heads, i, j - 1);
      SectionEndMonotone(size, i, j - 1);
      SectionEndMonotone(size, j - 1, j);
      WalkCompose(u, heads[j], SectionEnd(size, j), SectionEnd(size, j - 1), SectionEnd(size, i));
    }
  }

  // ------------------------------------------------------------- verifyLastHead

  /** How many sections survive: the longest prefix whose last head is canonical. */
  function VerifiedCount(canon: map<nat, Hash>, size: nat, heads: map<nat, Hash>, stored: nat): (k: nat)
    requires forall i: nat | i < stored :: i in heads
    ensures k <= stored
    ensures k > 0 ==> heads[k - 1] == ReadCanon(canon, SectionEnd(size, k - 1))
  {
    if stored == 0 || heads[stored - 1] == ReadCanon(canon, SectionEnd(size, stored - 1)) then stored
    else VerifiedCount(canon, size, heads, stored - 1)
  }

  /** No dropped head was canonical. */
  lemma {:induction false} DroppedNotCanonical(canon: map<nat, Hash>, size: nat, heads: map<nat, Hash>, stored: nat)
    requires forall i: nat | i < stored :: i in heads
    ensures forall i: nat | VerifiedCount(canon, size, heads, stored) <= i < stored ::
              heads[i] != ReadCanon(canon, SectionEnd(size, i))
  {
    if stored > 0 { DroppedNotCanonical(canon, size, heads, stored - 1); }
  }

  lemma {:induction false} LastCanonical(canon: map<nat, Hash>, size: nat, heads: map<nat, Hash>, stored: nat, k: nat)
    requires (forall i: nat | i < stored :: i in heads) && k <= stored
    requires k > 0 ==> heads[k - 1] == ReadCanon(canon, SectionEnd(size, k - 1))
    requires forall i: nat | k <= i < stored :: heads[i] != ReadCanon(canon, SectionEnd(size, i))
    ensures VerifiedCount(canon, size, heads, stored) == k
  {
    if k < stored { LastCanonical(canon, size, heads, stored - 1, k); }
  }

  /** Of the heads, those below `k` are kept as `heads'`, and none of the others was canonical. */
  ghost predicate Trimmed(canon: map<nat, Hash>, size: nat, heads: map<nat, Hash>, stored: nat, heads': map<nat, Hash>,
                          k: nat) {
    && k <= stored && (forall i: nat | i < stored :: i in heads)
    && (forall i: nat | i < k :: i in heads' && heads'[i] == heads[i])
    && (forall i: nat | k <= i < stored :: heads[i] != ReadCanon(canon, SectionEnd(size, i)))
  }

  lemma TrimmedMore(canon: map<nat, Hash>, size: nat, heads: map<nat, Hash>, stored: nat, heads': map<nat, Hash>,
                    heads'': map<nat, Hash>, k: nat)
    requires 0 < k && Trimmed(canon, size, heads, stored, heads', k)
    requires heads'[k - 1] != ReadCanon(canon, SectionEnd(size, k - 1))
    requires forall i: nat | i < k - 1 :: i in heads'' && heads''[i] == heads'[i]
    ensures Trimmed(canon, size, heads, stored, heads'', k - 1)
  {
  }

  lemma TrimmedCount(canon: map<nat, Hash>, size: nat, heads: map<nat, Hash>, stored: nat, heads': map<nat, Hash>,
                     k: nat)
    requires Trimmed(canon, size, heads, stored, heads', k)
    requires k > 0 ==> heads'[k - 1] == ReadCanon(canon, SectionEnd(size, k - 1))
    ensures VerifiedCount(canon, size, heads, stored) == k == VerifiedCount(canon, size, heads', k)
  {
    LastCanonical(canon, size, heads, stored, k);
    LastCanonical(canon, size, heads', k, k);
  }

  /** The canonical index is the walk of some chain, as it is whenever no reorganisation is under way. */
  ghost predicate CanonIsWalk(u: Store, canon: map<nat, Hash>) {
    exists head | head in u :: canon == CanonOf(u, head)
  }

  ghost predicate AllCanonical(canon: map<nat, Hash>, size: nat, stored: nat, heads: map<nat, Hash>)
    requires forall i: nat | i < stored :: i in heads
  {
    forall i: nat | i < stored :: heads[i] == ReadCanon(canon, SectionEnd(size, i))
  }

  ghost predicate DescendsAt(u: Store, canon: map<nat, Hash>, size: nat, stored: nat, i: nat)
    requires size > 0 && i < stored
  {
    SectionEndMonotone(size, i, stored - 1);
    var last := SectionEnd(size, stored - 1);
    ReadCanon(canon, SectionEnd(size, i)) == Walk(u, ReadCanon(canon, last), last, SectionEnd(size, i))
  }

  /** Below the last stored section, the canonical index has at every section end what the walk from the last one
      finds. */
  ghost predicate IndexDescends(u: Store, canon: map<nat, Hash>, size: nat, stored: nat)
    requires size > 0
  {
    forall i: nat | i + 1 < stored :: DescendsAt(u, canon, size, stored, i)
  }

  /** Once the last stored head is canonical, all of them are if and only if the canonical index descends from it. */
  lemma VerifiedAllCanonical(u: Store, canon: map<nat, Hash>, size: nat, stored: nat, heads: map<nat, Hash>)
    requires WellKeyed(u) && HeadsChained(u, size, stored, heads) && VerifiedCount(canon, size, heads, stored) == stored
    ensures AllCanonical(canon, size, stored, heads) <==> IndexDescends(u, canon, size, stored)
  {
    forall i: nat | i < stored
      ensures heads[i] == ReadCanon(canon, SectionEnd(size, i)) <==>
              i + 1 == stored || DescendsAt(u, canon, size, stored, i)
    {
      HeadsDescend(u, size, stored, heads, i, stored - 1);
    }
  }

  /** The walk of a chain descends, so then checking only the last head verifies all of them. */
  lemma WalkIndexDescends(u: Store, canon: map<nat, Hash>, size: nat, stored: nat, heads: map<nat, Hash>)
    requires WellKeyed(u) && HeadsChained(u, size, stored, heads) && VerifiedCount(canon, size, heads, stored) == stored
    requires CanonIsWalk(u, canon)
    ensures IndexDescends(u, canon, size, stored)
  {
    var head :| head in u && canon == CanonOf(u, head);
    forall i: nat | i + 1 < stored ensures DescendsAt(u, canon, size, stored, i) {
      SectionEndMonotone(size, i, stored - 1);
      WalkCompose(u, head, u[head].number, SectionEnd(size, stored - 1), SectionEnd(size, i));
    }
  }

  /** A chain 1, 2, 3 and a heavier one 1, 4, 5. */
  ghost function ForkedStore(): Store {
    map[1 := Header(1, 0, 0, 1, 0, 0), 2 := Header(2, 1, 1, 1, 0, 0), 3 := Header(3, 2, 2, 1, 0, 0),
        4 := Header(4, 1, 1, 2, 0, 0), 5 := Header(5, 4, 2, 2, 0, 0)]
  }

  lemma ForkWalks()
    ensures var u := ForkedStore();
            && Closed(u, 1) && At(u, 1, 0) && At(u, 2, 1) && At(u, 3, 2)
            && Descends(u, 2, 1, 1, 0) && Descends(u, 3, 2, 2, 1)
            && CanonOf(u, 3) == map[0 := 1, 1 := 2, 2 := 3] && CanonOf(u, 5)[1] == 4
  {
    var u := ForkedStore();
    assert Linked(u, 1, 1, 0);
    assert Linked(u, 1, 2, 1) && Linked(u, 1, 4, 1);
    assert Walk(u, 2, 1, 0) == 1;
    assert Walk(u, 3, 2, 0) == Walk(u, 2, 1, 0);
  }

  lemma ForkHeads(u: Store)
    requires At(u, 1, 0) && At(u, 2, 1) && At(u, 3, 2) && Descends(u, 2, 1, 1, 0) && Descends(u, 3, 2, 2, 1)
    ensures HeadsChained(u, 1, 3, map[0 := 1, 1 := 2, 2 := 3])
  {
    var heads: map<nat, Hash> := map[0 := 1, 1 := 2, 2 := 3];
    forall i: nat, j: nat | i < 3 && j < 3 && i == j + 1
      ensures Descends(u, heads[i], SectionEnd(1, i), heads[j], SectionEnd(1, j))
    {
      assert j == 0 || j == 1;
    }
  }

  lemma LastHeadMatches()
    ensures VerifiedCount(map[0 := 1, 1 := 4, 2 := 3], 1, map[0 := 1, 1 := 2, 2 := 3], 3) == 3
  {
  }

  /** While the writes of a reorganisation ascend, the index is new below and still old above.  It then passes the check
      although a lower section is no longer canonical: blocks 1, 2, 3 are being replaced by 1, 4 and its descendants,
      and the entry of height 2 is still that of block 3. */
  lemma HalfRewrittenIndexPasses()
    ensures var canon: map<nat, Hash> := map[0 := 1, 1 := 4, 2 := 3];
            var heads: map<nat, Hash> := map[0 := 1, 1 := 2, 2 := 3];
            && Closed(ForkedStore(), 1) && HeadsChained(ForkedStore(), 1, 3, heads)
            && canon == CanonOf(ForkedStore(), 3)[1 := CanonOf(ForkedStore(), 5)[1]]
            && VerifiedCount(canon, 1, heads, 3) == 3
            && heads[1] != ReadCanon(canon, SectionEnd(1, 1))
  {
    ForkWalks();
    ForkHeads(ForkedStore());
    LastHeadMatches();
  }

  // ---------------------------------------------------------- the state machine

  /** A section being processed with the lock released. */
  datatype Job =
    | Idle
    | Processing(section: nat, oldHead: Hash, number: nat, lastHead: Hash)
    | Failed(section: nat)

  /** The headers fed to the backend so far hang off the recorded old head. */
  ghost predicate JobOk(u: Store, size: nat, stored: nat, job: Job) {
    match job
    case Idle => true
    case Failed(section) => stored <= section
    case Processing(section, oldHead, number, lastHead) =>
      && stored <= section
      && SectionStart(size, section) <= number <= SectionStart(size, section + 1)
      && (section == 0 ==> oldHead == ZERO_HASH)
      && (section > 0 ==> At(u, oldHead, SectionEnd(size, section - 1)))
      && (number == SectionStart(size, section) ==> lastHead == oldHead)
      && (number > SectionStart(size, section) ==> At(u, lastHead, number - 1))
      && (number > SectionStart(size, section) && section > 0 ==>
            Descends(u, lastHead, number - 1, oldHead, SectionEnd(size, section - 1)))
  }

  datatype Event =
    | ChainChanges(canon: map<nat, Hash>, available: Store)
    | NewHead(head: nat, reorg: bool)
    | Begin
    | Process(fails: bool)
    | ResetFails
    | Finish(commitFails: bool)
    | Query

  /** How many sections are known after a notification: none above a reorganisation, else all with their
      confirmations. */
  function KnownAfter(size: nat, confirms: nat, known: nat, head: nat, reorg: bool): nat
    requires size > 0
  {
    if reorg then Min(known, (head + 1) / size)
    else if head < confirms then known
    else Max(known, (head + 1 - confirms) / size)
  }

  function StoredAfter(size: nat, stored: nat, head: nat, reorg: bool): nat
    requires size > 0
  {
    if reorg then Min(stored, (head + 1) / size) else stored
  }

  lemma TimesMonotone(a: nat, b: nat, size: nat)
    requires a <= b
    ensures a * size <= b * size
  {
  }

  /** A number of sections fits a block count exactly if its blocks do. */
  lemma FitIff(size: nat, count: nat, n: nat)
    requires size > 0
    ensures n <= count / size <==> n * size <= count
  {
    var q := count / size;
    assert q * size <= count < q * size + size;
    if n <= q {
      TimesMonotone(n, q, size);
    } else {
      TimesMonotone(q + 1, n, size);
      assert (q + 1) * size == q * size + size;
    }
  }

  /** Exactly these sections are known after a notification: at a reorganisation those known before that end at or below
      its point, otherwise those known before and all whose last block has its confirmations. */
  lemma KnownIff(size: nat, confirms: nat, known: nat, head: nat, reorg: bool, i: nat)
    requires size > 0
    ensures i < KnownAfter(size, confirms, known, head, reorg) <==>
            if reorg then i < known && (i + 1) * size <= head + 1
            else i < known || (i + 1) * size + confirms <= head + 1
  {
    FitIff(size, head + 1, i + 1);
    if head >= confirms { FitIff(size, head + 1 - confirms, i + 1); } else { assert (i + 1) * size >= size; }
  }

  /** A reorganisation drops exactly the stored sections that end above its point. */
  lemma StoredIff(size: nat, stored: nat, head: nat, reorg: bool, i: nat)
    requires size > 0
    ensures i < StoredAfter(size, stored, head, reorg) <==> i < stored && (reorg ==> (i + 1) * size <= head + 1)
  {
    FitIff(size, head + 1, i + 1);
  }

  /** The indexer together with the chain database it reads. */
  datatype State = State(canon: map<nat, Hash>, available: Store, stored: nat, known: nat, cascaded: int,
                         heads: map<nat, Hash>, job: Job)

  /** The heads of the first `n` sections. */
  function Kept(heads: map<nat, Hash>, n: nat): map<nat, Hash> {
    map i | i in heads && i < n :: heads[i]
  }

  lemma KeptIs(heads: map<nat, Hash>, n: nat, heads': map<nat, Hash>)
    requires forall i: nat :: i in heads' <==> i < n
    requires forall i: nat | i < n :: i in heads && heads'[i] == heads[i]
    ensures heads' == Kept(heads, n)
  {
  }

  ghost predicate Complete(heads: map<nat, Hash>, stored: nat) {
    forall i: nat | i < stored :: i in heads
  }

  /** Sections are dropped from the end until the last one is canonical. */
  ghost function Dropped(st: State, size: nat): State {
    if !Complete(st.heads, st.stored) then st else
      var n := VerifiedCount(st.canon, size, st.heads, st.stored);
      st.(stored := n, heads := Kept(st.heads, n))
  }

  lemma IsDropped(st: State, st': State, size: nat)
    requires Complete(st.heads, st.stored) && st'.stored == VerifiedCount(st.canon, size, st.heads, st.stored)
    requires forall i: nat :: i in st'.heads <==> i < st'.stored
    requires forall i: nat | i < st'.stored :: st'.heads[i] == st.heads[i]
    ensures st.(stored := st'.stored, heads := st'.heads) == Dropped(st, size)
  {
    KeptIs(st.heads, st'.stored, st'.heads);
  }

  /** The next section is taken up on top of the last one. */
  ghost function Begun(st: State, size: nat): State {
    var oldHead := ReadCanon(st.heads, st.stored - 1);
    st.(job := Processing(st.stored, oldHead, SectionStart(size, st.stored), oldHead))
  }

  /** The next block of the section is processed if it is there, continues the last one and the backend takes it. */
  ghost function Advanced(st: State, fails: bool): Job
    requires st.job.Processing?
  {
    var hash := ReadCanon(st.canon, st.job.number);
    var header := Get(st.available, hash, st.job.number);
    if hash != ZERO_HASH && header.Some? && header.value.parent == st.job.lastHead && !fails
    then st.job.(number := st.job.number + 1, lastHead := hash) else Failed(st.job.section)
  }

  /** The section was processed to its end and the head it was built on is still stored. */
  ghost predicate Storable(job: Job, heads: map<nat, Hash>) {
    job.Processing? && (job.section == 0 || job.oldHead == ReadCanon(heads, job.section - 1))
  }

  ghost function StoredNext(st: State, size: nat): State
    requires st.job.Processing?
  {
    var section := st.job.section;
    st.(stored := section + 1, heads := st.heads[section := st.job.lastHead], cascaded := SectionEnd(size, section),
        job := Idle)
  }

  /** The meaning of an event; one that cannot happen in a state means nothing. */
  ghost function Next(st: State, e: Event, size: nat, confirms: nat): State
    requires size > 0
  {
    match e
    case ChainChanges(canon, available) => st.(canon := canon, available := available)
    case NewHead(head, reorg) =>
      var stored, end := StoredAfter(size, st.stored, head, reorg), (head + 1) / size * size;
      st.(known := KnownAfter(size, confirms, st.known, head, reorg), stored := stored, heads := Kept(st.heads, stored),
          cascaded := if reorg && end < st.cascaded then end else st.cascaded)
    case Begin => if st.job.Idle? && st.known > st.stored then Begun(Dropped(st, size), size) else st
    case Process(fails) =>
      if st.job.Processing? && st.job.number < SectionStart(size, st.job.section + 1)
      then st.(job := Advanced(st, fails)) else st
    case ResetFails =>
      if st.job.Processing? && st.job.number == SectionStart(size, st.job.section)
      then st.(stored := 0, heads := map[], job := Failed(st.job.section)) else st
    case Finish(commitFails) =>
      if !(st.job.Failed? || (st.job.Processing? && st.job.number == SectionStart(size, st.job.section + 1))) then st
      else if Storable(st.job, st.heads) && !commitFails then StoredNext(st, size)
      else var d := Dropped(st, size); d.(known := d.stored, job := Idle)
    case Query => Dropped(st, size)
  }

  /** `st'` is `st` with the heads that verify. */
  ghost predicate Verified(st: State, st': State, size: nat) {
    && Complete(st.heads, st.stored) && st'.stored == VerifiedCount(st.canon, size, st.heads, st.stored)
    && (forall i: nat :: i in st'.heads <==> i < st'.stored)
    && (forall i: nat | i < st'.stored :: st'.heads[i] == st.heads[i])
  }

  lemma IsBegun(st: State, st': State, size: nat, confirms: nat)
    requires size > 0 && Verified(st, st', size) && st.job.Idle? && st.known > st.stored
    requires var oldHead := ReadCanon(st'.heads, st'.stored - 1);
             st' == st.(stored := st'.stored, heads := st'.heads,
                        job := Processing(st'.stored, oldHead, SectionStart(size, st'.stored), oldHead))
    ensures st' == Next(st, Begin, size, confirms)
  {
    IsDropped(st, st', size);
  }

  lemma IsStored(st: State, st': State, size: nat, confirms: nat)
    requires size > 0 && Storable(st.job, st.heads) && st.job.number == SectionStart(size, st.job.section + 1)
    requires var section := st.job.section;
             st' == st.(stored := section + 1, heads := st.heads[section := st.job.lastHead],
                        cascaded := SectionEnd(size, section), job := Idle)
    ensures st' == Next(st, Finish(false), size, confirms)
  {
  }

  lemma IsAbandoned(st: State, st': State, size: nat, confirms: nat, commitFails: bool)
    requires size > 0 && Verified(st, st', size)
    requires st' == st.(stored := st'.stored, heads := st'.heads, known := st'.stored, job := Idle)
    requires st.job.Failed? || (st.job.Processing? && st.job.number == SectionStart(size, st.job.section + 1))
    requires !(Storable(st.job, st.heads) && !commitFails)
    ensures st' == Next(st, Finish(commitFails), size, confirms)
  {
    IsDropped(st, st', size);
  }

  ghost function NextOf(size: nat, confirms: nat): (State, Event) -> State
    requires size > 0
  {
    (st, e) => Next(st, e, size, confirms)
  }

  /** The state after some events. */
  ghost function NextAll(st: State, events: seq<Event>, size: nat, confirms: nat): State
    requires size > 0
  {
    Fold(NextOf(size, confirms), st, events)
  }

  /** A query drops the last sections, down to one whose head is canonical, and nothing else. */
  lemma QueryDrops(st: State, size: nat, confirms: nat, i: nat)
    requires size > 0 && Complete(st.heads, st.stored)
    ensures var q := Next(st, Query, size, confirms);
            && q.stored <= st.stored && q == st.(stored := q.stored, heads := q.heads)
            && (i < q.stored ==> i in q.heads && q.heads[i] == st.heads[i])
            && (i + 1 == q.stored ==> q.heads[i] == ReadCanon(st.canon, SectionEnd(size, i)))
            && (q.stored <= i < st.stored ==> st.heads[i] != ReadCanon(st.canon, SectionEnd(size, i)))
  {
    DroppedNotCanonical(st.canon, size, st.heads, st.stored);
  }

  /** If the backend cannot be reset for a section, all sections are forgotten and have to be found again. */
  lemma StartsOver(st: State, size: nat, confirms: nat, commitFails: bool)
    requires size > 0 && st.job.Processing? && st.job.number == SectionStart(size, st.job.section)
    ensures var st' := NextAll(st, [ResetFails, Finish(commitFails)], size, confirms);
            st' == st.(stored := 0, heads := map[], known := 0, job := Idle)
  {
    var f, reset := NextOf(size, confirms), Next(st, ResetFails, size, confirms);
    assert reset == st.(stored := 0, heads := map[], job := Failed(st.job.section));
    assert Next(reset, Finish(commitFails), size, confirms).heads == map[];
    FoldNext(f, st, [], ResetFails);
    FoldNext(f, st, [ResetFails], Finish(commitFails));
    assert [] + [ResetFails] == [ResetFails];
    assert [ResetFails] + [Finish(commitFails)] == [ResetFails, Finish(commitFails)];
  }

  // ------------------------------------------------------------------- progress

  /** The first `n` canonical headers are there and linked. */
  ghost predicate Readable(canon: map<nat, Hash>, available: Store, n: nat) {
    forall k: nat | k < n ::
      && ReadCanon(canon, k) != ZERO_HASH && Get(available, ReadCanon(canon, k), k).Some?
      && available[ReadCanon(canon, k)].parent == ReadCanon(canon, k - 1)
  }

  /** The events of one undisturbed section. */
  ghost function Undisturbed(size: nat): seq<Event> {
    [Begin] + seq(size, _ => Process(false)) + [Finish(false)]
  }

  /** Nothing is being processed, and the stored heads are those of the first sections, the last one canonical. */
  ghost predicate Settled(st: State, size: nat) {
    && st.job.Idle? && (forall i: nat :: i in st.heads <==> i < st.stored)
    && (st.stored > 0 ==> st.heads[st.stored - 1] == ReadCanon(st.canon, SectionEnd(size, st.stored - 1)))
  }

  /** The next section is in progress, with `j` blocks processed. */
  ghost function InProgress(st: State, size: nat, j: nat): State {
    var start := SectionStart(size, st.stored);
    st.(job := Processing(st.stored, ReadCanon(st.canon, start - 1), start + j, ReadCanon(st.canon, start + j - 1)))
  }

  lemma TakenUp(st: State, size: nat, confirms: nat)
    requires size > 0 && Settled(st, size) && st.known > st.stored
    ensures Next(st, Begin, size, confirms) == InProgress(st, size, 0)
  {
    KeptIs(st.heads, st.stored, st.heads);
    assert st.stored > 0 ==> SectionEnd(size, st.stored - 1) == SectionStart(size, st.stored) - 1;
  }

  lemma BlockProcessed(st: State, size: nat, confirms: nat, j: nat)
    requires size > 0 && j < size && Readable(st.canon, st.available, SectionStart(size, st.stored) + j + 1)
    ensures Next(InProgress(st, size, j), Process(false), size, confirms) == InProgress(st, size, j + 1)
  {
    SectionStartNext(size, st.stored);
  }

  lemma {:induction false} BlocksProcessed(st: State, size: nat, confirms: nat, j: nat)
    requires size > 0 && j <= size && Readable(st.canon, st.available, SectionStart(size, st.stored) + j)
    ensures NextAll(InProgress(st, size, 0), seq(j, _ => Process(false)), size, confirms) == InProgress(st, size, j)
  {
    if j > 0 {
      BlocksProcessed(st, size, confirms, j - 1);
      assert seq(j, _ => Process(false)) == seq(j - 1, _ => Process(false)) + [Process(false)];
      FoldNext(NextOf(size, confirms), InProgress(st, size, 0), seq(j - 1, _ => Process(false)), Process(false));
      BlockProcessed(st, size, confirms, j - 1);
    }
  }

  /** The state with one more section. */
  ghost function OneMore(st: State, size: nat): State {
    st.(stored := st.stored + 1, cascaded := SectionEnd(size, st.stored),
        heads := st.heads[st.stored := ReadCanon(st.canon, SectionEnd(size, st.stored))])
  }

  lemma Concluded(st: State, size: nat, confirms: nat)
    requires size > 0 && Settled(st, size)
    ensures Next(InProgress(st, size, size), Finish(false), size, confirms) == OneMore(st, size)
  {
    SectionStartNext(size, st.stored);
    assert st.stored > 0 ==> SectionEnd(size, st.stored - 1) == SectionStart(size, st.stored) - 1;
  }

  lemma ThreeParts(st: State, blocks: seq<Event>, size: nat, confirms: nat)
    requires size > 0
    ensures NextAll(st, [Begin] + blocks + [Finish(false)], size, confirms)
         == Next(NextAll(Next(st, Begin, size, confirms), blocks, size, confirms), Finish(false), size, confirms)
  {
    var f := NextOf(size, confirms);
    FoldNext(f, st, [Begin] + blocks, Finish(false));
    FoldConcat(f, st, [Begin], blocks);
    assert [Begin] == [] + [Begin];
    FoldNext(f, st, [], Begin);
  }

  /** On a chain that stays put, the next missing section is taken up, processed and stored with its canonical head. */
  lemma SectionIndexed(st: State, size: nat, confirms: nat)
    requires size > 0 && Settled(st, size) && st.known > st.stored
    requires Readable(st.canon, st.available, SectionStart(size, st.stored + 1))
    ensures NextAll(st, Undisturbed(size), size, confirms) == OneMore(st, size)
  {
    ThreeParts(st, seq(size, _ => Process(false)), size, confirms);
    TakenUp(st, size, confirms);
    SectionStartNext(size, st.stored);
    BlocksProcessed(st, size, confirms, size);
    Concluded(st, size, confirms);
  }

  ghost function Rounds(size: nat, n: nat): seq<Event> {
    if n == 0 then [] else Rounds(size, n - 1) + Undisturbed(size)
  }

  /** `st'` is `st` with `n` more sections, all with their canonical heads. */
  ghost predicate Grown(st: State, st': State, size: nat, n: nat) {
    && st'.stored == st.stored + n && st' == st.(stored := st'.stored, heads := st'.heads, cascaded := st'.cascaded)
    && (forall i: nat | i < st.stored && i in st.heads :: i in st'.heads && st'.heads[i] == st.heads[i])
    && (forall i: nat | st.stored <= i < st'.stored ::
          i in st'.heads && st'.heads[i] == ReadCanon(st.canon, SectionEnd(size, i)))
  }

  lemma GrownMore(st: State, st': State, size: nat, n: nat)
    requires Settled(st', size) && Grown(st, st', size, n)
    ensures Settled(OneMore(st', size), size) && Grown(st, OneMore(st', size), size, n + 1)
  {
  }

  /** The next section is known and can be read. */
  ghost predicate Ready(st: State, size: nat) {
    && Settled(st, size) && st.known > st.stored
    && Readable(st.canon, st.available, SectionStart(size, st.stored + 1))
  }

  ghost predicate AddsSection(f: (State, Event) -> State, size: nat) {
    forall st | Ready(st, size) :: Fold(f, st, Undisturbed(size)) == OneMore(st, size)
  }

  lemma RepeatedOnce(f: (State, Event) -> State, st: State, st': State, size: nat, n: nat)
    requires AddsSection(f, size) && Settled(st', size) && Grown(st, st', size, n) && st.stored + n < st.known
    requires Readable(st.canon, st.available, SectionStart(size, st.stored + n + 1))
    ensures var more := Fold(f, st', Undisturbed(size)); Settled(more, size) && Grown(st, more, size, n + 1)
  {
    assert Ready(st', size);
    GrownMore(st, st', size, n);
  }

  lemma ReadableBelow(st: State, size: nat, n: nat, m: nat)
    requires size > 0 && n <= m && Readable(st.canon, st.available, SectionStart(size, m))
    ensures Readable(st.canon, st.available, SectionStart(size, n))
  {
    SectionStartMonotone(size, n, m);
  }

  lemma RepeatedMore(f: (State, Event) -> State, st: State, size: nat, n: nat, m: nat)
    requires AddsSection(f, size) && m == n + 1 && st.stored + m <= st.known
    requires Readable(st.canon, st.available, SectionStart(size, st.stored + m))
    requires var st' := Fold(f, st, Rounds(size, n)); Settled(st', size) && Grown(st, st', size, n)
    ensures var st' := Fold(f, st, Rounds(size, m)); Settled(st', size) && Grown(st, st', size, m)
  {
    FoldConcat(f, st, Rounds(size, n), Undisturbed(size));
    RepeatedOnce(f, st, Fold(f, st, Rounds(size, n)), size, n);
  }

  /** Whatever adds one section to a settled state adds `n` when repeated. */
  lemma {:induction false} Repeated(f: (State, Event) -> State, st: State, size: nat, n: nat)
    requires size > 0 && AddsSection(f, size) && Settled(st, size) && st.stored + n <= st.known
    requires Readable(st.canon, st.available, SectionStart(size, st.stored + n))
    ensures var st' := Fold(f, st, Rounds(size, n)); Settled(st', size) && Grown(st, st', size, n)
  {
    if n > 0 {
      var last := n - 1;
      ReadableBelow(st, size, st.stored + last, st.stored + n);
      Repeated(f, st, size, last);
      RepeatedMore(f, st, size, last, n);
    }
  }

  /** So on a chain that stays put every known section gets stored, one after the other, with its canonical head. */
  lemma AllIndexed(st: State, size: nat, confirms: nat, n: nat)
    requires size > 0 && Settled(st, size) && st.stored + n <= st.known
    requires Readable(st.canon, st.available, SectionStart(size, st.stored + n))
    ensures var st' := NextAll(st, Rounds(size, n), size, confirms); Settled(st', size) && Grown(st, st', size, n)
  {
    forall s | Ready(s, size) ensures Fold(NextOf(size, confirms), s, Undisturbed(size)) == OneMore(s, size) {
      SectionIndexed(s, size, confirms);
    }
    Repeated(NextOf(size, confirms), st, size, n);
  }

  lemma JobStarts(u: Store, size: nat, stored: nat, heads: map<nat, Hash>)
    requires HeadsChained(u, size, stored, heads)
    ensures var oldHead := if stored > 0 then ReadCanon(heads, stored - 1) else ZERO_HASH;
            JobOk(u, size, stored, Processing(stored, oldHead, SectionStart(size, stored), oldHead))
  {
    assert SectionStart(size, stored) <= SectionStart(size, stored + 1);
  }

  /** A header on top of the last one still hangs off the old head. */
  lemma Continues(u: Store, size: nat, section: nat, oldHead: Hash, number: nat, lastHead: Hash, header: Header)
    requires WellKeyed(u) && size > 0 && section > 0 && SectionStart(size, section) <= number
    requires number == SectionStart(size, section) ==> lastHead == oldHead
    requires number > SectionStart(size, section) ==>
               Descends(u, lastHead, number - 1, oldHead, SectionEnd(size, section - 1))
    requires Get(u, header.hash, number) == Some(header) && header.parent == lastHead
    ensures Descends(u, header.hash, number, oldHead, SectionEnd(size, section - 1))
  {
    SectionEndMonotone(size, section - 1, section - 1);
    WalkCompose(u, header.hash, number, number - 1, SectionEnd(size, section - 1));
  }

  /** A finished section whose predecessor is unchanged extends the chain of section heads. */
  lemma AppendHead(u: Store, size: nat, stored: nat, heads: map<nat, Hash>, job: Job)
    requires HeadsChained(u, size, stored, heads) && job.Processing? && JobOk(u, size, stored, job)
    requires job.number == SectionStart(size, job.section + 1)
    requires job.section == 0 || job.oldHead == ReadCanon(heads, job.section - 1)
    ensures stored == job.section && HeadsChained(u, size, stored + 1, heads[stored := job.lastHead])
  {
    assert SectionStart(size, job.section) < job.number;
  }

  /** As many whole sections as fit below a block count end below it. */
  lemma SectionsFit(size: nat, count: int, sections: nat)
    requires size > 0 && count >= 0 && sections <= count / size
    ensures sections > 0 ==> SectionEnd(size, sections - 1) < count
  {
    assert sections * size <= (count / size) * size <= count;
  }

  class ChainIndexer {
    const sectionSize: nat
    const confirmsReq: nat
    /** Every header that can ever be read; its parent links are fixed by the hashes. */
    ghost const universe: Store

    // The chain database, which belongs to somebody else.
    var canon: map<nat, Hash>
    var available: Store

    var storedSections: nat
    var knownSections: nat
    var cascadedHead: int
    var sectionHeads: map<nat, Hash>
    var job: Job

    ghost predicate Valid()
      reads this
    {
      && WellKeyed(universe) && (forall h | h in available :: h in universe && universe[h] == available[h])
      && HeadsChained(universe, sectionSize, storedSections, sectionHeads)
      && JobOk(universe, sectionSize, storedSections, job)
    }

    ghost function Now(): State
      reads this
    {
      State(canon, available, storedSections, knownSections, cascadedHead, sectionHeads, job)
    }

    constructor (size: nat, confirms: nat, ghost u: Store)
      requires size > 0 && WellKeyed(u)
      ensures Valid() && sectionSize == size && confirmsReq == confirms && universe == u
      ensures storedSections == knownSections == 0 && job == Idle
    {
      sectionSize, confirmsReq, universe := size, confirms, u;
      canon, available := map[], map[];
      storedSections, knownSections, cascadedHead, sectionHeads, job := 0, 0, 0, map[], Idle;
    }

    function SectionHead(section: int): Hash
      reads this
    {
      ReadCanon(sectionHeads, section)
    }

    /** Sets the number of valid sections, removing the heads of the ones that are no longer valid. */
    method SetValidSections(sections: nat)
      requires forall i: nat | i in sectionHeads :: i < storedSections || i < sections
      modifies this`storedSections, this`sectionHeads
      ensures storedSections == sections
      ensures sectionHeads == Kept(old(sectionHeads), sections)
    {
      while storedSections > sections
        invariant forall i: nat | i in sectionHeads :: i < storedSections || i < sections
        invariant sectionHeads ==
                  map i | i in old(sectionHeads) && (i < storedSections || i < sections) :: old(sectionHeads)[i]
        invariant storedSections <= old(storedSections)
        decreases storedSections
      {
        storedSections := storedSections - 1;
        sectionHeads := sectionHeads - {storedSections};
      }
      storedSections := sections;
    }

    /** Rolling back keeps every invariant. */
    method RollBack(sections: nat)
      requires Valid() && sections <= storedSections
      modifies this`storedSections, this`sectionHeads
      ensures Valid() && storedSections == sections
      ensures forall i: nat | i < sections :: sectionHeads[i] == old(sectionHeads)[i]
    {
      SetValidSections(sections);
    }

    method DropReorged()
      requires Valid()
      modifies this`storedSections, this`sectionHeads
      ensures Valid()
      ensures storedSections == VerifiedCount(canon, sectionSize, old(sectionHeads), old(storedSections))
      ensures storedSections == VerifiedCount(canon, sectionSize, sectionHeads, storedSections)
      ensures forall i: nat | i < storedSections :: sectionHeads[i] == old(sectionHeads)[i]
    {
      while storedSections > 0
          && SectionHead(storedSections - 1) != ReadCanon(canon, SectionEnd(sectionSize, storedSections - 1))
        invariant Valid()
        invariant Trimmed(canon, sectionSize, old(sectionHeads), old(storedSections), sectionHeads, storedSections)
        decreases storedSections
      {
        ghost var heads := sectionHeads;
        RollBack(storedSections - 1);
        TrimmedMore(canon, sectionSize, old(sectionHeads), old(storedSections), heads, sectionHeads,
                    storedSections + 1);
      }
      TrimmedCount(canon, sectionSize, old(sectionHeads), old(storedSections), sectionHeads, storedSections);
    }

    /** Drops sections until the last stored head is canonical; every dropped head was not.  Every stored head is
        canonical afterwards if and only if the canonical index descends from the last one, as it does if it is a
        chain's walk. */
    method VerifyLastHead()
      requires Valid()
      modifies this`storedSections, this`sectionHeads
      ensures Valid()
      ensures storedSections == VerifiedCount(canon, sectionSize, old(sectionHeads), old(storedSections))
      ensures forall i: nat | i < storedSections :: sectionHeads[i] == old(sectionHeads)[i]
      ensures AllCanonical(canon, sectionSize, storedSections, sectionHeads)
         <==> IndexDescends(universe, canon, sectionSize, storedSections)
      ensures CanonIsWalk(universe, canon) ==> AllCanonical(canon, sectionSize, storedSections, sectionHeads)
    {
      DropReorged();
      VerifiedAllCanonical(universe, canon, sectionSize, storedSections, sectionHeads);
      if CanonIsWalk(universe, canon) { WalkIndexDescends(universe, canon, sectionSize, storedSections, sectionHeads); }
    }

    method OnReorg(head: nat)
      requires Valid()
      modifies this`knownSections, this`storedSections, this`sectionHeads, this`cascadedHead
      ensures Valid()
      ensures knownSections == KnownAfter(sectionSize, confirmsReq, old(knownSections), head, true)
              && storedSections == StoredAfter(sectionSize, old(storedSections), head, true)
      ensures forall i: nat | i < storedSections :: i in old(sectionHeads) && sectionHeads[i] == old(sectionHeads)[i]
      ensures knownSections > 0 ==> SectionEnd(sectionSize, knownSections - 1) <= head
      ensures storedSections > 0 ==> SectionEnd(sectionSize, storedSections - 1) <= head
      ensures var end := (head + 1) / sectionSize * sectionSize;
              cascadedHead == if end < old(cascadedHead) then end else old(cascadedHead)
    {
      var known := (head + 1) / sectionSize;
      SectionsFit(sectionSize, head + 1, Min(known, knownSections));
      SectionsFit(sectionSize, head + 1, Min(known, storedSections));
      if known < knownSections { knownSections := known; }
      if known < storedSections { RollBack(known); }
      if known * sectionSize < cascadedHead { cascadedHead := known * sectionSize; }
    }

    /** A head notification.  After a reorganisation down to block `head`, nothing above it counts as known
        or stored; otherwise a section becomes known once it has its confirmations. */
    method OnNewHead(head: nat, reorg: bool)
      requires Valid()
      modifies this`knownSections, this`storedSections, this`sectionHeads, this`cascadedHead
      ensures Valid()
      ensures forall i: nat | i < storedSections :: i in old(sectionHeads) && sectionHeads[i] == old(sectionHeads)[i]
      ensures knownSections == KnownAfter(sectionSize, confirmsReq, old(knownSections), head, reorg)
              && storedSections == StoredAfter(sectionSize, old(storedSections), head, reorg)
      ensures reorg && knownSections > 0 ==> SectionEnd(sectionSize, knownSections - 1) <= head
      ensures reorg && storedSections > 0 ==> SectionEnd(sectionSize, storedSections - 1) <= head
      ensures !reorg ==> storedSections == old(storedSections) && knownSections >= old(knownSections)
      ensures !reorg && knownSections > old(knownSections) ==>
                SectionEnd(sectionSize, knownSections - 1) + confirmsReq <= head
      ensures !reorg && head >= confirmsReq ==> SectionEnd(sectionSize, knownSections) + confirmsReq > head
      ensures reorg && knownSections < old(knownSections) ==> SectionEnd(sectionSize, knownSections) > head
      ensures reorg && storedSections < old(storedSections) ==> SectionEnd(sectionSize, storedSections) > head
      ensures var end := (head + 1) / sectionSize * sectionSize;
              cascadedHead == if reorg && end < old(cascadedHead) then end else old(cascadedHead)
    {
      KnownIff(sectionSize, confirmsReq, knownSections, head, reorg,
               KnownAfter(sectionSize, confirmsReq, knownSections, head, reorg));
      StoredIff(sectionSize, storedSections, head, reorg, StoredAfter(sectionSize, storedSections, head, reorg));
      if reorg {
        OnReorg(head);
      } else if head >= confirmsReq {
        var sections := (head + 1 - confirmsReq) / sectionSize;
        SectionsFit(sectionSize, head + 1 - confirmsReq, sections);
        if sections > knownSections { knownSections := sections; }
      }
    }

    method TakeUp()
      requires Valid()
      modifies this`job
      ensures Valid()
      ensures var oldHead := if storedSections > 0 then sectionHeads[storedSections - 1] else ZERO_HASH;
              job == Processing(storedSections, oldHead, SectionStart(sectionSize, storedSections), oldHead)
    {
      var oldHead := if storedSections > 0 then SectionHead(storedSections - 1) else ZERO_HASH;
      JobStarts(universe, sectionSize, storedSections, sectionHeads);
      job := Processing(storedSections, oldHead, SectionStart(sectionSize, storedSections), oldHead);
    }

    /** Under the lock: re-validates the stored sections and picks the next one to process. */
    method BeginSection()
      requires Valid() && job.Idle?
      modifies this`storedSections, this`sectionHeads, this`job
      ensures Valid()
      ensures old(knownSections <= storedSections) ==> unchanged(this)
      ensures old(knownSections > storedSections) ==>
        && storedSections == VerifiedCount(canon, sectionSize, old(sectionHeads), old(storedSections))
        && var oldHead := if storedSections > 0 then sectionHeads[storedSections - 1] else ZERO_HASH;
           job == Processing(storedSections, oldHead, SectionStart(sectionSize, storedSections), oldHead)
      ensures forall i: nat | i < storedSections :: i in old(sectionHeads) && sectionHeads[i] == old(sectionHeads)[i]
    {
      if knownSections > storedSections {
        DropReorged();
        TakeUp();
      }
    }

    /** Without the lock: reads the next canonical header and requires it to continue the last one. */
    method ProcessBlock(backendFails: bool)
      requires Valid() && job.Processing? && job.number < SectionStart(sectionSize, job.section + 1)
      modifies this`job
      ensures Valid()
      ensures var hash := ReadCanon(canon, old(job).number);
              var header := Get(available, hash, old(job).number);
              job == if hash != ZERO_HASH && header.Some? && header.value.parent == old(job).lastHead && !backendFails
                     then old(job).(number := old(job).number + 1, lastHead := hash)
                     else Failed(old(job).section)
    {
      var Processing(section, oldHead, number, lastHead) := job;
      var hash := ReadCanon(canon, number);
      if hash == ZERO_HASH { job := Failed(section); return; }
      var header := Get(available, hash, number);
      if header.None? || header.value.parent != lastHead || backendFails { job := Failed(section); return; }
      if section > 0 { Continues(universe, sectionSize, section, oldHead, number, lastHead, header.value); }
      job := Processing(section, oldHead, number + 1, header.value.hash);
    }

    /** Without the lock: the backend could not be reset, which throws all sections away. */
    method ResetFailed()
      requires Valid() && job.Processing? && job.number == SectionStart(sectionSize, job.section)
      modifies this`storedSections, this`sectionHeads, this`job
      ensures Valid() && job == Failed(old(job).section) && storedSections == 0 && sectionHeads == map[]
    {
      RollBack(0);
      job := Failed(job.section);
      assert sectionHeads == map[];
    }

    /** The section is given up until further notification. */
    method Abandon()
      requires Valid()
      modifies this`knownSections, this`storedSections, this`sectionHeads, this`job
      ensures Valid() && job == Idle
      ensures knownSections == storedSections
      ensures storedSections == VerifiedCount(canon, sectionSize, old(sectionHeads), old(storedSections))
      ensures forall i: nat | i < storedSections :: sectionHeads[i] == old(sectionHeads)[i]
    {
      DropReorged();
      knownSections, job := storedSections, Idle;
    }

    method StoreSection()
      requires Valid() && job.Processing? && job.number == SectionStart(sectionSize, job.section + 1)
      requires job.section == 0 || job.oldHead == SectionHead(job.section - 1)
      modifies this`storedSections, this`sectionHeads, this`cascadedHead, this`job
      ensures Valid() && job == Idle
      ensures old(job).section == old(storedSections) && storedSections == old(storedSections) + 1
      ensures sectionHeads == old(sectionHeads)[old(job).section := old(job).lastHead]
      ensures cascadedHead == SectionEnd(sectionSize, old(job).section)
    {
      var Processing(section, oldHead, number, lastHead) := job;
      AppendHead(universe, sectionSize, storedSections, sectionHeads, job);
      sectionHeads := sectionHeads[section := lastHead];
      job := Idle;
      SetValidSections(section + 1);
      cascadedHead := storedSections * sectionSize - 1;
      assert sectionHeads == old(sectionHeads)[section := lastHead];
    }

    /** Under the lock again: the section is stored exactly if its predecessor is still the one it was built on. */
    method FinishSection(commitFails: bool)
      requires Valid() && !job.Idle? && (job.Processing? ==> job.number == SectionStart(sectionSize, job.section + 1))
      modifies this`knownSections, this`storedSections, this`sectionHeads, this`cascadedHead, this`job
      ensures Valid() && job == Idle
      ensures old(Storable(job, sectionHeads)) <==>
        old(job).Processing? && (old(job).section == 0 || old(job).oldHead == old(SectionHead(job.section - 1)))
      ensures old(Storable(job, sectionHeads)) && !commitFails ==>
        && old(job).section == old(storedSections) && storedSections == old(storedSections) + 1
        && sectionHeads == old(sectionHeads)[old(job).section := old(job).lastHead]
        && knownSections == old(knownSections) && cascadedHead == SectionEnd(sectionSize, old(job).section)
      ensures !(old(Storable(job, sectionHeads)) && !commitFails) ==>
        && storedSections == VerifiedCount(canon, sectionSize, old(sectionHeads), old(storedSections)) == knownSections
        && cascadedHead == old(cascadedHead)
        && forall i: nat | i < storedSections :: sectionHeads[i] == old(sectionHeads)[i]
    {
      if job.Processing? && !commitFails && (job.section == 0 || job.oldHead == SectionHead(job.section - 1)) {
        StoreSection();
      } else {
        Abandon();
      }
    }

    method HandleNewHead(head: nat, reorg: bool)
      requires Valid()
      modifies this`knownSections, this`storedSections, this`sectionHeads, this`cascadedHead
      ensures Valid() && Now() == Next(old(Now()), NewHead(head, reorg), sectionSize, confirmsReq)
    {
      OnNewHead(head, reorg);
      KeptIs(old(sectionHeads), storedSections, sectionHeads);
    }

    method HandleProcess(fails: bool)
      requires Valid() && job.Processing? && job.number < SectionStart(sectionSize, job.section + 1)
      modifies this`job
      ensures Valid() && Now() == Next(old(Now()), Process(fails), sectionSize, confirmsReq)
    {
      ProcessBlock(fails);
    }

    method HandleQuery()
      requires Valid()
      modifies this`storedSections, this`sectionHeads
      ensures Valid() && Now() == Dropped(old(Now()), sectionSize)
    {
      VerifyLastHead();
      IsDropped(old(Now()), Now(), sectionSize);
    }

    method HandleBegin()
      requires Valid() && job.Idle?
      modifies this`storedSections, this`sectionHeads, this`job
      ensures Valid() && Now() == Next(old(Now()), Begin, sectionSize, confirmsReq)
    {
      ghost var st := Now();
      BeginSection();
      if st.known > st.stored { IsBegun(st, Now(), sectionSize, confirmsReq); }
    }

    method HandleFinish(commitFails: bool)
      requires Valid() && !job.Idle? && (job.Processing? ==> job.number == SectionStart(sectionSize, job.section + 1))
      modifies this`knownSections, this`storedSections, this`sectionHeads, this`cascadedHead, this`job
      ensures Valid() && Now() == Next(old(Now()), Finish(commitFails), sectionSize, confirmsReq)
    {
      ghost var st := Now();
      FinishSection(commitFails);
      if !Storable(st.job, st.heads) || commitFails {
        IsAbandoned(st, Now(), sectionSize, confirmsReq, commitFails);
      } else {
        IsStored(st, Now(), sectionSize, confirmsReq);
      }
    }

    /** One event. */
    method Handle(e: Event)
      requires Valid()
      requires e.ChainChanges? ==> forall h | h in e.available :: h in universe && universe[h] == e.available[h]
      modifies this
      ensures Valid() && Now() == Next(old(Now()), e, sectionSize, confirmsReq)
    {
      match e
      case ChainChanges(c, a) => canon, available := c, a;
      case NewHead(h, reorg) => HandleNewHead(h, reorg);
      case Begin => if job.Idle? { HandleBegin(); }
      case Process(fails) =>
        if job.Processing? && job.number < SectionStart(sectionSize, job.section + 1) { HandleProcess(fails); }
      case ResetFails => if job.Processing? && job.number == SectionStart(sectionSize, job.section) { ResetFailed(); }
      case Finish(commitFails) =>
        if job.Failed? || (job.Processing? && job.number == SectionStart(sectionSize, job.section + 1)) {
          HandleFinish(commitFails);
        }
      case Query => HandleQuery();
    }

    /** Any interleaving of notifications, processing steps, queries and arbitrary changes of the chain database has
        exactly the meaning of its events, and keeps each stored head an ancestor of the next. */
    method Run(events: seq<Event>)
      requires Valid()
      requires forall e | e in events && e.ChainChanges? ::
                 forall h | h in e.available :: h in universe && universe[h] == e.available[h]
      modifies this
      ensures Valid() && Now() == NextAll(old(Now()), events, sectionSize, confirmsReq)
    {
      ghost var start := Now();
      for n := 0 to |events|
        invariant Valid() && Now() == NextAll(start, events[..n], sectionSize, confirmsReq)
      {
        assert events[n] in events;
        Handle(events[n]);
        assert events[..n + 1][..n] == events[..n];
      }
      assert events[..|events|] == events;
    }
  }
}
