/** The header chain (core/headerchain.go): batched header imports, batched canonical
    rewrites and ancestor lookups. */
module HeaderChain {
  import opened Basics
  import opened BlockTree
  import opened ForkChoice

  /** A big integer is a mutable heap object, so sharing one is observable. */
  class BigInt {
    var v: nat

    constructor (v: nat)
      ensures this.v == v
    {
      this.v := v;
    }

    method Add(x: nat)
      modifies this
      ensures v == old(v) + x
    {
      v := v + x;
    }
  }

  // ------------------------------------------------------- database and batches

  datatype Disk = Disk(headers: Store, tds: map<Hash, nat>, canon: map<nat, Hash>, head: Hash)

  datatype Write =
    | PutTd(hash: Hash, td: nat)
    | PutHeader(header: Header)
    | PutCanon(number: nat, hash: Hash)
    | DelCanon(number: nat)
    | PutHead(hash: Hash)

  function Apply(d: Disk, w: Write): Disk {
    match w
    case PutTd(h, td) => d.(tds := d.tds[h := td])
    case PutHeader(b) => d.(headers := d.headers[b.hash := b])
    case PutCanon(n, h) => d.(canon := d.canon[n := h])
    case DelCanon(n) => d.(canon := d.canon - {n})
    case PutHead(h) => d.(head := h)
  }

  /** Flushing a batch replays its writes in order. */
  function Flush(d: Disk, batch: seq<Write>): Disk
    decreases |batch|
  {
    if batch == [] then d else Apply(Flush(d, batch[..|batch| - 1]), batch[|batch| - 1])
  }

  lemma FlushMore(d: Disk, batch: seq<Write>, w: Write)
    ensures Flush(d, batch + [w]) == Apply(Flush(d, batch), w)
  {
    assert (batch + [w])[..|batch|] == batch;
  }

  /** Every stored header is linked to genesis and carries the difficulty of its chain. */
  ghost predicate Sound(d: Disk, g: Hash) {
    && Closed(d.headers, g)
    && d.tds.Keys == d.headers.Keys
    && forall h | h in d.headers :: d.tds[h] == Td(d.headers, h)
  }

  /** Headers that verification let through, starting on top of `parent`: hashed, numbered after
      their parents, and agreeing with whatever is already stored under the same hash. */
  ghost predicate Acceptable(s: Store, parent: Hash, hs: seq<Header>)
    decreases |hs|
  {
    hs == [] ||
    (&& hs[0].parent == parent && hs[0].hash != ZERO_HASH && hs[0].number > 0
     && (hs[0].hash in s ==> s[hs[0].hash] == hs[0])
     && (parent in s ==> s[parent].number == hs[0].number - 1)
     && Acceptable(s[hs[0].hash := hs[0]], hs[0].hash, hs[1..]))
  }

  ghost predicate Verified(s: Store, hs: seq<Header>) {
    hs == [] || Acceptable(s, hs[0].parent, hs)
  }

  /** `s` with all headers of the batch stored. */
  ghost function Extended(s: Store, hs: seq<Header>): Store
    decreases |hs|
  {
    if hs == [] then s else Extended(s[hs[0].hash := hs[0]], hs[1..])
  }

  /** Exactly the batch is added. */
  lemma {:induction false} ExtendedIs(s: Store, hs: seq<Header>, h: Hash)
    ensures h in Extended(s, hs) <==> h in s || exists b | b in hs :: b.hash == h
    ensures h in Extended(s, hs) ==> (h in s && Extended(s, hs)[h] == s[h]) || Extended(s, hs)[h] in hs
    decreases |hs|
  {
    if hs != [] {
      assert hs == [hs[0]] + hs[1..];
      ExtendedIs(s[hs[0].hash := hs[0]], hs[1..], h);
    }
  }

  /** Writing the next header of a batch, with its difficulty on top of its parent's, keeps the database sound;
      nothing changes if the header was there. */
  lemma SoundNext(d: Disk, g: Hash, b: Header, td: nat)
    requires Sound(d, g) && b.hash != ZERO_HASH && b.number > 0
    requires b.hash in d.headers ==> d.headers[b.hash] == b
    requires Get(d.headers, b.parent, b.number - 1).Some? && td == b.difficulty + d.tds[b.parent]
    ensures var d' := Apply(Apply(d, PutTd(b.hash, td)), PutHeader(b));
            && Sound(d', g) && d'.canon == d.canon && d'.head == d.head
            && (forall h | h in d.headers :: d'.tds[h] == d.tds[h])
            && (b.hash in d.headers ==> d' == d)
  {
    ClosedAdd(d.headers, g, b);
    var d' := Apply(Apply(d, PutTd(b.hash, td)), PutHeader(b));
    if b.hash in d.headers {
      assert d'.headers == d.headers;
      assert td == d.tds[b.hash];
      assert d'.tds == d.tds;
    }
  }

  datatype HeaderWriteResult = HeaderWriteResult(status: WriteStatus, ignored: nat, imported: nat, lastHeader: Header)

  /** How many headers from position `i` on are stored before the first unknown one, as a position. */
  ghost function KnownPrefix(s: Store, hs: seq<Header>, i: nat): nat
    requires i <= |hs|
    decreases |hs| - i
  {
    if i == |hs| || hs[i].hash !in s then i else KnownPrefix(s, hs, i + 1)
  }

  /** Of the first `i` headers, `inserted` come after the known prefix, which ends at `known`; it has not ended yet if
      `going`. */
  ghost predicate Counted(s: Store, hs: seq<Header>, i: nat, known: nat, going: bool, inserted: nat) {
    && i <= |hs|
    && if going then inserted == 0 && KnownPrefix(s, hs, i) == known else known < i && inserted == i - known
  }

  lemma CountedNext(s: Store, hs: seq<Header>, i: nat, known: nat, going: bool, inserted: nat)
    requires Counted(s, hs, i, known, going, inserted) && i < |hs|
    ensures var still := going && hs[i].hash in s;
            && Counted(s, hs, i + 1, known, still, if still then inserted else inserted + 1)
            && (going && !still ==> known == i)
  {
  }

  /** The status of an import of `inserted` new headers up to `last`: canonical if the fork choice prefers it and it is
      not canonical already, side if the fork choice does not and something is new. */
  ghost function StatusOf(s: Store, canon: map<nat, Hash>, ttd: Option<nat>, current: Header, last: Header,
                          inserted: nat, tie: TieBreak): WriteStatus
    requires current.hash in s && last.hash in s
  {
    if ReorgNeeded(ttd, Some(Td(s, current.hash)), Some(Td(s, last.hash)), current.number, last.number, tie)
        == Some(true)
    then if last.number <= current.number && ReadCanon(canon, last.number) == last.hash then NonStat else CanonStat
    else if inserted != 0 then SideStat else NonStat
  }

  /** The three outcomes: canonical exactly if preferred and not canonical already, side exactly if not preferred and
      something is new, and otherwise none. */
  lemma StatusIs(s: Store, canon: map<nat, Hash>, ttd: Option<nat>, current: Header, last: Header, inserted: nat,
                 tie: TieBreak)
    requires current.hash in s && last.hash in s
    ensures var status := StatusOf(s, canon, ttd, current, last, inserted, tie);
            var choice :=
              ReorgNeeded(ttd, Some(Td(s, current.hash)), Some(Td(s, last.hash)), current.number, last.number, tie);
            var there := last.number <= current.number && ReadCanon(canon, last.number) == last.hash;
            && (status.CanonStat? <==> choice == Some(true) && !there)
            && (status.SideStat? <==> choice == Some(false) && inserted > 0)
            && (status.NonStat? <==> if choice == Some(true) then there else inserted == 0)
  {
  }

  /** An ancestor's chain is no heavier. */
  lemma {:induction false} AncestorLighter(s: Store, g: Hash, h: Hash, number: nat, n: nat)
    requires n <= number && Linked(s, g, h, number)
    ensures TotalDifficulty(s, Walk(s, h, number, n), n) <= TotalDifficulty(s, h, number)
    decreases number
  {
    if n < number { AncestorLighter(s, g, s[h].parent, number - 1, n); }
  }

  ghost predicate StoredRun(s: Store, hs: seq<Header>) {
    && (forall i | 0 <= i < |hs| :: hs[i].hash in s && s[hs[i].hash] == hs[i])
    && (forall i | 0 < i < |hs| :: hs[i].parent == hs[i - 1].hash && hs[i].number == hs[i - 1].number + 1)
  }

  lemma StoredRunCons(s: Store, hs: seq<Header>)
    requires hs != [] && StoredRun(s, hs[1..]) && hs[0].hash in s && s[hs[0].hash] == hs[0]
    requires |hs| > 1 ==> hs[1].parent == hs[0].hash && hs[1].number == hs[0].number + 1
    ensures StoredRun(s, hs)
  {
    forall i | 0 <= i < |hs| ensures hs[i].hash in s && s[hs[i].hash] == hs[i] {
      if i > 0 { assert hs[i] == hs[1..][i - 1]; }
    }
    forall i | 0 < i < |hs| ensures hs[i].parent == hs[i - 1].hash && hs[i].number == hs[i - 1].number + 1 {
      if i > 1 { assert hs[i] == hs[1..][i - 1] && hs[i - 1] == hs[1..][i - 2]; }
    }
  }

  /** A stored acceptable batch is a run of headers, and nothing that was stored has changed. */
  lemma {:induction false} ExtendedRun(s: Store, parent: Hash, hs: seq<Header>)
    requires Acceptable(s, parent, hs)
    ensures forall h | h in s :: h in Extended(s, hs) && Extended(s, hs)[h] == s[h]
    ensures StoredRun(Extended(s, hs), hs)
    decreases |hs|
  {
    if hs != [] {
      var s' := s[hs[0].hash := hs[0]];
      ExtendedRun(s', hs[0].hash, hs[1..]);
      StoredRunCons(Extended(s, hs), hs);
    }
  }

  lemma {:induction false} KnownPrefixStops(s: Store, hs: seq<Header>, i: nat)
    requires i <= |hs|
    ensures i <= KnownPrefix(s, hs, i) <= |hs|
    ensures KnownPrefix(s, hs, i) < |hs| ==> hs[KnownPrefix(s, hs, i)].hash !in s
    decreases |hs| - i
  {
    if i < |hs| && hs[i].hash in s { KnownPrefixStops(s, hs, i + 1); }
  }

  /** A database that still has to be flushed: sound, and larger than the present one. */
  ghost predicate Pending(d: Disk, db: Disk, g: Hash) {
    && Sound(d, g) && d.canon == db.canon && d.head == db.head
    && (forall h | h in db.headers :: h in d.headers && d.headers[h] == db.headers[h])
  }

  function Next(d: Disk, b: Header, td: nat): Disk {
    Apply(Apply(d, PutTd(b.hash, td)), PutHeader(b))
  }

  ghost predicate Chained(hs: seq<Header>) {
    forall i | 0 < i < |hs| :: hs[i].parent == hs[i - 1].hash
  }

  lemma {:induction false} AcceptableChained(s: Store, parent: Hash, hs: seq<Header>)
    requires Acceptable(s, parent, hs)
    ensures Chained(hs)
    decreases |hs|
  {
    if hs != [] {
      AcceptableChained(s[hs[0].hash := hs[0]], hs[0].hash, hs[1..]);
      forall i | 0 < i < |hs| ensures hs[i].parent == hs[i - 1].hash {
        if i > 1 { assert hs[i] == hs[1..][i - 1] && hs[i - 1] == hs[1..][i - 2]; }
      }
    }
  }

  /** Storing `b` turns `d` into `d'`: it only adds, and changes nothing if the header was there. */
  ghost predicate Grows(d: Disk, d': Disk, td: nat, td': nat, b: Header) {
    && td' == td + b.difficulty
    && d' == Next(d, b, td')
    && (b.hash in d.headers ==> d' == d && d.headers[b.hash] == b)
    && (forall h | h in d.headers :: h in d'.headers && d'.headers[h] == d.headers[h])
    && (forall h | h in d.tds :: h in d'.tds && d'.tds[h] == d.tds[h])
  }

  ghost predicate Staging(hs: seq<Header>, stages: seq<Disk>, totals: seq<nat>) {
    && |stages| == |totals| == |hs| + 1
    && forall i, j | 0 <= i < |hs| && 0 <= j < |stages| && j == i + 1 ::
         Grows(stages[i], stages[j], totals[i], totals[j], hs[i])
  }

  lemma StagingAt(hs: seq<Header>, stages: seq<Disk>, totals: seq<nat>, i: nat)
    requires Staging(hs, stages, totals) && i < |hs|
    ensures Grows(stages[i], stages[i + 1], totals[i], totals[i + 1], hs[i])
  {
  }

  /** `rest` is still to be stored on top of `parent`, whose difficulty is `td`. */
  ghost predicate Staged(d: Disk, db: Disk, g: Hash, rest: seq<Header>, parent: Hash, td: nat)
  {
    && Pending(d, db, g)
    && Acceptable(d.headers, parent, rest)
    && parent in d.tds && td == d.tds[parent]
  }

  lemma GrowsNext(d: Disk, g: Hash, b: Header, td: nat)
    requires Sound(d, g) && b.hash != ZERO_HASH && b.number > 0
    requires b.hash in d.headers ==> d.headers[b.hash] == b
    requires Get(d.headers, b.parent, b.number - 1).Some? && td == d.tds[b.parent]
    ensures Grows(d, Next(d, b, td + b.difficulty), td, td + b.difficulty, b)
  {
    SoundNext(d, g, b, td + b.difficulty);
  }

  lemma StagedNext(d: Disk, db: Disk, g: Hash, rest: seq<Header>, parent: Hash, td: nat, d': Disk, td': nat)
    requires rest != [] && Staged(d, db, g, rest, parent, td)
    requires td' == td + rest[0].difficulty && d' == Next(d, rest[0], td')
    ensures Staged(d', db, g, rest[1..], rest[0].hash, td')
    ensures Extended(d'.headers, rest[1..]) == Extended(d.headers, rest)
    ensures Grows(d, d', td, td', rest[0])
  {
    SoundNext(d, g, rest[0], td');
    GrowsNext(d, g, rest[0], td);
  }

  lemma StagingCons(hs: seq<Header>, d: Disk, td: nat, stages: seq<Disk>, totals: seq<nat>)
    requires hs != [] && Staging(hs[1..], stages, totals) && Grows(d, stages[0], td, totals[0], hs[0])
    ensures Staging(hs, [d] + stages, [td] + totals) && ([d] + stages)[|hs|] == stages[|hs[1..]|]
  {
    var ss, ts := [d] + stages, [td] + totals;
    forall i, j | 0 <= i < |hs| && 0 <= j < |ss| && j == i + 1 ensures Grows(ss[i], ss[j], ts[i], ts[j], hs[i]) {
      if i > 0 { assert Grows(stages[i - 1], stages[i], totals[i - 1], totals[i], hs[1..][i - 1]); }
    }
  }

  /** Every intermediate database of a staged batch exists, is sound, and ends with the whole batch stored. */
  lemma {:induction false} BuildStages(d: Disk, db: Disk, g: Hash, rest: seq<Header>, parent: Hash, td: nat)
    returns (stages: seq<Disk>, totals: seq<nat>)
    requires Staged(d, db, g, rest, parent, td)
    ensures Staging(rest, stages, totals) && stages[0] == d && totals[0] == td
    ensures Pending(stages[|rest|], db, g) && stages[|rest|].headers == Extended(d.headers, rest)
    decreases |rest|
  {
    if rest == [] {
      stages, totals := [d], [td];
    } else {
      var td' := td + rest[0].difficulty;
      var d' := Next(d, rest[0], td');
      StagedNext(d, db, g, rest, parent, td, d', td');
      var ss, ts := BuildStages(d', db, g, rest[1..], rest[0].hash, td');
      stages, totals := [d] + ss, [td] + ts;
      StagingCons(rest, d, td, ss, ts);
    }
  }

  lemma PendingKeepsHead(d: Disk, db: Disk, g: Hash, head: Header)
    requires Sound(db, g) && Pending(d, db, g) && head.hash in db.headers && db.headers[head.hash] == head
    ensures head.hash in d.headers && d.headers[head.hash] == head
            && CanonOf(d.headers, head.hash) == CanonOf(db.headers, head.hash)
  {
    LinkedMonotone(db.headers, d.headers, g, head.hash, head.number);
  }

  // ---------------------------------------------------------- the rewritten index

  /** The hashes on the walk from `h`, by height. */
  ghost function WalkSeq(s: Store, h: Header): seq<Hash> {
    seq(h.number + 1, n requires 0 <= n <= h.number => Walk(s, h.hash, h.number, n))
  }

  /** `w` lists the hashes on the walk from `h` by height. */
  ghost predicate IsWalk(s: Store, h: Header, w: seq<Hash>) {
    && |w| == h.number + 1 && w[h.number] == h.hash
    && forall n: nat | n < h.number :: w[n] == if Get(s, w[n + 1], n + 1).Some? then s[w[n + 1]].parent else ZERO_HASH
  }

  lemma WalkSeqIsWalk(s: Store, h: Header)
    requires ZERO_HASH !in s
    ensures IsWalk(s, h, WalkSeq(s, h))
  {
    var w := WalkSeq(s, h);
    forall n: nat | n < h.number
      ensures w[n] == if Get(s, w[n + 1], n + 1).Some? then s[w[n + 1]].parent else ZERO_HASH
    {
      WalkStep(s, h.hash, h.number, n);
    }
  }

  /** The entries of `m` up to height `top`. */
  ghost function UpTo(m: map<nat, Hash>, top: int): map<nat, Hash> {
    map n | n in m && n <= top :: m[n]
  }

  /** `m` with the heights in `(lo, hi]` set as in `w`. */
  ghost function Overwrite(m: map<nat, Hash>, w: seq<Hash>, lo: int, hi: int): map<nat, Hash>
    requires -1 <= lo && hi < |w|
    decreases hi - lo
  {
    if hi <= lo then m else Overwrite(m, w, lo, hi - 1)[hi := w[hi]]
  }

  lemma {:induction false} OverwriteDown(m: map<nat, Hash>, w: seq<Hash>, lo: nat, hi: nat)
    requires lo <= hi < |w|
    ensures Overwrite(m, w, lo - 1, hi) == Overwrite(m, w, lo, hi)[lo := w[lo]]
    decreases hi
  {
    if lo < hi {
      OverwriteDown(m, w, lo, hi - 1);
      assert Overwrite(m, w, lo, hi - 1)[lo := w[lo]][hi := w[hi]]
             == Overwrite(m, w, lo, hi - 1)[hi := w[hi]][lo := w[lo]];
    }
  }

  lemma {:induction false} OverwriteAt(m: map<nat, Hash>, w: seq<Hash>, lo: int, hi: int)
    requires -1 <= lo && hi < |w|
    ensures forall n: nat :: n in Overwrite(m, w, lo, hi) <==> n in m || lo < n <= hi
    ensures forall n: nat | lo < n <= hi :: Overwrite(m, w, lo, hi)[n] == w[n]
    ensures forall n: nat | n in m && !(lo < n <= hi) :: Overwrite(m, w, lo, hi)[n] == m[n]
    decreases hi - lo
  {
    if hi > lo { OverwriteAt(m, w, lo, hi - 1); }
  }

  /** The walk from `first` meets the canonical index at height `m`; height -1 stands for a walk that went
      all the way down without meeting it. */
  ghost predicate CrossLink(d: Disk, first: Header, m: int) {
    && -1 <= m <= first.number
    && (m >= 0 ==> m in d.canon && d.canon[m] == Walk(d.headers, first.hash, first.number, m))
  }

  /** Walking down from a stored header meets the canonical index, or height 0, before a header is missing. */
  ghost predicate ReachesCanon(d: Disk, h: Hash, number: nat)
    decreases number
  {
    && Get(d.headers, h, number).Some?
    && (number == 0 || (number in d.canon && d.canon[number] == h) || ReachesCanon(d, d.headers[h].parent, number - 1))
  }

  /** The walk from `(h, number)` is stored down to height `m`. */
  ghost predicate StoredDownTo(s: Store, h: Hash, number: nat, m: nat) {
    m <= number && forall n: nat | m <= n <= number :: Get(s, Walk(s, h, number, n), n).Some?
  }

  lemma {:induction false} CrossLinked(d: Disk, h: Hash, number: nat) returns (m: nat)
    requires ReachesCanon(d, h, number)
    ensures StoredDownTo(d.headers, h, number, m)
    ensures m == 0 || (m in d.canon && d.canon[m] == Walk(d.headers, h, number, m))
    decreases number
  {
    if number == 0 || (number in d.canon && d.canon[number] == h) {
      m := number;
    } else {
      m := CrossLinked(d, d.headers[h].parent, number - 1);
    }
  }

  lemma {:induction false} ReachesFrom(d: Disk, h: Hash, number: nat, m: nat)
    requires StoredDownTo(d.headers, h, number, m)
    requires m == 0 || (m in d.canon && d.canon[m] == Walk(d.headers, h, number, m))
    ensures ReachesCanon(d, h, number)
    decreases number
  {
    assert Get(d.headers, Walk(d.headers, h, number, number), number).Some?;
    if m < number {
      var below, parent := number - 1, d.headers[h].parent;
      forall n: nat | m <= n <= below ensures Get(d.headers, Walk(d.headers, parent, below, n), n).Some? {
        assert Walk(d.headers, h, number, n) == Walk(d.headers, parent, below, n);
      }
      ReachesFrom(d, parent, below, m);
    }
  }

  /** Some height of the walk is canonical, or 0, and nothing is missing down to it. */
  lemma {:induction false} ReachesCanonIff(d: Disk, h: Hash, number: nat)
    requires ZERO_HASH !in d.headers
    ensures ReachesCanon(d, h, number) <==>
            exists m: nat | m <= number ::
              && StoredDownTo(d.headers, h, number, m)
              && (m == 0 || (m in d.canon && d.canon[m] == Walk(d.headers, h, number, m)))
    decreases number
  {
    var s := d.headers;
    if ReachesCanon(d, h, number) {
      var m := CrossLinked(d, h, number);
    }
    if m: nat :| m <= number && StoredDownTo(s, h, number, m)
                 && (m == 0 || (m in d.canon && d.canon[m] == Walk(s, h, number, m))) {
      ReachesFrom(d, h, number, m);
    }
  }

  lemma {:induction false} LinkedReachesCanon(d: Disk, g: Hash, h: Hash, number: nat)
    requires Linked(d.headers, g, h, number)
    ensures ReachesCanon(d, h, number)
    decreases number
  {
    if number > 0 { LinkedReachesCanon(d, g, d.headers[h].parent, number - 1); }
  }

  lemma {:induction false} RunNumbers(s: Store, hs: seq<Header>, i: nat)
    requires StoredRun(s, hs) && i < |hs|
    ensures hs[i].number == hs[0].number + i
  {
    if i > 0 { RunNumbers(s, hs, i - 1); }
  }

  /** The headers of a run lie on the walk from its last header. */
  lemma {:induction false} RunWalk(s: Store, hs: seq<Header>, i: nat)
    requires WellKeyed(s) && StoredRun(s, hs) && i < |hs|
    ensures hs[i].number == hs[0].number + i
    ensures var last := hs[|hs| - 1];
            last.number == hs[i].number + (|hs| - 1 - i) && Walk(s, last.hash, last.number, hs[i].number) == hs[i].hash
    decreases |hs| - i
  {
    RunNumbers(s, hs, i);
    if i + 1 < |hs| {
      RunWalk(s, hs, i + 1);
      WalkStep(s, hs[|hs| - 1].hash, hs[|hs| - 1].number, hs[i].number);
    }
  }

  lemma RunSeq(s: Store, hs: seq<Header>)
    requires WellKeyed(s) && StoredRun(s, hs) && hs != []
    ensures Chained(hs)
    ensures var first, last, w := hs[0], hs[|hs| - 1], WalkSeq(s, hs[|hs| - 1]);
            && first.number <= last.number && Walk(s, last.hash, last.number, first.number) == first.hash
            && forall i | 0 <= i < |hs| :: hs[i].number == first.number + i < |w| && w[first.number + i] == hs[i].hash
  {
    RunWalk(s, hs, 0);
    forall i | 0 <= i < |hs| ensures hs[i].number == hs[0].number + i <= hs[|hs| - 1].number
                                     && WalkSeq(s, hs[|hs| - 1])[hs[0].number + i] == hs[i].hash {
      RunWalk(s, hs, i);
    }
  }

  lemma NothingAbove(d: Disk, current: Header, first: Header, last: Header, low: int, canon: map<nat, Hash>)
    requires current.hash in d.headers && d.headers[current.hash] == current
    requires d.canon == CanonOf(d.headers, current.hash) && first.number <= last.number && CrossLink(d, first, low)
    requires
      || (low == first.number - 1 == current.number && canon == d.canon)
      || canon == Overwrite(UpTo(d.canon, last.number), WalkSeq(d.headers, first), low, first.number)
    ensures forall n | n in canon :: n <= last.number
  {
    OverwriteAt(UpTo(d.canon, last.number), WalkSeq(d.headers, first), low, first.number);
  }

  lemma BelowFirst(d: Disk, current: Header, first: Header, last: Header, low: int, canon: map<nat, Hash>, n: nat)
    requires WellKeyed(d.headers) && current.hash in d.headers && d.headers[current.hash] == current
             && d.canon == CanonOf(d.headers, current.hash)
    requires first.number <= last.number && CrossLink(d, first, low) && n < first.number
    requires
      || (low == first.number - 1 == current.number && canon == d.canon)
      || canon == Overwrite(UpTo(d.canon, last.number), WalkSeq(d.headers, first), low, first.number)
    ensures n in canon && canon[n] == Walk(d.headers, first.hash, first.number, n)
  {
    OverwriteAt(UpTo(d.canon, last.number), WalkSeq(d.headers, first), low, first.number);
    if n <= low {
      WalksAgreeBelow(d.headers, current.hash, current.number, first.hash, first.number, low, n);
      assert n in d.canon && d.canon[n] == Walk(d.headers, first.hash, first.number, n);
    } else {
      assert WalkSeq(d.headers, first)[n] == Walk(d.headers, first.hash, first.number, n);
    }
  }

  /** The patched index is the one a rebuild from the last header would give. */
  lemma Rebuilt(d: Disk, current: Header, first: Header, last: Header, low: int, canon: map<nat, Hash>)
    requires WellKeyed(d.headers) && current.hash in d.headers && d.headers[current.hash] == current
             && d.canon == CanonOf(d.headers, current.hash)
    requires last.hash in d.headers && d.headers[last.hash] == last
    requires first.number <= last.number && Walk(d.headers, last.hash, last.number, first.number) == first.hash
    requires CrossLink(d, first, low)
    requires
      || (low == first.number - 1 == current.number && canon == d.canon)
      || canon == Overwrite(UpTo(d.canon, last.number), WalkSeq(d.headers, first), low, first.number)
    ensures Overwrite(canon, WalkSeq(d.headers, last), first.number - 1, last.number) == CanonOf(d.headers, last.hash)
  {
    var s := d.headers;
    var r := Overwrite(canon, WalkSeq(s, last), first.number - 1, last.number);
    OverwriteAt(canon, WalkSeq(s, last), first.number - 1, last.number);
    NothingAbove(d, current, first, last, low, canon);
    forall n: nat | n <= last.number ensures n in r && r[n] == Walk(s, last.hash, last.number, n) {
      if n < first.number {
        WalkCompose(s, last.hash, last.number, first.number, n);
        BelowFirst(d, current, first, last, low, canon, n);
      }
    }
  }

  // ------------------------------------------------------------ the header chain

  class HeaderChain {
    const genesis: Hash
    const ttd: Option<nat>

    var db: Disk
    var tdCache: map<Hash, BigInt>
    var headerCache: map<Hash, Header>
    var numberCache: map<Hash, nat>
    var current: Header

    /** A cached value is the stored one. */
    ghost predicate CachesAgree(d: Disk)
      reads this, tdCache.Values
    {
      && (forall h | h in tdCache :: h in d.tds && tdCache[h].v == d.tds[h])
      && (forall h | h in headerCache :: h in d.headers && headerCache[h] == d.headers[h])
      && (forall h | h in numberCache :: h in d.headers && numberCache[h] == d.headers[h].number)
    }

    ghost predicate Placed()
      reads this`db, this`current
    {
      && Sound(db, genesis)
      && current.hash in db.headers && db.headers[current.hash] == current
      && db.head == current.hash
      && db.canon == CanonOf(db.headers, current.hash)
    }

    /** Sound headers and difficulties, caches that agree with the database, and a canonical
        index equal to the parent walk from the head header. */
    ghost predicate Valid()
      reads this, tdCache.Values
    {
      Placed() && CachesAgree(db)
    }

    /** A fresh database holding the genesis header. */
    constructor (g: Header, ttd: Option<nat>)
      requires g.hash != ZERO_HASH && g.number == 0 && g.parent == ZERO_HASH
      ensures Valid() && genesis == g.hash && this.ttd == ttd && current == g
      ensures db == Disk(map[g.hash := g], map[g.hash := g.difficulty], map[0 := g.hash], g.hash)
    {
      genesis, this.ttd := g.hash, ttd;
      db := Disk(map[g.hash := g], map[g.hash := g.difficulty], map[0 := g.hash], g.hash);
      tdCache, headerCache, numberCache, current := map[], map[], map[], g;
      new;
      assert CanonOf(db.headers, g.hash) == map[0 := g.hash];
    }

    method GetTd(hash: Hash) returns (r: BigInt?)
      requires Sound(db, genesis) && CachesAgree(db)
      modifies this`tdCache
      ensures Sound(db, genesis) && CachesAgree(db)
      ensures r == null <==> hash !in db.tds
      ensures r != null ==> r.v == db.tds[hash] && hash in tdCache && tdCache[hash] == r
      ensures forall h | h in old(tdCache) :: h in tdCache && tdCache[h] == old(tdCache[h])
    {
      if hash in tdCache { return tdCache[hash]; }
      if hash !in db.tds { return null; }
      r := new BigInt(db.tds[hash]);
      tdCache := tdCache[hash := r];
    }

    predicate HasHeader(hash: Hash, number: nat)
      reads this
    {
      hash in numberCache || hash in headerCache || Get(db.headers, hash, number).Some?
    }

    /** The database write. */
    method Commit(batch: seq<Write>)
      requires Placed() && Pending(Flush(db, batch), db, genesis) && CachesAgree(Flush(db, batch))
      modifies this`db
      ensures Valid() && db == Flush(old(db), batch)
    {
      PendingKeepsHead(Flush(db, batch), db, genesis, current);
      db := Flush(db, batch);
    }

    /** Stages one header unless it is known to follow a known one, and caches it with a private copy of
        its difficulty.  `d` and `d'` are the database with the pending writes before and after. */
    method StageHeader(header: Header, hash: Hash, td: BigInt, parentKnown: bool, batch: seq<Write>, ghost d: Disk,
                       ghost d': Disk, ghost parentTd: nat)
      returns (known: bool, batch': seq<Write>)
      requires hash == header.hash && d == Flush(db, batch) && Grows(d, d', parentTd, td.v, header)
      requires CachesAgree(d) && td !in tdCache.Values && (parentKnown ==> batch == [])
      modifies this`tdCache, this`headerCache, this`numberCache
      ensures CachesAgree(d') && td !in tdCache.Values
      ensures d' == Flush(db, batch')
      ensures known <==> parentKnown && hash in db.headers
      ensures known ==> batch' == [] && unchanged(this)
      ensures !known ==> headerCache == old(headerCache)[hash := header]
    {
      known := parentKnown && HasHeader(hash, header.number);
      batch' := batch;
      if !known {
        FlushMore(db, batch, PutTd(hash, td.v));
        FlushMore(db, batch + [PutTd(hash, td.v)], PutHeader(header));
        batch' := batch + [PutTd(hash, td.v)] + [PutHeader(header)];
        var copy := new BigInt(td.v);
        tdCache := tdCache[hash := copy];
        headerCache := headerCache[hash := header];
        numberCache := numberCache[hash := header.number];
      }
    }

    /** Adds a header's difficulty to the running sum and stages it. */
    method AddHeader(header: Header, hash: Hash, td: BigInt, parentKnown: bool, batch: seq<Write>, ghost d: Disk,
                     ghost d': Disk, ghost total: nat)
      returns (known: bool, batch': seq<Write>)
      requires hash == header.hash && d == Flush(db, batch) && Grows(d, d', td.v, total, header)
      requires CachesAgree(d) && td !in tdCache.Values && (parentKnown ==> batch == [])
      modifies this`tdCache, this`headerCache, this`numberCache, td
      ensures CachesAgree(d') && td !in tdCache.Values && td.v == total
      ensures d' == Flush(db, batch')
      ensures known <==> parentKnown && hash in db.headers
      ensures known ==> batch' == [] && unchanged(this)
      ensures !known ==> headerCache == old(headerCache)[hash := header]
    {
      td.Add(header.difficulty);
      known, batch' := StageHeader(header, hash, td, parentKnown, batch, d, d', old(td.v));
    }

    /** The loop of WriteHeaders: collects the pending writes and fills the caches.  `stages[i]` and `totals[i]`
        are the database and the difficulty with the first `i` headers stored. */
    method StageHeaders(headers: seq<Header>, ptd: BigInt, ghost stages: seq<Disk>, ghost totals: seq<nat>)
      returns (batch: seq<Write>, inserted: nat)
      requires CachesAgree(db) && Chained(headers) && Staging(headers, stages, totals)
      requires stages[0] == db && totals[0] == ptd.v
      modifies this`tdCache, this`headerCache, this`numberCache
      ensures Flush(db, batch) == stages[|headers|]
      ensures CachesAgree(stages[|headers|])
      ensures var known := KnownPrefix(db.headers, headers, 0);
              known <= |headers| && inserted == |headers| - known
              && (known == |headers| ==> batch == [])
              && (known < |headers| ==> headers[known].hash in headerCache)
    {
      var newTd := new BigInt(ptd.v);
      var parentKnown := true;
      inserted, batch := 0, [];
      ghost var known := KnownPrefix(db.headers, headers, 0);
      var i := 0;
      while i < |headers|
        invariant 0 <= i <= |headers|
        invariant fresh(newTd) && newTd !in tdCache.Values
        invariant newTd.v == totals[i] && Flush(db, batch) == stages[i] && CachesAgree(stages[i])
        invariant Counted(db.headers, headers, i, known, parentKnown, inserted)
        invariant if parentKnown then batch == [] else headers[known].hash in headerCache
      {
        var header := headers[i];
        var hash := if i < |headers| - 1 then headers[i + 1].parent else header.hash;
        StagingAt(headers, stages, totals, i);
        CountedNext(db.headers, headers, i, known, parentKnown, inserted);
        var alreadyKnown;
        alreadyKnown, batch :=
          AddHeader(header, hash, newTd, parentKnown, batch, stages[i], stages[i + 1], totals[i + 1]);
        if !alreadyKnown { inserted := inserted + 1; }
        parentKnown := alreadyKnown;
        i := i + 1;
      }
    }

    /** Everything up to the database write. */
    method Stage(headers: seq<Header>, ptd: BigInt) returns (batch: seq<Write>, inserted: nat)
      requires Sound(db, genesis) && CachesAgree(db) && headers != [] && Verified(db.headers, headers)
      requires headers[0].parent in db.tds && ptd.v == db.tds[headers[0].parent]
      modifies this`tdCache, this`headerCache, this`numberCache
      ensures Pending(Flush(db, batch), db, genesis) && Flush(db, batch).headers == Extended(db.headers, headers)
      ensures CachesAgree(Flush(db, batch))
      ensures inserted == |headers| - KnownPrefix(db.headers, headers, 0)
      ensures CachesAgree(db) <==> KnownPrefix(db.headers, headers, 0) == |headers|
    {
      ghost var stages, totals := BuildStages(db, db, genesis, headers, headers[0].parent, ptd.v);
      AcceptableChained(db.headers, headers[0].parent, headers);
      batch, inserted := StageHeaders(headers, ptd, stages, totals);
      KnownPrefixStops(db.headers, headers, 0);
    }

    method StageAndCommit(headers: seq<Header>, ptd: BigInt, interrupted: bool) returns (r: Result<nat>)
      requires Valid() && Verified(db.headers, headers) && headers != []
      requires headers[0].parent in db.tds && ptd.v == db.tds[headers[0].parent]
      modifies this`db, this`tdCache, this`headerCache, this`numberCache
      ensures db.canon == old(db.canon) && db.head == old(db.head) && (r.Ok? <==> !interrupted)
      ensures r.Ok? ==> Valid() && db.headers == Extended(old(db.headers), headers)
      ensures r.Ok? ==> r.value == |headers| - KnownPrefix(old(db.headers), headers, 0)
      ensures r.Err? ==> db == old(db) && (Valid() <==> KnownPrefix(db.headers, headers, 0) == |headers|)
    {
      var batch, inserted := Stage(headers, ptd);
      if interrupted { return Err("aborted"); }
      Commit(batch);
      r := Ok(inserted);
    }

    /** Stores a batch of verified headers in one database write.  Every difficulty written is that of
        the header's whole chain although it is summed in one running big integer, a known prefix is
        skipped, and no big integer that existed before the call changes.  An interrupted import writes
        nothing, but leaves caches that agree with the database only if every header was known. */
    method WriteHeaders(headers: seq<Header>, interrupted: bool) returns (r: Result<nat>)
      requires Valid() && Verified(db.headers, headers)
      modifies this
      ensures current == old(current) && db.canon == old(db.canon) && db.head == old(db.head)
      ensures r.Ok? <==> headers == [] || (headers[0].parent in old(db.tds) && !interrupted)
      ensures r.Ok? ==> Valid() && db.headers == Extended(old(db.headers), headers)
      ensures r.Ok? ==> r.value == |headers| - KnownPrefix(old(db.headers), headers, 0)
      ensures r.Err? ==> db == old(db)
      ensures r.Err? ==> (Valid() <==> headers[0].parent !in db.tds || KnownPrefix(db.headers, headers, 0) == |headers|)
    {
      if headers == [] { return Ok(0); }
      var ptd := GetTd(headers[0].parent);
      if ptd == null { return Err("unknown ancestor"); }
      r := StageAndCommit(headers, ptd, interrupted);
    }

    // --------------------------------------------------------- canonical rewrites

    /** The weaker state Reorg needs: the head's chain is complete and indexed, other headers may lack ancestors. */
    ghost predicate Anchored()
      reads this
    {
      && WellKeyed(db.headers) && LinkedHead(db.headers, genesis, current.hash)
      && db.headers[current.hash] == current && db.head == current.hash
      && db.canon == CanonOf(db.headers, current.hash)
    }

    /** Schedules the deletion of every canonical entry above `number`, reading the unflushed database. */
    method DeleteAbove(number: nat) returns (batch: seq<Write>)
      requires Anchored()
      ensures Flush(db, batch) == db.(canon := UpTo(db.canon, number))
    {
      batch := [];
      var i := number + 1;
      while i in db.canon
        invariant number < i && (number < current.number ==> i <= current.number + 1)
        invariant Flush(db, batch) == db.(canon := map n | n in db.canon && (n <= number || n >= i) :: db.canon[n])
        decreases current.number + 1 - i
      {
        FlushMore(db, batch, DelCanon(i));
        batch := batch + [DelCanon(i)];
        i := i + 1;
      }
    }

    /** Appends one canonical entry below the ones already scheduled. */
    method PutEntryBelow(batch: seq<Write>, number: nat, hash: Hash, ghost d: Disk, ghost w: seq<Hash>, ghost hi: nat)
      returns (pending: seq<Write>)
      requires number <= hi < |w| && hash == w[number]
      requires Flush(db, batch) == d.(canon := Overwrite(d.canon, w, number, hi))
      ensures Flush(db, pending) == d.(canon := Overwrite(d.canon, w, number - 1, hi))
    {
      FlushMore(db, batch, PutCanon(number, hash));
      OverwriteDown(d.canon, w, number, hi);
      pending := batch + [PutCanon(number, hash)];
    }

    /** Schedules canonical entries for `first` and its ancestors, found in `w` by height, until the unflushed
        index already agrees.  Fails when an ancestor is missing before that happens. */
    method RewriteBack(first: Header, batch: seq<Write>, ghost w: seq<Hash>)
      returns (r: Option<seq<Write>>, ghost low: int)
      requires first.hash in db.headers && db.headers[first.hash] == first && IsWalk(db.headers, first, w)
      ensures r.Some? <==> ReachesCanon(db, first.hash, first.number)
      ensures r.Some? ==>
        && -1 <= low <= first.number && (low >= 0 ==> low in db.canon && db.canon[low] == w[low])
        && Flush(db, r.value) == Flush(db, batch).(canon := Overwrite(Flush(db, batch).canon, w, low, first.number))
    {
      var header, pending := first, batch;
      var headNumber: nat, headHash: Hash := first.number, first.hash;
      ghost var d := Flush(db, batch);
      assert Overwrite(d.canon, w, headNumber, first.number) == d.canon;
      while headNumber !in db.canon || db.canon[headNumber] != headHash
        invariant 0 <= headNumber <= first.number && headHash == w[headNumber]
        invariant Get(db.headers, headHash, headNumber) == Some(header)
        invariant Flush(db, pending) == d.(canon := Overwrite(d.canon, w, headNumber, first.number))
        invariant ReachesCanon(db, first.hash, first.number) <==> ReachesCanon(db, headHash, headNumber)
        decreases headNumber
      {
        pending := PutEntryBelow(pending, headNumber, headHash, d, w, first.number);
        low := headNumber - 1;
        if headNumber == 0 { return Some(pending), low; }
        headHash, headNumber := header.parent, header.number - 1;
        var parent := Get(db.headers, headHash, headNumber);
        if parent.None? { return None, headNumber; }
        header := parent.value;
      }
      r, low := Some(pending), headNumber;
    }

    /** Appends a canonical entry and a head marker to a batch. */
    method PutHeadEntry(batch: seq<Write>, number: nat, hash: Hash, ghost d: Disk, ghost w: seq<Hash>, ghost lo: nat,
                        ghost marker: Hash)
      returns (pending: seq<Write>)
      requires lo <= number < |w| && hash == w[number]
      requires Flush(db, batch) == d.(canon := Overwrite(d.canon, w, lo - 1, number - 1), head := marker)
      ensures Flush(db, pending) == d.(canon := Overwrite(d.canon, w, lo - 1, number), head := hash)
    {
      FlushMore(db, batch, PutCanon(number, hash));
      FlushMore(db, batch + [PutCanon(number, hash)], PutHead(hash));
      pending := batch + [PutCanon(number, hash)] + [PutHead(hash)];
    }

    /** Schedules canonical entries for a run of headers, found in `w` by height, and the head marker for the last
        one. */
    method ExtendWith(headers: seq<Header>, batch: seq<Write>, ghost w: seq<Hash>) returns (pending: seq<Write>)
      requires headers != [] && Chained(headers)
      requires forall i | 0 <= i < |headers| ::
                 headers[i].number == headers[0].number + i < |w| && w[headers[0].number + i] == headers[i].hash
      ensures var first, last, d := headers[0], headers[|headers| - 1], Flush(db, batch);
              Flush(db, pending) == d.(canon := Overwrite(d.canon, w, first.number - 1, last.number), head := last.hash)
    {
      pending := batch;
      ghost var d, lo := Flush(db, batch), headers[0].number;
      ghost var marker := d.head;
      assert headers[0].number < |w|;
      assert Overwrite(d.canon, w, lo - 1, lo - 1) == d.canon;
      var i := 0;
      while i < |headers| - 1
        invariant 0 <= i <= |headers| - 1 && lo + i < |w|
        invariant Flush(db, pending) == d.(canon := Overwrite(d.canon, w, lo - 1, lo + i - 1), head := marker)
      {
        var hash := headers[i + 1].parent;
        pending := PutHeadEntry(pending, headers[i].number, hash, d, w, lo, marker);
        marker := hash;
        i := i + 1;
      }
      pending := PutHeadEntry(pending, headers[|headers| - 1].number, headers[|headers| - 1].hash, d, w, lo, marker);
    }

    /** The batch with which Reorg switches to the end of a stored run of headers. */
    method PlanReorg(headers: seq<Header>) returns (r: Option<seq<Write>>)
      requires Anchored() && StoredRun(db.headers, headers) && headers != []
      requires headers[0].parent == current.hash ==> headers[0].number == current.number + 1
      ensures r.Some? <==> headers[0].parent == current.hash || ReachesCanon(db, headers[0].hash, headers[0].number)
      ensures var last := headers[|headers| - 1];
              r.Some? ==> Flush(db, r.value) == db.(canon := CanonOf(db.headers, last.hash), head := last.hash)
    {
      var batch := [];
      ghost var low: int := headers[0].number - 1;
      if headers[0].parent != current.hash {
        batch := DeleteAbove(headers[|headers| - 1].number);
        var back;
        WalkSeqIsWalk(db.headers, headers[0]);
        back, low := RewriteBack(headers[0], batch, WalkSeq(db.headers, headers[0]));
        if back.None? { return None; }
        batch := back.value;
      }
      ghost var d := Flush(db, batch);
      assert d == db.(canon := d.canon);
      RunSeq(db.headers, headers);
      batch := ExtendWith(headers, batch, WalkSeq(db.headers, headers[|headers| - 1]));
      Rebuilt(db, current, headers[0], headers[|headers| - 1], low, d.canon);
      r := Some(batch);
    }

    /** Switches the head header to the end of a stored run of headers with one batched write: either
        the canonical index becomes the parent walk from the last header, or an ancestor is missing and
        nothing is written. */
    method Reorg(headers: seq<Header>) returns (r: Result<()>)
      requires Anchored() && StoredRun(db.headers, headers)
      requires headers != [] && headers[0].parent == current.hash ==> headers[0].number == current.number + 1
      modifies this`db, this`current
      ensures r.Ok? <==>
        || headers == [] || headers[0].parent == old(current.hash)
        || ReachesCanon(old(db), headers[0].hash, headers[0].number)
      ensures r.Err? || headers == [] ==> unchanged(this)
      ensures r.Ok? && headers != [] ==>
        var last := headers[|headers| - 1];
        && current == last && last.hash in old(db).headers
        && db == old(db).(canon := CanonOf(old(db).headers, last.hash), head := last.hash)
    {
      if headers == [] { return Ok(()); }
      var plan := PlanReorg(headers);
      if plan.None? { return Err("missing parent"); }
      db := Flush(db, plan.value);
      current := headers[|headers| - 1];
      r := Ok(());
    }

    /** Reorganises to a stored run, which hangs off genesis and so off the canonical chain. */
    method SwitchTo(headers: seq<Header>)
      requires Valid() && StoredRun(db.headers, headers) && headers != [] && headers[0].number > 0
      modifies this`db, this`current
      ensures Valid() && db.headers == old(db.headers) && db.tds == old(db.tds) && current == headers[|headers| - 1]
    {
      assert LinkedHead(db.headers, genesis, headers[0].hash);
      LinkedReachesCanon(db, genesis, headers[0].hash, headers[0].number);
      assert Linked(db.headers, genesis, headers[0].parent, headers[0].number - 1);
      var r := Reorg(headers);
    }

    /** A canonical header is no heavier than the head. */
    lemma CanonicalLighter(h: Header)
      requires Valid() && h.number in db.canon && db.canon[h.number] == h.hash && h.number <= current.number
      requires h.hash in db.headers && db.headers[h.hash] == h && current.hash in db.headers
      ensures Td(db.headers, h.hash) <= Td(db.headers, current.hash)
    {
      AncestorLighter(db.headers, genesis, current.hash, current.number, h.number);
    }

    method IsPreferred(last: Header, tie: TieBreak) returns (preferred: bool)
      requires Valid() && last.hash in db.headers && db.headers[last.hash] == last
      ensures Some(preferred) == ReorgNeeded(ttd, Some(Td(db.headers, current.hash)), Some(Td(db.headers, last.hash)),
                                             current.number, last.number, tie)
      ensures ttd.None? && preferred ==>
                AtLeast(Td(db.headers, last.hash), last.number, Td(db.headers, current.hash), current.number)
      ensures ttd.None? && !preferred ==>
                AtLeast(Td(db.headers, current.hash), current.number, Td(db.headers, last.hash), last.number)
    {
      assert db.tds[current.hash] == Td(db.headers, current.hash) && db.tds[last.hash] == Td(db.headers, last.hash);
      preferred := ReorgNeeded(ttd, Some(db.tds[current.hash]), Some(db.tds[last.hash]),
                               current.number, last.number, tie).value;
    }

    /** The second half of writeHeadersAndSetHead: the last header of a stored run becomes the head header
        exactly when the fork choice prefers it and it is not already canonical.  Without a terminal total
        difficulty the head header ends up at least as heavy as before and as the run. */
    method ChooseHead(headers: seq<Header>, tie: TieBreak) returns (switched: bool, preferred: bool)
      requires Valid() && StoredRun(db.headers, headers) && headers != [] && headers[0].number > 0
      modifies this`db, this`current
      ensures Valid() && db.headers == old(db.headers) && db.tds == old(db.tds)
      ensures var last := headers[|headers| - 1];
        && Some(preferred) == ReorgNeeded(ttd, Some(Td(old(db).headers, old(current).hash)),
                                          Some(Td(old(db).headers, last.hash)), old(current).number, last.number, tie)
        && (switched <==>
              preferred && !(last.number <= old(current).number && ReadCanon(old(db).canon, last.number) == last.hash))
        && current == (if switched then last else old(current))
        && (ttd.None? ==>
              && Td(db.headers, current.hash) >= Td(db.headers, last.hash)
              && Td(db.headers, current.hash) >= Td(db.headers, old(current).hash))
        && (ttd.None? && (switched || !preferred) ==>
              && AtLeast(Td(db.headers, current.hash), current.number, Td(db.headers, last.hash), last.number)
              && AtLeast(Td(db.headers, current.hash), current.number,
                         Td(db.headers, old(current).hash), old(current).number))
    {
      var last := headers[|headers| - 1];
      preferred := IsPreferred(last, tie);
      if !preferred { return false, preferred; }
      if last.number in db.canon && db.canon[last.number] == last.hash && last.number <= current.number {
        CanonicalLighter(last);
        return false, preferred;
      }
      SwitchTo(headers);
      switched := true;
    }

    /** The rest of writeHeadersAndSetHead, with the batch stored. */
    method Report(headers: seq<Header>, inserted: nat, tie: TieBreak) returns (r: HeaderWriteResult)
      requires Valid() && StoredRun(db.headers, headers) && headers != [] && headers[0].number > 0
               && inserted <= |headers|
      modifies this`db, this`current
      ensures Valid() && db.headers == old(db.headers)
      ensures var last := headers[|headers| - 1];
        && last.hash in db.headers && old(current).hash in db.headers
        && r == HeaderWriteResult(StatusOf(db.headers, old(db.canon), ttd, old(current), last, inserted, tie),
                                  |headers| - inserted, inserted, last)
        && current == if r.status.CanonStat? then last else old(current)
    {
      var switched, preferred := ChooseHead(headers, tie);
      var status := if switched then CanonStat else if !preferred && inserted != 0 then SideStat else NonStat;
      r := HeaderWriteResult(status, |headers| - inserted, inserted, headers[|headers| - 1]);
    }

    /** Stores a batch and lets the fork choice decide on the head header.  An error has written nothing; otherwise the
        report is exact, and the last header is the new head exactly if the status is canonical. */
    method WriteHeadersAndSetHead(headers: seq<Header>, interrupted: bool, tie: TieBreak)
      returns (r: Result<HeaderWriteResult>)
      requires Valid() && Verified(db.headers, headers) && headers != []
      modifies this
      ensures r.Ok? <==> headers[0].parent in old(db.tds) && !interrupted
      ensures r.Err? ==> db == old(db) && current == old(current)
      ensures r.Ok? ==>
        var last, known := headers[|headers| - 1], KnownPrefix(old(db.headers), headers, 0);
        && Valid() && db.headers == Extended(old(db.headers), headers)
        && last.hash in db.headers && old(current).hash in db.headers && known <= |headers|
        && var status := StatusOf(db.headers, old(db.canon), ttd, old(current), last, |headers| - known, tie);
        && r.value == HeaderWriteResult(status, known, |headers| - known, last)
        && current == if r.value.status.CanonStat? then last else old(current)
    {
      var w := WriteHeaders(headers, interrupted);
      if w.Err? { return Err(w.error); }
      KnownPrefixStops(old(db.headers), headers, 0);
      ExtendedRun(old(db.headers), headers[0].parent, headers);
      var result := Report(headers, w.value, tie);
      r := Ok(result);
    }
  }

  /** An interrupted import that does leave stale caches: one new header on top of genesis. */
  method InterruptedImport() returns (hc: HeaderChain, r: Result<nat>)
    ensures fresh(hc) && r.Err? && !hc.Valid() && hc.db.headers == map[1 := Header(1, 0, 0, 1, 0, 0)]
  {
    hc := new HeaderChain(Header(1, 0, 0, 1, 0, 0), None);
    var header := Header(2, 1, 1, 1, 0, 0);
    assert Acceptable(hc.db.headers, 1, [header]);
    r := hc.WriteHeaders([header], true);
  }
}
