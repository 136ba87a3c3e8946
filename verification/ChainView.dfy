/** The chain engine seen from outside: which blocks are stored, their total
    difficulties, and the head.  The canonical index and the transaction index are
    functions of a view, so a run of the engine is specified by how the view moves. */
module ChainView {
  import opened Basics
  import opened BlockTree
  import opened ForkChoice

  type Bodies = map<Hash, seq<Tx>>

  datatype Block = Block(header: Header, txs: seq<Tx>)

  datatype View = View(headers: Store, bodies: Bodies, tds: map<Hash, nat>, head: Hash)

  datatype Op =
    | Import(block: Block, tie: TieBreak)  // writeBlockAndSetHead
    | ImportSide(block: Block)             // writeBlockWithoutState
    | SwitchTo(hash: Hash)                 // writeKnownBlock and SetCanonical

  /** A view reachable from genesis `g`: every stored block is linked to genesis and carries
      the total difficulty of its chain. */
  ghost predicate Consistent(v: View, g: Hash) {
    && Closed(v.headers, g)
    && v.bodies.Keys == v.headers.Keys
    && v.tds.Keys == v.headers.Keys
    && (forall h | h in v.headers :: v.tds[h] == Td(v.headers, h))
    && v.head in v.headers
  }

  ghost predicate AdmissibleBlock(v: View, b: Block) {
    && b.header.hash != ZERO_HASH
    && b.header.number > 0
    && (b.header.parent in v.headers ==> v.headers[b.header.parent].number == b.header.number - 1)
    && (b.header.hash in v.headers ==> v.headers[b.header.hash] == b.header)
    && (b.header.hash in v.bodies ==> v.bodies[b.header.hash] == b.txs)
  }

  /** What header verification and hashing guarantee about a block handed to the engine. */
  ghost predicate Admissible(v: View, op: Op) {
    match op
    case Import(b, _) => AdmissibleBlock(v, b)
    case ImportSide(b) => AdmissibleBlock(v, b)
    case SwitchTo(h) => h in v.headers
  }

  function Lookup<K, V>(m: map<K, V>, k: K): (r: Option<V>) {
    if k in m then Some(m[k]) else None
  }

  /** Storing a block with the difficulty of its parent plus its own. */
  ghost function Written(v: View, b: Block): View
    requires b.header.parent in v.tds
  {
    v.(headers := v.headers[b.header.hash := b.header],
       bodies := v.bodies[b.header.hash := b.txs],
       tds := v.tds[b.header.hash := b.header.difficulty + v.tds[b.header.parent]])
  }

  /** A block stored next to the canonical chain, if its parent is known. */
  ghost function Side(v: View, b: Block): View {
    if b.header.parent in v.tds then Written(v, b) else v
  }

  /** The first `k` blocks of a batch, stored one after the other. */
  ghost function SideAll(v: View, chain: seq<Block>, k: nat): View
    requires k <= |chain|
  {
    if k == 0 then v else Side(SideAll(v, chain, k - 1), chain[k - 1])
  }

  /** The fork choice prefers a block to the head. */
  ghost predicate Prefers(v: View, b: Block, tie: TieBreak, ttd: Option<nat>)
    requires v.head in v.headers && b.header.parent in v.tds
  {
    var w := Written(v, b);
    var local := w.headers[v.head];
    var choice :=
      ReorgNeeded(ttd, Lookup(w.tds, v.head), Lookup(w.tds, b.header.hash), local.number, b.header.number, tie);
    choice == Some(true)
  }

  ghost function Step(v: View, op: Op, ttd: Option<nat>): View
    requires v.head in v.headers
  {
    match op
    case Import(b, tie) =>
      if b.header.parent !in v.tds then v
      else if Prefers(v, b, tie, ttd) then Written(v, b).(head := b.header.hash)
      else Written(v, b)
    case ImportSide(b) => Side(v, b)
    case SwitchTo(h) => if h in v.headers then v.(head := h) else v
  }

  ghost function Run(v: View, ops: seq<Op>, ttd: Option<nat>): View
    decreases |ops|
  {
    if ops == [] || v.head !in v.headers then v else Run(Step(v, ops[0], ttd), ops[1..], ttd)
  }

  lemma {:induction false} RunMore(v: View, ops: seq<Op>, op: Op, ttd: Option<nat>)
    requires v.head in v.headers && Run(v, ops, ttd).head in Run(v, ops, ttd).headers
    ensures Run(v, ops + [op], ttd) == Step(Run(v, ops, ttd), op, ttd)
    decreases |ops|
  {
    if ops == [] {
      assert ops + [op] == [op];
    } else {
      var w := Step(v, ops[0], ttd);
      assert (ops + [op])[0] == ops[0] && (ops + [op])[1..] == ops[1..] + [op];
      if w.head in w.headers { RunMore(w, ops[1..], op, ttd); }
    }
  }

  /** Storing a batch is a run of side imports. */
  lemma {:induction false} SideAllRuns(v: View, chain: seq<Block>, k: nat, ttd: Option<nat>)
    requires k <= |chain| && v.head in v.headers
    ensures SideAll(v, chain, k) == Run(v, seq(k, i requires 0 <= i < k => ImportSide(chain[i])), ttd)
    ensures SideAll(v, chain, k).head == v.head && v.headers.Keys <= SideAll(v, chain, k).headers.Keys
  {
    if k > 0 {
      SideAllRuns(v, chain, k - 1, ttd);
      var ops := seq(k - 1, i requires 0 <= i < k - 1 => ImportSide(chain[i]));
      assert seq(k, i requires 0 <= i < k => ImportSide(chain[i])) == ops + [ImportSide(chain[k - 1])];
      RunMore(v, ops, ImportSide(chain[k - 1]), ttd);
    }
  }

  ghost predicate AdmissibleRun(v: View, ops: seq<Op>, ttd: Option<nat>)
    decreases |ops|
  {
    ops == [] ||
    (v.head in v.headers && Admissible(v, ops[0]) && AdmissibleRun(Step(v, ops[0], ttd), ops[1..], ttd))
  }

  lemma WrittenConsistent(v: View, b: Block, g: Hash)
    requires Consistent(v, g) && b.header.parent in v.tds && AdmissibleBlock(v, b)
    ensures Consistent(Written(v, b), g)
    ensures forall h | h in v.headers :: Written(v, b).tds[h] == v.tds[h]
  {
    ClosedAdd(v.headers, g, b.header);
  }

  /** Storing a block again changes nothing. */
  lemma WrittenAgain(v: View, b: Block, g: Hash)
    requires Consistent(v, g) && b.header.parent in v.tds && AdmissibleBlock(v, b)
    ensures b.header.hash in v.headers ==> Written(v, b) == v
  {
    if b.header.hash in v.headers {
      ClosedAdd(v.headers, g, b.header);
      assert v.headers[b.header.hash := b.header] == v.headers;
    }
  }

  /** Every step keeps each stored total difficulty equal to the sum of its chain. */
  lemma StepConsistent(v: View, op: Op, ttd: Option<nat>, g: Hash)
    requires Consistent(v, g) && Admissible(v, op)
    ensures Consistent(Step(v, op, ttd), g)
  {
    match op
    case Import(b, tie) => if b.header.parent in v.tds { WrittenConsistent(v, b, g); }
    case ImportSide(b) => if b.header.parent in v.tds { WrittenConsistent(v, b, g); }
    case SwitchTo(h) =>
  }

  lemma {:induction false} RunConsistent(v: View, ops: seq<Op>, ttd: Option<nat>, g: Hash)
    requires Consistent(v, g) && AdmissibleRun(v, ops, ttd)
    ensures Consistent(Run(v, ops, ttd), g)
    decreases |ops|
  {
    if ops != [] {
      StepConsistent(v, ops[0], ttd, g);
      RunConsistent(Step(v, ops[0], ttd), ops[1..], ttd, g);
    }
  }

  // ------------------------------------------------------------- heaviest head

  ghost predicate Heaviest(v: View)
    requires v.head in v.headers && v.tds.Keys == v.headers.Keys
  {
    forall h | h in v.tds :: v.tds[h] <= v.tds[v.head]
  }

  ghost predicate ImportsOnly(ops: seq<Op>) {
    forall i | 0 <= i < |ops| :: ops[i].Import?
  }

  /** The head of `w` ranks at least as high as the head of `v`. */
  ghost predicate RankAtLeast(w: View, v: View)
    requires v.head in v.headers && v.tds.Keys == v.headers.Keys
    requires w.head in w.headers && w.tds.Keys == w.headers.Keys
  {
    AtLeast(w.tds[w.head], w.headers[w.head].number, v.tds[v.head], v.headers[v.head].number)
  }

  /** One import from a heaviest head leaves a heaviest head, if and only if the terminal
      total difficulty did not force a lighter block on it. */
  lemma ImportHeaviest(v: View, b: Block, tie: TieBreak, ttd: Option<nat>, g: Hash)
    requires Consistent(v, g) && Heaviest(v) && Admissible(v, Import(b, tie)) && b.header.parent in v.tds
    ensures var w := Step(v, Import(b, tie), ttd);
            && Consistent(w, g)
            && (Heaviest(w) <==> ttd.None? || w.tds[b.header.hash] < ttd.value || w.tds[b.header.hash] >= v.tds[v.head])
            && (ttd.None? || w.tds[b.header.hash] < ttd.value ==> RankAtLeast(w, v))
  {
    var w := Step(v, Import(b, tie), ttd);
    WrittenConsistent(v, b, g);
    assert w.tds[v.head] == v.tds[v.head];
    assert w.headers[v.head] == v.headers[v.head];
    if !(ttd.None? || w.tds[b.header.hash] < ttd.value || w.tds[b.header.hash] >= v.tds[v.head]) {
      assert v.head in w.tds && w.tds[v.head] > w.tds[w.head];
    }
  }

  /** With a terminal total difficulty of 2, a block of total difficulty 2 replaces a head of total difficulty 6. */
  lemma LighterHead(tie: TieBreak)
    ensures var v := View(map[1 := Header(1, 0, 0, 1, 0, 0), 2 := Header(2, 1, 1, 5, 0, 0)],
                          map[1 := [], 2 := []], map[1 := 1, 2 := 6], 2);
            var w := Step(v, Import(Block(Header(3, 1, 1, 1, 0, 0), []), tie), Some(2));
            && Consistent(v, 1) && Heaviest(v)
            && w.head == 3 && w.tds == map[1 := 1, 2 := 6, 3 := 2] && w.headers.Keys == w.tds.Keys && !Heaviest(w)
  {
    var s: Store := map[1 := Header(1, 0, 0, 1, 0, 0), 2 := Header(2, 1, 1, 5, 0, 0)];
    assert Linked(s, 1, 1, 0) && Td(s, 1) == 1;
    assert Linked(s, 1, 2, 1) && Td(s, 2) == 6;
    assert map[1 := 1, 2 := 6, 3 := 2][2] == 6;
  }

  /** Without a terminal total difficulty, any run of imports ends on a block of maximal
      total difficulty among everything stored, with a rank no lower than at the start. */
  lemma {:induction false} RunHeaviest(v: View, ops: seq<Op>, g: Hash)
    requires Consistent(v, g) && Heaviest(v) && ImportsOnly(ops) && AdmissibleRun(v, ops, None)
    ensures var w := Run(v, ops, None);
            Consistent(w, g) && Heaviest(w) && RankAtLeast(w, v)
    decreases |ops|
  {
    if ops != [] {
      var w := Step(v, ops[0], None);
      if ops[0].block.header.parent in v.tds {
        ImportHeaviest(v, ops[0].block, ops[0].tie, None, g);
      }
      RunHeaviest(w, ops[1..], g);
    }
  }

  /** No stored block ranks above the head: none is heavier, and none as heavy is lower. */
  ghost predicate Foremost(v: View)
    requires v.head in v.headers && v.tds.Keys == v.headers.Keys
  {
    forall h | h in v.headers :: AtLeast(v.tds[v.head], v.headers[v.head].number, v.tds[h], v.headers[h].number)
  }

  /** One import keeps the head foremost, if and only if the terminal total difficulty did not force a block of lower
      rank on it. */
  lemma ImportForemost(v: View, b: Block, tie: TieBreak, ttd: Option<nat>, g: Hash)
    requires Consistent(v, g) && Foremost(v) && Admissible(v, Import(b, tie)) && b.header.parent in v.tds
    ensures var w := Step(v, Import(b, tie), ttd);
            && Consistent(w, g)
            && (Foremost(w) <==>
                  || ttd.None? || w.tds[b.header.hash] < ttd.value
                  || AtLeast(w.tds[b.header.hash], b.header.number, v.tds[v.head], v.headers[v.head].number))
  {
    var w := Step(v, Import(b, tie), ttd);
    WrittenConsistent(v, b, g);
    assert w.tds[v.head] == v.tds[v.head] && w.headers[v.head] == v.headers[v.head];
  }

  /** Without a terminal total difficulty, after any run of imports no stored block ranks above the head. */
  lemma {:induction false} RunForemost(v: View, ops: seq<Op>, g: Hash)
    requires Consistent(v, g) && Foremost(v) && ImportsOnly(ops) && AdmissibleRun(v, ops, None)
    ensures var w := Run(v, ops, None); Consistent(w, g) && Foremost(w)
    decreases |ops|
  {
    if ops != [] {
      if ops[0].block.header.parent in v.tds { ImportForemost(v, ops[0].block, ops[0].tie, None, g); }
      RunForemost(Step(v, ops[0], None), ops[1..], g);
    }
  }

  /** A new block of the head's own rank becomes the head unless the head is the miner's own; for a block that is
      not the miner's own either, the coin has to say so. */
  lemma TieAtTheTop(v: View, b: Block, tie: TieBreak, g: Hash)
    requires Consistent(v, g) && Admissible(v, Import(b, tie)) && b.header.parent in v.tds
    requires Written(v, b).tds[b.header.hash] == v.tds[v.head] && b.header.number == v.headers[v.head].number
    ensures Step(v, Import(b, tie), None).head
         == if !tie.currentPreserve && (tie.externPreserve || tie.coin) then b.header.hash else v.head
  {
    WrittenConsistent(v, b, g);
    RankDecides(v.tds[v.head], v.tds[v.head], b.header.number, b.header.number, None, tie);
  }

  /** An import, on the canonical chain or beside it, stores the block with its transactions and the difficulty of its
      chain if its parent is known, and changes nothing else but the head. */
  lemma ImportStores(v: View, op: Op, ttd: Option<nat>, g: Hash, h: Hash)
    requires Consistent(v, g) && (op.Import? || op.ImportSide?) && Admissible(v, op)
    requires op.block.header.parent in v.headers
    ensures var w, b := Step(v, op, ttd), op.block.header;
            && w.headers.Keys == w.bodies.Keys == w.tds.Keys == v.headers.Keys + {b.hash}
            && w.headers[b.hash] == b && w.bodies[b.hash] == op.block.txs
            && w.tds[b.hash] == v.tds[b.parent] + b.difficulty
            && (h in v.headers ==> w.headers[h] == v.headers[h] && w.bodies[h] == v.bodies[h] && w.tds[h] == v.tds[h])
            && (op.ImportSide? ==> w.head == v.head)
  {
    WrittenConsistent(v, op.block, g);
  }

  /** A block whose parent is unknown leaves everything as it is. */
  lemma OrphanIgnored(v: View, b: Block, tie: TieBreak, ttd: Option<nat>, g: Hash)
    requires Consistent(v, g) && b.header.parent !in v.headers
    ensures Step(v, Import(b, tie), ttd) == v == Step(v, ImportSide(b), ttd)
  {
  }

  /** A switch to a stored block makes it the head, with whatever rank, and it stays the head while blocks are only
      stored beside the canonical chain. */
  lemma {:induction false} SwitchSticks(v: View, h: Hash, chain: seq<Block>, k: nat, ttd: Option<nat>)
    requires v.head in v.headers && h in v.headers && k <= |chain|
    ensures SideAll(Step(v, SwitchTo(h), ttd), chain, k).head == h
    ensures Step(v, SwitchTo(h), ttd).(head := v.head) == v
  {
    if k > 0 { SwitchSticks(v, h, chain, k - 1, ttd); }
  }

  // --------------------------------------------------------- transaction index

  ghost function Entries(txs: seq<Tx>, n: nat): map<Tx, nat> {
    map t | t in txs :: n
  }

  /** The transaction index of the blocks above height `m` on the walk from `(h, number)`,
      built by importing them in order. */
  ghost function IndexAbove(s: Store, bodies: Bodies, h: Hash, number: nat, m: int): map<Tx, nat>
    requires -1 <= m <= number
    decreases number
  {
    if m == number || Get(s, h, number).None? || h !in bodies then map[]
    else (if number == 0 then map[] else IndexAbove(s, bodies, s[h].parent, number - 1, m)) + Entries(bodies[h], number)
  }

  /** The transaction index of the whole chain ending in `h`. */
  ghost function IndexOf(s: Store, bodies: Bodies, h: Hash): map<Tx, nat>
    requires h in s
  {
    IndexAbove(s, bodies, h, s[h].number, -1)
  }

  lemma MergeAssociative(a: map<Tx, nat>, b: map<Tx, nat>, c: map<Tx, nat>)
    ensures a + b + c == a + (b + c)
  {
  }

  /** Indexing a chain is indexing its lower part and then its upper part. */
  lemma {:induction false} IndexSplit(s: Store, bodies: Bodies, h: Hash, number: nat, m: nat, k: int)
    requires -1 <= k <= m <= number && ZERO_HASH !in s && s.Keys == bodies.Keys
    ensures IndexAbove(s, bodies, h, number, k)
         == IndexAbove(s, bodies, Walk(s, h, number, m), m, k) + IndexAbove(s, bodies, h, number, m)
    decreases number
  {
    if number > m && Get(s, h, number).Some? {
      IndexSplit(s, bodies, s[h].parent, number - 1, m, k);
      MergeAssociative(IndexAbove(s, bodies, Walk(s, h, number, m), m, k),
                       IndexAbove(s, bodies, s[h].parent, number - 1, m), Entries(bodies[h], number));
    }
  }

  /** Stepping one block further down adds that block's transactions. */
  lemma IndexStepDown(s: Store, bodies: Bodies, h: Hash, number: nat, m: nat)
    requires m <= number && ZERO_HASH !in s && s.Keys == bodies.Keys
    requires Get(s, Walk(s, h, number, m), m).Some?
    ensures IndexAbove(s, bodies, h, number, m - 1)
         == Entries(bodies[Walk(s, h, number, m)], m) + IndexAbove(s, bodies, h, number, m)
  {
    IndexSplit(s, bodies, h, number, m, m - 1);
    var w := Walk(s, h, number, m);
    assert IndexAbove(s, bodies, w, m, m - 1) == Entries(bodies[w], m);
  }

  /** No transaction is in two blocks of the chain ending in `(h, number)`. */
  ghost predicate UniqueTxs(s: Store, bodies: Bodies, h: Hash, number: nat)
    decreases number
  {
    (Get(s, h, number).Some? && h in bodies && number > 0) ==>
      && UniqueTxs(s, bodies, s[h].parent, number - 1)
      && (forall t | t in bodies[h] :: t !in IndexAbove(s, bodies, s[h].parent, number - 1, -1))
  }

  lemma {:induction false} IndexBounded(s: Store, bodies: Bodies, h: Hash, number: nat, m: int)
    requires -1 <= m <= number
    ensures forall t | t in IndexAbove(s, bodies, h, number, m) :: m < IndexAbove(s, bodies, h, number, m)[t] <= number
    decreases number
  {
    if m < number && Get(s, h, number).Some? && number > 0 { IndexBounded(s, bodies, s[h].parent, number - 1, m); }
  }

  /** On such a chain the index says exactly which block holds which transaction. */
  lemma {:induction false} IndexLocates(s: Store, bodies: Bodies, g: Hash, h: Hash, number: nat, t: Tx, n: nat)
    requires s.Keys == bodies.Keys && Linked(s, g, h, number) && UniqueTxs(s, bodies, h, number) && n <= number
    ensures Walk(s, h, number, n) in bodies
    ensures t in bodies[Walk(s, h, number, n)]
       <==> t in IndexAbove(s, bodies, h, number, -1) && IndexAbove(s, bodies, h, number, -1)[t] == n
    decreases number
  {
    IndexBounded(s, bodies, h, number, -1);
    if n < number {
      IndexLocates(s, bodies, g, s[h].parent, number - 1, t, n);
    } else if number > 0 {
      IndexBounded(s, bodies, s[h].parent, number - 1, -1);
    }
  }

  /** In a chain without repetitions, the upper part shares no transaction with the lower part. */
  lemma {:induction false} UniqueSplit(s: Store, bodies: Bodies, h: Hash, number: nat, m: nat)
    requires m <= number && ZERO_HASH !in s && s.Keys == bodies.Keys && UniqueTxs(s, bodies, h, number)
    ensures IndexAbove(s, bodies, h, number, m).Keys !! IndexAbove(s, bodies, Walk(s, h, number, m), m, -1).Keys
    decreases number
  {
    if number > m && Get(s, h, number).Some? {
      UniqueSplit(s, bodies, s[h].parent, number - 1, m);
      IndexSplit(s, bodies, s[h].parent, number - 1, m, -1);
    }
  }

  /** No stored chain repeats a transaction. */
  ghost predicate RepetitionFree(v: View) {
    forall h | h in v.headers :: UniqueTxs(v.headers, v.bodies, h, v.headers[h].number)
  }

  ghost predicate RepetitionFreeRun(v: View, ops: seq<Op>, ttd: Option<nat>)
    decreases |ops|
  {
    RepetitionFree(v) &&
    (ops == [] || v.head !in v.headers || RepetitionFreeRun(Step(v, ops[0], ttd), ops[1..], ttd))
  }
}
