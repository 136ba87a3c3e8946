/** The dial scheduler's event loop (p2p/dial.go). */
module DialScheduler {
  import opened Basics
  import opened ExpHeap

  /** How long a node is remembered after a dial, in nanoseconds. */
  const DIAL_HISTORY_EXPIRATION: int := 35_000_000_000

  /** A node as far as the scheduler looks at it; it is unreachable if it has an address but no TCP port. */
  datatype Node = Node(id: ID, reachable: bool)

  class DialTask {
    const dest: Node
    var staticPoolIndex: int

    constructor (dest: Node)
      ensures this.dest == dest && staticPoolIndex == -1
    {
      this.dest, staticPoolIndex := dest, -1;
    }
  }

  datatype Event =
    | NodeFound(n: Node)
    | DialDone(id: ID)
    | PeerAdded(id: ID, dialed: bool)
    | PeerRemoved(id: ID, dialed: bool)
    | StaticAdded(n: Node)
    | StaticRemoved(id: ID)
    | HistoryTimer

  datatype DialConfig = DialConfig(self: ID, maxDialPeers: int, maxActiveDials: int)

  // -------------------------------------------------------------- specification

  /** A node may be dialed if it is another one, reachable, and neither being dialed, connected nor recently dialed. */
  predicate MayDial(n: Node, self: ID, dialing: set<ID>, peers: set<ID>, recent: map<ID, int>) {
    n.id != self && n.reachable && n.id !in dialing && n.id !in peers && n.id !in recent
  }

  /** Twice the missing dialed peers, but no more than may be active, less those that are. */
  function FreeSlots(c: DialConfig, dialPeers: int, active: nat): int {
    var slots := (c.maxDialPeers - dialPeers) * 2;
    (if slots > c.maxActiveDials then c.maxActiveDials else slots) - active
  }

  /** What the scheduler knows, without the static pool and the heap that it keeps to answer quickly; of every static
      node it knows whether it is reachable. */
  datatype Knowledge = Knowledge(peers: set<ID>, dialPeers: int, statics: map<ID, bool>, dialing: set<ID>,
                                 recent: map<ID, int>)
  {
    predicate Allows(n: Node, self: ID) { MayDial(n, self, dialing, peers, recent) }

    /** The static nodes that may be dialed. */
    ghost function Pool(self: ID): set<ID> { set id | id in statics && Allows(Node(id, statics[id]), self) }

    function Slots(c: DialConfig): int { FreeSlots(c, dialPeers, |dialing|) }
  }

  datatype Dial = Dial(id: ID, time: int)

  /** A dial is being made and will be remembered. */
  function Dialed(k: Knowledge, d: Dial): Knowledge {
    k.(dialing := k.dialing + {d.id}, recent := k.recent[d.id := d.time + DIAL_HISTORY_EXPIRATION])
  }

  /** The dials that an event leads to; `open` says whether candidates from discovery are being taken. */
  function EventDials(k: Knowledge, e: Event, open: bool, self: ID, now: int): seq<Dial> {
    if e.NodeFound? && open && k.Allows(e.n, self) then [Dial(e.n.id, now)] else []
  }

  /** The meaning of an event. */
  function After(k: Knowledge, e: Event, open: bool, self: ID, now: int): Knowledge {
    match e
    case NodeFound(n) => if open && k.Allows(n, self) then Dialed(k, Dial(n.id, now)) else k
    case DialDone(id) => k.(dialing := k.dialing - {id})
    case PeerAdded(id, dialed) => k.(peers := k.peers + {id}, dialPeers := k.dialPeers + if dialed then 1 else 0)
    case PeerRemoved(id, dialed) => k.(peers := k.peers - {id}, dialPeers := k.dialPeers - if dialed then 1 else 0)
    case StaticAdded(n) => if n.id in k.statics then k else k.(statics := k.statics[n.id := n.reachable])
    case StaticRemoved(id) => k.(statics := k.statics - {id})
    case HistoryTimer => k.(recent := map id | id in k.recent && k.recent[id] >= now :: k.recent[id])
  }

  /** What is known after some static dials. */
  ghost function AfterBurst(k: Knowledge, burst: seq<Dial>): Knowledge {
    if burst == [] then k else Dialed(AfterBurst(k, burst[..|burst| - 1]), burst[|burst| - 1])
  }

  /** Each of some static dials, made one after the other between `from` and `to`, found a free slot and was that of a
      static node that might be dialed. */
  ghost predicate BurstOk(k: Knowledge, burst: seq<Dial>, c: DialConfig, from: int, to: int) {
    if burst == [] then from <= to else
      var before, d := burst[..|burst| - 1], burst[|burst| - 1];
      && BurstOk(k, before, c, from, d.time) && d.time <= to
      && AfterBurst(k, before).Slots(c) > 0 && d.id in AfterBurst(k, before).Pool(c.self)
  }

  lemma BurstMore(k: Knowledge, burst: seq<Dial>, c: DialConfig, from: int, d: Dial)
    requires BurstOk(k, burst, c, from, d.time)
    requires AfterBurst(k, burst).Slots(c) > 0 && d.id in AfterBurst(k, burst).Pool(c.self)
    ensures BurstOk(k, burst + [d], c, from, d.time)
    ensures AfterBurst(k, burst + [d]) == Dialed(AfterBurst(k, burst), d)
  {
    assert (burst + [d])[..|burst|] == burst;
  }

  lemma BurstLater(k: Knowledge, burst: seq<Dial>, c: DialConfig, from: int, to: int, to': int)
    requires BurstOk(k, burst, c, from, to) && to <= to'
    ensures BurstOk(k, burst, c, from, to')
  {
  }

  /** A burst takes one slot and one node of the pool for every dial, and leaves the rest alone. */
  lemma {:induction false} BurstUses(k: Knowledge, burst: seq<Dial>, c: DialConfig, from: int, to: int)
    requires BurstOk(k, burst, c, from, to)
    ensures from <= to && AfterBurst(k, burst).Slots(c) == k.Slots(c) - |burst|
    ensures |AfterBurst(k, burst).Pool(c.self)| == |k.Pool(c.self)| - |burst|
    ensures AfterBurst(k, burst) == k.(dialing := AfterBurst(k, burst).dialing, recent := AfterBurst(k, burst).recent)
    ensures burst != [] ==> k.Slots(c) >= |burst|
    decreases |burst|
  {
    if burst != [] {
      var before, d := burst[..|burst| - 1], burst[|burst| - 1];
      BurstUses(k, before, c, from, d.time);
      var m := AfterBurst(k, before);
      assert Dialed(m, d).Pool(c.self) == m.Pool(c.self) - {d.id};
      assert d.id !in m.dialing;
    }
  }

  /** The static dials before a select: as many as slots and pool allow. */
  ghost predicate FullBurst(k: Knowledge, burst: seq<Dial>, c: DialConfig, from: int, to: int) {
    && BurstOk(k, burst, c, from, to)
    && (AfterBurst(k, burst).Slots(c) > 0 ==> AfterBurst(k, burst).Pool(c.self) == {})
  }

  /** Their number is the smaller of the free slots and the dialable static nodes. */
  lemma BurstSize(k: Knowledge, burst: seq<Dial>, c: DialConfig, from: int, to: int)
    requires FullBurst(k, burst, c, from, to)
    ensures var missing := 2 * (c.maxDialPeers - k.dialPeers);
            var free := (if missing < c.maxActiveDials then missing else c.maxActiveDials) - |k.dialing|;
            |burst| == Min(Max(free, 0), |k.Pool(c.self)|)
  {
    BurstUses(k, burst, c, from, to);
  }

  /** One round of the loop: the static dials before the select, and the event it received at some time. */
  datatype Round = Round(burst: seq<Dial>, event: Event, time: int)

  ghost function AfterRound(k: Knowledge, r: Round, c: DialConfig): Knowledge {
    var b := AfterBurst(k, r.burst);
    After(b, r.event, b.Slots(c) > 0, c.self, r.time)
  }

  ghost function RoundDials(k: Knowledge, r: Round, c: DialConfig): seq<Dial> {
    var b := AfterBurst(k, r.burst);
    r.burst + EventDials(b, r.event, b.Slots(c) > 0, c.self, r.time)
  }

  // -------------------------------------------------------- what a round may do

  /** Fewer dials are running than may be, and fewer than twice the dialed peers that are missing. */
  ghost predicate Room(k: Knowledge, c: DialConfig) {
    |k.dialing| < c.maxActiveDials && |k.dialing| < 2 * (c.maxDialPeers - k.dialPeers)
  }

  lemma SlotFree(k: Knowledge, c: DialConfig)
    ensures k.Slots(c) > 0 <==> Room(k, c)
  {
  }

  /** A node nobody is connected to, dialing or has dialed recently, and not the node itself. */
  ghost predicate Fresh(k: Knowledge, id: ID, self: ID) {
    id != self && id !in k.peers && id !in k.dialing && id !in k.recent
  }

  lemma {:induction false} BurstLimits(k: Knowledge, burst: seq<Dial>, c: DialConfig, from: int, to: int, i: nat)
    requires BurstOk(k, burst, c, from, to) && i < |burst|
    ensures var m := AfterBurst(k, burst[..i]);
            && Room(m, c) && Fresh(m, burst[i].id, c.self)
            && burst[i].id in k.statics && k.statics[burst[i].id] && from <= burst[i].time <= to
    decreases |burst|
  {
    var before, d := burst[..|burst| - 1], burst[|burst| - 1];
    BurstUses(k, before, c, from, d.time);
    SlotFree(AfterBurst(k, before), c);
    if i + 1 < |burst| {
      BurstLimits(k, before, c, from, d.time, i);
      assert before[..i] == burst[..i];
    }
  }

  lemma {:induction false} BurstPrefix(k: Knowledge, burst: seq<Dial>, c: DialConfig, from: int, to: int, i: nat)
    requires BurstOk(k, burst, c, from, to) && i <= |burst|
    ensures AfterBurst(k, burst[..i]).dialPeers == k.dialPeers
    decreases |burst|
  {
    if i < |burst| {
      BurstPrefix(k, burst[..|burst| - 1], c, from, burst[|burst| - 1].time, i);
      assert burst[..|burst| - 1][..i] == burst[..i];
    } else {
      assert burst[..i] == burst;
      BurstUses(k, burst, c, from, to);
    }
  }

  /** Every dial of a round finds both limits unreached, counting the dials made before it, and is that of a fresh node,
      which the event has named or which is static and reachable. */
  lemma DialWithinLimits(k: Knowledge, r: Round, c: DialConfig, from: int, i: nat)
    requires FullBurst(k, r.burst, c, from, r.time) && i < |RoundDials(k, r, c)|
    ensures var d, m := RoundDials(k, r, c)[i], AfterBurst(k, RoundDials(k, r, c)[..i]);
            && Room(m, c) && Fresh(m, d.id, c.self) && m.dialPeers == k.dialPeers && from <= d.time <= r.time
            && (if i < |r.burst| then d.id in k.statics && k.statics[d.id] else r.event == NodeFound(Node(d.id, true)))
  {
    if i < |r.burst| {
      BurstLimits(k, r.burst, c, from, r.time, i);
      assert RoundDials(k, r, c)[..i] == r.burst[..i];
      BurstPrefix(k, r.burst, c, from, r.time, i);
    } else {
      assert RoundDials(k, r, c)[..i] == r.burst;
      SlotFree(AfterBurst(k, r.burst), c);
      BurstUses(k, r.burst, c, from, r.time);
    }
  }

  /** With all dialed peers connected, a round makes no dial. */
  lemma FullHouse(k: Knowledge, r: Round, c: DialConfig, from: int)
    requires FullBurst(k, r.burst, c, from, r.time) && k.dialPeers >= c.maxDialPeers
    ensures RoundDials(k, r, c) == []
  {
    if RoundDials(k, r, c) != [] { DialWithinLimits(k, r, c, from, 0); }
  }

  /** A select leaves a reachable fresh static node undialed only if a limit has been reached. */
  lemma NoneOverlooked(k: Knowledge, burst: seq<Dial>, c: DialConfig, from: int, to: int, id: ID)
    requires FullBurst(k, burst, c, from, to) && id in k.statics && k.statics[id]
    requires Room(AfterBurst(k, burst), c)
    ensures !Fresh(AfterBurst(k, burst), id, c.self)
  {
    BurstUses(k, burst, c, from, to);
    SlotFree(AfterBurst(k, burst), c);
  }

  /** A candidate from discovery is dialed exactly if it is fresh and reachable and no limit has been reached. */
  lemma CandidateDialed(k: Knowledge, r: Round, c: DialConfig, n: Node)
    requires r.event == NodeFound(n)
    ensures var b := AfterBurst(k, r.burst);
            RoundDials(k, r, c) ==
            r.burst + if Room(b, c) && Fresh(b, n.id, c.self) && n.reachable then [Dial(n.id, r.time)] else []
  {
    SlotFree(AfterBurst(k, r.burst), c);
  }

  lemma {:induction false} BurstMembers(k: Knowledge, burst: seq<Dial>, id: ID)
    ensures id in AfterBurst(k, burst).dialing <==> id in k.dialing || exists d | d in burst :: d.id == id
    ensures id in AfterBurst(k, burst).recent <==> id in k.recent || exists d | d in burst :: d.id == id
    decreases |burst|
  {
    if burst != [] {
      var before, last := burst[..|burst| - 1], burst[|burst| - 1];
      assert burst == before + [last];
      BurstMembers(k, before, id);
    }
  }

  /** A node is being dialed after a round exactly if it was before or was dialed in it, and is not reported done. */
  lemma RoundDialing(k: Knowledge, r: Round, c: DialConfig, id: ID)
    ensures var dialed := exists d | d in RoundDials(k, r, c) :: d.id == id;
            id in AfterRound(k, r, c).dialing <==> (id in k.dialing || dialed) && r.event != DialDone(id)
  {
    BurstMembers(k, r.burst, id);
  }

  lemma {:induction false} LastExpiry(k: Knowledge, burst: seq<Dial>, id: ID)
    ensures var b := AfterBurst(k, burst);
            id in b.recent ==>
              || (id in k.recent && b.recent[id] == k.recent[id])
              || exists d | d in burst :: d.id == id && b.recent[id] == d.time + 35_000_000_000
    decreases |burst|
  {
    if burst != [] {
      var before, last := burst[..|burst| - 1], burst[|burst| - 1];
      assert burst == before + [last];
      LastExpiry(k, before, id);
    }
  }

  /** A node is remembered after a round exactly if it was before or was dialed in it, and the history timer has not
      fired after its expiry, which is 35 seconds after its last dial. */
  lemma RoundRecent(k: Knowledge, r: Round, c: DialConfig, id: ID)
    ensures var dials, b := RoundDials(k, r, c), AfterBurst(k, r.burst);
            && (id in AfterRound(k, r, c).recent <==>
                  && (id in k.recent || exists d | d in dials :: d.id == id)
                  && !(r.event.HistoryTimer? && id in b.recent && b.recent[id] < r.time))
            && (id in b.recent && id !in k.recent ==>
                  exists d | d in r.burst :: d.id == id && b.recent[id] == d.time + 35_000_000_000)
  {
    BurstMembers(k, r.burst, id);
    LastExpiry(k, r.burst, id);
  }

  ghost function AfterRounds(k: Knowledge, rounds: seq<Round>, c: DialConfig): Knowledge {
    if rounds == [] then k else AfterRound(AfterRounds(k, rounds[..|rounds| - 1], c), rounds[|rounds| - 1], c)
  }

  /** All the dials of a run, in order. */
  ghost function AllDials(k: Knowledge, rounds: seq<Round>, c: DialConfig): seq<Dial> {
    if rounds == [] then [] else
      var before := rounds[..|rounds| - 1];
      AllDials(k, before, c) + RoundDials(AfterRounds(k, before, c), rounds[|rounds| - 1], c)
  }

  /** The time after some rounds. */
  ghost function Clock(from: int, rounds: seq<Round>): int {
    if rounds == [] then from else rounds[|rounds| - 1].time
  }

  /** Every round started as many static dials as it could, and time never ran backwards. */
  ghost predicate AllRoundsOk(k: Knowledge, rounds: seq<Round>, c: DialConfig, from: int) {
    rounds != [] ==>
      var before, r := rounds[..|rounds| - 1], rounds[|rounds| - 1];
      && AllRoundsOk(k, before, c, from)
      && FullBurst(AfterRounds(k, before, c), r.burst, c, Clock(from, before), r.time)
  }

  /** The `j`-th dial of a round, if there is one, is made within both limits and to a fresh node, and there is none if
      all dialed peers are connected. */
  ghost predicate Limited(k: Knowledge, r: Round, c: DialConfig, j: nat) {
    var dials := RoundDials(k, r, c);
    && (k.dialPeers >= c.maxDialPeers ==> dials == [])
    && (j < |dials| ==> var m := AfterBurst(k, dials[..j]); Room(m, c) && Fresh(m, dials[j].id, c.self))
  }

  lemma RoundLimited(k: Knowledge, r: Round, c: DialConfig, from: int, j: nat)
    requires FullBurst(k, r.burst, c, from, r.time)
    ensures Limited(k, r, c, j)
  {
    if k.dialPeers >= c.maxDialPeers { FullHouse(k, r, c, from); }
    if j < |RoundDials(k, r, c)| { DialWithinLimits(k, r, c, from, j); }
  }

  /** Every dial of a run respects the limits as they stand after everything before it. */
  lemma {:induction false} RunWithinLimits(k: Knowledge, rounds: seq<Round>, c: DialConfig, from: int, i: nat, j: nat)
    requires AllRoundsOk(k, rounds, c, from) && i < |rounds|
    ensures Limited(AfterRounds(k, rounds[..i], c), rounds[i], c, j)
    decreases |rounds|
  {
    var before := rounds[..|rounds| - 1];
    if i + 1 < |rounds| {
      RunWithinLimits(k, before, c, from, i, j);
      assert before[..i] == rounds[..i];
    } else {
      RoundLimited(AfterRounds(k, before, c), rounds[i], c, Clock(from, before), j);
    }
  }

  ghost function EventsOf(rounds: seq<Round>): seq<Event> {
    if rounds == [] then [] else EventsOf(rounds[..|rounds| - 1]) + [rounds[|rounds| - 1].event]
  }

  /** From time `from`, when `k` was known, the rounds have received the events, made the dials and led to `k'`. */
  ghost predicate Ran(k: Knowledge, from: int, rounds: seq<Round>, c: DialConfig, events: seq<Event>, dials: seq<Dial>,
                      k': Knowledge, to: int) {
    && AllRoundsOk(k, rounds, c, from) && EventsOf(rounds) == events && to == Clock(from, rounds)
    && k' == AfterRounds(k, rounds, c) && dials == AllDials(k, rounds, c)
  }

  lemma RanMore(k: Knowledge, from: int, rounds: seq<Round>, c: DialConfig, events: seq<Event>, dials: seq<Dial>,
                k': Knowledge, to: int, r: Round)
    requires Ran(k, from, rounds, c, events, dials, k', to) && FullBurst(k', r.burst, c, to, r.time)
    ensures Ran(k, from, rounds + [r], c, events + [r.event], dials + RoundDials(k', r, c), AfterRound(k', r, c),
                r.time)
  {
    assert (rounds + [r])[..|rounds|] == rounds;
  }

  /** What the scheduler has been told from outside. */
  datatype Told = Told(peers: set<ID>, dialPeers: int, statics: map<ID, bool>)

  function Learn(t: Told, e: Event): Told {
    match e
    case PeerAdded(id, dialed) => t.(peers := t.peers + {id}, dialPeers := t.dialPeers + if dialed then 1 else 0)
    case PeerRemoved(id, dialed) => t.(peers := t.peers - {id}, dialPeers := t.dialPeers - if dialed then 1 else 0)
    case StaticAdded(n) => if n.id in t.statics then t else t.(statics := t.statics[n.id := n.reachable])
    case StaticRemoved(id) => t.(statics := t.statics - {id})
    case _ => t
  }

  ghost function LearnAll(t: Told, events: seq<Event>): Told {
    if events == [] then t else Learn(LearnAll(t, events[..|events| - 1]), events[|events| - 1])
  }

  /** Whether a peer is connected after some events, if `was` says so before. */
  ghost function Connected(events: seq<Event>, id: ID, was: bool): bool {
    if events == [] then was else
      match events[|events| - 1]
      case PeerAdded(p, _) => p == id || Connected(events[..|events| - 1], id, was)
      case PeerRemoved(p, _) => p != id && Connected(events[..|events| - 1], id, was)
      case _ => Connected(events[..|events| - 1], id, was)
  }

  /** How many more dialed peers were added than removed. */
  ghost function DialedNet(events: seq<Event>): int {
    if events == [] then 0 else
      var e := events[|events| - 1];
      DialedNet(events[..|events| - 1])
      + (if e.PeerAdded? && e.dialed then 1 else 0) - (if e.PeerRemoved? && e.dialed then 1 else 0)
  }

  /** Whether a node is static after some events, and then whether it is reachable as first added. */
  ghost function StaticSince(events: seq<Event>, id: ID, was: Option<bool>): Option<bool> {
    if events == [] then was else
      var e, before := events[|events| - 1], StaticSince(events[..|events| - 1], id, was);
      if e == StaticRemoved(id) then None
      else if before.None? && e.StaticAdded? && e.n.id == id then Some(e.n.reachable)
      else before
  }

  /** What the events teach, node by node. */
  lemma {:induction false} LearnedAbout(t: Told, events: seq<Event>, id: ID)
    ensures var t' := LearnAll(t, events);
            && (id in t'.peers <==> Connected(events, id, id in t.peers))
            && t'.dialPeers == t.dialPeers + DialedNet(events)
            && (if id in t'.statics then Some(t'.statics[id]) else None)
               == StaticSince(events, id, if id in t.statics then Some(t.statics[id]) else None)
    decreases |events|
  {
    if events != [] { LearnedAbout(t, events[..|events| - 1], id); }
  }

  ghost function ToldOf(k: Knowledge): Told {
    Told(k.peers, k.dialPeers, k.statics)
  }

  lemma RoundLearns(k: Knowledge, r: Round, c: DialConfig, from: int)
    requires BurstOk(k, r.burst, c, from, r.time)
    ensures ToldOf(AfterRound(k, r, c)) == Learn(ToldOf(k), r.event)
  {
    BurstUses(k, r.burst, c, from, r.time);
  }

  lemma EventCount(rounds: seq<Round>)
    ensures |EventsOf(rounds)| == |rounds|
  {
  }

  /** Peers, their count and the static nodes are what the events said, whatever was dialed and when. */
  lemma {:induction false} RoundsLearn(k: Knowledge, rounds: seq<Round>, c: DialConfig, from: int)
    requires AllRoundsOk(k, rounds, c, from)
    ensures ToldOf(AfterRounds(k, rounds, c)) == LearnAll(ToldOf(k), EventsOf(rounds))
    decreases |rounds|
  {
    if rounds != [] {
      var before, r := rounds[..|rounds| - 1], rounds[|rounds| - 1];
      RoundsLearn(k, before, c, from);
      RoundLearns(AfterRounds(k, before, c), r, c, Clock(from, before));
      assert EventsOf(rounds)[..|rounds| - 1] == EventsOf(before) by { EventCount(before); }
    }
  }

  /** Two dials to the same node are more than the expiration time apart. */
  ghost predicate Spaced(log: seq<Dial>) {
    forall i, j | 0 <= i < j < |log| && log[i].id == log[j].id :: log[i].time + DIAL_HISTORY_EXPIRATION < log[j].time
  }

  /** `last` knows the latest dial of every node in the log. */
  ghost predicate LastDials(log: seq<Dial>, last: map<ID, int>) {
    forall i | 0 <= i < |log| :: log[i].id in last && log[i].time <= last[log[i].id]
  }

  /** The heap holds each recently dialed node exactly once, with its expiry. */
  ghost predicate Remembers(items: multiset<Item>, recent: map<ID, int>) {
    forall x: Item :: items[x] == if x.id in recent && recent[x.id] == x.exp then 1 else 0
  }

  /** Nodes are remembered from their last dial until after the expiration time. */
  ghost predicate Aged(recent: map<ID, int>, last: map<ID, int>, now: int) {
    && (forall id | id in recent :: id in last && recent[id] == last[id] + DIAL_HISTORY_EXPIRATION)
    && (forall id | id in last :: last[id] <= now && (id in recent || last[id] + DIAL_HISTORY_EXPIRATION < now))
  }

  /** Only expired nodes have been forgotten. */
  ghost predicate Shed(before: map<ID, int>, recent: map<ID, int>, now: int) {
    && (forall id | id in recent :: id in before && recent[id] == before[id])
    && (forall id | id in before && id !in recent :: before[id] < now)
  }

  lemma ShedMore(before: map<ID, int>, recent: map<ID, int>, now: int, id: ID)
    requires Shed(before, recent, now) && id in recent && recent[id] < now
    ensures Shed(before, recent - {id}, now)
  {
  }

  lemma ShedAll(before: map<ID, int>, recent: map<ID, int>, now: int)
    requires Shed(before, recent, now) && forall id | id in recent :: recent[id] >= now
    ensures recent == map id | id in before && before[id] >= now :: before[id]
  {
  }

  lemma RemembersAdd(items: multiset<Item>, recent: map<ID, int>, id: ID, exp: int)
    requires Remembers(items, recent) && id !in recent
    ensures Remembers(items + multiset{Item(id, exp)}, recent[id := exp])
  {
  }

  lemma RemembersRemove(items: multiset<Item>, items': multiset<Item>, recent: map<ID, int>, x: Item)
    requires Remembers(items, recent) && items == items' + multiset{x}
    ensures x.id in recent && recent[x.id] == x.exp && Remembers(items', recent - {x.id})
  {
    assert items[x] == 1;
  }

  lemma SpacedAdd(log: seq<Dial>, last: map<ID, int>, id: ID, now: int)
    requires Spaced(log) && LastDials(log, last) && (forall k | k in last :: last[k] <= now)
    requires id in last ==> last[id] + DIAL_HISTORY_EXPIRATION < now
    ensures Spaced(log + [Dial(id, now)]) && LastDials(log + [Dial(id, now)], last[id := now])
  {
  }

  /** The heap, the latest dials and the log of all dials agree at time `now`. */
  ghost predicate Recorded(items: multiset<Item>, recent: map<ID, int>, last: map<ID, int>, log: seq<Dial>, now: int) {
    Remembers(items, recent) && Aged(recent, last, now) && Spaced(log) && LastDials(log, last)
  }

  lemma RecordedAdd(items: multiset<Item>, recent: map<ID, int>, last: map<ID, int>, log: seq<Dial>, now: int, id: ID)
    requires Recorded(items, recent, last, log, now) && id !in recent
    ensures var exp := now + DIAL_HISTORY_EXPIRATION;
            Recorded(items + multiset{Item(id, exp)}, recent[id := exp], last[id := now], log + [Dial(id, now)], now)
  {
    RemembersAdd(items, recent, id, now + DIAL_HISTORY_EXPIRATION);
    SpacedAdd(log, last, id, now);
  }

  lemma RecordedExpire(items: multiset<Item>, items': multiset<Item>, recent: map<ID, int>, last: map<ID, int>,
                       log: seq<Dial>, now: int, x: Item)
    requires Recorded(items, recent, last, log, now) && items == items' + multiset{x} && x.exp < now
    ensures x.id in recent && recent[x.id] == x.exp && Recorded(items', recent - {x.id}, last, log, now)
  {
    RemembersRemove(items, items', recent, x);
  }

  /** Which static nodes are reachable. */
  ghost function Reachable(statics: map<ID, DialTask>): map<ID, bool> {
    map id | id in statics :: statics[id].dest.reachable
  }

  lemma ReachableAdd(statics: map<ID, DialTask>, id: ID, task: DialTask)
    ensures Reachable(statics[id := task]) == Reachable(statics)[id := task.dest.reachable]
  {
  }

  lemma ReachableRemove(statics: map<ID, DialTask>, id: ID)
    ensures Reachable(statics - {id}) == Reachable(statics) - {id}
  {
  }

  /** The pool after the last task has taken the place of the one at `i`. */
  function SwapRemove(pool: seq<DialTask>, i: nat): seq<DialTask>
    requires i < |pool|
  {
    pool[i := pool[|pool| - 1]][..|pool| - 1]
  }

  /** One running task per dialing entry. */
  lemma {:induction false} SameSize(dialing: map<ID, DialTask>, running: set<DialTask>)
    requires forall id | id in dialing :: dialing[id].dest.id == id && dialing[id] in running
    requires forall t | t in running :: t.dest.id in dialing && dialing[t.dest.id] == t
    ensures |dialing| == |running|
    decreases running
  {
    if t :| t in running {
      SameSize(dialing - {t.dest.id}, running - {t});
      assert |dialing - {t.dest.id}| == |dialing| - 1 by {
        assert (dialing - {t.dest.id}).Keys == dialing.Keys - {t.dest.id};
      }
    } else {
      assert dialing.Keys == {};
    }
  }

  /** When the first expiry is not before `now`, none is. */
  lemma AllLater(items: seq<Item>, recent: map<ID, int>, now: int)
    requires Ordered(items) && Remembers(multiset(items), recent) && (items != [] ==> items[0].exp >= now)
    ensures forall id | id in recent :: recent[id] >= now
  {
    MinAll(items);
    forall id | id in recent ensures recent[id] >= now {
      assert multiset(items)[Item(id, recent[id])] == 1;
    }
  }

  lemma RemembersIds(items: multiset<Item>, recent: map<ID, int>, id: ID)
    requires Remembers(items, recent)
    ensures id in recent <==> exists x :: x in items && x.id == id
  {
    if id in recent { assert items[Item(id, recent[id])] == 1; }
  }

  class DialScheduler {
    const config: DialConfig
    const history: ExpHeap

    var dialing: map<ID, DialTask>
    var peers: set<ID>
    var dialPeers: int
    var statics: map<ID, DialTask>
    var staticPool: seq<DialTask>
    var now: int

    /** The dial tasks whose goroutines have not reported completion yet. */
    ghost var running: set<DialTask>
    /** The static tasks there have ever been. */
    ghost var tasks: set<DialTask>
    ghost var pooled: set<ID>
    ghost var recent: map<ID, int>
    ghost var last: map<ID, int>
    ghost var log: seq<Dial>

    /** checkDial finds nothing against dialing the node. */
    ghost predicate Dialable(n: Node)
      reads this`dialing, this`peers, this`recent
    {
      MayDial(n, config.self, dialing.Keys, peers, recent)
    }

    ghost function Known(): Knowledge
      reads this`peers, this`dialPeers, this`statics, this`dialing, this`recent
    {
      Knowledge(peers, dialPeers, Reachable(statics), dialing.Keys, recent)
    }

    /** Static tasks are kept under the node they dial. */
    ghost predicate Keyed()
      reads this`statics
    {
      forall id | id in statics :: statics[id].dest.id == id
    }

    /** Every pool slot points to a static task that points back to it; `pooled` names the nodes in the pool, and
        every other static task points nowhere. */
    ghost predicate PoolOk()
      reads this`statics, this`staticPool, this`pooled, this`tasks, tasks
    {
      && (forall i | 0 <= i < |staticPool| ::
            && staticPool[i] in tasks && staticPool[i].dest.id in pooled && staticPool[i].staticPoolIndex == i
            && staticPool[i].dest.id in statics && statics[staticPool[i].dest.id] == staticPool[i])
      && Keyed() && (forall id | id in statics ::
                       statics[id] in tasks && (id !in pooled ==> statics[id].staticPoolIndex == -1))
      && (forall id | id in pooled :: id in statics && 0 <= statics[id].staticPoolIndex < |staticPool|
                                     && staticPool[statics[id].staticPoolIndex] == statics[id])
    }

    /** A static task is in the pool exactly when it may be dialed. */
    ghost predicate Exact()
      reads this`dialing, this`peers, this`recent, this`statics, this`pooled
    {
      forall id | id in statics :: id in pooled <==> Dialable(statics[id].dest)
    }

    /** Running tasks and dialing entries correspond one to one, and there are not too many. */
    ghost predicate DialingOk()
      reads this`dialing, this`running
    {
      && (forall id | id in dialing :: dialing[id].dest.id == id && dialing[id] in running)
      && (forall t | t in running :: t.dest.id in dialing && dialing[t.dest.id] == t)
      && (|dialing| == 0 || |dialing| <= config.maxActiveDials)
    }

    ghost predicate Valid()
      reads this, history, tasks
    {
      HistoryOk() && PoolOk() && Exact() && DialingOk()
    }

    ghost predicate HistoryOk()
      reads this`recent, this`last, this`log, this`now, history
    {
      history.Valid() && Recorded(multiset(history.items), recent, last, log, now)
    }

    constructor (config: DialConfig, now: int)
      ensures Valid() && fresh(history) && this.config == config && this.now == now
      ensures Known() == Knowledge({}, 0, map[], {}, map[]) && log == []
    {
      this.config, this.now := config, now;
      history := new ExpHeap();
      dialing, peers, dialPeers, statics, staticPool := map[], {}, 0, map[], [];
      running, tasks, pooled, recent, last, log := {}, {}, {}, map[], map[], [];
    }

    // ------------------------------------------------------------ static pool

    ghost predicate Linked()
      reads this`staticPool, staticPool
    {
      forall i | 0 <= i < |staticPool| :: staticPool[i].staticPoolIndex == i
    }

    /** Appends a task, which must not be in the pool already. */
    method AddToStaticPool(task: DialTask)
      requires task.staticPoolIndex < 0
      modifies this`staticPool, task
      ensures staticPool == old(staticPool) + [task] && task.staticPoolIndex == |staticPool| - 1
    {
      staticPool := staticPool + [task];
      task.staticPoolIndex := |staticPool| - 1;
    }

    /** Takes the entry at `idx` out by moving the last one into its place. */
    method RemoveFromStaticPool(idx: int)
      requires 0 <= idx < |staticPool| && Linked()
      modifies this`staticPool, staticPool
      ensures Linked() && staticPool == SwapRemove(old(staticPool), idx)
      ensures old(staticPool)[idx].staticPoolIndex == -1 && old(staticPool)[idx] !in staticPool
      ensures forall t | t in old(staticPool) && t != old(staticPool)[idx] :: t in staticPool
    {
      var task := staticPool[idx];
      var end := |staticPool| - 1;
      ghost var before := staticPool;
      staticPool := staticPool[idx := staticPool[end]];
      staticPool[idx].staticPoolIndex := idx;
      staticPool := staticPool[..end];
      task.staticPoolIndex := -1;
      forall t | t in before && t != task ensures t in staticPool {
        var k :| 0 <= k < |before| && before[k] == t;
        assert k < end ==> staticPool[k] == t;
        assert k == end ==> staticPool[idx] == t;
      }
    }

    /** Exactness for every static task except possibly the one of `id`. */
    ghost predicate ExactBut(id: ID)
      reads this`dialing, this`peers, this`recent, this`statics, this`pooled
    {
      forall k | k in statics && k != id :: k in pooled <==> Dialable(statics[k].dest)
    }

    method Enroll(id: ID)
      requires PoolOk() && id in statics && id !in pooled
      modifies this`staticPool, this`pooled, tasks
      ensures PoolOk() && pooled == old(pooled) + {id}
    {
      AddToStaticPool(statics[id]);
      pooled := pooled + {id};
    }

    method Withdraw(id: ID)
      requires PoolOk() && id in pooled
      modifies this`staticPool, this`pooled, tasks
      ensures PoolOk() && pooled == old(pooled) - {id}
    {
      ghost var before, removed := staticPool, statics[id];
      RemoveFromStaticPool(statics[id].staticPoolIndex);
      pooled := pooled - {id};
      forall k | k in pooled ensures statics[k] in staticPool { assert statics[k] in before && statics[k] != removed; }
    }

    method Enter(task: DialTask)
      requires PoolOk() && task.dest.id !in statics && task.staticPoolIndex == -1
      modifies this`statics, this`tasks
      ensures PoolOk() && statics == old(statics)[task.dest.id := task] && tasks == old(tasks) + {task}
    {
      statics := statics[task.dest.id := task];
      tasks := tasks + {task};
    }

    method Register(n: Node)
      requires PoolOk() && Exact() && n.id !in statics
      modifies this`statics, this`tasks
      ensures PoolOk() && ExactBut(n.id) && n.id !in pooled
      ensures n.id in statics && statics == old(statics)[n.id := statics[n.id]] && statics[n.id].dest == n
              && fresh(statics[n.id])
      ensures tasks == old(tasks) + {statics[n.id]}
      ensures Reachable(statics) == Reachable(old(statics))[n.id := n.reachable]
    {
      var task := new DialTask(n);
      ReachableAdd(statics, n.id, task);
      Enter(task);
    }

    method Enlist(n: Node)
      requires PoolOk() && Exact() && n.id !in statics
      modifies this`statics, this`tasks
      ensures PoolOk() && ExactBut(n.id) && n.id !in pooled
      ensures n.id in statics && statics == old(statics)[n.id := statics[n.id]] && statics[n.id].dest == n
              && fresh(statics[n.id])
      ensures tasks == old(tasks) + {statics[n.id]}
      ensures Known() == After(old(Known()), StaticAdded(n), true, config.self, now)
    {
      Register(n);
    }

    method UnregisterPooled(id: ID)
      requires PoolOk() && id in pooled
      modifies this`statics, this`staticPool, this`pooled, tasks
      ensures PoolOk() && statics == old(statics) - {id} && pooled == old(pooled) - {id}
    {
      ghost var before := staticPool;
      var task := statics[id];
      statics, pooled := statics - {id}, pooled - {id};
      RemoveFromStaticPool(task.staticPoolIndex);
      forall i | 0 <= i < |staticPool| ensures staticPool[i] in before && staticPool[i].dest.id in pooled {
        assert staticPool[i] in staticPool;
      }
      forall k | k in pooled ensures statics[k] in staticPool { assert statics[k] in before && statics[k] != task; }
    }

    method Unregister(id: ID)
      requires PoolOk() && id in statics
      modifies this`statics, this`staticPool, this`pooled, tasks
      ensures PoolOk() && statics == old(statics) - {id} && pooled == old(pooled) - {id}
    {
      if statics[id].staticPoolIndex >= 0 {
        UnregisterPooled(id);
      } else {
        statics := statics - {id};
        pooled := pooled - {id};
      }
    }

    /** An error exactly when the node should not be dialed. */
    method CheckDial(n: Node) returns (ok: bool)
      requires HistoryOk()
      ensures ok <==> Dialable(n)
    {
      if n.id == config.self { return false; }
      if !n.reachable { return false; }
      if n.id in dialing { return false; }
      if n.id in peers { return false; }
      var known := history.Contains(n.id);
      RemembersIds(multiset(history.items), recent, n.id);
      ok := !known;
    }

    /** Puts the static task of `id` back into the pool if it may be dialed again. */
    method UpdateStaticPool(id: ID)
      requires HistoryOk() && DialingOk() && PoolOk() && ExactBut(id)
      requires id in pooled ==> Dialable(statics[id].dest)
      modifies this`staticPool, this`pooled, tasks
      ensures Valid() && Known() == old(Known()) && log == old(log)
    {
      if id in statics && statics[id].staticPoolIndex < 0 {
        var ok := CheckDial(statics[id].dest);
        if ok { Enroll(id); }
      }
    }

    /** Takes the static task of `id`, which may no longer be dialed, out of the pool. */
    method LeaveStaticPool(id: ID)
      requires HistoryOk() && DialingOk() && PoolOk() && ExactBut(id)
      requires id in statics ==> !Dialable(statics[id].dest)
      modifies this`staticPool, this`pooled, tasks
      ensures Valid() && pooled == old(pooled) - {id} && Known() == old(Known()) && log == old(log)
    {
      if id in statics && statics[id].staticPoolIndex >= 0 { Withdraw(id); }
    }

    // ------------------------------------------------------------------- dials

    /** Enters a dial of `id` into the history, where it may then be logged. */
    method Remember(id: ID)
      requires HistoryOk() && id !in recent
      modifies this`recent, this`last, history
      ensures history.Valid() && Recorded(multiset(history.items), recent, last, log + [Dial(id, now)], now)
      ensures Known() == old(Known()).(recent := old(recent)[id := now + DIAL_HISTORY_EXPIRATION])
    {
      RecordedAdd(multiset(history.items), recent, last, log, now, id);
      history.Add(id, now + DIAL_HISTORY_EXPIRATION);
      recent := recent[id := now + DIAL_HISTORY_EXPIRATION];
      last := last[id := now];
    }

    /** Registers the node as dialing and lets its goroutine go; this is what the log records. */
    method Launch(task: DialTask)
      requires DialingOk() && task.dest.id !in dialing && |dialing| < config.maxActiveDials
      modifies this`dialing, this`running, this`log
      ensures DialingOk() && dialing == old(dialing)[task.dest.id := task] && running == old(running) + {task}
      ensures |dialing| == old(|dialing|) + 1 && log == old(log) + [Dial(task.dest.id, now)]
      ensures Known() == old(Known()).(dialing := old(dialing.Keys) + {task.dest.id})
    {
      dialing := dialing[task.dest.id := task];
      running := running + {task};
      log := log + [Dial(task.dest.id, now)];
    }

    /** Remembers the node and launches its dial. */
    method Begin(task: DialTask)
      requires HistoryOk() && DialingOk() && Dialable(task.dest) && |dialing| < config.maxActiveDials
      modifies this`dialing, this`running, this`recent, this`last, this`log, history
      ensures HistoryOk() && DialingOk()
      ensures dialing == old(dialing)[task.dest.id := task] && running == old(running) + {task}
      ensures |dialing| == old(|dialing|) + 1
      ensures Known() == Dialed(old(Known()), Dial(task.dest.id, now)) && log == old(log) + [Dial(task.dest.id, now)]
    {
      Remember(task.dest.id);
      Launch(task);
    }

    /** Starts a dial. */
    method StartDial(task: DialTask)
      requires HistoryOk() && DialingOk() && Keyed() && Exact() && Dialable(task.dest)
      requires |dialing| < config.maxActiveDials
      modifies this`dialing, this`running, this`recent, this`last, this`log, history
      ensures HistoryOk() && DialingOk() && ExactBut(task.dest.id) && !Dialable(task.dest)
      ensures dialing == old(dialing)[task.dest.id := task] && running == old(running) + {task}
      ensures |dialing| == old(|dialing|) + 1 && Known() == Dialed(old(Known()), Dial(task.dest.id, now))
      ensures log == old(log) + [Dial(task.dest.id, now)]
    {
      Begin(task);
      forall k | k in statics && k != task.dest.id ensures k in pooled <==> Dialable(statics[k].dest) {
        assert statics[k].dest.id == k;
      }
    }

    function FreeDialSlots(): int
      reads this
    {
      FreeSlots(config, dialPeers, |dialing|)
    }

    /** Since time `from`, when `k` was known and the log was `log0`, the static dials of `burst` have been made. */
    ghost predicate Bursting(k: Knowledge, log0: seq<Dial>, from: int, burst: seq<Dial>)
      reads this`peers, this`dialPeers, this`statics, this`dialing, this`recent, this`log, this`now
    {
      BurstOk(k, burst, config, from, now) && Known() == AfterBurst(k, burst) && log == log0 + burst
    }

    /** The pool is what the specification says. */
    lemma PoolIs()
      requires PoolOk() && Exact()
      ensures pooled == Known().Pool(config.self) && (staticPool == [] <==> pooled == {})
    {
      if staticPool != [] { assert staticPool[0].dest.id in pooled; }
    }

    method StartPooled(task: DialTask)
      requires Valid() && task.dest.id in pooled && statics[task.dest.id] == task && FreeDialSlots() > 0
      modifies this`dialing, this`running, this`recent, this`last, this`log, history
      ensures HistoryOk() && DialingOk() && PoolOk() && ExactBut(task.dest.id) && !Dialable(task.dest)
      ensures |dialing| == old(|dialing|) + 1
      ensures Known() == Dialed(old(Known()), Dial(task.dest.id, now)) && log == old(log) + [Dial(task.dest.id, now)]
    {
      StartDial(task);
    }

    method DialPooled(task: DialTask)
      requires Valid() && task.dest.id in pooled && statics[task.dest.id] == task && FreeDialSlots() > 0
      modifies this`dialing, this`running, this`recent, this`last, this`log, this`staticPool, this`pooled, history,
               tasks
      ensures Valid() && |dialing| == old(|dialing|) + 1
      ensures Known() == Dialed(old(Known()), Dial(task.dest.id, now)) && log == old(log) + [Dial(task.dest.id, now)]
    {
      StartPooled(task);
      LeaveStaticPool(task.dest.id);
    }

    method DialSome() returns (ghost d: Dial)
      requires Valid() && FreeDialSlots() > 0 && |staticPool| > 0
      modifies this`dialing, this`running, this`recent, this`last, this`log, this`staticPool, this`pooled, history,
               tasks
      ensures Valid() && FreeDialSlots() == old(FreeDialSlots()) - 1
      ensures d.time == now && d.id in old(Known()).Pool(config.self) && old(Known()).Slots(config) > 0
      ensures Known() == Dialed(old(Known()), d) && log == old(log) + [d]
    {
      var idx: int := *;
      if !(0 <= idx < |staticPool|) { idx := 0; }
      PoolIs();
      d := Dial(staticPool[idx].dest.id, now);
      DialPooled(staticPool[idx]);
    }

    /** Some time passes; the clock never runs backwards. */
    method Tick()
      requires Valid()
      modifies this`now
      ensures Valid() && now >= old(now)
    {
      var t: int := *;
      if t > now { now := t; }
    }

    /** Dials some node of the pool, after some time. */
    method StartSome(ghost k: Knowledge, ghost log0: seq<Dial>, ghost from: int, ghost burst: seq<Dial>)
      returns (ghost burst': seq<Dial>)
      requires Valid() && Bursting(k, log0, from, burst) && FreeDialSlots() > 0 && |staticPool| > 0
      modifies this`now, this`dialing, this`running, this`recent, this`last, this`log, this`staticPool, this`pooled,
               history, tasks
      ensures Valid() && Bursting(k, log0, from, burst') && |burst'| == |burst| + 1
      ensures FreeDialSlots() == old(FreeDialSlots()) - 1
    {
      Tick();
      BurstLater(k, burst, config, from, old(now), now);
      ghost var d := DialSome();
      BurstMore(k, burst, config, from, d);
      Regroup(log0, burst, [d]);
      burst' := burst + [d];
    }

    /** Starts up to `n` static dials, in any order and with time passing, until the pool is empty. */
    method StartStaticDials(n: int) returns (started: nat, ghost burst: seq<Dial>)
      requires Valid() && n == FreeDialSlots()
      modifies this`now, this`dialing, this`running, this`recent, this`last, this`log, this`staticPool, this`pooled,
               history, tasks
      ensures Valid() && Bursting(old(Known()), old(log), old(now), burst) && |burst| == started
      ensures n - started == FreeDialSlots() && (n > started ==> staticPool == [])
    {
      started, burst := 0, [];
      ghost var k, log0, from := Known(), log, now;
      while started < n && |staticPool| > 0
        invariant Valid() && Bursting(k, log0, from, burst) && |burst| == started
        invariant n - started == FreeDialSlots()
        decreases n - started
      {
        burst := StartSome(k, log0, from, burst);
        started := started + 1;
      }
    }

    // ------------------------------------------------------------------- events

    method DialNode(n: Node)
      requires Valid() && staticPool == [] && |dialing| < config.maxActiveDials && Dialable(n)
      modifies this`dialing, this`running, this`recent, this`last, this`log, history
      ensures Valid() && Known() == After(old(Known()), NodeFound(n), true, config.self, now)
      ensures log == old(log) + [Dial(n.id, now)]
    {
      var task := new DialTask(n);
      StartDial(task);
    }

    /** A candidate from discovery, which is only taken while the static pool is empty and a slot is free. */
    method OnNode(n: Node)
      requires Valid() && staticPool == [] && |dialing| < config.maxActiveDials
      modifies this`dialing, this`running, this`recent, this`last, this`log, history
      ensures Valid() && Known() == After(old(Known()), NodeFound(n), true, config.self, now)
      ensures log == if old(Dialable(n)) then old(log) + [Dial(n.id, now)] else old(log)
    {
      var ok := CheckDial(n);
      if ok { DialNode(n); }
    }

    method Land(task: DialTask)
      requires DialingOk() && Keyed() && Exact() && task in running
      modifies this`dialing, this`running
      ensures DialingOk() && running == old(running) - {task}
      ensures Known() == After(old(Known()), DialDone(task.dest.id), true, config.self, now)
      ensures ExactBut(task.dest.id) && (task.dest.id in statics ==> task.dest.id !in pooled)
    {
      dialing := dialing - {task.dest.id};
      running := running - {task};
    }

    /** A dial has finished. */
    method OnDone(task: DialTask)
      requires Valid() && task in running
      modifies this`dialing, this`running, this`staticPool, this`pooled, tasks
      ensures Valid() && running == old(running) - {task}
      ensures Known() == After(old(Known()), DialDone(task.dest.id), true, config.self, now)
    {
      Land(task);
      UpdateStaticPool(task.dest.id);
    }

    method CountPeer(id: ID, dialed: bool)
      requires Keyed() && Exact()
      modifies this`peers, this`dialPeers
      ensures ExactBut(id) && Known() == After(old(Known()), PeerAdded(id, dialed), true, config.self, now)
      ensures id in statics ==> !Dialable(statics[id].dest)
    {
      if dialed { dialPeers := dialPeers + 1; }
      peers := peers + {id};
    }

    method OnAddPeer(id: ID, dialed: bool)
      requires Valid()
      modifies this`peers, this`dialPeers, this`staticPool, this`pooled, tasks
      ensures Valid() && Known() == After(old(Known()), PeerAdded(id, dialed), true, config.self, now)
    {
      CountPeer(id, dialed);
      LeaveStaticPool(id);
    }

    method DiscountPeer(id: ID, dialed: bool)
      requires Keyed() && Exact()
      modifies this`peers, this`dialPeers
      ensures ExactBut(id) && Known() == After(old(Known()), PeerRemoved(id, dialed), true, config.self, now)
      ensures id in statics && id in pooled ==> Dialable(statics[id].dest)
    {
      if dialed { dialPeers := dialPeers - 1; }
      peers := peers - {id};
    }

    method OnRemovePeer(id: ID, dialed: bool)
      requires Valid()
      modifies this`peers, this`dialPeers, this`staticPool, this`pooled, tasks
      ensures Valid() && Known() == After(old(Known()), PeerRemoved(id, dialed), true, config.self, now)
    {
      DiscountPeer(id, dialed);
      UpdateStaticPool(id);
    }

    method AddNewStatic(n: Node)
      requires Valid() && n.id !in statics
      modifies this`statics, this`tasks, this`staticPool, this`pooled, tasks
      ensures Valid() && Known() == After(old(Known()), StaticAdded(n), true, config.self, now)
      ensures n.id in statics && statics == old(statics)[n.id := statics[n.id]] && statics[n.id].dest == n
      ensures tasks == old(tasks) + {statics[n.id]} && fresh(statics[n.id])
    {
      Enlist(n);
      UpdateStaticPool(n.id);
    }

    method OnAddStatic(n: Node)
      requires Valid()
      modifies this`statics, this`tasks, this`staticPool, this`pooled, tasks
      ensures Valid() && Known() == After(old(Known()), StaticAdded(n), true, config.self, now)
      ensures n.id in old(statics) ==> statics == old(statics) && staticPool == old(staticPool) && tasks == old(tasks)
      ensures n.id !in old(statics) ==>
        && n.id in statics && statics == old(statics)[n.id := statics[n.id]] && statics[n.id].dest == n
        && tasks == old(tasks) + {statics[n.id]} && fresh(statics[n.id])
      ensures forall t | t in tasks && t !in old(tasks) :: fresh(t)
    {
      if n.id !in statics { AddNewStatic(n); }
    }

    method Drop(id: ID)
      requires PoolOk() && Exact() && id in statics
      modifies this`statics, this`staticPool, this`pooled, tasks
      ensures PoolOk() && Exact() && statics == old(statics) - {id}
      ensures Known() == After(old(Known()), StaticRemoved(id), true, config.self, now)
    {
      ReachableRemove(statics, id);
      Unregister(id);
    }

    method OnRemoveStatic(id: ID)
      requires Valid()
      modifies this`statics, this`staticPool, this`pooled, tasks
      ensures Valid() && statics == old(statics) - {id}
      ensures Known() == After(old(Known()), StaticRemoved(id), true, config.self, now)
    {
      if id in statics { Drop(id); }
    }

    /** Drops the oldest history entry. */
    method Forget() returns (id: ID)
      requires HistoryOk() && Keyed() && Exact() && |history.items| > 0 && history.NextExpiry() < now
      modifies this`recent, history
      ensures HistoryOk() && |history.items| == old(|history.items|) - 1
      ensures id in old(recent) && old(recent)[id] < now && recent == old(recent) - {id}
      ensures ExactBut(id) && (id in statics ==> id !in pooled)
    {
      ghost var before := multiset(history.items);
      var x := history.Pop();
      RecordedExpire(before, multiset(history.items), recent, last, log, now, x);
      recent := recent - {x.id};
      id := x.id;
    }

    method ExpireOne() returns (id: ID)
      requires Valid() && |history.items| > 0 && history.NextExpiry() < now
      modifies this`recent, this`staticPool, this`pooled, history, tasks
      ensures Valid() && |history.items| == old(|history.items|) - 1
      ensures id in old(recent) && old(recent)[id] < now && recent == old(recent) - {id}
    {
      id := Forget();
      UpdateStaticPool(id);
    }

    method Sweep()
      requires Valid()
      modifies this`recent, this`staticPool, this`pooled, history, tasks
      ensures Valid() && Shed(old(recent), recent, now) && (history.items == [] || history.NextExpiry() >= now)
    {
      ghost var before := recent;
      while |history.items| > 0 && history.NextExpiry() < now
        invariant Valid() && Shed(before, recent, now)
        decreases |history.items|
      {
        ghost var r := recent;
        var id := ExpireOne();
        ShedMore(before, r, now, id);
      }
    }

    /** The history timer fires: forgets expired nodes, putting static ones back into the pool as it goes. */
    method ExpireHistory()
      requires Valid()
      modifies this`recent, this`staticPool, this`pooled, history, tasks
      ensures Valid()
      ensures Known() == After(old(Known()), HistoryTimer, true, config.self, now)
    {
      Sweep();
      AllLater(history.items, recent, now);
      ShedAll(old(recent), recent, now);
    }

    // ------------------------------------------------------------------ the loop

    method HandleDone(id: ID)
      requires Valid()
      modifies this`dialing, this`running, this`staticPool, this`pooled, tasks
      ensures Valid() && Known() == After(old(Known()), DialDone(id), true, config.self, now)
    {
      if id in dialing { OnDone(dialing[id]); } else { assert dialing.Keys - {id} == dialing.Keys; }
    }

    method HandlePeer(e: Event, slots: int)
      requires Valid() && (e.PeerAdded? || e.PeerRemoved?)
      modifies this`peers, this`dialPeers, this`dialing, this`running, this`recent, this`last, this`log,
               this`staticPool, this`pooled, history, tasks
      ensures Valid() && Known() == After(old(Known()), e, slots > 0, config.self, now)
      ensures log == old(log) + EventDials(old(Known()), e, slots > 0, config.self, now)
    {
      match e
      case PeerAdded(id, dialed) => OnAddPeer(id, dialed);
      case PeerRemoved(id, dialed) => OnRemovePeer(id, dialed);
    }

    method HandleDynamic(e: Event, slots: int)
      requires Valid() && !e.StaticAdded? && !e.StaticRemoved? && slots == FreeDialSlots()
               && (slots > 0 ==> staticPool == [])
      modifies this`peers, this`dialPeers, this`dialing, this`running, this`recent, this`last, this`log,
               this`staticPool, this`pooled, history, tasks
      ensures Valid() && Known() == After(old(Known()), e, slots > 0, config.self, now)
      ensures log == old(log) + EventDials(old(Known()), e, slots > 0, config.self, now)
    {
      match e
      case NodeFound(n) => if slots > 0 { OnNode(n); }
      case DialDone(id) => HandleDone(id);
      case PeerAdded(_, _) => HandlePeer(e, slots);
      case PeerRemoved(_, _) => HandlePeer(e, slots);
      case HistoryTimer => ExpireHistory();
    }

    method HandleStatic(e: Event, slots: int)
      requires Valid() && (e.StaticAdded? || e.StaticRemoved?)
      modifies this`statics, this`tasks, this`staticPool, this`pooled, tasks
      ensures Valid() && forall t | t in tasks && t !in old(tasks) :: fresh(t)
      ensures Known() == After(old(Known()), e, slots > 0, config.self, now)
      ensures log == old(log) + EventDials(old(Known()), e, slots > 0, config.self, now)
    {
      match e
      case StaticAdded(n) => OnAddStatic(n);
      case StaticRemoved(id) => OnRemoveStatic(id);
    }

    /** Handles one event; `slots` are the dial slots left after starting static dials. */
    method Handle(e: Event, slots: int)
      requires Valid() && slots == FreeDialSlots() && (slots > 0 ==> staticPool == [])
      modifies this, history, tasks
      ensures Valid() && now == old(now) && forall t | t in tasks && t !in old(tasks) :: fresh(t)
      ensures Known() == After(old(Known()), e, slots > 0, config.self, now)
      ensures log == old(log) + EventDials(old(Known()), e, slots > 0, config.self, now)
    {
      if e.StaticAdded? || e.StaticRemoved? { HandleStatic(e, slots); } else { HandleDynamic(e, slots); }
    }

    /** Since time `from`, when `k` was known and the log was `log0`, the rounds have received the events and made the
        dials. */
    ghost predicate Running(k: Knowledge, log0: seq<Dial>, from: int, rounds: seq<Round>, events: seq<Event>,
                            dials: seq<Dial>)
      reads this`peers, this`dialPeers, this`statics, this`dialing, this`recent, this`log, this`now
    {
      log == log0 + dials && Ran(k, from, rounds, config, events, dials, Known(), now)
    }

    /** Starts static dials, waits, and returns the slots that are left for dynamic ones. */
    method Prepare() returns (slots: int, ghost burst: seq<Dial>)
      requires Valid()
      modifies this`now, this`dialing, this`running, this`recent, this`last, this`log, this`staticPool, this`pooled,
               history, tasks
      ensures Valid() && FullBurst(old(Known()), burst, config, old(now), now)
      ensures Known() == AfterBurst(old(Known()), burst) && log == old(log) + burst
      ensures slots == FreeDialSlots() && (slots > 0 ==> staticPool == [])
    {
      slots := FreeDialSlots();
      var started;
      started, burst := StartStaticDials(slots);
      slots := slots - started;
      ghost var t := now;
      Tick();
      BurstLater(old(Known()), burst, config, old(now), t, now);
    }

    /** One round of the loop. */
    method Turn(e: Event) returns (ghost r: Round, ghost dials: seq<Dial>)
      requires Valid()
      modifies this, history, tasks
      ensures Valid() && (forall t | t in tasks && t !in old(tasks) :: fresh(t)) && r.event == e && now == r.time
      ensures FullBurst(old(Known()), r.burst, config, old(now), now)
      ensures Known() == AfterRound(old(Known()), r, config)
      ensures dials == RoundDials(old(Known()), r, config) && log == old(log) + dials
    {
      var slots;
      ghost var burst;
      slots, burst := Prepare();
      ghost var log0, tasks0, ev := old(log), old(tasks), EventDials(Known(), e, slots > 0, config.self, now);
      assert tasks == tasks0;
      Handle(e, slots);
      r, dials := Round(burst, e, now), burst + ev;
      Regroup(log0, burst, ev);
    }

    method TurnNext(ghost k: Knowledge, ghost log0: seq<Dial>, ghost from: int, ghost rounds: seq<Round>,
                    ghost done: seq<Event>, ghost dials: seq<Dial>, e: Event)
      returns (ghost rounds': seq<Round>, ghost dials': seq<Dial>)
      requires Valid() && Running(k, log0, from, rounds, done, dials)
      modifies this, history, tasks
      ensures Valid() && forall t | t in tasks && t !in old(tasks) :: fresh(t)
      ensures Running(k, log0, from, rounds', done + [e], dials')
    {
      ghost var r, d := Turn(e);
      RanMore(k, from, rounds, config, done, dials, old(Known()), old(now), r);
      Regroup(log0, dials, d);
      rounds', dials' := rounds + [r], dials + d;
    }

    /** The event loop: before every select it starts static dials in the free slots and listens for dynamic
        candidates only if slots remain.  For any sequence of events and any monotone clock it goes through rounds in
        which the static dials are as many as slots and pool allow, and the event has exactly its meaning; the dials
        made are exactly those of the rounds.  At every select point the pool holds exactly the dialable static
        tasks, no two running dials share a node, they do not exceed the limit, and dials to one node are spaced.
        What it has been told is what the events said. */
    method Loop(events: seq<Event>) returns (ghost rounds: seq<Round>, ghost dials: seq<Dial>)
      requires Valid()
      modifies this, history, tasks
      ensures Valid() && Spaced(log) && log == old(log) + dials
      ensures Ran(old(Known()), old(now), rounds, config, events, dials, Known(), now)
      ensures ToldOf(Known()) == LearnAll(ToldOf(old(Known())), events)
    {
      rounds, dials := [], [];
      ghost var k, log0, from := Known(), log, now;
      for i := 0 to |events|
        invariant Valid() && forall t | t in tasks && t !in old(tasks) :: fresh(t)
        invariant Running(k, log0, from, rounds, events[..i], dials)
      {
        rounds, dials := TurnNext(k, log0, from, rounds, events[..i], dials, events[i]);
        TakeNext(events, i);
      }
      TakeAll(events);
      RoundsLearn(k, rounds, config, from);
    }

    /** Shutdown: receives as many completions as there are dialing entries, which are exactly the outstanding ones. */
    method Drain()
      requires Valid()
      modifies this`running
      ensures running == {} && dialing == old(dialing)
    {
      SameSize(dialing, running);
      for i := 0 to |dialing|
        invariant |running| == |dialing| - i
      {
        ghost var task :| task in running;
        running := running - {task};
      }
    }
  }
}
