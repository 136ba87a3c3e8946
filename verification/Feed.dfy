/** One-to-many event delivery (event/feed.go): Send partitions the shared list of select cases in place
    while receivers become ready in any order and removals arrive in the middle. */
module Feed {
  import opened Basics

  type Chan = nat

  /** The channel on which removals interrupt Send; it never belongs to a subscriber. */
  const REMOVE_SUB: Chan := 0

  /** The position of the first case with the given channel, or -1. */
  method Find(cases: seq<Chan>, ch: Chan) returns (index: int)
    ensures -1 <= index < |cases|
    ensures index == -1 <==> ch !in cases
    ensures index >= 0 ==> cases[index] == ch && ch !in cases[..index]
  {
    for i := 0 to |cases|
      invariant ch !in cases[..i]
    {
      if cases[i] == ch { return i; }
    }
    index := -1;
  }

  function Delete(cases: seq<Chan>, index: nat): seq<Chan>
    requires index < |cases|
  {
    cases[..index] + cases[index + 1..]
  }

  function Swap(cases: seq<Chan>, i: nat, j: nat): seq<Chan>
    requires i < |cases| && j < |cases|
  {
    cases[i := cases[j]][j := cases[i]]
  }

  /** The subscriptions in a case list. */
  ghost function Subs(cases: seq<Chan>): multiset<Chan>
    requires |cases| >= 1
  {
    multiset(cases[1..])
  }

  /** The active prefix of length `k`, without slot 0. */
  ghost function Active(cases: seq<Chan>, k: nat): multiset<Chan>
    requires 1 <= k <= |cases|
  {
    multiset(cases[1..k])
  }

  ghost function Served(cases: seq<Chan>, k: nat): multiset<Chan>
    requires 1 <= k <= |cases|
  {
    multiset(cases[k..])
  }

  lemma SubsSplit(cases: seq<Chan>, k: nat)
    requires 1 <= k <= |cases|
    ensures Subs(cases) == Active(cases, k) + Served(cases, k)
  {
    assert cases[1..] == cases[1..k] + cases[k..];
  }

  lemma SwapParts(cases: seq<Chan>, k: nat, i: nat)
    requires 1 <= i < k <= |cases|
    ensures Swap(cases, i, k - 1)[k - 1..] == [cases[i]] + cases[k..]
    ensures Swap(cases, i, k - 1)[1..k - 1] == cases[1..k][i - 1 := cases[k - 1]][..k - 2]
  {
  }

  /** Overwriting an element with the last one and dropping the last takes out just that element. */
  lemma MovedOut(s: seq<Chan>, i: nat)
    requires i < |s|
    ensures var last := |s| - 1; multiset(s) == multiset(s[i := s[last]][..last]) + multiset{s[i]}
  {
    var last := |s| - 1;
    if i == last {
      assert s == s[i := s[last]][..last] + [s[last]];
    } else {
      assert s == s[..i] + [s[i]] + s[i + 1..last] + [s[last]];
      assert s[i := s[last]][..last] == s[..i] + [s[last]] + s[i + 1..last];
    }
  }

  /** Deactivating moves one case from the active prefix to the served suffix. */
  lemma Deactivated(cases: seq<Chan>, k: nat, i: nat)
    requires 1 <= i < k <= |cases|
    ensures var r := Swap(cases, i, k - 1);
            && r[0] == cases[0] && |r| == |cases|
            && Active(cases, k) == Active(r, k - 1) + multiset{cases[i]}
            && Served(r, k - 1) == Served(cases, k) + multiset{cases[i]}
  {
    SwapParts(cases, k, i);
    MovedOut(cases[1..k], i - 1);
  }

  /** Deactivating keeps the subscriptions. */
  lemma SwapKeeps(cases: seq<Chan>, k: nat, i: nat)
    requires 1 <= i < k <= |cases| && REMOVE_SUB !in cases[1..]
    ensures Subs(Swap(cases, i, k - 1)) == Subs(cases) && REMOVE_SUB !in Swap(cases, i, k - 1)[1..]
  {
    Deactivated(cases, k, i);
    SubsSplit(cases, k);
    SubsSplit(Swap(cases, i, k - 1), k - 1);
    assert multiset(Swap(cases, i, k - 1)[1..])[REMOVE_SUB] == multiset(cases[1..])[REMOVE_SUB] == 0;
  }

  lemma DeleteParts(cases: seq<Chan>, k: nat, i: nat)
    requires 1 <= i < |cases| && 1 <= k <= |cases|
    ensures Delete(cases, i)[1..] == Delete(cases[1..], i - 1)
    ensures i < k ==>
      Delete(cases, i)[1..k - 1] == Delete(cases[1..k], i - 1) && Delete(cases, i)[k - 1..] == cases[k..]
    ensures i >= k ==> Delete(cases, i)[1..k] == cases[1..k] && Delete(cases, i)[k..] == Delete(cases[k..], i - k)
  {
  }

  lemma DeletedOne(cases: seq<Chan>, i: nat)
    requires i < |cases|
    ensures multiset(cases) == multiset(Delete(cases, i)) + multiset{cases[i]}
    ensures REMOVE_SUB !in cases ==> REMOVE_SUB !in Delete(cases, i)
  {
    assert cases == cases[..i] + [cases[i]] + cases[i + 1..];
  }

  /** Deleting a case shrinks the part it was in. */
  lemma Deleted(cases: seq<Chan>, k: nat, i: nat)
    requires 1 <= i < |cases| && 1 <= k <= |cases|
    ensures var r := Delete(cases, i);
            && |r| == |cases| - 1 && r[0] == cases[0]
            && Subs(cases) == Subs(r) + multiset{cases[i]}
            && (i < k ==>
                  && Active(cases, k) == Active(r, k - 1) + multiset{cases[i]}
                  && Served(r, k - 1) == Served(cases, k))
            && (i >= k ==> Active(r, k) == Active(cases, k) && Served(cases, k) == Served(r, k) + multiset{cases[i]})
  {
    DeleteParts(cases, k, i);
    DeletedOne(cases[1..], i - 1);
    if i < k { DeletedOne(cases[1..k], i - 1); } else { DeletedOne(cases[k..], i - k); }
  }

  /** Every wanted subscription or queued removal has a case, in the inbox or in the case list, and queued
      removals have theirs in the case list. */
  ghost predicate Balanced(live: multiset<Chan>, removals: multiset<Chan>, inbox: multiset<Chan>,
                           cases: multiset<Chan>) {
    && (forall c :: live[c] + removals[c] == inbox[c] + cases[c])
    && (forall c :: removals[c] <= cases[c])
  }

  lemma BalancedTotal(live: multiset<Chan>, removals: multiset<Chan>, inbox: multiset<Chan>, cases: multiset<Chan>)
    requires Balanced(live, removals, inbox, cases)
    ensures cases + inbox == live + removals
  {
  }

  lemma BalancedDrop(live: multiset<Chan>, removals: multiset<Chan>, inbox: multiset<Chan>, inbox': multiset<Chan>,
                     cases: multiset<Chan>, c: Chan)
    requires Balanced(live, removals, inbox, cases) && c in live && inbox == inbox' + multiset{c}
    ensures Balanced(live - multiset{c}, removals, inbox', cases)
  {
  }

  lemma BalancedQueue(live: multiset<Chan>, removals: multiset<Chan>, inbox: multiset<Chan>, cases: multiset<Chan>,
                      c: Chan)
    requires Balanced(live, removals, inbox, cases) && c in live && c !in inbox
    ensures Balanced(live - multiset{c}, removals + multiset{c}, inbox, cases)
  {
    assert removals[c] < cases[c];
  }

  lemma BalancedTake(live: multiset<Chan>, removals: multiset<Chan>, inbox: multiset<Chan>, cases: multiset<Chan>,
                     cases': multiset<Chan>, c: Chan)
    requires Balanced(live, removals, inbox, cases) && c in removals && cases == cases' + multiset{c}
    ensures Balanced(live, removals - multiset{c}, inbox, cases')
  {
  }

  lemma NoZero(cases: seq<Chan>, r: seq<Chan>, i: nat)
    requires 1 <= i < |cases| && r == Delete(cases, i) && REMOVE_SUB !in cases[1..]
    ensures REMOVE_SUB !in r[1..]
  {
    assert r[1..] == cases[1..i] + cases[i + 1..];
    assert cases[1..] == cases[1..i] + [cases[i]] + cases[i + 1..];
  }

  // ------------------------------------------------------------ other goroutines

  /** What a subscriber may do at any time. */
  datatype Action = Join(ch: Chan) | Leave(ch: Chan)

  /** Where the subscribers stand: the subscriptions wanted, those of them still in the inbox, and all removals
      that were ever queued. */
  datatype Point = Point(wanted: multiset<Chan>, inbox: multiset<Chan>, queued: multiset<Chan>)

  /** A join goes to the inbox.  A leave takes effect once per subscription: one in the inbox is dropped, any other has
      its removal queued. */
  ghost function NextPoint(p: Point, action: Action): Point {
    match action
    case Join(ch) =>
      if ch == REMOVE_SUB then p else p.(wanted := p.wanted + multiset{ch}, inbox := p.inbox + multiset{ch})
    case Leave(ch) =>
      if ch !in p.wanted then p
      else if ch in p.inbox then p.(wanted := p.wanted - multiset{ch}, inbox := p.inbox - multiset{ch})
      else p.(wanted := p.wanted - multiset{ch}, queued := p.queued + multiset{ch})
  }

  /** The point that a list of actions leads to. */
  ghost function History(p: Point, actions: seq<Action>): Point {
    Fold(NextPoint, p, actions)
  }

  /** Joining and leaving again before the next send leaves no trace. */
  lemma JoinedAndLeft(p: Point, ch: Chan)
    requires ch != REMOVE_SUB
    ensures NextPoint(NextPoint(p, Join(ch)), Leave(ch)) == p
  {
    assert p.wanted + multiset{ch} - multiset{ch} == p.wanted && p.inbox + multiset{ch} - multiset{ch} == p.inbox;
  }

  /** `points` holds the points before and after every action. */
  ghost predicate Tracks(points: seq<Point>, actions: seq<Action>) {
    && |points| == |actions| + 1
    && forall i, j | 0 <= i < |actions| && 0 <= j < |points| && j == i + 1 ::
         points[j] == NextPoint(points[i], actions[i])
  }

  lemma Trace(p: Point, actions: seq<Action>) returns (points: seq<Point>)
    ensures Tracks(points, actions) && points[0] == p
    ensures forall i | 0 <= i <= |actions| :: points[i] == History(p, actions[..i])
  {
    points := seq(|actions| + 1, i requires 0 <= i <= |actions| => History(p, actions[..i]));
    forall i, j | 0 <= i < |actions| && 0 <= j < |points| && j == i + 1
      ensures points[j] == NextPoint(points[i], actions[i])
    {
      TakeNext(actions, i);
      FoldNext(NextPoint, p, actions[..i], actions[i]);
    }
  }

  /** Since the removals `r` waited and `c` had been queued, every one queued has been carried out or still waits. */
  ghost predicate Honest(carriedOut: multiset<Chan>, waiting: multiset<Chan>, queued: multiset<Chan>,
                         r: multiset<Chan>, c: multiset<Chan>)
  {
    carriedOut + waiting + c == r + queued
  }

  lemma HonestQueue(done: multiset<Chan>, w: multiset<Chan>, q: multiset<Chan>, r: multiset<Chan>, c: multiset<Chan>,
                    ch: Chan)
    requires Honest(done, w, q, r, c)
    ensures Honest(done, w + multiset{ch}, q + multiset{ch}, r, c)
  {
    assert done + (w + multiset{ch}) + c == done + w + c + multiset{ch}
           && r + (q + multiset{ch}) == r + q + multiset{ch};
  }

  lemma HonestTake(done: multiset<Chan>, w: multiset<Chan>, q: multiset<Chan>, r: multiset<Chan>, c: multiset<Chan>,
                   done': multiset<Chan>, w': multiset<Chan>)
    requires Honest(done, w, q, r, c) && (forall ch :: done'[ch] + w'[ch] == done[ch] + w[ch])
    ensures Honest(done', w', q, r, c)
  {
  }

  /** What became of the subscriptions present when a Send started: delivered to, removed before their
      delivery, or removed after it. */
  datatype Tally = Tally(start: multiset<Chan>, delivered: multiset<Chan>, missed: multiset<Chan>, left: multiset<Chan>)

  ghost function Removed(t: Tally): multiset<Chan> {
    t.missed + t.left
  }

  /** If no removal waited or was queued meanwhile, everybody got the value. */
  lemma NobodyRemoved(t: Tally, w: multiset<Chan>, q: multiset<Chan>, r: multiset<Chan>, c: multiset<Chan>)
    requires t.delivered + t.missed == t.start && Honest(Removed(t), w, q, r, c)
    ensures r == multiset{} && q == c ==> t.delivered == t.start
  {
    if r == multiset{} && q == c {
      forall ch ensures t.missed[ch] == 0 { assert (Removed(t) + w + c)[ch] == (r + q)[ch]; }
    }
  }

  /** Who is wanted and has no removal queued meanwhile is served, and nobody else but those whose removal waited. */
  lemma WantedServed(live: multiset<Chan>, t: Tally, w: multiset<Chan>, q: multiset<Chan>, r: multiset<Chan>,
                     c: multiset<Chan>)
    requires t.delivered + t.missed == t.start == live + r && Honest(Removed(t), w, q, r, c)
    ensures live + c <= t.delivered + q && t.delivered <= live + r && w + c <= r + q
  {
    forall ch ensures live[ch] + c[ch] <= t.delivered[ch] + q[ch] && t.delivered[ch] <= live[ch] + r[ch]
                      && w[ch] + c[ch] <= r[ch] + q[ch] {
      assert (Removed(t) + w + c)[ch] == (r + q)[ch];
      assert (t.delivered + t.missed)[ch] == (live + r)[ch];
    }
  }

  // ---------------------------------------------------------------- whole runs

  /** What can happen to a feed: a subscriber acts, a value is sent while subscribers act, a waiting removal is carried
      out. */
  datatype Step = Act(action: Action) | Emit(actions: seq<Action>) | Remove(ch: Chan)

  /** The books after a step: where the subscribers stand, the removals waiting, all actions so far, and what the step
      delivered. */
  datatype Book = Book(point: Point, waiting: multiset<Chan>, history: seq<Action>, delivered: multiset<Chan>)

  /** A value reaches everybody who was subscribed when it was sent and had no removal queued meanwhile, and otherwise
      only those whose removal still waited. */
  ghost predicate Faithful(b: Book, b': Book) {
    && b.point.wanted + b.point.queued <= b'.delivered + b'.point.queued
    && b'.delivered <= b.point.wanted + b.waiting
    && b'.waiting + b.point.queued <= b.waiting + b'.point.queued
  }

  /** What a step does to the books.  A send empties the inbox and then sees some of the actions performed. */
  ghost predicate Follows(b: Book, step: Step, b': Book) {
    match step
    case Act(action) =>
      && b'.point == NextPoint(b.point, action) && b'.history == b.history + [action] && b'.delivered == multiset{}
      && b'.waiting + b.point.queued == b.waiting + b'.point.queued
    case Emit(actions) =>
      && |b.history| <= |b'.history| <= |b.history| + |actions|
      && var performed := actions[..|b'.history| - |b.history|];
      && b'.history == b.history + performed
      && b'.point == History(b.point.(inbox := multiset{}), performed) && Faithful(b, b')
    case Remove(ch) => b' == b.(waiting := b.waiting - multiset{ch}, delivered := multiset{})
  }

  lemma QueuedBoth(w: multiset<Chan>, q: multiset<Chan>, ch: Chan)
    ensures w + multiset{ch} + q == w + (q + multiset{ch})
  {
  }

  lemma Extends(a: seq<Action>, b: seq<Action>, n: nat)
    requires n <= |b|
    ensures |a + b[..n]| - |a| == n
  {
  }

  /** The books of a whole run. */
  ghost predicate Chronicle(books: seq<Book>, steps: seq<Step>) {
    && |books| == |steps| + 1 && books[0].history == []
    && forall i, j | 0 <= i < |steps| && 0 <= j < |books| && j == i + 1 :: Follows(books[i], steps[i], books[j])
  }

  lemma ChronicleMore(books: seq<Book>, steps: seq<Step>, step: Step, b: Book)
    requires Chronicle(books, steps) && Follows(books[|steps|], step, b)
    ensures Chronicle(books + [b], steps + [step])
  {
  }

  lemma ChronicleAt(books: seq<Book>, steps: seq<Step>, i: nat)
    requires Chronicle(books, steps) && i < |steps|
    ensures Follows(books[i], steps[i], books[i + 1])
  {
  }

  /** How often a channel is subscribed in a history. */
  ghost function Joins(actions: seq<Action>, ch: Chan): nat {
    if actions == [] then 0
    else Joins(actions[..|actions| - 1], ch) + if actions[|actions| - 1] == Join(ch) && ch != REMOVE_SUB then 1 else 0
  }

  /** How often a channel is asked to leave in a history. */
  ghost function Leaves(actions: seq<Action>, ch: Chan): nat {
    if actions == [] then 0
    else Leaves(actions[..|actions| - 1], ch) + if actions[|actions| - 1] == Leave(ch) then 1 else 0
  }

  /** At no point of a history has a channel been asked to leave more often than it had subscriptions. */
  ghost predicate Orderly(subscribed: nat, history: seq<Action>, ch: Chan) {
    forall n | 0 <= n <= |history| :: Leaves(history[..n], ch) <= subscribed + Joins(history[..n], ch)
  }

  lemma CountNext(p: Point, action: Action, ch: Chan)
    ensures var p' := NextPoint(p, action);
            && p'.wanted[ch] == (if action == Join(ch) && ch != REMOVE_SUB then p.wanted[ch] + 1
                                 else if action == Leave(ch) && p.wanted[ch] > 0 then p.wanted[ch] - 1
                                 else p.wanted[ch])
            && p.queued[ch] <= p'.queued[ch] <= p.queued[ch] + if action == Leave(ch) then 1 else 0
  {
  }

  lemma OrderlyPrefix(subscribed: nat, history: seq<Action>, n: nat, ch: Chan)
    requires Orderly(subscribed, history, ch) && n <= |history|
    ensures Orderly(subscribed, history[..n], ch)
  {
    forall m | 0 <= m <= n ensures Leaves(history[..n][..m], ch) <= subscribed + Joins(history[..n][..m], ch) {
      assert history[..n][..m] == history[..m];
    }
  }

  /** What is wanted is what was, and what joined, minus what left. */
  lemma {:induction false} WantedCount(p: Point, history: seq<Action>, ch: Chan)
    requires Orderly(p.wanted[ch], history, ch)
    ensures History(p, history).wanted[ch] == p.wanted[ch] + Joins(history, ch) - Leaves(history, ch)
    decreases |history|
  {
    if history != [] {
      var before, last := history[..|history| - 1], history[|history| - 1];
      OrderlyPrefix(p.wanted[ch], history, |before|, ch);
      WantedCount(p, before, ch);
      assert history[..|history|] == history;
      CountNext(History(p, before), last, ch);
    }
  }

  /** Removals are queued at most as often as they are asked for. */
  lemma {:induction false} QueuedAsked(p: Point, history: seq<Action>, ch: Chan)
    ensures p.queued[ch] <= History(p, history).queued[ch] <= p.queued[ch] + Leaves(history, ch)
    decreases |history|
  {
    if history != [] {
      var before, last := history[..|history| - 1], history[|history| - 1];
      QueuedAsked(p, before, ch);
      CountNext(History(p, before), last, ch);
    }
  }

  lemma {:induction false} LeavesConcat(a: seq<Action>, b: seq<Action>, ch: Chan)
    ensures Leaves(a + b, ch) == Leaves(a, ch) + Leaves(b, ch)
    decreases |b|
  {
    if b == [] {
      assert a + b == a;
    } else {
      assert (a + b)[..|a + b| - 1] == a + b[..|b| - 1];
      LeavesConcat(a, b[..|b| - 1], ch);
    }
  }

  /** What is wanted does not depend on what the inbox holds. */
  lemma {:induction false} WantedAlike(p: Point, q: Point, actions: seq<Action>)
    requires p.wanted == q.wanted
    ensures History(p, actions).wanted == History(q, actions).wanted
    decreases |actions|
  {
    if actions != [] { WantedAlike(p, q, actions[..|actions| - 1]); }
  }

  lemma WantedOn(p: Point, b: Book, step: Step, b': Book)
    requires Follows(b, step, b') && b.point.wanted == History(p, b.history).wanted
    ensures b'.point.wanted == History(p, b'.history).wanted
  {
    match step
    case Act(action) => FoldNext(NextPoint, p, b.history, action);
    case Emit(actions) =>
      var performed := actions[..|b'.history| - |b.history|];
      FoldConcat(NextPoint, p, b.history, performed);
      WantedAlike(b.point.(inbox := multiset{}), History(p, b.history), performed);
    case Remove(_) =>
  }

  lemma {:induction false} BooksWanted(books: seq<Book>, steps: seq<Step>, i: nat)
    requires Chronicle(books, steps) && i <= |steps|
    ensures books[i].point.wanted == History(books[0].point, books[i].history).wanted
  {
    if i > 0 {
      BooksWanted(books, steps, i - 1);
      ChronicleAt(books, steps, i - 1);
      WantedOn(books[0].point, books[i - 1], steps[i - 1], books[i]);
    }
  }

  /** At every point of a run, a channel's wanted subscriptions are those it had, plus the joins, minus the leaves. */
  lemma SubscribedCount(books: seq<Book>, steps: seq<Step>, i: nat, ch: Chan)
    requires Chronicle(books, steps) && i <= |steps| && Orderly(books[0].point.wanted[ch], books[i].history, ch)
    ensures books[i].point.wanted[ch]
         == books[0].point.wanted[ch] + Joins(books[i].history, ch) - Leaves(books[i].history, ch)
  {
    BooksWanted(books, steps, i);
    WantedCount(books[0].point, books[i].history, ch);
  }

  lemma WaitingOn(b: Book, step: Step, b': Book, ch: Chan)
    requires Follows(b, step, b')
    ensures b'.waiting[ch] + Leaves(b.history, ch) <= b.waiting[ch] + Leaves(b'.history, ch)
    ensures b'.point.queued[ch] + Leaves(b.history, ch) <= b.point.queued[ch] + Leaves(b'.history, ch)
  {
    match step
    case Act(action) =>
      CountNext(b.point, action, ch);
      LeavesConcat(b.history, [action], ch);
      assert [action][..0] == [];
      assert (b'.waiting + b.point.queued)[ch] == (b.waiting + b'.point.queued)[ch];
    case Emit(actions) =>
      var performed := actions[..|b'.history| - |b.history|];
      LeavesConcat(b.history, performed, ch);
      QueuedAsked(b.point.(inbox := multiset{}), performed, ch);
      assert (b'.waiting + b.point.queued)[ch] <= (b.waiting + b'.point.queued)[ch];
    case Remove(_) =>
  }

  lemma {:induction false} WaitingAsked(books: seq<Book>, steps: seq<Step>, i: nat, ch: Chan)
    requires Chronicle(books, steps) && i <= |steps|
    ensures books[i].waiting[ch] <= books[0].waiting[ch] + Leaves(books[i].history, ch)
  {
    if i > 0 {
      WaitingAsked(books, steps, i - 1, ch);
      ChronicleAt(books, steps, i - 1);
      WaitingOn(books[i - 1], steps[i - 1], books[i], ch);
    }
  }

  lemma DeliveredBounds(b: Book, b': Book, ch: Chan)
    requires Faithful(b, b')
    ensures b.point.wanted[ch] + b.point.queued[ch] <= b'.delivered[ch] + b'.point.queued[ch]
    ensures b'.delivered[ch] <= b.point.wanted[ch] + b.waiting[ch]
  {
    assert (b.point.wanted + b.point.queued)[ch] <= (b'.delivered + b'.point.queued)[ch];
    assert b'.delivered[ch] <= (b.point.wanted + b.waiting)[ch];
  }

  /** Every value is delivered to a channel as often as it had joined and not left when the value was sent, but for
      removals still waiting then and leave requests made before the delivery ended. */
  lemma DeliveredCount(books: seq<Book>, steps: seq<Step>, i: nat, ch: Chan)
    requires Chronicle(books, steps) && i < |steps| && steps[i].Emit?
    requires Orderly(books[0].point.wanted[ch], books[i].history, ch)
    ensures var b, b' := books[i], books[i + 1];
            var subscribed: int := books[0].point.wanted[ch] + Joins(b.history, ch) - Leaves(b.history, ch);
            var leaving: int := Leaves(b'.history, ch) - Leaves(b.history, ch);
            subscribed - leaving <= b'.delivered[ch] <= subscribed + b.waiting[ch]
  {
    SubscribedCount(books, steps, i, ch);
    ChronicleAt(books, steps, i);
    WaitingOn(books[i], steps[i], books[i + 1], ch);
    DeliveredBounds(books[i], books[i + 1], ch);
  }

  lemma NoLeaves(history: seq<Action>, ch: Chan)
    requires Leaves(history, ch) == 0
    ensures forall n | 0 <= n <= |history| :: Leaves(history[..n], ch) == 0
  {
    forall n | 0 <= n <= |history| ensures Leaves(history[..n], ch) == 0 {
      assert history == history[..n] + history[n..];
      LeavesConcat(history[..n], history[n..], ch);
    }
  }

  /** A channel that is never asked to leave gets every value sent after it joined, once per subscription, and none sent
      before. */
  lemma SubscriberServed(books: seq<Book>, steps: seq<Step>, i: nat, ch: Chan)
    requires Chronicle(books, steps) && i < |steps| && steps[i].Emit?
    requires Leaves(books[i + 1].history, ch) == 0 && ch !in books[0].waiting
    ensures books[i + 1].delivered[ch] == books[0].point.wanted[ch] + Joins(books[i].history, ch)
  {
    ChronicleAt(books, steps, i);
    WaitingAsked(books, steps, i, ch);
    var more := books[i + 1].history[|books[i].history|..];
    assert books[i + 1].history == books[i].history + more;
    LeavesConcat(books[i].history, more, ch);
    NoLeaves(books[i].history, ch);
    DeliveredCount(books, steps, i, ch);
  }

  /** A channel that has left as often as it had joined, with no removal of it waiting, gets nothing any more. */
  lemma LeaverSpared(books: seq<Book>, steps: seq<Step>, i: nat, ch: Chan)
    requires Chronicle(books, steps) && i < |steps| && steps[i].Emit?
    requires Orderly(books[0].point.wanted[ch], books[i].history, ch) && ch !in books[i].waiting
    requires Leaves(books[i].history, ch) == books[0].point.wanted[ch] + Joins(books[i].history, ch)
    ensures books[i + 1].delivered[ch] == 0
  {
    DeliveredCount(books, steps, i, ch);
  }

  /** A leave that has been handed over, as it has when unsubscribing returns outside of a send, waits no more. */
  lemma HandedOver(books: seq<Book>, steps: seq<Step>, i: nat, ch: Chan)
    requires Chronicle(books, steps) && i + 1 < |steps| && steps[i] == Act(Leave(ch)) && steps[i + 1] == Remove(ch)
    requires ch !in books[i].waiting
    ensures ch !in books[i + 2].waiting
  {
    ChronicleAt(books, steps, i);
    ChronicleAt(books, steps, i + 1);
    CountNext(books[i].point, Leave(ch), ch);
    assert (books[i + 1].waiting + books[i].point.queued)[ch] == (books[i].waiting + books[i + 1].point.queued)[ch];
  }

  // ------------------------------------------------------- accounting for a send

  /** Every initial subscription is delivered, missed or still active, and the served suffix holds the
      delivered ones that have not left since. */
  ghost predicate Accounted(t: Tally, active: multiset<Chan>, served: multiset<Chan>) {
    && (forall c :: t.delivered[c] + t.missed[c] + active[c] == t.start[c])
    && (forall c :: served[c] + t.left[c] == t.delivered[c])
  }

  lemma AccountDelivery(t: Tally, a: multiset<Chan>, v: multiset<Chan>, a': multiset<Chan>, v': multiset<Chan>,
                        c: multiset<Chan>)
    requires Accounted(t, a, v) && a == a' + c && v' == v + c
    ensures Accounted(t.(delivered := t.delivered + c), a', v')
  {
  }

  lemma AccountMiss(t: Tally, a: multiset<Chan>, v: multiset<Chan>, a': multiset<Chan>, c: multiset<Chan>)
    requires Accounted(t, a, v) && a == a' + c
    ensures Accounted(t.(missed := t.missed + c), a', v)
  {
  }

  lemma AccountLeave(t: Tally, a: multiset<Chan>, v: multiset<Chan>, v': multiset<Chan>, c: multiset<Chan>)
    requires Accounted(t, a, v) && v == v' + c
    ensures Accounted(t.(left := t.left + c), a, v')
  {
  }

  lemma AccountClosed(t: Tally, v: multiset<Chan>)
    requires Accounted(t, multiset{}, v)
    ensures t.delivered + t.missed == t.start && t.left <= t.delivered && v == t.delivered - t.left
  {
  }

  lemma FoundSub(cases: seq<Chan>, ch: Chan, index: int)
    requires |cases| >= 1 && cases[0] == REMOVE_SUB && REMOVE_SUB !in cases[1..] && ch in Subs(cases)
    requires -1 <= index < |cases| && (index == -1 <==> ch !in cases) && (index >= 0 ==> cases[index] == ch)
    ensures 1 <= index
  {
    assert ch in cases[1..];
    assert ch in cases;
  }

  /** Taking a waiting removal's first case out keeps the books in balance. */
  lemma TakenOut(live: multiset<Chan>, removals: multiset<Chan>, inbox: multiset<Chan>, cases: seq<Chan>, ch: Chan,
                 index: int)
    requires |cases| >= 1 && cases[0] == REMOVE_SUB && REMOVE_SUB !in cases[1..]
    requires Balanced(live, removals, inbox, Subs(cases)) && ch in removals
    requires -1 <= index < |cases| && (index == -1 <==> ch !in cases)
    requires index >= 0 ==> cases[index] == ch && ch !in cases[..index]
    ensures index >= 1
    ensures var r := Delete(cases, index);
            && |r| == |cases| - 1 >= 1 && r[0] == REMOVE_SUB && REMOVE_SUB !in r[1..]
            && Subs(cases) == Subs(r) + multiset{ch} && Balanced(live, removals - multiset{ch}, inbox, Subs(r))
  {
    FoundSub(cases, ch, index);
    Deleted(cases, 1, index);
    BalancedTake(live, removals, inbox, Subs(cases), Subs(Delete(cases, index)), ch);
    NoZero(cases, Delete(cases, index), index);
  }

  lemma Shifted(active: multiset<Chan>, rest: multiset<Chan>, served: multiset<Chan>, sent: multiset<Chan>,
                one: multiset<Chan>)
    requires active == rest + one + sent
    ensures active == rest + (sent + one) && served + sent + one == served + (sent + one)
  {
  }

  /** The first case of a channel is active exactly when any of its cases is. */
  lemma FoundActive(cases: seq<Chan>, ch: Chan, index: nat, k: nat)
    requires 1 <= index < |cases| && 1 <= k <= |cases| && cases[index] == ch && ch !in cases[..index]
    ensures ch in Active(cases, k) <==> index < k
  {
    if index < k {
      assert cases[1..k][index - 1] == ch;
    } else {
      assert cases[..index] == cases[..1] + cases[1..k] + cases[k..index];
    }
  }

  // -------------------------------------------------------------------- the feed

  class Feed {
    var sendCases: seq<Chan>
    var inbox: seq<Chan>

    // The subscribers' side: subscriptions still wanted, and removals waiting to be handed over.
    var live: multiset<Chan>
    var removals: multiset<Chan>
    /** All removals that were ever queued. */
    ghost var cancelled: multiset<Chan>

    /** Slot 0 is the removal channel, and every wanted subscription or waiting removal has its own case. */
    ghost predicate Valid()
      reads this
    {
      && |sendCases| >= 1 && sendCases[0] == REMOVE_SUB
      && REMOVE_SUB !in sendCases[1..] && REMOVE_SUB !in inbox
      && Balanced(live, removals, multiset(inbox), Subs(sendCases))
    }

    constructor ()
      ensures Valid() && live == multiset{} && removals == multiset{}
    {
      sendCases, inbox, live, removals, cancelled := [REMOVE_SUB], [], multiset{}, multiset{}, multiset{};
    }

    /** Where the subscribers stand. */
    ghost function Now(): Point
      reads this`live, this`inbox, this`cancelled
    {
      Point(live, multiset(inbox), cancelled)
    }

    method Subscribe(ch: Chan)
      requires Valid() && ch != REMOVE_SUB
      modifies this`inbox, this`live
      ensures Valid() && inbox == old(inbox) + [ch] && live == old(live) + multiset{ch}
      ensures Now() == NextPoint(old(Now()), Join(ch))
    {
      inbox := inbox + [ch];
      live := live + multiset{ch};
    }

    method DropFromInbox(index: nat)
      requires Valid() && index < |inbox| && inbox[index] in live
      modifies this`inbox, this`live
      ensures Valid() && live == old(live) - multiset{old(inbox)[index]}
      ensures multiset(old(inbox)) == multiset(inbox) + multiset{old(inbox)[index]}
      ensures Now() == NextPoint(old(Now()), Leave(old(inbox)[index]))
    {
      DeletedOne(inbox, index);
      ghost var rest := Delete(inbox, index);
      BalancedDrop(live, removals, multiset(inbox), multiset(rest), Subs(sendCases), inbox[index]);
      live := live - multiset{inbox[index]};
      inbox := Delete(inbox, index);
    }

    method QueueRemoval(ch: Chan)
      requires Valid() && ch in live && ch !in inbox
      modifies this`removals, this`live, this`cancelled
      ensures Valid() && live == old(live) - multiset{ch}
      ensures removals == old(removals) + multiset{ch} && cancelled == old(cancelled) + multiset{ch}
      ensures Now() == NextPoint(old(Now()), Leave(ch))
    {
      BalancedQueue(live, removals, multiset(inbox), Subs(sendCases), ch);
      removals := removals + multiset{ch};
      cancelled := cancelled + multiset{ch};
      live := live - multiset{ch};
    }

    /** The first half of remove: takes the subscription out of the inbox, or queues a removal for it. */
    method StartRemove(ch: Chan)
      requires Valid() && ch in live
      modifies this`inbox, this`live, this`removals, this`cancelled
      ensures Valid() && live == old(live) - multiset{ch}
      ensures ch in old(inbox) ==>
        && multiset(old(inbox)) == multiset(inbox) + multiset{ch}
        && removals == old(removals) && cancelled == old(cancelled)
      ensures ch !in old(inbox) ==>
        && inbox == old(inbox)
        && removals == old(removals) + multiset{ch} && cancelled == old(cancelled) + multiset{ch}
      ensures Now() == NextPoint(old(Now()), Leave(ch))
    {
      var index := Find(inbox, ch);
      if index != -1 {
        DropFromInbox(index);
      } else {
        QueueRemoval(ch);
      }
    }

    /** The second half of remove while no Send is in progress: the remover holds the send lock. */
    method RemoveIdle(ch: Chan)
      requires Valid() && ch in removals
      modifies this`sendCases, this`removals
      ensures Valid() && removals == old(removals) - multiset{ch}
      ensures Subs(sendCases) == Subs(old(sendCases)) - multiset{ch}
    {
      var index := Find(sendCases, ch);
      TakenOut(live, removals, multiset(inbox), sendCases, ch, index);
      sendCases := Delete(sendCases, index);
      removals := removals - multiset{ch};
    }

    /** The first `n` actions have been performed since `points[0]`, when `r` waited and `c` had been queued, and the
        removals `done` have been carried out. */
    ghost predicate Performed(points: seq<Point>, n: nat, done: multiset<Chan>,
                              r: multiset<Chan>, c: multiset<Chan>)
      reads this`live, this`inbox, this`removals, this`cancelled
    {
      n < |points| && Now() == points[n] && Honest(done, removals, cancelled, r, c)
    }

    /** A subscriber acts; leaving may queue a removal. */
    method Do(action: Action) returns (ghost queued: bool)
      requires Valid()
      modifies this`inbox, this`live, this`removals, this`cancelled
      ensures Valid() && Now() == NextPoint(old(Now()), action)
      ensures removals == if queued then old(removals) + multiset{action.ch} else old(removals)
      ensures cancelled == if queued then old(cancelled) + multiset{action.ch} else old(cancelled)
    {
      queued := false;
      match action
      case Join(ch) => if ch != REMOVE_SUB { Subscribe(ch); }
      case Leave(ch) =>
        if ch in live {
          queued := ch !in inbox;
          StartRemove(ch);
        }
    }

    method Perform(actions: seq<Action>, n: nat, ghost points: seq<Point>, ghost done: multiset<Chan>,
                   ghost r: multiset<Chan>, ghost c: multiset<Chan>)
      requires Valid() && n < |actions| && Tracks(points, actions) && Performed(points, n, done, r, c)
      modifies this`inbox, this`live, this`removals, this`cancelled
      ensures Valid() && Performed(points, n + 1, done, r, c)
    {
      HonestQueue(done, removals, cancelled, r, c, actions[n].ch);
      ghost var _ := Do(actions[n]);
    }

    /** Other goroutines get some way on in their actions, between two steps of Send. */
    method Interfere(actions: seq<Action>, n: nat, ghost points: seq<Point>, ghost done: multiset<Chan>,
                     ghost r: multiset<Chan>, ghost c: multiset<Chan>) returns (n': nat)
      requires Valid() && Tracks(points, actions) && Performed(points, n, done, r, c)
      modifies this`inbox, this`live, this`removals, this`cancelled
      ensures Valid() && n <= n' && Performed(points, n', done, r, c)
    {
      var stop: int := *;
      n' := if n <= stop <= |actions| then stop else n;
      for i := n to n'
        invariant Valid() && Performed(points, i, done, r, c)
      {
        Perform(actions, i, points, done, r, c);
      }
    }

    /** Moves the case at `i` out of the active prefix of length `k`. */
    method Deactivate(k: nat, i: nat)
      requires Valid() && 1 <= i < k <= |sendCases|
      modifies this`sendCases
      ensures Valid() && |sendCases| == old(|sendCases|)
      ensures Subs(sendCases) == Subs(old(sendCases))
      ensures Active(old(sendCases), k) == Active(sendCases, k - 1) + multiset{old(sendCases)[i]}
      ensures Served(sendCases, k - 1) == Served(old(sendCases), k) + multiset{old(sendCases)[i]}
    {
      Deactivated(sendCases, k, i);
      SwapKeeps(sendCases, k, i);
      sendCases := Swap(sendCases, i, k - 1);
    }

    /** Tries every active case once without blocking; any subset of the receivers may be ready. */
    method TryAll(k: nat) returns (k': nat, ghost sent: multiset<Chan>)
      requires Valid() && 1 <= k <= |sendCases|
      modifies this`sendCases
      ensures Valid() && |sendCases| == old(|sendCases|) && 1 <= k' <= k
      ensures |sent| == k - k' && Subs(sendCases) == Subs(old(sendCases))
      ensures Active(old(sendCases), k) == Active(sendCases, k') + sent
      ensures Served(sendCases, k') == Served(old(sendCases), k) + sent
    {
      k', sent := k, multiset{};
      ghost var subs, active, served := Subs(sendCases), Active(sendCases, k), Served(sendCases, k);
      var i := 1;
      while i < k'
        invariant Valid() && |sendCases| == old(|sendCases|) && 1 <= i && 1 <= k' <= k
        invariant |sent| == k - k' && Subs(sendCases) == subs
        invariant active == Active(sendCases, k') + sent && Served(sendCases, k') == served + sent
        decreases k' - i
      {
        var ready: bool := *;
        if ready {
          ghost var one := multiset{sendCases[i]};
          Deactivate(k', i);
          k' := k' - 1;
          Shifted(active, Active(sendCases, k'), served, sent, one);
          sent := sent + one;
        } else {
          i := i + 1;
        }
      }
    }

    /** Takes a removal that was handed over in the middle of Send. */
    method TakeRemoval(k: nat, ch: Chan) returns (k': nat)
      requires Valid() && 1 <= k <= |sendCases| && ch in removals
      modifies this`sendCases, this`removals
      ensures Valid() && removals == old(removals) - multiset{ch} && |sendCases| == old(|sendCases|) - 1
              && 1 <= k' <= |sendCases|
      ensures Subs(sendCases) == Subs(old(sendCases)) - multiset{ch}
      ensures ch in Active(old(sendCases), k) <==> k' == k - 1
      ensures k' == k - 1 ==>
                && Active(old(sendCases), k) == Active(sendCases, k') + multiset{ch}
                && Served(sendCases, k') == Served(old(sendCases), k)
      ensures k' != k - 1 ==>
                && k' == k && Active(sendCases, k) == Active(old(sendCases), k)
                && Served(old(sendCases), k) == Served(sendCases, k) + multiset{ch}
    {
      var index := Find(sendCases, ch);
      TakenOut(live, removals, multiset(inbox), sendCases, ch, index);
      Deleted(sendCases, k, index);
      FoundActive(sendCases, ch, index, k);
      sendCases := Delete(sendCases, index);
      removals := removals - multiset{ch};
      k' := if index < k then k - 1 else k;
    }

    ghost predicate Sending(k: nat, t: Tally)
      reads this
    {
      Valid() && 1 <= k <= |sendCases| && Accounted(t, Active(sendCases, k), Served(sendCases, k))
    }

    /** One round of non-blocking sends. */
    method Deliver(k: nat, ghost t: Tally) returns (k': nat, n: nat, ghost t': Tally)
      requires Sending(k, t)
      modifies this`sendCases
      ensures Sending(k', t') && t' == t.(delivered := t'.delivered)
      ensures |t'.delivered| == |t.delivered| + n && |sendCases| == old(|sendCases|) && k' <= k
    {
      ghost var sent, a, v := multiset{}, Active(sendCases, k), Served(sendCases, k);
      k', sent := TryAll(k);
      n, t' := k - k', t.(delivered := t.delivered + sent);
      AccountDelivery(t, a, v, Active(sendCases, k'), Served(sendCases, k'), sent);
    }

    method SelectReady(k: nat, ghost t: Tally, chosen: nat) returns (k': nat, ghost t': Tally)
      requires Sending(k, t) && 1 <= chosen < k
      modifies this`sendCases
      ensures Sending(k', t') && t' == t.(delivered := t.delivered + multiset{old(sendCases)[chosen]})
      ensures |sendCases| == old(|sendCases|) && k' == k - 1
    {
      ghost var a, v, c := Active(sendCases, k), Served(sendCases, k), multiset{sendCases[chosen]};
      Deactivate(k, chosen);
      k', t' := k - 1, t.(delivered := t.delivered + c);
      AccountDelivery(t, a, v, Active(sendCases, k'), Served(sendCases, k'), c);
    }

    method SelectRemoval(k: nat, ghost t: Tally, ch: Chan) returns (k': nat, ghost t': Tally)
      requires Sending(k, t) && ch in removals
      modifies this`sendCases, this`removals
      ensures Sending(k', t') && t'.start == t.start && t'.delivered == t.delivered
      ensures |sendCases| == old(|sendCases|) - 1 && k' <= k
      ensures forall x :: Removed(t')[x] + removals[x] == Removed(t)[x] + old(removals)[x]
    {
      ghost var a, v := Active(sendCases, k), Served(sendCases, k);
      k' := TakeRemoval(k, ch);
      t' := if k' < k then t.(missed := t.missed + multiset{ch}) else t.(left := t.left + multiset{ch});
      if k' < k {
        AccountMiss(t, a, v, Active(sendCases, k'), multiset{ch});
      } else {
        AccountLeave(t, a, v, Served(sendCases, k'), multiset{ch});
      }
    }

    /** One blocking select: either a removal is handed over, or some active receiver becomes ready. */
    method Select(k: nat, ghost t: Tally, ghost m: nat,
                  ghost points: seq<Point>, ghost r: multiset<Chan>, ghost c: multiset<Chan>)
      returns (k': nat, n: nat, ghost t': Tally)
      requires Sending(k, t) && k > 1 && Performed(points, m, Removed(t), r, c)
      modifies this`sendCases, this`removals
      ensures Sending(k', t') && t'.start == t.start
      ensures |t'.delivered| == |t.delivered| + n && |sendCases| + k' < old(|sendCases|) + k
      ensures Performed(points, m, Removed(t'), r, c)
    {
      var ch: Chan := *;
      if ch in removals {
        n := 0;
        k', t' := SelectRemoval(k, t, ch);
        HonestTake(Removed(t), old(removals), cancelled, r, c, Removed(t'), removals);
      } else {
        var chosen: int := *;
        if !(1 <= chosen < k) { chosen := 1; }
        n := 1;
        k', t' := SelectReady(k, t, chosen);
      }
    }

    /** The loop of Send: rounds of non-blocking sends and selects until nobody is left. */
    method SendAll(ghost t: Tally, actions: seq<Action>, ghost points: seq<Point>, ghost r: multiset<Chan>,
                   ghost c: multiset<Chan>)
      returns (nsent: nat, ghost t': Tally, n: nat)
      requires Sending(|sendCases|, t) && t.delivered == multiset{}
      requires Tracks(points, actions) && Performed(points, 0, Removed(t), r, c)
      modifies this
      ensures Sending(1, t') && t'.start == t.start && nsent == |t'.delivered|
      ensures n <= |actions| && Performed(points, n, Removed(t'), r, c)
    {
      t', nsent, n := t, 0, 0;
      var k: nat := |sendCases|;
      while true
        invariant Sending(k, t') && t'.start == t.start && nsent == |t'.delivered|
        invariant n <= |actions| && Performed(points, n, Removed(t'), r, c)
        decreases |sendCases| + k
      {
        n := Interfere(actions, n, points, Removed(t'), r, c);
        var sent;
        k, sent, t' := Deliver(k, t');
        nsent := nsent + sent;
        if k == 1 { break; }
        n := Interfere(actions, n, points, Removed(t'), r, c);
        k, sent, t' := Select(k, t', n, points, r, c);
        nsent := nsent + sent;
      }
    }

    /** Moves the inbox into the case list. */
    method TakeInbox() returns (ghost t: Tally)
      requires Valid()
      modifies this`sendCases, this`inbox
      ensures inbox == [] && Sending(|sendCases|, t)
      ensures t == Tally(Subs(old(sendCases)) + multiset(old(inbox)), multiset{}, multiset{}, multiset{})
    {
      t := Tally(Subs(sendCases) + multiset(inbox), multiset{}, multiset{}, multiset{});
      sendCases := sendCases + inbox;
      assert sendCases[1..] == old(sendCases)[1..] + inbox;
      assert sendCases[1..|sendCases|] == sendCases[1..] && sendCases[|sendCases|..] == [];
      inbox := [];
    }

    /** The send itself, with every subscription accounted for. */
    method SendTallied(actions: seq<Action>) returns (nsent: nat, ghost t: Tally, n: nat)
      requires Valid()
      modifies this
      ensures Valid()
      ensures nsent == |t.delivered|
      ensures t.delivered + t.missed == t.start == Subs(old(sendCases)) + multiset(old(inbox))
      ensures t.left <= t.delivered && Subs(sendCases) == t.delivered - t.left
      ensures n <= |actions| && Now() == History(old(Now()).(inbox := multiset{}), actions[..n])
      ensures Honest(Removed(t), removals, cancelled, old(removals), old(cancelled))
    {
      ghost var points := Trace(Now().(inbox := multiset{}), actions);
      t := TakeInbox();
      nsent, t, n := SendAll(t, actions, points, removals, cancelled);
      assert points[n] == History(old(Now()).(inbox := multiset{}), actions[..n]);
      SubsSplit(sendCases, 1);
      assert sendCases[1..1] == [];
      AccountClosed(t, Served(sendCases, 1));
    }

    /** Delivers one value while other goroutines get as far as the first `n` of the given actions.  For every order in
        which receivers become ready and removals arrive, each subscription present at the start is either delivered
        to exactly once or removed before its delivery; the count returned is that of the deliveries; the case list
        ends up with the initial subscriptions minus the removed ones, and slot 0 is still the removal channel.
        Removed are only subscriptions whose removal waited at the start or was asked for by one of the actions. */
    method Send(actions: seq<Action>) returns (nsent: nat, ghost t: Tally, n: nat)
      requires Valid()
      modifies this
      ensures Valid()
      ensures nsent == |t.delivered|
      ensures t.delivered + t.missed == t.start == Subs(old(sendCases)) + multiset(old(inbox))
      ensures t.left <= t.delivered && Subs(sendCases) == t.delivered - t.left
      ensures n <= |actions| && Now() == History(old(Now()).(inbox := multiset{}), actions[..n])
      ensures Honest(Removed(t), removals, cancelled, old(removals), old(cancelled))
      ensures old(removals) == multiset{} && cancelled == old(cancelled) ==> t.delivered == t.start
      ensures old(live) + old(cancelled) <= t.delivered + cancelled && t.delivered <= old(live) + old(removals)
      ensures removals + old(cancelled) <= old(removals) + cancelled
    {
      BalancedTotal(live, removals, multiset(inbox), Subs(sendCases));
      nsent, t, n := SendTallied(actions);
      NobodyRemoved(t, removals, cancelled, old(removals), old(cancelled));
      WantedServed(old(live), t, removals, cancelled, old(removals), old(cancelled));
    }

    /** The books as they stand. */
    ghost predicate Booked(b: Book)
      reads this
    {
      Valid() && b.point == Now() && b.waiting == removals
    }

    method RunAction(action: Action, ghost b: Book) returns (ghost b': Book)
      requires Booked(b)
      modifies this
      ensures Booked(b') && Follows(b, Act(action), b')
    {
      ghost var queued := Do(action);
      b' := Book(Now(), removals, b.history + [action], multiset{});
      QueuedBoth(b.waiting, b.point.queued, action.ch);
    }

    method RunSend(actions: seq<Action>, ghost b: Book) returns (ghost b': Book)
      requires Booked(b)
      modifies this
      ensures Booked(b') && Follows(b, Emit(actions), b')
    {
      var nsent, n;
      ghost var t;
      nsent, t, n := Send(actions);
      b' := Book(Now(), removals, b.history + actions[..n], t.delivered);
      Extends(b.history, actions, n);
    }

    method RunRemove(ch: Chan, ghost b: Book) returns (ghost b': Book)
      requires Booked(b)
      modifies this
      ensures Booked(b') && Follows(b, Remove(ch), b')
    {
      b' := b.(waiting := b.waiting - multiset{ch}, delivered := multiset{});
      if ch in removals { RemoveIdle(ch); } else { assert removals - multiset{ch} == removals; }
    }

    method RunStep(step: Step, ghost b: Book) returns (ghost b': Book)
      requires Booked(b)
      modifies this
      ensures Booked(b') && Follows(b, step, b')
    {
      match step
      case Act(action) => b' := RunAction(action, b);
      case Emit(actions) => b' := RunSend(actions, b);
      case Remove(ch) => b' := RunRemove(ch, b);
    }

    /** Any sequence of subscriptions, unsubscriptions, sends and hand-overs: the books of the run say exactly what is
        wanted, in the inbox and waiting, and every send is faithful to them. */
    method Run(steps: seq<Step>) returns (ghost books: seq<Book>)
      requires Valid()
      modifies this
      ensures Chronicle(books, steps) && Booked(books[|steps|])
      ensures books[0] == Book(old(Now()), old(removals), [], multiset{})
    {
      books := [Book(Now(), removals, [], multiset{})];
      ghost var first := books[0];
      for i := 0 to |steps|
        invariant Chronicle(books, steps[..i]) && Booked(books[i]) && books[0] == first
      {
        ghost var b := RunStep(steps[i], books[i]);
        ChronicleMore(books, steps[..i], steps[i], b);
        TakeNext(steps, i);
        books := books + [b];
      }
      TakeAll(steps);
    }
  }
}
