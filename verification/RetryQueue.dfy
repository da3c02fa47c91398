/**
 The gateway's retry queue for audit events: a queue taken from its right end, a
 processing list, a dead-letter list, an attempt counter and exponential backoff,
 shared by any number of gateway processes that each run one drain at a time. Each
 step is one stretch between two waits, so the drains interleave freely and new
 events may arrive between any two steps.
 */
module RetryQueue {
  import opened Prelude

  const MAX_ATTEMPTS: nat := 10
  const MAX_QUEUE_SIZE: nat := 10_000
  const MAX_BACKOFF: nat := 60_000

  // What the lists hold: stored events, or text that does not parse.
  datatype Item = Garbage | Event(id: nat, attempts: nat, nextRetryAt: int)

  // One delivery attempt of a drain.
  datatype Post = Post(id: nat, attempt: nat, at: int)

  // Where a drain stands: not running, about to take an item, holding one, posting it.
  datatype Drain = Off | Fetching | Holding(item: Item) | Posting(item: Item)

  // `delivered`, `posts`, `accepted` and `clock` record the history.
  datatype State = State(queue: seq<Item>, processing: seq<Item>, deadLetters: seq<Item>, drains: seq<Drain>,
                         delivered: seq<nat>, posts: seq<Post>, accepted: nat, clock: int)

  // Nothing stored yet, and that many processes.
  function Empty(processes: nat): State {
    State([], [], [], seq(processes, _ => Off), [], [], 0, 0)
  }

  function Pow2(n: nat): nat { if n == 0 then 1 else 2 * Pow2(n - 1) }

  function Backoff(attempt: nat): (ms: nat)
    requires attempt > 0
    ensures 0 < ms <= MAX_BACKOFF
  {
    Pow2IsPositive(attempt - 1);
    if 1000 * Pow2(attempt - 1) < MAX_BACKOFF then 1000 * Pow2(attempt - 1) else MAX_BACKOFF
  }

  lemma Pow2IsPositive(n: nat)
    ensures Pow2(n) > 0
  {
  }

  // Removes the first occurrence, if any.
  function Without(items: seq<Item>, x: Item): seq<Item> {
    if items == [] then [] else if items[0] == x then items[1..] else [items[0]] + Without(items[1..], x)
  }

  // The steps of a drain carry the number of its process.
  datatype Step =
    | Enqueue(now: int)
    | ForeignText(now: int)                    // something else pushes text that does not parse
    | Start(now: int, p: nat)
    | Take(now: int, p: nat)
    | Judge(now: int, p: nat)                  // parse the item held and check its time and attempts
    | Outcome(now: int, p: nat, ok: bool)      // the post returns

  predicate Arrives(step: Step) { step.Enqueue? || step.ForeignText? }

  predicate Enabled(s: State, step: Step) {
    && s.clock <= step.now
    && (Arrives(step) ||
        (step.p < |s.drains| &&
         match step
         case Start(_, p) => s.drains[p].Off?
         case Take(_, p) => s.drains[p].Fetching?
         case Judge(_, p) => s.drains[p].Holding?
         case Outcome(_, p, _) => s.drains[p].Posting? && s.drains[p].item.Event?
         case _ => true))
  }

  function Enqueued(s: State, now: int): State {
    if |s.queue| >= MAX_QUEUE_SIZE then s
    else s.(queue := s.queue + [Event(s.accepted, 0, now)], accepted := s.accepted + 1)
  }

  function At(s: State, p: nat, d: Drain): State
    requires p < |s.drains|
  {
    s.(drains := s.drains[p := d])
  }

  function Taken(s: State, p: nat): State
    requires p < |s.drains|
  {
    if s.queue == [] then At(s, p, Off)
    else
      var last := |s.queue| - 1;
      At(s, p, Holding(s.queue[last])).(queue := s.queue[..last], processing := [s.queue[last]] + s.processing)
  }

  function Judged(s: State, p: nat, now: int): State
    requires p < |s.drains| && s.drains[p].Holding?
  {
    var item := s.drains[p].item;
    var rest := Without(s.processing, item);
    if item.Garbage? then At(s, p, Fetching).(processing := rest)
    else if item.nextRetryAt != 0 && now < item.nextRetryAt then
      At(s, p, Off).(processing := rest, queue := s.queue + [item])
    else if item.attempts + 1 > MAX_ATTEMPTS then
      At(s, p, Fetching).(processing := rest, deadLetters := s.deadLetters + [item.(attempts := item.attempts + 1)])
    else At(s, p, Posting(item)).(posts := s.posts + [Post(item.id, item.attempts + 1, now)])
  }

  function Returned(s: State, p: nat, now: int, ok: bool): State
    requires p < |s.drains| && s.drains[p].Posting? && s.drains[p].item.Event?
  {
    var item := s.drains[p].item;
    var rest := Without(s.processing, item);
    if ok then At(s, p, Fetching).(processing := rest, delivered := s.delivered + [item.id])
    else At(s, p, Fetching).(processing := rest, queue := s.queue + [Again(item, now)])
  }

  function Again(item: Item, now: int): Item
    requires item.Event?
  {
    Event(item.id, item.attempts + 1, now + Backoff(item.attempts + 1))
  }

  function Next(s: State, step: Step): State
    requires Enabled(s, step)
  {
    var at := s.(clock := step.now);
    match step
    case Enqueue(now) => Enqueued(at, now)
    case ForeignText(_) => at.(queue := at.queue + [Garbage])
    case Start(_, p) => At(at, p, Fetching)
    case Take(_, p) => Taken(at, p)
    case Judge(now, p) => Judged(at, p, now)
    case Outcome(now, p, ok) => Returned(at, p, now, ok)
  }

  function Exec(s: State, steps: seq<Step>): Option<State> {
    if steps == [] then Some(s)
    else
      var before, step := Exec(s, steps[..|steps| - 1]), steps[|steps| - 1];
      if before.Some? && Enabled(before.value, step) then Some(Next(before.value, step)) else None
  }

  // -------------------------------------------------------------- counting

  predicate IsEvent(x: Item, id: nat) { x.Event? && x.id == id }

  function Occurs(items: seq<Item>, id: nat): nat {
    if items == [] then 0
    else Occurs(items[..|items| - 1], id) + if IsEvent(items[|items| - 1], id) then 1 else 0
  }

  function Times(ids: seq<nat>, id: nat): nat {
    if ids == [] then 0 else Times(ids[..|ids| - 1], id) + if ids[|ids| - 1] == id then 1 else 0
  }

  predicate Has(d: Drain, id: nat) {
    (d.Holding? || d.Posting?) && IsEvent(d.item, id)
  }

  // How many drains hold or post the event.
  function Held(drains: seq<Drain>, id: nat): nat {
    if drains == [] then 0
    else Held(drains[..|drains| - 1], id) + if Has(drains[|drains| - 1], id) then 1 else 0
  }

  function HandOf(d: Drain): multiset<Item> {
    if d.Holding? || d.Posting? then multiset{d.item} else multiset{}
  }

  // The items in hand of all drains.
  function Hands(drains: seq<Drain>): multiset<Item> {
    if drains == [] then multiset{} else Hands(drains[..|drains| - 1]) + HandOf(drains[|drains| - 1])
  }

  function PostCount(posts: seq<Post>, id: nat): nat {
    if posts == [] then 0 else PostCount(posts[..|posts| - 1], id) + if posts[|posts| - 1].id == id then 1 else 0
  }

  // When the event was last posted.
  function LastPostAt(posts: seq<Post>, id: nat): int {
    if posts == [] then 0
    else if posts[|posts| - 1].id == id then posts[|posts| - 1].at
    else LastPostAt(posts[..|posts| - 1], id)
  }

  // In how many of the four places the event stands.
  function Places(s: State, id: nat): nat {
    Occurs(s.queue, id) + Occurs(s.processing, id) + Occurs(s.deadLetters, id) + Times(s.delivered, id)
  }

  // The same with the hands of the drains in place of the processing list.
  function Standing(s: State, id: nat): nat {
    Occurs(s.queue, id) + Held(s.drains, id) + Occurs(s.deadLetters, id) + Times(s.delivered, id)
  }

  lemma Appending(items: seq<Item>, x: Item, id: nat)
    ensures Occurs(items + [x], id) == Occurs(items, id) + if IsEvent(x, id) then 1 else 0
  {
    assert (items + [x])[..|items|] == items;
  }

  lemma {:induction false} Present(items: seq<Item>, x: Item)
    requires x in items && x.Event?
    ensures Occurs(items, x.id) > 0
  {
    var last := items[|items| - 1];
    if x != last {
      assert x in items[..|items| - 1];
      Present(items[..|items| - 1], x);
    }
  }

  lemma {:induction false} WasDelivered(ids: seq<nat>, id: nat)
    requires id in ids
    ensures Times(ids, id) > 0
  {
    if id != ids[|ids| - 1] {
      assert id in ids[..|ids| - 1];
      WasDelivered(ids[..|ids| - 1], id);
    }
  }

  lemma DeliveredAppended(ids: seq<nat>, x: nat, id: nat)
    ensures Times(ids + [x], id) == Times(ids, id) + if x == id then 1 else 0
  {
    assert (ids + [x])[..|ids|] == ids;
  }

  lemma PostAppended(posts: seq<Post>, p: Post, id: nat)
    ensures PostCount(posts + [p], id) == PostCount(posts, id) + if p.id == id then 1 else 0
    ensures LastPostAt(posts + [p], id) == if p.id == id then p.at else LastPostAt(posts, id)
  {
    assert (posts + [p])[..|posts|] == posts;
  }

  // ---------------------------------------------------------- the drains' hands

  lemma {:induction false} HeldUpdate(drains: seq<Drain>, p: nat, d: Drain, id: nat)
    requires p < |drains|
    ensures Held(drains[p := d], id) + (if Has(drains[p], id) then 1 else 0) == Held(drains, id) + if Has(d, id) then 1 else 0
  {
    var n := |drains| - 1;
    if p < n {
      HeldUpdate(drains[..n], p, d, id);
      assert drains[p := d][..n] == drains[..n][p := d];
    } else {
      assert drains[p := d][..n] == drains[..n];
    }
  }

  lemma Exchange(a: multiset<Item>, gone: multiset<Item>, come: multiset<Item>, rest: multiset<Item>)
    requires gone <= a
    ensures a - gone + come + rest == a + rest - gone + come
    ensures gone <= a + rest
    ensures rest + gone - gone + come == rest + come
    ensures a - multiset{} + multiset{} == a
    ensures a - gone + multiset{} == a - gone
    ensures a - multiset{} + come == a + come
  {
  }

  lemma {:induction false} HandsUpdate(drains: seq<Drain>, p: nat, d: Drain)
    requires p < |drains|
    ensures HandOf(drains[p]) <= Hands(drains)
    ensures Hands(drains[p := d]) == Hands(drains) - HandOf(drains[p]) + HandOf(d)
  {
    hide HandOf;
    var n := |drains| - 1;
    if p < n {
      HandsUpdate(drains[..n], p, d);
      assert drains[p := d][..n] == drains[..n][p := d];
      Exchange(Hands(drains[..n]), HandOf(drains[p]), HandOf(d), HandOf(drains[n]));
    } else {
      assert drains[p := d][..n] == drains[..n];
      Exchange(HandOf(drains[p]), HandOf(drains[p]), HandOf(d), Hands(drains[..n]));
    }
  }

  lemma {:induction false} HeldByTwo(drains: seq<Drain>, p: nat, q: nat, id: nat)
    requires p < |drains| && q < |drains| && Has(drains[p], id)
    ensures Held(drains, id) >= if p != q && Has(drains[q], id) then 2 else 1
  {
    var n := |drains| - 1;
    if p < n && q < n {
      HeldByTwo(drains[..n], p, q, id);
    } else if p < n {
      HeldByTwo(drains[..n], p, p, id);
    } else if q < n && Has(drains[q], id) {
      HeldByTwo(drains[..n], q, q, id);
    }
  }

  lemma {:induction false} OccursSplit(a: seq<Item>, b: seq<Item>, id: nat)
    ensures Occurs(a + b, id) == Occurs(a, id) + Occurs(b, id)
  {
    if b == [] {
      assert a + b == a;
    } else {
      assert (a + b)[..|a + b| - 1] == a + b[..|b| - 1];
      OccursSplit(a, b[..|b| - 1], id);
    }
  }

  lemma WithoutOne(items: seq<Item>, j: nat, id: nat)
    requires j < |items|
    ensures Occurs(items, id) == Occurs(items[..j] + items[j + 1..], id) + if IsEvent(items[j], id) then 1 else 0
    ensures multiset(items[..j] + items[j + 1..]) == multiset(items) - multiset{items[j]}
  {
    hide Occurs;
    var left, right, x := items[..j], items[j + 1..], items[j];
    assert items == left + [x] + right;
    Appending(left, x, id);
    OccursSplit(left + [x], right, id);
    OccursSplit(left, right, id);
  }

  // A list of what the drains have in hand holds each event as often as the drains do.
  lemma {:induction false} ListedAreHeld(items: seq<Item>, drains: seq<Drain>, id: nat)
    requires multiset(items) == Hands(drains)
    ensures Occurs(items, id) == Held(drains, id)
    decreases |drains|
  {
    if drains == [] {
      assert |multiset(items)| == |items|;
    } else {
      var d, init := drains[|drains| - 1], drains[..|drains| - 1];
      if HandOf(d) == multiset{} {
        ListedAreHeld(items, init, id);
      } else {
        assert d.item in multiset(items);
        var j :| 0 <= j < |items| && items[j] == d.item;
        WithoutOne(items, j, id);
        assert Hands(drains) - multiset{d.item} == Hands(init);
        ListedAreHeld(items[..j] + items[j + 1..], init, id);
      }
    }
  }

  lemma {:induction false} Removed(items: seq<Item>, x: Item)
    requires x in items
    ensures multiset(Without(items, x)) == multiset(items) - multiset{x}
  {
    assert items == [items[0]] + items[1..];
    if items[0] != x {
      Removed(items[1..], x);
    }
  }

  // ------------------------------------------------------------- invariants

  ghost predicate Conserved(s: State) {
    forall id: nat :: Standing(s, id) == if id < s.accepted then 1 else 0
  }

  // The processing list holds exactly what the drains have in hand.
  ghost predicate HandsListed(s: State) {
    multiset(s.processing) == Hands(s.drains)
  }

  // A waiting event has been posted `attempts` times and not yet waited out its backoff.
  ghost predicate Waiting(posts: seq<Post>, x: Item) {
    x.Event? ==>
      && x.attempts == PostCount(posts, x.id) <= MAX_ATTEMPTS
      && (x.attempts > 0 ==> 0 < LastPostAt(posts, x.id) + Backoff(x.attempts) <= x.nextRetryAt)
  }

  ghost predicate InPost(posts: seq<Post>, clock: int, x: Item) {
    && x.Event?
    && 0 < x.attempts + 1 == PostCount(posts, x.id) <= MAX_ATTEMPTS
    && 0 <= LastPostAt(posts, x.id) <= clock
  }

  ghost predicate DrainOk(posts: seq<Post>, clock: int, d: Drain) {
    match d
    case Holding(x) => Waiting(posts, x)
    case Posting(x) => InPost(posts, clock, x)
    case _ => true
  }

  ghost predicate Contents(s: State) {
    && (forall x :: x in s.queue ==> Waiting(s.posts, x))
    && (forall p :: 0 <= p < |s.drains| ==> DrainOk(s.posts, s.clock, s.drains[p]))
    && (forall x :: x in s.deadLetters ==> x.Event? && PostCount(s.posts, x.id) == MAX_ATTEMPTS)
    && (forall id :: id in s.delivered ==> 0 < PostCount(s.posts, id) <= MAX_ATTEMPTS)
  }

  // The j-th post is the k-th of its event, k at most MAX_ATTEMPTS, and comes no sooner
  // than the backoff after the one before it.
  ghost predicate PostFits(posts: seq<Post>, j: nat)
    requires j < |posts|
  {
    var p, before := posts[j], posts[..j];
    && p.attempt == PostCount(before, p.id) + 1 <= MAX_ATTEMPTS
    && (p.attempt > 1 ==> p.at >= LastPostAt(before, p.id) + Backoff(p.attempt - 1))
  }

  ghost predicate PostsFit(s: State) {
    && 0 <= s.clock
    && (forall j :: 0 <= j < |s.posts| ==> PostFits(s.posts, j) && s.posts[j].id < s.accepted)
  }

  ghost predicate Inv(s: State) {
    HandsListed(s) && Conserved(s) && Contents(s) && PostsFit(s)
  }

  // ------------------------------------------------------ step by step

  lemma {:induction false} UnpostedBefore(posts: seq<Post>, id: nat)
    requires forall j :: 0 <= j < |posts| ==> posts[j].id != id
    ensures PostCount(posts, id) == 0
  {
    if posts != [] {
      UnpostedBefore(posts[..|posts| - 1], id);
    }
  }

  lemma LaterClock(s: State, now: int)
    requires Inv(s) && s.clock <= now
    ensures Inv(s.(clock := now))
  {
    hide Occurs, Times, PostCount, LastPostAt, Held, Hands;
    forall id: nat ensures Standing(s.(clock := now), id) == Standing(s, id) {
    }
  }

  lemma EnqueueKeepsInv(s: State, now: int)
    requires Inv(s) && s.clock <= now
    ensures Inv(Next(s, Enqueue(now)))
  {
    hide Occurs, Times, PostCount, LastPostAt, Held, Hands;
    LaterClock(s, now);
    var s' := Next(s, Enqueue(now));
    if |s.queue| < MAX_QUEUE_SIZE {
      var newcomer := Event(s.accepted, 0, now);
      UnpostedBefore(s.posts, s.accepted);
      forall id: nat ensures Standing(s', id) == if id < s'.accepted then 1 else 0 {
        Appending(s.queue, newcomer, id);
        assert Standing(s, id) == if id < s.accepted then 1 else 0;
      }
      forall x | x in s'.queue ensures Waiting(s'.posts, x) {
        assert x in s.queue || x == newcomer;
      }
    }
  }

  lemma ForeignKeepsInv(s: State, now: int)
    requires Inv(s) && s.clock <= now
    ensures Inv(Next(s, ForeignText(now)))
  {
    hide Occurs, Times, PostCount, LastPostAt, Held, Hands;
    var s' := Next(s, ForeignText(now));
    forall id: nat ensures Standing(s', id) == Standing(s, id) {
      Appending(s.queue, Garbage, id);
    }
  }

  // A drain goes from one place to another without an event in hand.
  lemma MoveEmptyHanded(s: State, p: nat, d: Drain)
    requires Inv(s) && p < |s.drains| && HandOf(s.drains[p]) == HandOf(d) == multiset{}
    ensures Inv(At(s, p, d))
  {
    hide Occurs, Times, PostCount, LastPostAt, Held, Hands;
    HandsUpdate(s.drains, p, d);
    Exchange(Hands(s.drains), multiset{}, multiset{}, multiset{});
    forall id: nat ensures Standing(At(s, p, d), id) == Standing(s, id) {
      HeldUpdate(s.drains, p, d, id);
    }
  }

  lemma TakenIsListed(s: State, p: nat, x: Item)
    requires HandsListed(s) && p < |s.drains| && s.drains[p].Fetching?
    ensures multiset([x] + s.processing) == Hands(s.drains[p := Holding(x)])
  {
    hide Hands;
    HandsUpdate(s.drains, p, Holding(x));
    Exchange(Hands(s.drains), multiset{}, multiset{x}, multiset{});
    assert multiset([x] + s.processing) == multiset(s.processing) + multiset{x};
  }

  lemma TakeKeepsInv(s: State, p: nat)
    requires Inv(s) && p < |s.drains| && s.drains[p].Fetching?
    ensures Inv(Taken(s, p))
  {
    hide Occurs, Times, PostCount, LastPostAt, Held, Hands, Backoff;
    if s.queue == [] {
      MoveEmptyHanded(s, p, Off);
    } else {
      var n, s' := |s.queue| - 1, Taken(s, p);
      var x := s.queue[n];
      SplitLast(s.queue);
      TakenIsListed(s, p, x);
      forall id: nat ensures Standing(s', id) == Standing(s, id) {
        Appending(s.queue[..n], x, id);
        HeldUpdate(s.drains, p, Holding(x), id);
      }
      forall y | y in s'.queue ensures y in s.queue {
      }
    }
  }

  // What a drain has in hand is on the processing list, and comes off it alone.
  lemma HandEmptied(s: State, p: nat, d: Drain)
    requires HandsListed(s) && p < |s.drains| && (s.drains[p].Holding? || s.drains[p].Posting?) && HandOf(d) == multiset{}
    ensures s.drains[p].item in s.processing
    ensures multiset(Without(s.processing, s.drains[p].item)) == Hands(s.drains[p := d])
  {
    hide Hands, Without;
    var x := s.drains[p].item;
    HandsUpdate(s.drains, p, d);
    Exchange(Hands(s.drains), multiset{x}, multiset{}, multiset{});
    assert multiset{x} <= Hands(s.drains);
    assert x in multiset(s.processing);
    Removed(s.processing, x);
  }

  // Nobody and nothing else holds the event in hand.
  lemma OnlyInHand(s: State, p: nat)
    requires Conserved(s) && p < |s.drains| && (s.drains[p].Holding? || s.drains[p].Posting?) && s.drains[p].item.Event?
    ensures var id := s.drains[p].item.id;
            && id < s.accepted
            && (forall y :: y in s.queue && y.Event? ==> y.id != id)
            && (forall y :: y in s.deadLetters && y.Event? ==> y.id != id)
            && (forall i :: i in s.delivered ==> i != id)
            && (forall q :: 0 <= q < |s.drains| && q != p ==> !Has(s.drains[q], id))
  {
    hide Occurs, Times, Held;
    var id := s.drains[p].item.id;
    HeldByTwo(s.drains, p, p, id);
    assert Standing(s, id) <= 1;
    forall y | y in s.queue && y.Event? ensures y.id != id { Present(s.queue, y); }
    forall y | y in s.deadLetters && y.Event? ensures y.id != id { Present(s.deadLetters, y); }
    forall i | i in s.delivered ensures i != id { WasDelivered(s.delivered, i); }
    forall q | 0 <= q < |s.drains| && q != p ensures !Has(s.drains[q], id) { HeldByTwo(s.drains, p, q, id); }
  }

  // Where the item in hand goes: to the queue, nowhere, to the dead letters, or out.
  lemma HandToQueue(s: State, p: nat, d: Drain, x: Item)
    requires Inv(s) && p < |s.drains| && (s.drains[p].Holding? || s.drains[p].Posting?)
    requires HandOf(d) == multiset{} && s.drains[p].item.Event? && x.Event? && x.id == s.drains[p].item.id && Waiting(s.posts, x)
    ensures Inv(At(s, p, d).(processing := Without(s.processing, s.drains[p].item), queue := s.queue + [x]))
  {
    hide Occurs, Times, PostCount, LastPostAt, Held, Hands, Without;
    var s' := At(s, p, d).(processing := Without(s.processing, s.drains[p].item), queue := s.queue + [x]);
    HandEmptied(s, p, d);
    forall id: nat ensures Standing(s', id) == Standing(s, id) {
      Appending(s.queue, x, id);
      HeldUpdate(s.drains, p, d, id);
    }
    forall y | y in s'.queue ensures Waiting(s.posts, y) {
      assert y in s.queue || y == x;
    }
  }

  lemma HandDropped(s: State, p: nat)
    requires Inv(s) && p < |s.drains| && s.drains[p] == Holding(Garbage)
    ensures Inv(At(s, p, Fetching).(processing := Without(s.processing, Garbage)))
  {
    hide Occurs, Times, PostCount, LastPostAt, Held, Hands, Without;
    var s' := At(s, p, Fetching).(processing := Without(s.processing, Garbage));
    HandEmptied(s, p, Fetching);
    forall id: nat ensures Standing(s', id) == Standing(s, id) {
      HeldUpdate(s.drains, p, Fetching, id);
    }
  }

  lemma HandToDeadLetters(s: State, p: nat, x: Item)
    requires Inv(s) && p < |s.drains| && s.drains[p].Holding? && s.drains[p].item.Event?
    requires x.Event? && x.id == s.drains[p].item.id && PostCount(s.posts, x.id) == MAX_ATTEMPTS
    ensures Inv(At(s, p, Fetching).(processing := Without(s.processing, s.drains[p].item), deadLetters := s.deadLetters + [x]))
  {
    hide Occurs, Times, PostCount, LastPostAt, Held, Hands, Without;
    var s' := At(s, p, Fetching).(processing := Without(s.processing, s.drains[p].item), deadLetters := s.deadLetters + [x]);
    HandEmptied(s, p, Fetching);
    forall id: nat ensures Standing(s', id) == Standing(s, id) {
      Appending(s.deadLetters, x, id);
      HeldUpdate(s.drains, p, Fetching, id);
    }
    forall y | y in s'.deadLetters ensures y in s.deadLetters || y == x {
    }
  }

  lemma HandDelivered(s: State, p: nat)
    requires Inv(s) && p < |s.drains| && s.drains[p].Posting?
    ensures Inv(At(s, p, Fetching).(processing := Without(s.processing, s.drains[p].item),
                                    delivered := s.delivered + [s.drains[p].item.id]))
  {
    hide Occurs, Times, PostCount, LastPostAt, Held, Hands, Without;
    assert DrainOk(s.posts, s.clock, s.drains[p]);
    var x := s.drains[p].item;
    var s' := At(s, p, Fetching).(processing := Without(s.processing, x), delivered := s.delivered + [x.id]);
    HandEmptied(s, p, Fetching);
    forall id: nat ensures Standing(s', id) == Standing(s, id) {
      DeliveredAppended(s.delivered, x.id, id);
      HeldUpdate(s.drains, p, Fetching, id);
    }
  }

  lemma PostingKeepsInv(s: State, p: nat)
    requires Inv(s) && p < |s.drains| && s.drains[p].Holding? && s.drains[p].item.Event?
    requires var x := s.drains[p].item; !(x.nextRetryAt != 0 && s.clock < x.nextRetryAt) && x.attempts + 1 <= MAX_ATTEMPTS
    ensures Inv(Judged(s, p, s.clock))
  {
    hide Occurs, Times, PostCount, LastPostAt, Held, Hands, Without;
    var x := s.drains[p].item;
    var s', post := Judged(s, p, s.clock), Post(x.id, x.attempts + 1, s.clock);
    assert DrainOk(s.posts, s.clock, s.drains[p]);
    OnlyInHand(s, p);
    HandsUpdate(s.drains, p, Posting(x));
    assert Hands(s.drains) - multiset{x} + multiset{x} == Hands(s.drains);
    forall id: nat ensures Standing(s', id) == Standing(s, id) {
      HeldUpdate(s.drains, p, Posting(x), id);
    }
    PostedContents(s, p, post);
    PostedFits(s, post);
  }

  lemma PostedFits(s: State, post: Post)
    requires PostsFit(s) && post.id < s.accepted
    requires post.attempt == PostCount(s.posts, post.id) + 1 <= MAX_ATTEMPTS
    requires post.attempt > 1 ==> post.at >= LastPostAt(s.posts, post.id) + Backoff(post.attempt - 1)
    ensures PostsFit(s.(posts := s.posts + [post]))
  {
    hide PostCount, LastPostAt, Backoff;
    var posts := s.posts + [post];
    forall j | 0 <= j < |posts| ensures PostFits(posts, j) && posts[j].id < s.accepted {
      if j < |s.posts| {
        assert PostFits(s.posts, j);
        assert posts[..j] == s.posts[..j] && posts[j] == s.posts[j];
      } else {
        assert posts[..j] == s.posts;
      }
    }
  }

  lemma PostedContents(s: State, p: nat, post: Post)
    requires Inv(s) && p < |s.drains| && s.drains[p].Holding? && s.drains[p].item.Event?
    requires var x := s.drains[p].item; post == Post(x.id, x.attempts + 1, s.clock) && x.attempts + 1 <= MAX_ATTEMPTS
    ensures Contents(At(s, p, Posting(s.drains[p].item)).(posts := s.posts + [post]))
  {
    hide Occurs, Times, PostCount, LastPostAt, Held, Hands;
    OnlyInHand(s, p);
    forall id: nat ensures PostCount(s.posts + [post], id) == PostCount(s.posts, id) + if id == post.id then 1 else 0
      ensures LastPostAt(s.posts + [post], id) == if id == post.id then s.clock else LastPostAt(s.posts, id)
    {
      PostAppended(s.posts, post, id);
    }
    var s' := At(s, p, Posting(s.drains[p].item)).(posts := s.posts + [post]);
    forall q | 0 <= q < |s'.drains| ensures DrainOk(s'.posts, s'.clock, s'.drains[q]) {
      assert DrainOk(s.posts, s.clock, s.drains[q]) && DrainOk(s.posts, s.clock, s.drains[p]);
    }
  }

  lemma JudgeKeepsInv(s: State, p: nat)
    requires Inv(s) && p < |s.drains| && s.drains[p].Holding?
    ensures Inv(Judged(s, p, s.clock))
  {
    hide Occurs, Times, PostCount, LastPostAt, Held, Hands, Without, HandsListed, Conserved, PostsFit;
    assert DrainOk(s.posts, s.clock, s.drains[p]);
    var x := s.drains[p].item;
    if x.Garbage? {
      HandDropped(s, p);
    } else if x.nextRetryAt != 0 && s.clock < x.nextRetryAt {
      HandToQueue(s, p, Off, x);
    } else if x.attempts + 1 > MAX_ATTEMPTS {
      HandToDeadLetters(s, p, x.(attempts := x.attempts + 1));
    } else {
      PostingKeepsInv(s, p);
    }
  }

  lemma OutcomeKeepsInv(s: State, p: nat, ok: bool)
    requires Inv(s) && p < |s.drains| && s.drains[p].Posting? && s.drains[p].item.Event?
    ensures Inv(Returned(s, p, s.clock, ok))
  {
    hide Occurs, Times, PostCount, LastPostAt, Held, Hands, Without, HandsListed, Conserved, PostsFit;
    assert DrainOk(s.posts, s.clock, s.drains[p]);
    if ok {
      HandDelivered(s, p);
    } else {
      HandToQueue(s, p, Fetching, Again(s.drains[p].item, s.clock));
    }
  }

  lemma {:induction false} StepKeepsInv(s: State, step: Step)
    requires Inv(s) && Enabled(s, step)
    ensures Inv(Next(s, step))
  {
    hide Inv, Judged, Returned, Taken, Enqueued;
    LaterClock(s, step.now);
    var at := s.(clock := step.now);
    match step
    case Enqueue(now) => EnqueueKeepsInv(s, now);
    case ForeignText(now) => ForeignKeepsInv(s, now);
    case Start(_, p) => MoveEmptyHanded(at, p, Fetching);
    case Take(_, p) => TakeKeepsInv(at, p);
    case Judge(_, p) => JudgeKeepsInv(at, p);
    case Outcome(_, p, ok) => OutcomeKeepsInv(at, p, ok);
  }

  // ---------------------------------------------------------- main results

  lemma {:induction false} NobodyDraining(drains: seq<Drain>)
    requires forall p :: 0 <= p < |drains| ==> drains[p].Off?
    ensures Hands(drains) == multiset{}
  {
    if drains != [] {
      NobodyDraining(drains[..|drains| - 1]);
    }
  }

  lemma EmptyIsFine(processes: nat)
    ensures Inv(Empty(processes))
  {
    hide Held, Hands;
    var s := Empty(processes);
    NobodyDraining(s.drains);
    forall id: nat ensures Standing(s, id) == 0 {
      ListedAreHeld([], s.drains, id);
    }
  }

  lemma {:induction false} RunsKeepInv(s: State, steps: seq<Step>)
    requires Inv(s) && Exec(s, steps).Some?
    ensures Inv(Exec(s, steps).value)
  {
    hide Inv, Next, Enabled;
    if steps != [] {
      RunsKeepInv(s, steps[..|steps| - 1]);
      StepKeepsInv(Exec(s, steps[..|steps| - 1]).value, steps[|steps| - 1]);
    }
  }

  lemma HeldIsProcessing(s: State, id: nat)
    requires HandsListed(s)
    ensures Occurs(s.processing, id) == Held(s.drains, id)
  {
    ListedAreHeld(s.processing, s.drains, id);
  }

  // Each accepted event stands in exactly one place, and nothing else stands anywhere.
  ghost predicate OnePlaceEach(s: State) {
    forall id: nat :: Places(s, id) == if id < s.accepted then 1 else 0
  }

  // Whatever number of processes drain the queue: in every reachable state each accepted
  // event stands in exactly one place, and the dead letters have been posted as often
  // as allowed.
  lemma {:induction false} EventsAreConserved(processes: nat, steps: seq<Step>)
    requires Exec(Empty(processes), steps).Some?
    ensures OnePlaceEach(Exec(Empty(processes), steps).value)
    ensures PostsFit(Exec(Empty(processes), steps).value)
    ensures forall x :: x in Exec(Empty(processes), steps).value.deadLetters ==>
              x.Event? && PostCount(Exec(Empty(processes), steps).value.posts, x.id) == MAX_ATTEMPTS
  {
    hide Exec, Occurs, Held, Times, PostCount, PostFits;
    EmptyIsFine(processes);
    RunsKeepInv(Empty(processes), steps);
    var s := Exec(Empty(processes), steps).value;
    forall id: nat ensures Places(s, id) == Standing(s, id) {
      HeldIsProcessing(s, id);
    }
  }

  // The latest post of an event before position n, and its attempt number.
  lemma {:induction false} LatestPost(posts: seq<Post>, n: nat, id: nat)
    requires n <= |posts| && forall j :: 0 <= j < |posts| ==> PostFits(posts, j)
    ensures forall i :: 0 <= i < n && posts[i].id == id ==> posts[i].attempt <= PostCount(posts[..n], id)
    ensures forall i :: 0 <= i < n && posts[i].id == id && posts[i].attempt == PostCount(posts[..n], id)
              ==> posts[i].at == LastPostAt(posts[..n], id)
    ensures PostCount(posts[..n], id) <= MAX_ATTEMPTS
  {
    if n > 0 {
      LatestPost(posts, n - 1, id);
      assert posts[..n][..n - 1] == posts[..n - 1];
      assert PostFits(posts, n - 1);
    }
  }

  // No event is posted more than MAX_ATTEMPTS times by all drains together, and its
  // (k+1)-th post comes at least the k-th backoff after its k-th post.
  lemma {:induction false} PostsAreLimitedAndSpaced(processes: nat, steps: seq<Step>, id: nat, i: nat, j: nat)
    requires Exec(Empty(processes), steps).Some?
    ensures PostCount(Exec(Empty(processes), steps).value.posts, id) <= MAX_ATTEMPTS
    ensures var posts := Exec(Empty(processes), steps).value.posts;
            i < |posts| && j < |posts| && posts[i].id == id == posts[j].id && posts[j].attempt == posts[i].attempt + 1
            && posts[i].attempt > 0
            ==> posts[j].at >= posts[i].at + Backoff(posts[i].attempt)
  {
    hide PostCount, LastPostAt, Exec;
    EmptyIsFine(processes);
    RunsKeepInv(Empty(processes), steps);
    var posts := Exec(Empty(processes), steps).value.posts;
    LatestPost(posts, |posts|, id);
    assert posts[..|posts|] == posts;
    if i < |posts| && j < |posts| && posts[i].id == id == posts[j].id && posts[j].attempt == posts[i].attempt + 1 {
      LatestPost(posts, j, id);
      LatestPost(posts, i, id);
      assert PostFits(posts, j) && PostFits(posts, i);
      if j <= i {
        CountsGrow(posts, j, i, id);
      }
    }
  }

  lemma {:induction false} CountsGrow(posts: seq<Post>, a: nat, b: nat, id: nat)
    requires a <= b <= |posts|
    ensures PostCount(posts[..a], id) <= PostCount(posts[..b], id)
    decreases b
  {
    if a < b {
      assert posts[..b][..b - 1] == posts[..b - 1];
      CountsGrow(posts, a, b - 1, id);
    }
  }

  // The i-th step is the good end of a post of the event.
  ghost predicate DeliversAt(s: State, steps: seq<Step>, i: nat, id: nat) {
    && i < |steps| && steps[i].Outcome? && steps[i].ok
    && Exec(s, steps[..i]).Some?
    && var before := Exec(s, steps[..i]).value;
       steps[i].p < |before.drains| && before.drains[steps[i].p].Posting? && IsEvent(before.drains[steps[i].p].item, id)
  }

  // Delivered are exactly the events of which some post came back good.
  lemma {:induction false} DeliveredMeansPosted(processes: nat, steps: seq<Step>, id: nat)
    requires Exec(Empty(processes), steps).Some?
    ensures id in Exec(Empty(processes), steps).value.delivered <==> exists i :: DeliversAt(Empty(processes), steps, i, id)
  {
    var s := Empty(processes);
    if steps != [] {
      var n := |steps| - 1;
      DeliveredMeansPosted(processes, steps[..n], id);
      assert forall i :: 0 <= i < n ==> steps[..n][..i] == steps[..i];
      assert forall i :: 0 <= i < n ==> (DeliversAt(s, steps, i, id) <==> DeliversAt(s, steps[..n], i, id));
      LastDelivers(Exec(s, steps[..n]).value, steps[n], id);
      assert DeliversAt(s, steps, n, id) <==>
             steps[n].Outcome? && steps[n].ok && IsEvent(Exec(s, steps[..n]).value.drains[steps[n].p].item, id);
    }
  }

  lemma LastDelivers(s: State, step: Step, id: nat)
    requires Enabled(s, step)
    ensures id in Next(s, step).delivered <==>
            id in s.delivered || (step.Outcome? && step.ok && IsEvent(s.drains[step.p].item, id))
  {
    hide Without, Backoff;
  }

  // A post that fails delivers nothing; its event waits at the right end of the queue
  // with one more attempt, until its backoff is over.
  lemma FailedPostWaits(s: State, step: Step)
    requires Enabled(s, step) && step.Outcome? && !step.ok
    ensures var x, s' := s.drains[step.p].item, Next(s, step);
            && s'.delivered == s.delivered && s'.deadLetters == s.deadLetters && s'.posts == s.posts
            && |s'.queue| == |s.queue| + 1 && s'.queue[..|s.queue|] == s.queue
            && s'.queue[|s.queue|] == Event(x.id, x.attempts + 1, step.now + Backoff(x.attempts + 1))
  {
    hide Without, Backoff;
  }

  // Once delivered an event stays delivered, stands nowhere else and is never posted again.
  lemma {:induction false} DeliveredIsFinal(s: State, steps: seq<Step>, id: nat)
    requires Inv(s) && id in s.delivered && Exec(s, steps).Some?
    ensures var end := Exec(s, steps).value;
            && id in end.delivered && s.posts <= end.posts
            && (forall j :: |s.posts| <= j < |end.posts| ==> end.posts[j].id != id)
            && Occurs(end.queue, id) == Occurs(end.processing, id) == Occurs(end.deadLetters, id) == 0
  {
    hide Inv, Next, Enabled, Occurs, Exec;
    DeliveredStandsAlone(s, id);
    if steps == [] {
      ExecNone(s, steps);
    } else {
      var n := |steps| - 1;
      ExecLast(s, steps);
      DeliveredIsFinal(s, steps[..n], id);
      var before := Exec(s, steps[..n]).value;
      RunsKeepInv(s, steps[..n]);
      StepKeepsInv(before, steps[n]);
      DeliveredNotPosted(before, steps[n], id);
      DeliveredStandsAlone(Next(before, steps[n]), id);
    }
  }

  lemma {:induction false} ExecSplit(s: State, a: seq<Step>, b: seq<Step>)
    requires Exec(s, a).Some?
    ensures Exec(s, a + b) == Exec(Exec(s, a).value, b)
  {
    hide Next, Enabled;
    if b == [] {
      assert a + b == a;
    } else {
      var n := |b| - 1;
      ExecSplit(s, a, b[..n]);
      assert (a + b)[..|a + b| - 1] == a + b[..n];
    }
  }

  // In any run, after a good post nothing is posted under that id any more.
  lemma {:induction false} NothingPostedAfterDelivery(processes: nat, steps: seq<Step>, i: nat, id: nat)
    requires Exec(Empty(processes), steps).Some? && DeliversAt(Empty(processes), steps, i, id)
    requires Exec(Empty(processes), steps[..i + 1]).Some?
    ensures var after, end := Exec(Empty(processes), steps[..i + 1]).value, Exec(Empty(processes), steps).value;
            after.posts <= end.posts && forall j :: |after.posts| <= j < |end.posts| ==> end.posts[j].id != id
  {
    hide Exec, Inv, Next, Enabled;
    EmptyIsFine(processes);
    RunsKeepInv(Empty(processes), steps[..i + 1]);
    assert steps == steps[..i + 1] + steps[i + 1..];
    assert steps[..i + 1][..i] == steps[..i];
    ExecSplit(Empty(processes), steps[..i + 1], steps[i + 1..]);
    DeliveredMeansPosted(processes, steps[..i + 1], id);
    assert DeliversAt(Empty(processes), steps[..i + 1], i, id);
    DeliveredIsFinal(Exec(Empty(processes), steps[..i + 1]).value, steps[i + 1..], id);
  }

  lemma ExecNone(s: State, steps: seq<Step>)
    requires steps == []
    ensures Exec(s, steps) == Some(s)
  {
  }

  lemma ExecLast(s: State, steps: seq<Step>)
    requires steps != [] && Exec(s, steps).Some?
    ensures var n := |steps| - 1;
            && Exec(s, steps[..n]).Some? && Enabled(Exec(s, steps[..n]).value, steps[n])
            && Exec(s, steps).value == Next(Exec(s, steps[..n]).value, steps[n])
  {
    hide Next, Enabled;
  }

  lemma DeliveredNotPosted(s: State, step: Step, id: nat)
    requires Inv(s) && Enabled(s, step) && id in s.delivered
    ensures id in Next(s, step).delivered && s.posts <= Next(s, step).posts
    ensures forall j :: |s.posts| <= j < |Next(s, step).posts| ==> Next(s, step).posts[j].id != id
  {
    hide Without, Backoff, Occurs, Held, Times, PostCount, LastPostAt, Hands;
    if step.Judge? && s.drains[step.p].item.Event? {
      OnlyInHand(s, step.p);
    }
  }

  lemma DeliveredStandsAlone(s: State, id: nat)
    requires Inv(s) && id in s.delivered
    ensures Occurs(s.queue, id) == Occurs(s.processing, id) == Occurs(s.deadLetters, id) == 0
  {
    hide Occurs, Held, Times, PostCount, LastPostAt, Hands, Contents, PostsFit;
    HeldIsProcessing(s, id);
    WasDelivered(s.delivered, id);
    assert Standing(s, id) <= 1;
  }

  // What happens to the item in hand: text is dropped; an event not yet due goes back to
  // the right end and ends the drain; one with all attempts spent becomes a dead letter;
  // any other is posted.
  lemma JudgeDecides(s: State, step: Step)
    requires Enabled(s, step) && step.Judge?
    ensures var x, s', d := s.drains[step.p].item, Next(s, step), Next(s, step).drains[step.p];
            && s'.delivered == s.delivered
            && (s'.queue == (if x.Event? && x.nextRetryAt != 0 && step.now < x.nextRetryAt then s.queue + [x] else s.queue))
            && (d.Off? <==> x.Event? && x.nextRetryAt != 0 && step.now < x.nextRetryAt)
            && (d.Posting? <==> x.Event? && (x.nextRetryAt == 0 || x.nextRetryAt <= step.now) && x.attempts < 10)
            && (d.Posting? ==> d.item == x)
            && s'.posts == (if d.Posting? then s.posts + [Post(x.id, x.attempts + 1, step.now)] else s.posts)
            && |s'.deadLetters| == |s.deadLetters| + (if x.Event? && d.Fetching? then 1 else 0)
  {
    hide Without, Backoff;
  }

  // An event that is accepted and taken next is the one taken: the queue gives back the
  // latest first.
  lemma LatestIsTakenFirst(s: State, now: int, later: int, p: nat)
    requires Enabled(s, Enqueue(now)) && now <= later && p < |s.drains| && s.drains[p].Fetching? && |s.queue| < 10_000
    ensures var one := Next(s, Enqueue(now));
            && one.accepted == s.accepted + 1
            && Enabled(one, Take(later, p))
            && Next(one, Take(later, p)).drains[p] == Holding(Event(s.accepted, 0, now))
            && Next(one, Take(later, p)).queue == s.queue
            && Next(one, Take(later, p)).processing == [Event(s.accepted, 0, now)] + s.processing
  {
  }

  lemma FullQueueDrops(s: State, now: int)
    requires Enabled(s, Enqueue(now)) && |s.queue| >= 10_000
    ensures Next(s, Enqueue(now)) == s.(clock := now)
  {
  }

  // One second after the first attempt, then twice as long each time, up to a minute.
  lemma {:induction false} BackoffDoubles(k: nat)
    requires k > 0
    ensures Backoff(1) == 1000
    ensures Backoff(k + 1) == if 2 * Backoff(k) < 60_000 then 2 * Backoff(k) else 60_000
  {
  }

  // ------------------------------------------------------------- the work left

  // Rounds of a drain an item can still take part in.
  function WorkOf(x: Item): (w: nat)
    ensures 0 < w <= MAX_ATTEMPTS + 1
  {
    if x.Garbage? || x.attempts > MAX_ATTEMPTS then 1 else MAX_ATTEMPTS + 1 - x.attempts
  }

  function Work(items: seq<Item>): nat {
    if items == [] then 0 else Work(items[..|items| - 1]) + WorkOf(items[|items| - 1])
  }

  function WorkIn(d: Drain): nat {
    if d.Holding? || d.Posting? then WorkOf(d.item) else 0
  }

  function WorkHeld(drains: seq<Drain>): nat {
    if drains == [] then 0 else WorkHeld(drains[..|drains| - 1]) + WorkIn(drains[|drains| - 1])
  }

  function TotalWork(s: State): nat { Work(s.queue) + WorkHeld(s.drains) }

  lemma MoreWork(items: seq<Item>, x: Item)
    ensures Work(items + [x]) == Work(items) + WorkOf(x)
  {
    assert (items + [x])[..|items|] == items;
  }

  lemma {:induction false} WorkUpdate(drains: seq<Drain>, p: nat, d: Drain)
    requires p < |drains|
    ensures WorkHeld(drains[p := d]) + WorkIn(drains[p]) == WorkHeld(drains) + WorkIn(d)
  {
    var n := |drains| - 1;
    if p < n {
      WorkUpdate(drains[..n], p, d);
      assert drains[p := d][..n] == drains[..n][p := d];
    } else {
      assert drains[p := d][..n] == drains[..n];
    }
  }

  // The work that a step adds.
  function Added(step: Step): nat { if Arrives(step) then MAX_ATTEMPTS + 1 else 0 }

  // The step ends one drain's round and lets that drain go on.
  predicate EndsRound(s: State, step: Step)
    requires Enabled(s, step)
  {
    (step.Judge? || step.Outcome?) && Next(s, step).drains[step.p].Fetching?
  }

  // Only arrivals add work, and every finished round takes some away.
  lemma StepsUseWork(s: State, step: Step)
    requires Inv(s) && Enabled(s, step)
    ensures TotalWork(Next(s, step)) <= TotalWork(s) + Added(step)
    ensures EndsRound(s, step) ==> TotalWork(Next(s, step)) < TotalWork(s)
  {
    hide PostCount, LastPostAt, Held, Occurs, Times, Work, WorkHeld, Without, Hands;
    var s' := Next(s, step);
    match step
    case Enqueue(now) => MoreWork(s.queue, Event(s.accepted, 0, now));
    case ForeignText(_) => MoreWork(s.queue, Garbage);
    case Start(_, p) => WorkUpdate(s.drains, p, Fetching);
    case Take(_, p) =>
      WorkUpdate(s.drains, p, s'.drains[p]);
      if s.queue != [] {
        MoreWork(s.queue[..|s.queue| - 1], s.queue[|s.queue| - 1]);
        SplitLast(s.queue);
      }
    case Judge(_, p) =>
      WorkUpdate(s.drains, p, s'.drains[p]);
      MoreWork(s.queue, s.drains[p].item);
    case Outcome(now, p, _) =>
      WorkUpdate(s.drains, p, Fetching);
      assert DrainOk(s.posts, s.clock, s.drains[p]);
      MoreWork(s.queue, Again(s.drains[p].item, now));
  }

  lemma {:induction false} ExecMore(s: State, steps: seq<Step>, step: Step)
    requires Exec(s, steps).Some? && Enabled(Exec(s, steps).value, step)
    ensures Exec(s, steps + [step]) == Some(Next(Exec(s, steps).value, step))
  {
    assert (steps + [step])[..|steps|] == steps;
  }

  // ---------------------------------------------------------- one process

  // One of the processes, with the lists they share. `drains`, `delivered`, `posts`,
  // `accepted` and `clock` are the history; the process itself has only its flag.
  class AuditRetryQueue {
    const me: nat
    var queue: seq<Item>
    var processing: seq<Item>
    var deadLetters: seq<Item>
    var draining: bool
    var drains: seq<Drain>
    var delivered: seq<nat>
    var posts: seq<Post>
    var accepted: nat
    var clock: int

    function View(): State
      reads this
    {
      State(queue, processing, deadLetters, drains, delivered, posts, accepted, clock)
    }

    ghost predicate Valid()
      reads this
    {
      Inv(View()) && me < |drains| && (draining <==> !drains[me].Off?)
    }

    constructor (me: nat, processes: nat)
      requires me < processes
      ensures Valid() && View() == Empty(processes) && this.me == me && !draining
    {
      this.me := me;
      queue, processing, deadLetters, draining := [], [], [], false;
      drains, delivered, posts, accepted, clock := seq(processes, _ => Off), [], [], 0, 0;
      EmptyIsFine(processes);
    }

    // The reading of the clock is any one not before the last.
    method Now() returns (now: int)
      ensures now >= clock
    {
      now := *;
      if now < clock {
        now := clock;
      }
    }

    method EnqueueAuditRetry(now: int)
      requires Valid() && clock <= now
      modifies this
      ensures Valid() && View() == Next(old(View()), Enqueue(now)) && draining == old(draining)
    {
      hide Inv;
      StepKeepsInv(View(), Enqueue(now));
      clock := now;
      if |queue| >= MAX_QUEUE_SIZE {
        return;
      }
      queue := queue + [Event(accepted, 0, now)];
      accepted := accepted + 1;
    }

    // Moves the rightmost item to the processing list.
    method TakeItem(now: int) returns (found: bool)
      requires Valid() && drains[me].Fetching? && clock <= now
      modifies this
      ensures Valid() && View() == Next(old(View()), Take(now, me)) && found == (old(queue) != [])
    {
      hide Inv;
      StepKeepsInv(View(), Take(now, me));
      clock := now;
      found := queue != [];
      if found {
        var last := |queue| - 1;
        drains := drains[me := Holding(queue[last])];
        processing := [queue[last]] + processing;
        queue := queue[..last];
      } else {
        draining, drains := false, drains[me := Off];
      }
    }

    method JudgeItem(now: int) returns (post: bool, again: bool)
      requires Valid() && drains[me].Holding? && clock <= now
      modifies this
      ensures Valid() && View() == Next(old(View()), Judge(now, me))
      ensures post <==> drains[me].Posting?
      ensures again <==> drains[me].Fetching?
    {
      hide Inv;
      StepKeepsInv(View(), Judge(now, me));
      clock := now;
      var item := drains[me].item;
      if item.Garbage? {
        processing := Without(processing, item);
        drains := drains[me := Fetching];
        return false, true;
      }
      if item.nextRetryAt != 0 && now < item.nextRetryAt {
        processing := Without(processing, item);
        queue := queue + [item];
        draining, drains := false, drains[me := Off];
        return false, false;
      }
      if item.attempts + 1 > MAX_ATTEMPTS {
        processing := Without(processing, item);
        deadLetters := deadLetters + [item.(attempts := item.attempts + 1)];
        drains := drains[me := Fetching];
        return false, true;
      }
      posts := posts + [Post(item.id, item.attempts + 1, now)];
      drains := drains[me := Posting(item)];
      return true, false;
    }

    method PostReturned(now: int, ok: bool)
      requires Valid() && drains[me].Posting? && drains[me].item.Event? && clock <= now
      modifies this
      ensures Valid() && View() == Next(old(View()), Outcome(now, me, ok)) && drains[me].Fetching?
    {
      hide Inv;
      StepKeepsInv(View(), Outcome(now, me, ok));
      clock := now;
      var item := drains[me].item;
      processing := Without(processing, item);
      drains := drains[me := Fetching];
      if ok {
        delivered := delivered + [item.id];
      } else {
        queue := queue + [Event(item.id, item.attempts + 1, now + Backoff(item.attempts + 1))];
      }
    }

    predicate OfOthers(step: Step)
    {
      Arrives(step) || step.p != me
    }

    // Any steps of the other processes, and the arrival of some of what is still to come.
    method Others(pending: nat, ghost s0: State, ghost steps0: seq<Step>) returns (left: nat, ghost steps: seq<Step>)
      requires Valid() && Exec(s0, steps0) == Some(View())
      modifies this
      ensures Valid() && Exec(s0, steps) == Some(View()) && draining == old(draining) && clock >= old(clock)
      ensures |drains| == old(|drains|) && drains[me] == old(drains[me])
      ensures left <= pending
      ensures TotalWork(View()) + (MAX_ATTEMPTS + 1) * left <= TotalWork(old(View())) + (MAX_ATTEMPTS + 1) * pending
    {
      hide Inv, TotalWork, Exec, Next, Enabled;
      left, steps := pending, steps0;
      var rounds: nat := *;
      while rounds > 0
        invariant Valid() && Exec(s0, steps) == Some(View()) && draining == old(draining) && clock >= old(clock)
        invariant |drains| == old(|drains|) && drains[me] == old(drains[me]) && left <= pending
        invariant TotalWork(View()) + (MAX_ATTEMPTS + 1) * left <= TotalWork(old(View())) + (MAX_ATTEMPTS + 1) * pending
      {
        var step: Step := *;
        if Enabled(View(), step) && OfOthers(step) && (Arrives(step) ==> left > 0) {
          steps := TakeStep(step, s0, steps);
          left := if Arrives(step) then left - 1 else left;
        }
        rounds := rounds - 1;
      }
    }

    method TakeStep(step: Step, ghost s0: State, ghost steps0: seq<Step>) returns (ghost steps: seq<Step>)
      requires Valid() && Exec(s0, steps0) == Some(View()) && Enabled(View(), step) && OfOthers(step)
      modifies this
      ensures Valid() && View() == Next(old(View()), step) && Exec(s0, steps) == Some(View())
      ensures draining == old(draining) && clock >= old(clock) && |drains| == old(|drains|) && drains[me] == old(drains[me])
      ensures TotalWork(View()) <= TotalWork(old(View())) + Added(step)
    {
      hide Inv, TotalWork, Next, Enabled, Added;
      StepKeepsInv(View(), step);
      StepsUseWork(View(), step);
      OthersLeaveMine(View(), step, me);
      ExecMore(s0, steps0, step);
      steps := steps0 + [step];
      var s := Next(View(), step);
      queue, processing, deadLetters, drains := s.queue, s.processing, s.deadLetters, s.drains;
      delivered, posts, accepted, clock := s.delivered, s.posts, s.accepted, s.clock;
    }

    // With finitely much still to arrive the drain comes to an end, whatever the others do.
    // What happened is a run of the steps above; the process then has nothing in hand, and
    // if no other is draining the processing list is empty.
    method DrainAuditRetryQueue(pending: nat) returns (left: nat, ghost steps: seq<Step>)
      requires Valid()
      modifies this
      ensures Valid() && left <= pending && Exec(old(View()), steps) == Some(View())
      ensures old(draining) ==> View() == old(View())
      ensures !old(draining) ==> !draining && drains[me].Off?
      ensures (forall p :: 0 <= p < |drains| ==> drains[p].Off?) ==> processing == []
    {
      hide Inv, TotalWork;
      left, steps := pending, [];
      if draining {
        ProcessingIsEmpty(View());
        return;
      }
      var now := Now();
      ghost var s0 := View();
      StepKeepsInv(s0, Start(now, me));
      ExecMore(s0, [], Start(now, me));
      clock, draining, drains, steps := now, true, drains[me := Fetching], [] + [Start(now, me)];
      var running := true;
      while running
        invariant Valid() && Exec(s0, steps) == Some(View()) && left <= pending
        invariant if running then drains[me].Fetching? else drains[me].Off?
        decreases TotalWork(View()) + (MAX_ATTEMPTS + 1) * left, running
      {
        left, steps, running := Round(left, s0, steps);
      }
      ProcessingIsEmpty(View());
    }

    // Takes one item and works on it.
    method Round(pending: nat, ghost s0: State, ghost steps0: seq<Step>) returns (left: nat, ghost steps: seq<Step>, running: bool)
      requires Valid() && drains[me].Fetching? && Exec(s0, steps0) == Some(View())
      modifies this
      ensures Valid() && Exec(s0, steps) == Some(View()) && left <= pending
      ensures if running then drains[me].Fetching? else drains[me].Off?
      ensures var before, after := TotalWork(old(View())) + (MAX_ATTEMPTS + 1) * pending, TotalWork(View()) + (MAX_ATTEMPTS + 1) * left;
              if running then after < before else after <= before
    {
      hide Inv, TotalWork;
      left, steps := Others(pending, s0, steps0);
      var now := Now();
      StepsUseWork(View(), Take(now, me));
      ExecMore(s0, steps, Take(now, me));
      steps := steps + [Take(now, me)];
      var found := TakeItem(now);
      if !found {
        return left, steps, false;
      }
      left, steps := Others(left, s0, steps);
      now := Now();
      StepsUseWork(View(), Judge(now, me));
      ExecMore(s0, steps, Judge(now, me));
      steps := steps + [Judge(now, me)];
      var post, again := JudgeItem(now);
      if !post {
        return left, steps, again;
      }
      left, steps := Others(left, s0, steps);
      now := Now();
      var ok: bool := *;
      PostedIsEvent(View(), me);
      StepsUseWork(View(), Outcome(now, me, ok));
      ExecMore(s0, steps, Outcome(now, me, ok));
      steps := steps + [Outcome(now, me, ok)];
      PostReturned(now, ok);
      running := true;
    }
  }

  lemma OthersLeaveMine(s: State, step: Step, me: nat)
    requires Enabled(s, step) && (Arrives(step) || step.p != me) && me < |s.drains|
    ensures var s' := Next(s, step); |s'.drains| == |s.drains| && s'.drains[me] == s.drains[me] && s'.clock >= s.clock
  {
    hide Without, Backoff;
  }

  lemma PostedIsEvent(s: State, p: nat)
    requires Inv(s) && p < |s.drains| && s.drains[p].Posting?
    ensures s.drains[p].item.Event?
  {
    assert DrainOk(s.posts, s.clock, s.drains[p]);
  }

  lemma ProcessingIsEmpty(s: State)
    requires Inv(s)
    ensures (forall p :: 0 <= p < |s.drains| ==> s.drains[p].Off?) ==> s.processing == []
  {
    if forall p :: 0 <= p < |s.drains| ==> s.drains[p].Off? {
      NobodyDraining(s.drains);
      assert |multiset(s.processing)| == |s.processing|;
    }
  }
}
