/**
  The event hub of `internal/collector/hub.go` as a protocol: publishers, subscribers leaving
  and receivers interleave one step at a time.

  A step under the mutex that touches channels others use is cut up where they can come between;
  a publish therefore keeps the mutex over several steps (`phase`), and whoever needs the mutex
  waits for `Idle`. Which subscriber the loop over a map takes next, and which ready branch a
  `select` takes, is left open. `offered` is a record kept for the proofs: the events of the
  publishes that found the subscriber registered.
 */
module Hub {
  import opened Reorder

  datatype Event = Event(kind: string, snapshot: int)

  datatype Subscriber = Subscriber(buffered: bool, capacity: nat, registered: bool, leaving: bool, closed: bool,
                                   queue: seq<Event>, received: seq<Event>, offered: seq<Event>)

  datatype Stage = Trying | Draining | Sending | Waiting

  datatype Current = Nobody | At(id: nat, stage: Stage)

  datatype Phase = Idle | Publishing(event: Event, lossy: set<nat>, buffered: set<nat>, current: Current)

  datatype Hub = Hub(subscribers: map<nat, Subscriber>, phase: Phase)

  datatype Step =
    | Subscribe(id: nat)
    | SubscribeBuffered(id: nat, requested: int)
    | Publish(event: Event)         // takes the mutex
    | Turn(id: nat)                 // the loop's next subscriber
    | TrySend                       // select { case subscriber <- latest: default: }
    | Drain                         // select { case <-subscriber: default: }
    | Send                          // subscriber <- latest
    | Deliver                       // case subscriber <- event
    | GiveUp                        // case <-done
    | Return                        // gives the mutex back
    | Receive(id: nat)
    | Unsubscribe(id: nat)          // lossy: delete and close under the mutex
    | CloseDone(id: nat)            // buffered: first close(done), without the mutex
    | Remove(id: nat)               // buffered: then delete and close under the mutex

  // ----- the protocol

  predicate Listening(s: Hub, id: nat, buffered: bool) {
    id in s.subscribers && s.subscribers[id].registered && s.subscribers[id].buffered == buffered
  }

  function Registered(s: Hub, buffered: bool): set<nat> {
    set id | id in s.subscribers && Listening(s, id, buffered)
  }

  predicate Stands(s: Hub, stage: Stage) {
    s.phase.Publishing? && s.phase.current.At? && s.phase.current.stage == stage && s.phase.current.id in s.subscribers
  }

  predicate Room(c: Subscriber) { |c.queue| < c.capacity }

  function Turned(s: Hub): Subscriber
    requires s.phase.Publishing? && s.phase.current.At? && s.phase.current.id in s.subscribers
  {
    s.subscribers[s.phase.current.id]
  }

  predicate Enabled(s: Hub, step: Step) {
    match step
    case Subscribe(id) => s.phase.Idle? && id !in s.subscribers
    case SubscribeBuffered(id, _) => s.phase.Idle? && id !in s.subscribers
    case Publish(_) => s.phase.Idle?
    case Turn(id) =>
      && s.phase.Publishing? && s.phase.current.Nobody?
      && (id in s.phase.lossy || (s.phase.lossy == {} && id in s.phase.buffered))
    case TrySend => Stands(s, Trying)
    case Drain => Stands(s, Draining)
    case Send => Stands(s, Sending) && Room(Turned(s))
    case Deliver => Stands(s, Waiting) && Room(Turned(s))
    case GiveUp => Stands(s, Waiting) && Turned(s).leaving
    case Return => s.phase.Publishing? && s.phase.current.Nobody? && s.phase.lossy == {} && s.phase.buffered == {}
    case Receive(id) => id in s.subscribers && s.subscribers[id].queue != []
    case Unsubscribe(id) => s.phase.Idle? && Listening(s, id, false)
    case CloseDone(id) => Listening(s, id, true) && !s.subscribers[id].leaving
    case Remove(id) => s.phase.Idle? && Listening(s, id, true) && s.subscribers[id].leaving
  }

  predicate OfPublisher(step: Step) {
    step.Turn? || step.TrySend? || step.Drain? || step.Send? || step.Deliver? || step.GiveUp? || step.Return?
  }

  function Fresh(buffered: bool, capacity: nat): Subscriber {
    Subscriber(buffered, capacity, true, false, false, [], [], [])
  }

  function Enqueued(c: Subscriber, e: Event): Subscriber { c.(queue := c.queue + [e]) }

  function Drained(c: Subscriber): Subscriber { if c.queue == [] then c else c.(queue := c.queue[1..]) }

  function Served(s: Hub, c: Subscriber): Hub
    requires s.phase.Publishing? && s.phase.current.At?
  {
    Hub(s.subscribers[s.phase.current.id := c], s.phase.(current := Nobody))
  }

  function Moved(s: Hub, c: Subscriber, stage: Stage): Hub
    requires s.phase.Publishing? && s.phase.current.At?
  {
    Hub(s.subscribers[s.phase.current.id := c], s.phase.(current := At(s.phase.current.id, stage)))
  }

  function Offer(c: Subscriber, e: Event): Subscriber {
    if c.registered then c.(offered := c.offered + [e]) else c
  }

  function Apply(s: Hub, step: Step): Hub
    requires Enabled(s, step)
  {
    match step
    case Subscribe(id) => s.(subscribers := s.subscribers[id := Fresh(false, 1)])
    case SubscribeBuffered(id, requested) =>
      s.(subscribers := s.subscribers[id := Fresh(true, if requested < 1 then 1 else requested)])
    case Publish(event) =>
      Hub(map id | id in s.subscribers :: Offer(s.subscribers[id], event),
          Publishing(event, Registered(s, false), Registered(s, true), Nobody))
    case Turn(id) =>
      if id in s.phase.lossy
      then s.(phase := s.phase.(lossy := s.phase.lossy - {id}, current := At(id, Trying)))
      else s.(phase := s.phase.(buffered := s.phase.buffered - {id}, current := At(id, Waiting)))
    case TrySend =>
      var c := Turned(s);
      if Room(c) then Served(s, Enqueued(c, s.phase.event)) else Moved(s, c, Draining)
    case Drain => Moved(s, Drained(Turned(s)), Sending)
    case Send => Served(s, Enqueued(Turned(s), s.phase.event))
    case Deliver => Served(s, Enqueued(Turned(s), s.phase.event))
    case GiveUp => Served(s, Turned(s))
    case Return => s.(phase := Idle)
    case Receive(id) =>
      var c := s.subscribers[id];
      s.(subscribers := s.subscribers[id := c.(queue := c.queue[1..], received := c.received + [c.queue[0]])])
    case Unsubscribe(id) => s.(subscribers := s.subscribers[id := s.subscribers[id].(registered := false, closed := true)])
    case CloseDone(id) => s.(subscribers := s.subscribers[id := s.subscribers[id].(leaving := true)])
    case Remove(id) => s.(subscribers := s.subscribers[id := s.subscribers[id].(registered := false, closed := true)])
  }

  ghost predicate CanRun(s: Hub, run: seq<Step>)
    decreases |run|
  {
    run == [] || (Enabled(s, run[0]) && CanRun(Apply(s, run[0]), run[1..]))
  }

  ghost function After(s: Hub, run: seq<Step>): Hub
    requires CanRun(s, run)
    decreases |run|
  {
    if run == [] then s else After(Apply(s, run[0]), run[1..])
  }

  /** The events published in a run while `id` was subscribed. */
  ghost function PublishedTo(s: Hub, run: seq<Step>, id: nat): seq<Event>
    requires CanRun(s, run)
    decreases |run|
  {
    if run == [] then []
    else
      (if run[0].Publish? && id in s.subscribers && s.subscribers[id].registered then [run[0].event] else [])
      + PublishedTo(Apply(s, run[0]), run[1..], id)
  }

  const NEW_HUB: Hub := Hub(map[], Idle)

  // ----- order kept, events left out

  ghost predicate Subsequence(a: seq<Event>, b: seq<Event>)
    decreases |b|
  {
    a == [] || (b != [] && (Subsequence(a, b[..|b| - 1])
                            || (a[|a| - 1] == b[|b| - 1] && Subsequence(a[..|a| - 1], b[..|b| - 1]))))
  }

  lemma SubsequenceBoth(a: seq<Event>, b: seq<Event>, e: Event)
    requires Subsequence(a, b)
    ensures Subsequence(a + [e], b + [e]) && Subsequence(a, b + [e])
  {
    assert (a + [e])[..|a|] == a && (b + [e])[..|b|] == b;
  }

  lemma {:induction false} SubsequenceDropLast(a: seq<Event>, b: seq<Event>)
    requires a != [] && Subsequence(a, b)
    ensures Subsequence(a[..|a| - 1], b)
    decreases |b|
  {
    if |a| > 1 {
      var shorter := b[..|b| - 1];
      if Subsequence(a, shorter) {
        SubsequenceDropLast(a, shorter);
      } else {
        SubsequenceDropLast(a[..|a| - 1], shorter);
        assert a[..|a| - 1][..|a| - 2] == a[..|a| - 2];
      }
    }
  }

  lemma {:induction false} SubsequenceSelf(a: seq<Event>)
    ensures Subsequence(a, a)
    decreases |a|
  {
    if a != [] {
      SubsequenceSelf(a[..|a| - 1]);
    }
  }

  // ----- the invariant

  /** What a subscriber has got or is about to get. */
  function Got(c: Subscriber): seq<Event> { c.received + c.queue }

  /** Up to date with what it was offered: everything if buffered and not leaving, the latest if lossy. */
  ghost predicate UpToDate(c: Subscriber, offered: seq<Event>) {
    && Subsequence(Got(c), offered)
    && (c.buffered && !c.leaving ==> Got(c) == offered)
    && (!c.buffered && offered != [] ==> Got(c) != [] && Got(c)[|Got(c)| - 1] == offered[|offered| - 1])
  }

  datatype Debt = None | Owed(event: Event, mustBeEmpty: bool)

  function DebtOf(phase: Phase, id: nat): Debt {
    if phase.Idle? then None
    else if phase.current.At? && phase.current.id == id then Owed(phase.event, phase.current.stage == Sending)
    else if id in phase.lossy || id in phase.buffered then Owed(phase.event, false)
    else None
  }

  ghost predicate Sound(c: Subscriber) {
    && |c.queue| <= c.capacity && 1 <= c.capacity
    && (!c.buffered ==> c.capacity == 1 && !c.leaving)
    && c.closed == !c.registered
    && (c.closed && c.buffered ==> c.leaving)
  }

  ghost predicate Settled(c: Subscriber, debt: Debt) {
    match debt
    case None => UpToDate(c, c.offered)
    case Owed(e, mustBeEmpty) =>
      && c.registered
      && c.offered != [] && c.offered[|c.offered| - 1] == e
      && if mustBeEmpty then c.queue == [] && !c.buffered && Subsequence(Got(c), c.offered[..|c.offered| - 1])
         else UpToDate(c, c.offered[..|c.offered| - 1])
  }

  /** The publish at hand is owed to registered subscribers only, lossy ones first. */
  ghost predicate PhaseSound(s: Hub) {
    s.phase.Publishing? ==>
      && (forall id :: id in s.phase.lossy ==> Listening(s, id, false))
      && (forall id :: id in s.phase.buffered ==> Listening(s, id, true))
      && (s.phase.current.At? ==>
            var id := s.phase.current.id;
            && id !in s.phase.lossy && id !in s.phase.buffered
            && Listening(s, id, s.phase.current.stage == Waiting)
            && (s.phase.current.stage == Waiting ==> s.phase.lossy == {}))
  }

  ghost predicate Invariant(s: Hub) {
    && PhaseSound(s)
    && forall id :: id in s.subscribers ==> Sound(s.subscribers[id]) && Settled(s.subscribers[id], DebtOf(s.phase, id))
  }

  // ----- one subscriber at a time

  lemma FreshIsSettled(buffered: bool, capacity: nat)
    requires 1 <= capacity && (!buffered ==> capacity == 1)
    ensures Sound(Fresh(buffered, capacity)) && Settled(Fresh(buffered, capacity), None)
  {}

  lemma OfferOwes(c: Subscriber, e: Event)
    requires Sound(c) && Settled(c, None)
    ensures Sound(Offer(c, e)) && Settled(Offer(c, e), if c.registered then Owed(e, false) else None)
  {
    assert (c.offered + [e])[..|c.offered|] == c.offered;
  }

  lemma EnqueuePays(c: Subscriber, e: Event, mustBeEmpty: bool)
    requires Sound(c) && Settled(c, Owed(e, mustBeEmpty)) && Room(c)
    ensures Sound(Enqueued(c, e)) && Settled(Enqueued(c, e), None)
  {
    var before := c.offered[..|c.offered| - 1];
    assert c.offered == before + [e];
    assert Got(Enqueued(c, e)) == Got(c) + [e];
    hide Subsequence;
    SubsequenceBoth(Got(c), before, e);
  }

  lemma DrainEmpties(c: Subscriber, e: Event)
    requires Sound(c) && Settled(c, Owed(e, false)) && !c.buffered
    ensures Sound(Drained(c)) && Settled(Drained(c), Owed(e, true))
  {
    hide Subsequence;
    if c.queue != [] {
      assert Got(Drained(c)) == Got(c)[..|Got(c)| - 1];
      SubsequenceDropLast(Got(c), c.offered[..|c.offered| - 1]);
    }
  }

  lemma GiveUpSettles(c: Subscriber, e: Event)
    requires Sound(c) && Settled(c, Owed(e, false)) && c.buffered && c.leaving
    ensures Settled(c, None)
  {
    var before := c.offered[..|c.offered| - 1];
    assert c.offered == before + [e];
    hide Subsequence;
    SubsequenceBoth(Got(c), before, e);
  }

  lemma ReceiveKeeps(c: Subscriber, debt: Debt)
    requires Sound(c) && Settled(c, debt) && c.queue != []
    ensures var d := c.(queue := c.queue[1..], received := c.received + [c.queue[0]]);
            Sound(d) && Settled(d, debt) && Got(d) == Got(c)
  {
    hide Subsequence;
    assert c.received + [c.queue[0]] + c.queue[1..] == c.received + c.queue;
  }

  lemma LeavingKeeps(c: Subscriber, debt: Debt)
    requires Sound(c) && Settled(c, debt)
    ensures c.registered && c.buffered && !c.leaving ==> Sound(c.(leaving := true)) && Settled(c.(leaving := true), debt)
    ensures debt.None? && (c.buffered ==> c.leaving) ==>
              var d := c.(registered := false, closed := true);
              Sound(d) && Settled(d, debt)
  {
    hide Subsequence;
  }

  // ----- every step keeps the invariant

  lemma SubscribeKeeps(s: Hub, step: Step)
    requires Invariant(s) && Enabled(s, step) && (step.Subscribe? || step.SubscribeBuffered?)
    ensures Invariant(Apply(s, step))
  {
    hide Sound, Settled, Fresh;
    if step.Subscribe? {
      FreshIsSettled(false, 1);
    } else {
      FreshIsSettled(true, if step.requested < 1 then 1 else step.requested);
    }
  }

  lemma PublishKeeps(s: Hub, step: Step)
    requires Invariant(s) && Enabled(s, step) && step.Publish?
    ensures Invariant(Apply(s, step))
  {
    hide Sound, Settled;
    var t := Apply(s, step);
    forall id | id in t.subscribers ensures Sound(t.subscribers[id]) && Settled(t.subscribers[id], DebtOf(t.phase, id)) {
      OfferOwes(s.subscribers[id], step.event);
      assert id in t.phase.lossy <==> Listening(s, id, false);
      assert id in t.phase.buffered <==> Listening(s, id, true);
    }
  }

  lemma TurnKeeps(s: Hub, step: Step)
    requires Invariant(s) && Enabled(s, step) && (step.Turn? || step.Return?)
    ensures Invariant(Apply(s, step))
  {
    hide Sound, Settled;
    var t := Apply(s, step);
    forall id | id in t.subscribers ensures DebtOf(t.phase, id) == DebtOf(s.phase, id) {}
  }

  /** The current subscriber is dealt with and the publish moves on. */
  lemma ServedKeeps(s: Hub, c: Subscriber)
    requires Invariant(s) && s.phase.Publishing? && s.phase.current.At? && s.phase.current.id in s.subscribers
    requires Sound(c) && Settled(c, None)
    ensures Invariant(Served(s, c))
  {
    hide Sound, Settled;
  }

  lemma MovedKeeps(s: Hub, c: Subscriber, stage: Stage)
    requires Invariant(s) && s.phase.Publishing? && s.phase.current.At? && s.phase.current.id in s.subscribers
    requires s.phase.current.stage != Waiting && stage != Waiting
    requires c.registered && !c.buffered
    requires Sound(c) && Settled(c, Owed(s.phase.event, stage == Sending))
    ensures Invariant(Moved(s, c, stage))
  {
    hide Sound, Settled;
  }

  lemma DeliveryKeeps(s: Hub, step: Step)
    requires Invariant(s) && Enabled(s, step)
    requires step.TrySend? || step.Drain? || step.Send? || step.Deliver? || step.GiveUp?
    ensures Invariant(Apply(s, step))
  {
    hide Sound, Settled, Drained, Enqueued, Served, Moved;
    var c, e := Turned(s), s.phase.event;
    assert Sound(c) && Settled(c, DebtOf(s.phase, s.phase.current.id));
    match step
    case TrySend =>
      if Room(c) {
        EnqueuePays(c, e, false);
        ServedKeeps(s, Enqueued(c, e));
      } else {
        MovedKeeps(s, c, Draining);
      }
    case Drain =>
      DrainEmpties(c, e);
      DrainedIsSame(c);
      MovedKeeps(s, Drained(c), Sending);
    case GiveUp =>
      GiveUpSettles(c, e);
      ServedKeeps(s, c);
    case _ =>
      EnqueuePays(c, e, step.Send?);
      ServedKeeps(s, Enqueued(c, e));
  }

  lemma DrainedIsSame(c: Subscriber)
    ensures Drained(c).registered == c.registered && Drained(c).buffered == c.buffered
  {}

  lemma ReplacedKeeps(s: Hub, id: nat, c: Subscriber)
    requires Invariant(s) && id in s.subscribers
    requires Sound(c) && Settled(c, DebtOf(s.phase, id))
    requires s.phase.Idle? || (c.registered == s.subscribers[id].registered && c.buffered == s.subscribers[id].buffered)
    ensures Invariant(s.(subscribers := s.subscribers[id := c]))
  {
    hide Sound, Settled;
  }

  lemma OthersKeep(s: Hub, step: Step)
    requires Invariant(s) && Enabled(s, step)
    requires step.Receive? || step.Unsubscribe? || step.CloseDone? || step.Remove?
    ensures Invariant(Apply(s, step))
  {
    hide Sound, Settled;
    var c, debt := s.subscribers[step.id], DebtOf(s.phase, step.id);
    LeavingKeeps(c, debt);
    UnsubscribeSound(c);
    if step.Receive? {
      ReceiveKeeps(c, debt);
    }
    ReplacedKeeps(s, step.id, Apply(s, step).subscribers[step.id]);
  }

  lemma UnsubscribeSound(c: Subscriber)
    requires Sound(c)
    ensures c.registered && !c.buffered ==> !c.leaving
  {}

  lemma StepKeeps(s: Hub, step: Step)
    requires Invariant(s) && Enabled(s, step)
    ensures Invariant(Apply(s, step))
  {
    hide *;
    if step.Subscribe? || step.SubscribeBuffered? {
      SubscribeKeeps(s, step);
    } else if step.Publish? {
      PublishKeeps(s, step);
    } else if step.Turn? || step.Return? {
      TurnKeeps(s, step);
    } else if step.Receive? || step.Unsubscribe? || step.CloseDone? || step.Remove? {
      OthersKeep(s, step);
    } else {
      DeliveryKeeps(s, step);
    }
  }

  lemma {:induction false} RunKeeps(s: Hub, run: seq<Step>)
    requires Invariant(s) && CanRun(s, run)
    ensures Invariant(After(s, run))
    decreases |run|
  {
    hide Invariant, Enabled, Apply;
    if run != [] {
      StepKeeps(s, run[0]);
      RunKeeps(Apply(s, run[0]), run[1..]);
    }
  }

  // ----- what subscribers and publishers can rely on

  lemma {:induction false} OfferedIsPublished(s: Hub, run: seq<Step>, id: nat)
    requires CanRun(s, run) && id in After(s, run).subscribers
    ensures After(s, run).subscribers[id].offered
            == (if id in s.subscribers then s.subscribers[id].offered else []) + PublishedTo(s, run, id)
    decreases |run|
  {
    if run != [] {
      OfferedIsPublished(Apply(s, run[0]), run[1..], id);
      hide CanRun, After, PublishedTo;
      OfferedStep(s, run[0], id);
    }
  }

  lemma OfferedStep(s: Hub, step: Step, id: nat)
    requires Enabled(s, step)
    ensures id in s.subscribers ==> id in Apply(s, step).subscribers
    ensures id in s.subscribers ==>
              Apply(s, step).subscribers[id].offered == s.subscribers[id].offered
              + (if step.Publish? && s.subscribers[id].registered then [step.event] else [])
    ensures id !in s.subscribers && id in Apply(s, step).subscribers ==> Apply(s, step).subscribers[id].offered == []
  {
    hide Registered;
  }

  /**
    Delivery in every interleaving. What a subscriber has received or has waiting is a subsequence of
    what was published while it was subscribed. A buffered one that is not leaving has all of it, less
    the one event of a publish that has not reached it yet; a lossy one to which no publish is under
    way has the latest.
   */
  lemma Delivery(run: seq<Step>, id: nat)
    requires CanRun(NEW_HUB, run) && id in After(NEW_HUB, run).subscribers
    ensures var s, published := After(NEW_HUB, run), PublishedTo(NEW_HUB, run, id);
            var c := s.subscribers[id];
            && |c.queue| <= c.capacity
            && Subsequence(Got(c), published)
            && (c.buffered && !c.leaving ==>
                  published == Got(c) + if DebtOf(s.phase, id).Owed? then [s.phase.event] else [])
            && (!c.buffered && published != [] && DebtOf(s.phase, id).None? ==>
                  Got(c) != [] && Got(c)[|Got(c)| - 1] == published[|published| - 1])
  {
    NewHubSound();
    RunKeeps(NEW_HUB, run);
    OfferedIsPublished(NEW_HUB, run, id);
    var s := After(NEW_HUB, run);
    var c := s.subscribers[id];
    hide Subsequence, After, CanRun, PublishedTo, Apply, Enabled, Sound, Settled, DebtOf;
    assert c.offered == PublishedTo(NEW_HUB, run, id);
    SettledMeans(c, DebtOf(s.phase, id));
    DebtIsForEvent(s.phase, id);
  }

  lemma DebtIsForEvent(phase: Phase, id: nat)
    ensures DebtOf(phase, id).Owed? ==> phase.Publishing? && DebtOf(phase, id).event == phase.event
  {}

  lemma SettledMeans(c: Subscriber, debt: Debt)
    requires Sound(c) && Settled(c, debt)
    ensures |c.queue| <= c.capacity && Subsequence(Got(c), c.offered)
    ensures c.buffered && !c.leaving ==> c.offered == Got(c) + if debt.Owed? then [debt.event] else []
    ensures !c.buffered && c.offered != [] && debt.None? ==>
              Got(c) != [] && Got(c)[|Got(c)| - 1] == c.offered[|c.offered| - 1]
  {
    hide Subsequence;
    if debt.Owed? {
      var before := c.offered[..|c.offered| - 1];
      assert c.offered == before + [debt.event];
      SubsequenceBoth(Got(c), before, debt.event);
    }
  }

  lemma NewHubSound()
    ensures Invariant(NEW_HUB)
  {}

  predicate Sends(step: Step) { step.TrySend? || step.Send? || step.Deliver? }

  /** No step ever sends on a closed channel, or closes one twice. */
  lemma NoUseAfterClose(run: seq<Step>, step: Step)
    requires CanRun(NEW_HUB, run) && Enabled(After(NEW_HUB, run), step)
    ensures var s := After(NEW_HUB, run);
            && (Sends(step) ==> !Turned(s).closed)
            && (step.Unsubscribe? || step.Remove? ==> !s.subscribers[step.id].closed)
            && (step.CloseDone? ==> !s.subscribers[step.id].leaving)
  {
    NewHubSound();
    RunKeeps(NEW_HUB, run);
    hide After, CanRun, Settled;
    var s := After(NEW_HUB, run);
    if Sends(step) {
      assert Sound(Turned(s));
    }
  }

  predicate Stuck(s: Hub) {
    && s.phase.Publishing? && s.phase.current.At? && s.phase.current.id in s.subscribers
    && Turned(s).buffered && !Room(Turned(s)) && !Turned(s).leaving
  }

  /**
    A publish under way can always go on by itself, except when the subscriber whose turn it is
    is buffered, full and not leaving: never because of a lossy one.
   */
  lemma BlockedIff(run: seq<Step>)
    requires CanRun(NEW_HUB, run) && After(NEW_HUB, run).phase.Publishing?
    ensures var s := After(NEW_HUB, run);
            Stuck(s) <==> forall step :: OfPublisher(step) ==> !Enabled(s, step)
  {
    NewHubSound();
    RunKeeps(NEW_HUB, run);
    hide After, CanRun, UpToDate;
    CanGoOn(After(NEW_HUB, run));
  }

  lemma CanGoOn(s: Hub)
    requires Invariant(s) && s.phase.Publishing?
    ensures Stuck(s) <==> forall step :: OfPublisher(step) ==> !Enabled(s, step)
  {
    hide UpToDate;
    if s.phase.current.At? {
      var c := Turned(s);
      assert Sound(c) && Settled(c, DebtOf(s.phase, s.phase.current.id));
      match s.phase.current.stage
      case Trying => assert Enabled(s, TrySend);
      case Draining => assert Enabled(s, Drain);
      case Sending => assert Enabled(s, Send);
      case Waiting => assert Enabled(s, Deliver) || Enabled(s, GiveUp) || Stuck(s);
    } else if s.phase.lossy != {} {
      var id := Inhabited(s.phase.lossy);
      assert Enabled(s, Turn(id));
    } else if s.phase.buffered != {} {
      var id := Inhabited(s.phase.buffered);
      assert Enabled(s, Turn(id));
    } else {
      assert Enabled(s, Return);
    }
  }

  /** A publisher stuck at a subscriber is freed when that subscriber starts to leave, or takes one event. */
  lemma UnsubscribingReleases(s: Hub)
    requires Invariant(s) && Stuck(s)
    ensures var id := s.phase.current.id;
            && Enabled(s, CloseDone(id)) && Enabled(Apply(s, CloseDone(id)), GiveUp)
            && Enabled(s, Receive(id)) && Enabled(Apply(s, Receive(id)), Deliver)
  {
    hide Settled;
    assert Sound(Turned(s));
  }

  /** How many steps of its own a publish can still take. */
  function Remaining(phase: Phase): nat {
    if phase.Idle? then 0
    else
      4 * |phase.lossy| + 2 * |phase.buffered| + 1
      + match phase.current
        case Nobody => 0
        case At(_, stage) => match stage case Trying => 3 case Draining => 2 case Sending => 1 case Waiting => 1
  }

  /** Each step of the publisher brings its end closer; nobody else's step puts it off. */
  lemma PublishGetsDone(s: Hub, step: Step)
    requires Enabled(s, step) && s.phase.Publishing?
    ensures if OfPublisher(step) then Remaining(Apply(s, step).phase) < Remaining(s.phase)
            else Apply(s, step).phase == s.phase
  {}
}
