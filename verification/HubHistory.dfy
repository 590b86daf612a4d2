/**
  What the hub holds for a subscriber, said of the steps taken so far: when it is registered, with what
  capacity, and that nothing reaches it once it has left.
 */
module HubHistory {
  import opened Hub

  lemma {:induction false} LastStep(s: Hub, run: seq<Step>)
    requires CanRun(s, run) && run != []
    ensures var n := |run| - 1;
            CanRun(s, run[..n]) && Enabled(After(s, run[..n]), run[n]) && After(s, run) == Apply(After(s, run[..n]), run[n])
    decreases |run|
  {
    hide Enabled, Apply;
    var n := |run| - 1;
    if n == 0 {
      assert run[..0] == [] && CanRun(Apply(s, run[0]), run[1..]) && run[1..] == [];
    } else {
      LastStep(Apply(s, run[0]), run[1..]);
      assert run[1..][..n - 1] == run[..n][1..] && run[..n][0] == run[0];
    }
  }

  /** What the steps so far make of one subscriber. */
  datatype Story = Never | Subscribed(buffered: bool, capacity: int, leaving: bool, gone: bool)

  function StoryOf(run: seq<Step>, id: nat): Story {
    if run == [] then Never
    else
      var before := StoryOf(run[..|run| - 1], id);
      match run[|run| - 1]
      case Subscribe(i) => if i == id then Subscribed(false, 1, false, false) else before
      case SubscribeBuffered(i, requested) =>
        if i == id then Subscribed(true, if requested > 1 then requested else 1, false, false) else before
      case CloseDone(i) => if i == id && before.Subscribed? then before.(leaving := true) else before
      case Unsubscribe(i) => if i == id && before.Subscribed? then before.(gone := true) else before
      case Remove(i) => if i == id && before.Subscribed? then before.(gone := true) else before
      case _ => before
  }

  ghost predicate Tells(s: Hub, id: nat, story: Story) {
    && (id in s.subscribers <==> story.Subscribed?)
    && (id in s.subscribers ==>
          var c := s.subscribers[id];
          && c.buffered == story.buffered && c.capacity == story.capacity && c.leaving == story.leaving
          && c.closed == story.gone && c.registered == !story.gone)
  }

  /** A step changes a subscriber's standing only if it is one of its own comings and goings. */
  predicate About(step: Step, id: nat) {
    match step
    case Subscribe(i) => i == id
    case SubscribeBuffered(i, _) => i == id
    case CloseDone(i) => i == id
    case Unsubscribe(i) => i == id
    case Remove(i) => i == id
    case _ => false
  }

  predicate SameStanding(a: Subscriber, b: Subscriber) {
    && a.buffered == b.buffered && a.capacity == b.capacity && a.leaving == b.leaving
    && a.closed == b.closed && a.registered == b.registered
  }

  lemma ElsewhereSame(s: Hub, step: Step, id: nat)
    requires Enabled(s, step) && !About(step, id)
    ensures var t := Apply(s, step);
            && (id in t.subscribers <==> id in s.subscribers)
            && (id in s.subscribers ==> SameStanding(s.subscribers[id], t.subscribers[id]))
  {}

  /**
    In every interleaving: a subscriber is known if and only if it has subscribed, with the capacity it asked
    for (one at least; one if lossy); it is registered and its channel open until it has been removed.
   */
  lemma {:induction false} StateTellsStory(run: seq<Step>, id: nat)
    requires CanRun(NEW_HUB, run)
    ensures Tells(After(NEW_HUB, run), id, StoryOf(run, id))
    decreases |run|
  {
    if run != [] {
      LastStep(NEW_HUB, run);
      var n := |run| - 1;
      StateTellsStory(run[..n], id);
      hide After, CanRun;
      if !About(run[n], id) {
        ElsewhereSame(After(NEW_HUB, run[..n]), run[n], id);
      }
    }
  }

  /** No channel ever holds more than its capacity. */
  lemma QueuesAreBounded(run: seq<Step>, id: nat)
    requires CanRun(NEW_HUB, run) && id in After(NEW_HUB, run).subscribers
    ensures StoryOf(run, id).Subscribed? && |After(NEW_HUB, run).subscribers[id].queue| <= StoryOf(run, id).capacity
  {
    StateTellsStory(run, id);
    NewHubSound();
    RunKeeps(NEW_HUB, run);
    hide After, CanRun, Settled;
    assert Sound(After(NEW_HUB, run).subscribers[id]);
  }

  lemma LeftStep(s: Hub, step: Step, id: nat)
    requires Invariant(s) && Enabled(s, step) && id in s.subscribers && !s.subscribers[id].registered
    ensures var t := Apply(s, step);
            && id in t.subscribers && !t.subscribers[id].registered && t.subscribers[id].closed == s.subscribers[id].closed
            && Got(t.subscribers[id]) == Got(s.subscribers[id]) && t.subscribers[id].offered == s.subscribers[id].offered
  {
    hide Settled, Sound, Subsequence;
    if step.Receive? && step.id == id {
      var c := s.subscribers[id];
      assert c.received + [c.queue[0]] + c.queue[1..] == c.received + c.queue;
    }
  }

  /** Once a subscriber is gone nothing more reaches it: it can only still receive what is in its channel. */
  lemma {:induction false} NothingAfterLeaving(s: Hub, run: seq<Step>, id: nat)
    requires Invariant(s) && CanRun(s, run) && id in s.subscribers && !s.subscribers[id].registered
    ensures var t := After(s, run);
            && id in t.subscribers && !t.subscribers[id].registered
            && Got(t.subscribers[id]) == Got(s.subscribers[id]) && t.subscribers[id].offered == s.subscribers[id].offered
    decreases |run|
  {
    if run != [] {
      LeftStep(s, run[0], id);
      StepKeeps(s, run[0]);
      hide Invariant, Enabled, Apply, Got;
      NothingAfterLeaving(Apply(s, run[0]), run[1..], id);
    }
  }

  /** While no publish is under way, every registered subscriber can leave, after which its channel is closed. */
  lemma CanLeave(s: Hub, id: nat)
    requires s.phase.Idle? && id in s.subscribers && s.subscribers[id].registered
    ensures var run := if !s.subscribers[id].buffered then [Unsubscribe(id)]
                       else if s.subscribers[id].leaving then [Remove(id)] else [CloseDone(id), Remove(id)];
            && CanRun(s, run)
            && var t := After(s, run); t.phase.Idle? && id in t.subscribers && t.subscribers[id].closed
  {
    if !s.subscribers[id].buffered {
      OneStep(s, Unsubscribe(id));
    } else if s.subscribers[id].leaving {
      OneStep(s, Remove(id));
    } else {
      var t := Apply(s, CloseDone(id));
      OneStep(t, Remove(id));
      assert [CloseDone(id), Remove(id)][1..] == [Remove(id)];
    }
  }

  lemma OneStep(s: Hub, step: Step)
    requires Enabled(s, step)
    ensures CanRun(s, [step]) && After(s, [step]) == Apply(s, step)
  {
    hide Enabled, Apply;
    assert [step][1..] == [];
    assert CanRun(Apply(s, step), []) && After(Apply(s, step), []) == Apply(s, step);
  }

  /** Who is not yet known can subscribe between two publishes, either way, and starts with an empty channel. */
  lemma CanSubscribe(s: Hub, id: nat, requested: int)
    requires s.phase.Idle? && id !in s.subscribers
    ensures forall step :: step == Subscribe(id) || step == SubscribeBuffered(id, requested) ==>
              && Enabled(s, step)
              && var c := Apply(s, step).subscribers[id]; c.registered && Got(c) == [] && c.offered == []
  {}
}
