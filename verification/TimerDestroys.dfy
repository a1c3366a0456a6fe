/** Destroying a timer: every event still queued is called back as cancelled, in the order of the deadlines. */
module TimerDestroys {
  import opened TimeValues
  import opened TimerSteps
  import opened TimerProtocol
  import opened TimerEvents
  import opened TimerCalls
  import opened TimerRuns
  import opened Wrappers

  /** How far destroying has come since the first state, from when on nothing else goes on. */
  ghost predicate Destroys(s0: State, s: State, t: nat) {
    && s.gone && s.loop == Out && (forall x :: x != t ==> ClientOf(s, x) == Idle)
    && s0.log <= s.log && (forall k :: |s0.log| <= k < |s.log| ==> s.log[k].Dropped?)
    && var c := ClientOf(s, t);
       if c.DestroyWanted? || c.DestroyLocked? then
         s.log == s0.log && s.core.queue == s0.core.queue
       else
         && (c.DestroyDrained? || c.Destroying? || c == Idle) && s.core.queue == {}
         && Lists(Calls(s.log[|s0.log|..]) + Drops(c), s0.core.queue)
  }

  lemma DestroyBegins(s0: State, t: nat)
    requires Enabled(s0, Begin(t, Destroy))
    ensures Destroys(s0, Do(s0, Begin(t, Destroy)), t)
  {
    hide Lists;
    var s := Do(s0, Begin(t, Destroy));
    forall x ensures x != t ==> ClientOf(s, x) == Idle {
      assert ClientOf(s0, x) == Idle;
    }
  }

  lemma OthersIdle(s: State, s': State, t: nat, c: Client)
    requires (forall x :: x != t ==> ClientOf(s, x) == Idle) && s'.clients == s.clients[t := c]
    ensures forall x :: x != t ==> ClientOf(s', x) == Idle
  {
    forall x ensures x != t ==> ClientOf(s', x) == Idle {
      assert x != t ==> ClientOf(s', x) == ClientOf(s, x);
    }
  }

  lemma DestroyCallback(s0: State, s: State, t: nat)
    requires Destroys(s0, s, t) && ClientOf(s, t).Destroying? && ClientOf(s, t).batch != []
    ensures Destroys(s0, ClientStep(s, t), t)
  {
    hide Lists;
    var batch, s' := ClientOf(s, t).batch, ClientStep(s, t);
    OthersIdle(s, s', t, Destroying(batch[1..]));
    var since := s.log[|s0.log|..];
    assert s'.log[|s0.log|..] == since + [Dropped(batch[0])];
    assert Calls(since + [Dropped(batch[0])]) == Calls(since) + [batch[0]];
    assert Calls(since) + [batch[0]] + batch[1..] == Calls(since) + batch;
  }

  lemma DestroyDrain(s0: State, s: State, t: nat, batch: seq<Event>)
    requires Destroys(s0, s, t) && Enabled(s, Drain(t, batch))
    ensures Destroys(s0, Drained(s, t, batch), t)
  {
    hide Lists;
    OthersIdle(s, Drained(s, t, batch), t, DestroyDrained(batch));
    assert s.log[|s0.log|..] == [];
    assert Calls([]) + batch == batch;
  }

  lemma DestroyGoes(s0: State, s: State, t: nat)
    requires Destroys(s0, s, t) && Enabled(s, Go(t))
    ensures Destroys(s0, ClientStep(s, t), t)
  {
    hide Lists, Calls;
    if ClientOf(s, t).Destroying? && ClientOf(s, t).batch != [] {
      DestroyCallback(s0, s, t);
    } else {
      OthersIdle(s, ClientStep(s, t), t, ClientOf(ClientStep(s, t), t));
    }
  }

  lemma DestroyStep(s0: State, s: State, a: Action, t: nat)
    requires Destroys(s0, s, t) && Enabled(s, a)
    ensures Destroys(s0, Do(s, a), t)
  {
    hide Lists, Calls, ClientStep, Drained;
    match a
    case Go(x) => DestroyGoes(s0, s, t);
    case Drain(x, batch) => DestroyDrain(s0, s, t, batch);
    case Tick(_) => assert forall x :: ClientOf(Do(s, a), x) == ClientOf(s, x);
    case _ =>
  }

  lemma {:induction false} DestroyRuns(s: State, actions: seq<Action>, i: nat, j: nat, t: nat)
    requires Legal(s, actions) && i < j <= |actions| && actions[i] == Begin(t, Destroy)
    ensures Destroys(At(s, actions, i), At(s, actions, j), t)
    decreases j
  {
    hide Destroys, Enabled, Do, Legal;
    StepAt(s, actions, j - 1);
    if i == j - 1 {
      DestroyBegins(At(s, actions, i), t);
    } else {
      DestroyRuns(s, actions, i, j - 1, t);
      DestroyStep(At(s, actions, i), At(s, actions, j - 1), actions[j - 1], t);
    }
  }

  /**
   When destroying is done, every event ever handed in has been called back exactly once.  Those that
   were queued when it began are called back after that, all marked as cancelled, earliest first.
   */
  lemma DestroySettles(start: Timeval, actions: seq<Action>, i: nat, t: nat)
    requires Legal(Initially(start), actions) && i < |actions| && actions[i] == Begin(t, Destroy)
    requires forall x :: ClientOf(StateAfter(Initially(start), actions), x) == Idle
    ensures var s0, s := At(Initially(start), actions, i), StateAfter(Initially(start), actions);
            && Requested(actions) == Logged(s.log) && NoRepeats(Calls(s.log))
            && s0.log <= s.log && (forall k :: |s0.log| <= k < |s.log| ==> s.log[k].Dropped?)
            && Lists(Calls(s.log[|s0.log|..]), s0.core.queue)
  {
    hide Lists, Calls, Logged, Requested, NoRepeats, Legal, StateAfter;
    var s0, s := At(Initially(start), actions, i), StateAfter(Initially(start), actions);
    DestroyRuns(Initially(start), actions, i, |actions|, t);
    AtEnd(Initially(start), actions);
    assert AtRest(s);
    SettledAtRest(start, actions);
    SettledOnce(start, actions);
    assert Calls(s.log[|s0.log|..]) + [] == Calls(s.log[|s0.log|..]);
  }
}
