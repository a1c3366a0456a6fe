/** What stopping does to the loop: nothing before the loop has set the run flag, and an end to it after. */
module TimerStops {
  import opened TimeValues
  import opened TimerSteps
  import opened TimerProtocol
  import opened TimerSafety
  import opened TimerEvents
  import opened TimerCalls
  import opened TimerRuns
  import opened Wrappers

  // ---------- Stops that are lost ----------

  /** The step by which a starting loop sets the run flag. */
  ghost predicate Starts(s: State, a: Action) { s.loop.StartLocked? && a.LoopGo? }

  lemma FlagStep(s: State, a: Action)
    requires Enabled(s, a) && !s.core.run
    ensures Do(s, a).core.run <==> Starts(s, a)
  {
    hide First, Due, Lists, WaitsFor, WaitTime, FreshRef, AtRest, ClientStep;
    if a.Go? {
      ClientKeepsRun(s, a.id);
    }
  }

  /** The locked step of a client that stops the timer. */
  ghost predicate Stops(s: State, a: Action, t: nat) { a == Go(t) && ClientOf(s, t) == StopLocked }

  lemma StopClears(s: State, actions: seq<Action>, i: nat, t: nat)
    requires Legal(s, actions) && i < |actions| && Stops(At(s, actions, i), actions[i], t)
    ensures !At(s, actions, i + 1).core.run
    ensures At(s, actions, i + 1).loop == At(s, actions, i).loop && At(s, actions, i + 1).log == At(s, actions, i).log
  {
    hide Legal, StateAfter, TakenOf, First, Without;
    StepAt(s, actions, i);
  }

  lemma {:induction false} StaysCleared(s: State, actions: seq<Action>, i: nat, j: nat)
    requires Legal(s, actions) && i <= j <= |actions| && !At(s, actions, i).core.run
    requires forall k :: i <= k < j ==> !Starts(At(s, actions, k), actions[k])
    ensures !At(s, actions, j).core.run
    decreases j
  {
    hide Starts, Enabled, Do, Legal;
    if i < j {
      StaysCleared(s, actions, i, j - 1);
      StepAt(s, actions, j - 1);
      FlagStep(At(s, actions, j - 1), actions[j - 1]);
    }
  }

  /** A stop clears the run flag, which stays cleared exactly if no loop starts after that. */
  lemma StopLost(s: State, actions: seq<Action>, i: nat, t: nat)
    requires Legal(s, actions) && i < |actions| && Stops(At(s, actions, i), actions[i], t)
    ensures (forall j :: i < j <= |actions| ==> !At(s, actions, j).core.run)
       <==> (forall k :: i < k < |actions| ==> !Starts(At(s, actions, k), actions[k]))
  {
    hide Stops, Starts, Enabled, Do, Legal, StateAfter;
    StopClears(s, actions, i, t);
    if forall k :: i < k < |actions| ==> !Starts(At(s, actions, k), actions[k]) {
      forall j | i < j <= |actions| ensures !At(s, actions, j).core.run {
        StaysCleared(s, actions, i + 1, j);
      }
    } else {
      var k :| i < k < |actions| && Starts(At(s, actions, k), actions[k]);
      if !At(s, actions, k).core.run {
        StepAt(s, actions, k);
        FlagStep(At(s, actions, k), actions[k]);
        assert At(s, actions, k + 1).core.run;
      }
    }
  }

  // ---------- A run that loses one ----------

  /** The actions can be taken from the first state on and end in the second. */
  ghost predicate Leads(s: State, actions: seq<Action>, s': State) {
    Legal(s, actions) && StateAfter(s, actions) == s'
  }

  lemma Step(s: State, a: Action, s': State)
    requires Enabled(s, a) && Do(s, a) == s'
    ensures Leads(s, [a], s')
  {
    assert [a][1..] == [];
    assert Legal(s', []) && StateAfter(s', []) == s';
  }

  lemma {:induction false} Joined(s: State, actions: seq<Action>, m: State, more: seq<Action>, s': State)
    requires Leads(s, actions, m) && Leads(m, more, s')
    ensures Leads(s, actions + more, s')
    decreases actions
  {
    hide Enabled, Do;
    if actions == [] {
      assert actions + more == more;
    } else {
      Joined(Do(s, actions[0]), actions[1..], m, more, s');
      assert (actions + more)[1..] == actions[1..] + more;
    }
  }

  /** One more action in front. */
  lemma Ahead(s: State, a: Action, m: State, more: seq<Action>, s': State, actions: seq<Action>)
    requires Enabled(s, a) && Do(s, a) == m && Leads(m, more, s') && actions == [a] + more
    ensures Leads(s, actions, s')
  {
    hide Enabled, Do;
    assert actions[1..] == more;
  }

  /** Where a stopping client is, and what it has done to the timer. */
  ghost function Stopping(s: State, t: nat, c: Client): State {
    SetClient(s, t, c)
      .(holder := if c.StopLocked? || c.StopCleared? || c.Leaving? then TheClient(t) else Nobody,
        core := if c.StopCleared? then s.core.(run := false)
                else if c.Leaving? || c == Idle then Stopped(s.core)
                else s.core)
  }

  lemma StopSteps(s: State, t: nat, c: Client)
    requires s.holder == Nobody && c in {StopWanted, StopLocked, StopCleared, Leaving}
    ensures Enabled(Stopping(s, t, c), Go(t))
    ensures Do(Stopping(s, t, c), Go(t)) == Stopping(s, t, match c
      case StopWanted => StopLocked
      case StopLocked => StopCleared
      case StopCleared => Leaving
      case _ => Idle)
  {
    var s' := Do(Stopping(s, t, c), Go(t));
    assert s'.clients == s.clients[t := s'.clients[t]];
  }

  /** A client stops the timer and returns. */
  lemma WholeStop(s: State, t: nat)
    requires !s.gone && ClientOf(s, t) == Idle && s.holder == Nobody
    ensures Leads(s, [Begin(t, Stop), Go(t), Go(t), Go(t), Go(t)], Stopping(s, t, Idle))
  {
    var s1, s2, s3 := Stopping(s, t, StopWanted), Stopping(s, t, StopLocked), Stopping(s, t, StopCleared);
    var s4, s5 := Stopping(s, t, Leaving), Stopping(s, t, Idle);
    assert Enabled(s, Begin(t, Stop)) && Do(s, Begin(t, Stop)) == s1;
    hide Stopping, Leads, Enabled, Do;
    StopSteps(s, t, StopWanted);
    StopSteps(s, t, StopLocked);
    StopSteps(s, t, StopCleared);
    StopSteps(s, t, Leaving);
    Step(s4, Go(t), s5);
    Ahead(s3, Go(t), s4, [Go(t)], s5, [Go(t), Go(t)]);
    Ahead(s2, Go(t), s3, [Go(t), Go(t)], s5, [Go(t), Go(t), Go(t)]);
    Ahead(s1, Go(t), s2, [Go(t), Go(t), Go(t)], s5, [Go(t), Go(t), Go(t), Go(t)]);
    Ahead(s, Begin(t, Stop), s1, [Go(t), Go(t), Go(t), Go(t)], s5, [Begin(t, Stop), Go(t), Go(t), Go(t), Go(t)]);
  }

  /** The loop gets from its first lock to its first turn, whatever the run flag was. */
  lemma LoopStarts(s: State)
    requires s.loop == StartWanted && s.holder == Nobody
    ensures Leads(s, [LoopGo, LoopGo, LoopGo], s.(core := s.core.(run := true), loop := Head(true)))
  {
    hide Leads, WaitTime;
    var s1 := s.(holder := TheLoop, loop := StartLocked);
    var s2 := s.(holder := TheLoop, core := s.core.(run := true), loop := Started);
    var s3 := s.(core := s.core.(run := true), loop := Head(true));
    Step(s2, LoopGo, s3);
    Ahead(s1, LoopGo, s2, [LoopGo], s3, [LoopGo, LoopGo]);
    Ahead(s, LoopGo, s1, [LoopGo, LoopGo], s3, [LoopGo, LoopGo, LoopGo]);
  }

  /** With nothing queued the loop comes to wait for a signal alone. */
  lemma LoopWaits(s: State)
    requires s.loop == Head(true) && s.holder == Nobody && s.core.queue == {}
    ensures Leads(s, [LoopGo, LoopGo, Ask(None), LoopGo], s.(loop := Waiting(-1, s.now, None)))
  {
    hide Leads;
    var s1, s2 := s.(loop := TopWanted), s.(holder := TheLoop, loop := TopLocked);
    var s3, s4 := s.(holder := TheLoop, loop := Asked(-1, s.now, None)), s.(loop := Waiting(-1, s.now, None));
    Step(s3, LoopGo, s4);
    Ahead(s2, Ask(None), s3, [LoopGo], s4, [Ask(None), LoopGo]);
    Ahead(s1, LoopGo, s2, [Ask(None), LoopGo], s4, [LoopGo, Ask(None), LoopGo]);
    Ahead(s, LoopGo, s1, [LoopGo, Ask(None), LoopGo], s4, [LoopGo, LoopGo, Ask(None), LoopGo]);
  }

  /** Woken by a signal, the loop reads the pipe. */
  lemma LoopWakes(s: State)
    requires s.loop.Waiting? && s.holder == Nobody && s.core.edge && s.core.unread > 0
    ensures Leads(s, [Wake(true), LoopGo, LoopGo],
      s.(holder := TheLoop, core := s.core.(unread := 0, edge := false), loop := Extracting))
  {
    hide Leads, WaitTime;
    var c1, c2 := s.core.(edge := false), s.core.(unread := 0, edge := false);
    var s1, s2 := s.(core := c1, loop := Woken(true)), s.(holder := TheLoop, core := c1, loop := Relocked(true));
    var s3 := s.(holder := TheLoop, core := c2, loop := Extracting);
    Step(s2, LoopGo, s3);
    Ahead(s1, LoopGo, s2, [LoopGo], s3, [LoopGo, LoopGo]);
    Ahead(s, Wake(true), s1, [LoopGo, LoopGo], s3, [Wake(true), LoopGo, LoopGo]);
  }

  /** With the run flag set and nothing queued, the loop turns again. */
  lemma LoopTurns(s: State)
    requires s.loop == Extracting && s.holder == TheLoop && s.core.queue == {} && s.core.run
    ensures Leads(s, [Extract([]), LoopGo, LoopGo], s.(holder := Nobody, loop := Head(true)))
  {
    hide Leads, WaitTime;
    var s1, s2 := s.(loop := Taken(true, [])), s.(holder := Nobody, loop := Calling(true, []));
    var s3 := s.(holder := Nobody, loop := Head(true));
    assert Do(s, Extract([])).places == s.places && Extracted(s.core, s.now) == s.core;
    Step(s2, LoopGo, s3);
    Ahead(s1, LoopGo, s2, [LoopGo], s3, [LoopGo, LoopGo]);
    Ahead(s, Extract([]), s1, [LoopGo, LoopGo], s3, [Extract([]), LoopGo, LoopGo]);
  }

  ghost function LostStop(): seq<Action> {
    [Run] + [Begin(0, Stop), Go(0), Go(0), Go(0), Go(0)] + [LoopGo, LoopGo, LoopGo]
  }

  ghost function AfterLostStop(start: Timeval): State {
    State(Core({}, true, 1, true), Nobody, Head(true), map[0 := Idle], false, start, [], [], map[])
  }

  /** A legal run in which a stop has returned, and yet the loop goes on with the run flag set. */
  lemma StopIsLost(start: Timeval)
    ensures Leads(Initially(start), LostStop(), AfterLostStop(start))
  {
    hide Leads;
    var s := Initially(start);
    var s1 := s.(loop := StartWanted);
    var s2 := Stopping(s1, 0, Idle);
    Step(s, Run, s1);
    WholeStop(s1, 0);
    Joined(s, [Run], s1, [Begin(0, Stop), Go(0), Go(0), Go(0), Go(0)], s2);
    LoopStarts(s2);
    Joined(s, [Run] + [Begin(0, Stop), Go(0), Go(0), Go(0), Go(0)], s2, [LoopGo, LoopGo, LoopGo], AfterLostStop(start));
  }

  /** The run goes on to a wait with no timeout and no signal: that of the stop is used up. */
  lemma LostStopWaits(start: Timeval) returns (more: seq<Action>)
    ensures Leads(AfterLostStop(start), more,
      AfterLostStop(start).(core := Core({}, true, 0, false), loop := Waiting(-1, start, None)))
  {
    hide Leads;
    var s := AfterLostStop(start);
    var s1 := s.(loop := Waiting(-1, start, None));
    var s2 := s.(holder := TheLoop, core := Core({}, true, 0, false), loop := Extracting);
    var s3 := s.(core := Core({}, true, 0, false));
    var s4 := s3.(loop := Waiting(-1, start, None));
    LoopWaits(s);
    LoopWakes(s1);
    LoopTurns(s2);
    LoopWaits(s3);
    var toWait := [LoopGo, LoopGo, Ask(None), LoopGo];
    var woken, turned := [Wake(true), LoopGo, LoopGo], [Extract([]), LoopGo, LoopGo];
    Joined(s, toWait, s1, woken, s2);
    Joined(s, toWait + woken, s2, turned, s3);
    more := toWait + woken + turned + toWait;
    Joined(s, toWait + woken + turned, s3, toWait, s4);
  }

  // ---------- Stops that are not ----------

  /** How many steps the loop has left once the run flag is cleared. */
  ghost function Rank(l: Loop): nat {
    match l
    case Out => 0
    case StartWanted => 16
    case StartLocked => 15
    case Started => 14
    case Head(run) => if run then 12 else 1
    case TopWanted => 11
    case TopLocked => 10
    case Asked(_, _, _) => 9
    case Waiting(_, _, _) => 8
    case Woken(_) => 7
    case Relocked(_) => 6
    case Extracting => 5
    case Taken(run, batch) => (if run then 14 else 3) + |batch|
    case Calling(run, batch) => (if run then 13 else 2) + |batch|
  }

  ghost predicate BeforeStart(l: Loop) { l.StartWanted? || l.StartLocked? }

  lemma CallingEnds(s: State)
    requires s.loop.Calling?
    ensures !BeforeStart(LoopStep(s).loop) && Rank(LoopStep(s).loop) < Rank(s.loop)
  {
  }

  lemma StopByLoop(s: State)
    requires !s.loop.Out? && !s.loop.TopLocked? && !s.loop.Waiting? && !s.loop.Extracting? && !BeforeStart(s.loop)
    ensures !BeforeStart(LoopStep(s).loop) && Rank(LoopStep(s).loop) < Rank(s.loop)
  {
    if s.loop.Calling? {
      CallingEnds(s);
    } else {
      var l := LoopStep(s).loop;
      match s.loop
      case Started => assert l == Head(true);
      case Head(run) => assert l == if run then TopWanted else Out;
      case TopWanted => assert l == TopLocked;
      case Asked(_, _, _) => assert l.Waiting?;
      case Woken(_) => assert l.Relocked?;
      case Relocked(_) => assert l == Extracting;
      case Taken(run, batch) => assert l == Calling(run, batch);
    }
  }

  lemma StopStep(s: State, a: Action)
    requires Enabled(s, a) && !s.core.run && !BeforeStart(s.loop) && a != Run
    ensures !Do(s, a).core.run && !BeforeStart(Do(s, a).loop)
    ensures Rank(Do(s, a).loop) + (if OfTheLoop(a) then 1 else 0) <= Rank(s.loop)
  {
    hide Due, Lists, WaitsFor, WaitTime, FreshRef, AtRest, ClientStep, LoopStep;
    FlagStep(s, a);
    if a.Go? {
      ClientKeepsLoop(s, a.id);
    } else if a.LoopGo? {
      StopByLoop(s);
    }
  }

  /** With the run flag cleared nothing is extracted. */
  lemma StopCalls(s: State, a: Action)
    requires Enabled(s, a) && !s.core.run
    ensures TakesFromFront(s, Do(s, a))
  {
    hide Due, Lists, WaitsFor, WaitTime, FreshRef, AtRest, ClientStep, LoopStep, TakesFromFront;
    if a.Extract? {
      NothingFired(s, Do(s, a), []);
    } else {
      FireStep(s, a);
    }
  }

  /** The loop's own steps from one moment to another. */
  ghost function LoopSteps(actions: seq<Action>, i: nat, j: nat): set<nat>
    requires j <= |actions|
  {
    set k: nat | i <= k < j && OfTheLoop(actions[k])
  }

  lemma LoopStepsMore(actions: seq<Action>, i: nat, j: nat)
    requires i <= j < |actions|
    ensures |LoopSteps(actions, i, j + 1)| == |LoopSteps(actions, i, j)| + if OfTheLoop(actions[j]) then 1 else 0
  {
    var here := if OfTheLoop(actions[j]) then {j} else {};
    assert LoopSteps(actions, i, j + 1) == LoopSteps(actions, i, j) + here;
  }

  /** With the run flag cleared, a running loop takes no more than so many steps, whatever the clients do. */
  lemma {:induction false} StopEndsLoop(s: State, actions: seq<Action>, i: nat, j: nat)
    requires Legal(s, actions) && i <= j <= |actions|
    requires !At(s, actions, i).core.run && !BeforeStart(At(s, actions, i).loop)
    requires forall k :: i <= k < j ==> actions[k] != Run
    ensures !At(s, actions, j).core.run && !BeforeStart(At(s, actions, j).loop)
    ensures |LoopSteps(actions, i, j)| + Rank(At(s, actions, j).loop) <= Rank(At(s, actions, i).loop)
    ensures TakesFromFront(At(s, actions, i), At(s, actions, j))
    decreases j
  {
    hide Legal, Enabled, Do, StateAfter, Rank, LoopSteps, TakesFromFront, BeforeStart;
    var from := At(s, actions, i);
    if i == j {
      assert from.log == from.log + [];
      NothingFired(from, from, []);
      assert |LoopSteps(actions, i, j)| == 0 by { NoLoopSteps(actions, i); }
    } else {
      var to := At(s, actions, j - 1);
      StopEndsLoop(s, actions, i, j - 1);
      StepAt(s, actions, j - 1);
      StopStep(to, actions[j - 1]);
      StopCalls(to, actions[j - 1]);
      FireMore(from, to, At(s, actions, j));
      LoopStepsMore(actions, i, j - 1);
    }
  }

  lemma NoLoopSteps(actions: seq<Action>, i: nat)
    requires i <= |actions|
    ensures LoopSteps(actions, i, i) == {}
  {
  }

  lemma RankBound(l: Loop)
    requires !BeforeStart(l)
    ensures Rank(l) <= 14 + |Batch(l)|
  {
  }

  /**
   A stop taken once the loop is past its start ends it: the flag stays cleared, the loop takes at most
   so many steps more, and it calls back, in order, nothing but what it had extracted before.
   */
  lemma StopWorks(s: State, actions: seq<Action>, i: nat, j: nat, t: nat)
    requires Legal(s, actions) && i < j <= |actions| && Stops(At(s, actions, i), actions[i], t)
    requires !BeforeStart(At(s, actions, i).loop) && forall k :: i < k < j ==> actions[k] != Run
    ensures !At(s, actions, j).core.run
    ensures |LoopSteps(actions, i + 1, j)| <= 14 + |Batch(At(s, actions, i).loop)|
    ensures TakesFromFront(At(s, actions, i), At(s, actions, j))
  {
    hide Legal, Stops, BeforeStart, Rank, Batch, Fires, LoopSteps, StateAfter;
    StopClears(s, actions, i, t);
    StopEndsLoop(s, actions, i + 1, j);
    RankBound(At(s, actions, i).loop);
  }

  // ---------- What ends a loop ----------

  ghost predicate PastStart(l: Loop) { !l.Out? && !l.StartWanted? && !l.StartLocked? }

  /** The loop is bound to leave, or will find that it is to leave when it looks next. */
  ghost predicate Ending(s: State) {
    PastStart(s.loop) && (!s.core.run || s.loop == Head(false) || ((s.loop.Taken? || s.loop.Calling?) && !s.loop.run))
  }

  lemma EndingByLoop(s: State)
    requires Enabled(s, LoopGo) && Ending(LoopStep(s))
    ensures Ending(s)
  {
    hide Due, Lists, WaitsFor, WaitTime, FreshRef, AtRest;
  }

  lemma StopsByClient(s: State, t: nat)
    requires s.core.run && !ClientStep(s, t).core.run
    ensures ClientOf(s, t) == StopLocked
  {
    hide First, TakenOf;
  }

  lemma EndingBefore(s: State, a: Action)
    requires Enabled(s, a) && Ending(Do(s, a))
    ensures PastStart(s.loop) && (Ending(s) || exists t :: Stops(s, a, t))
  {
    hide Due, Lists, WaitsFor, WaitTime, FreshRef, AtRest, ClientStep, LoopStep;
    if a.LoopGo? {
      EndingByLoop(s);
    } else if a.Go? {
      ClientKeepsLoop(s, a.id);
      if s.core.run && !Do(s, a).core.run {
        StopsByClient(s, a.id);
        assert Stops(s, a, a.id);
      }
    }
  }

  lemma NotEndingAtFirst(start: Timeval, actions: seq<Action>)
    ensures !Ending(At(Initially(start), actions, 0))
  {
    assert actions[..0] == [];
  }

  /** A loop that is about to leave was stopped, and has been past its start ever since. */
  lemma {:induction false} EndsByStop(start: Timeval, actions: seq<Action>, j: nat) returns (i: nat, t: nat)
    requires Legal(Initially(start), actions) && j <= |actions| && Ending(At(Initially(start), actions, j))
    ensures i < j && Stops(At(Initially(start), actions, i), actions[i], t)
    ensures forall k :: i <= k <= j ==> PastStart(At(Initially(start), actions, k).loop)
    decreases j
  {
    hide Legal, Enabled, Do, StateAfter, Ending, PastStart, Stops;
    i, t := 0, 0;
    if j == 0 {
      NotEndingAtFirst(start, actions);
    } else {
      var s := At(Initially(start), actions, j - 1);
      StepAt(Initially(start), actions, j - 1);
      EndingBefore(s, actions[j - 1]);
      EndingPast(At(Initially(start), actions, j));
      if Ending(s) {
        i, t := EndsByStop(start, actions, j - 1);
      } else {
        t :| Stops(s, actions[j - 1], t);
        i := j - 1;
      }
    }
  }

  lemma EndingPast(s: State)
    requires Ending(s)
    ensures PastStart(s.loop)
  {
  }

  /** `etimer_run` returns only after a stop that was taken while it ran. */
  lemma LeavesByStop(start: Timeval, actions: seq<Action>, j: nat) returns (i: nat, t: nat)
    requires Legal(Initially(start), actions) && j < |actions|
    requires At(Initially(start), actions, j).loop != Out && At(Initially(start), actions, j + 1).loop == Out
    ensures i < j && Stops(At(Initially(start), actions, i), actions[i], t)
    ensures forall k :: i <= k <= j ==> PastStart(At(Initially(start), actions, k).loop)
  {
    hide Legal, StateAfter, Stops, PastStart;
    StepAt(Initially(start), actions, j);
    LeavesFrom(At(Initially(start), actions, j), actions[j]);
    i, t := EndsByStop(start, actions, j);
  }

  lemma LeavesFrom(s: State, a: Action)
    requires Enabled(s, a) && s.loop != Out && Do(s, a).loop == Out
    ensures Ending(s)
  {
    hide Due, Lists, WaitsFor, WaitTime, FreshRef, AtRest, ClientStep;
    if a.Go? {
      ClientKeepsLoop(s, a.id);
    }
  }
}
