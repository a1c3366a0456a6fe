/** Where the timer's events are, in every interleaving: each in one place, and called back once. */
module TimerEvents {
  import opened TimeValues
  import opened TimerSteps
  import opened TimerProtocol
  import opened Wrappers

  ghost function Batch(l: Loop): seq<Event> { if l.Taken? || l.Calling? then l.batch else [] }

  ghost function Adds(c: Client): Option<Event> {
    if c.AddWanted? || c.AddLocked? then Some(c.e) else None
  }

  ghost function Takes(c: Client): Option<Event> {
    if c.CancelTook? || c.CancelReleased? then c.taken else None
  }

  ghost function Drops(c: Client): seq<Event> {
    if c.DestroyDrained? || c.Destroying? then c.batch else []
  }

  ghost function Logged(log: seq<Call>): set<Event> { set c | c in log :: c.e }

  /** What being at a place means for the state of the timer and its threads. */
  ghost predicate IsAt(s: State, e: Event, p: Place) {
    match p
    case Adding(t) => Adds(ClientOf(s, t)) == Some(e)
    case Queued => e in s.core.queue
    case Ready => e in Batch(s.loop)
    case Cancelling(t) => Takes(ClientOf(s, t)) == Some(e)
    case Dropping(t) => e in Drops(ClientOf(s, t))
    case Called => e in Logged(s.log)
  }

  ghost predicate PlacesOk(s: State) {
    forall e, p :: IsAt(s, e, p) <==> e in s.places && s.places[e] == p
  }

  ghost predicate RefsOk(s: State) {
    forall e, e' :: e in s.places && e' in s.places && e.ref == e'.ref ==> e == e'
  }

  ghost predicate NoRepeats(events: seq<Event>) {
    forall i, j :: 0 <= i < j < |events| ==> events[i] != events[j]
  }

  ghost function Calls(log: seq<Call>): seq<Event> { seq(|log|, i requires 0 <= i < |log| => log[i].e) }

  ghost predicate DropsOk(s: State) {
    forall t :: NoRepeats(Drops(ClientOf(s, t)))
  }

  ghost predicate EventsOk(s: State) {
    && PlacesOk(s) && RefsOk(s) && NoRepeats(Batch(s.loop)) && NoRepeats(Calls(s.log))
    && DropsOk(s)
  }

  lemma LoggedMore(log: seq<Call>, c: Call)
    ensures Logged(log + [c]) == Logged(log) + {c.e}
    ensures NoRepeats(Calls(log)) && c.e !in Logged(log) ==> NoRepeats(Calls(log + [c]))
  {
    forall x | x in log ensures x in log + [c] {
    }
    assert c in log + [c];
    forall i | 0 <= i < |log| ensures Calls(log)[i] in Logged(log) && Calls(log + [c])[i] == Calls(log)[i] {
      assert log[i] in log;
    }
  }

  // ---------- One event moves ----------

  /** The event is at the place and nowhere else, and every other event is where it was. */
  ghost predicate Moved(s: State, s': State, e: Event, to: Place) {
    forall x, p :: IsAt(s', x, p) <==> if x == e then p == to else IsAt(s, x, p)
  }

  lemma MovedOk(s: State, s': State, e: Event, to: Place)
    requires PlacesOk(s) && Moved(s, s', e, to) && s'.places == s.places[e := to]
    ensures PlacesOk(s')
  {
    forall x, p ensures IsAt(s', x, p) <==> x in s'.places && s'.places[x] == p {
      assert IsAt(s, x, p) <==> x in s.places && s.places[x] == p;
    }
  }

  ghost predicate SameEvents(c: Client, c': Client) {
    Adds(c) == Adds(c') && Takes(c) == Takes(c') && Drops(c) == Drops(c')
  }

  /** A step of one client leaves the lists of the others alone. */
  lemma DropsKept(s: State, s': State, t: nat)
    requires DropsOk(s) && NoRepeats(Drops(ClientOf(s', t)))
    requires s'.clients == s.clients[t := ClientOf(s', t)]
    ensures DropsOk(s')
  {
    forall x ensures NoRepeats(Drops(ClientOf(s', x))) {
      assert x != t ==> ClientOf(s', x) == ClientOf(s, x);
    }
  }

  lemma DropsSame(s: State, s': State)
    requires DropsOk(s) && s'.clients == s.clients
    ensures DropsOk(s')
  {
    forall x ensures NoRepeats(Drops(ClientOf(s', x))) {
      assert ClientOf(s', x) == ClientOf(s, x);
    }
  }

  lemma NothingMoved(s: State, s': State)
    requires PlacesOk(s) && RefsOk(s) && s'.places == s.places
    requires s'.core.queue == s.core.queue && Batch(s'.loop) == Batch(s.loop) && s'.log == s.log
    requires forall t :: SameEvents(ClientOf(s', t), ClientOf(s, t))
    ensures PlacesOk(s') && RefsOk(s')
  {
    forall x, p ensures IsAt(s', x, p) <==> x in s'.places && s'.places[x] == p {
      assert IsAt(s, x, p) <==> x in s.places && s.places[x] == p;
    }
  }

  lemma AddBegins(s: State, t: nat, e: Event)
    requires EventsOk(s) && Enabled(s, Begin(t, Add(e)))
    ensures EventsOk(Begun(s, t, Add(e)))
  {
    var s' := Begun(s, t, Add(e));
    assert e !in s.places;
    forall x, p ensures IsAt(s', x, p) <==> if x == e then p == Adding(t) else IsAt(s, x, p) {
      assert IsAt(s, x, p) <==> x in s.places && s.places[x] == p;
    }
    MovedOk(s, s', e, Adding(t));
    DropsKept(s, s', t);
  }

  lemma AddInserts(s: State, t: nat)
    requires EventsOk(s) && ClientOf(s, t).AddLocked?
    ensures EventsOk(ClientStep(s, t))
  {
    hide First;
    var e, s' := ClientOf(s, t).e, ClientStep(s, t);
    assert IsAt(s, e, Adding(t));
    forall x, p ensures IsAt(s', x, p) <==> if x == e then p == Queued else IsAt(s, x, p) {
      assert IsAt(s, x, p) <==> x in s.places && s.places[x] == p;
    }
    MovedOk(s, s', e, Queued);
    DropsKept(s, s', t);
  }

  /** References being unique, an event leaves the queue alone. */
  lemma QueueWithout(s: State, ref: Ref)
    requires EventsOk(s)
    ensures var taken := TakenOf(s.core.queue, ref);
            if taken == None then
              Without(s.core, ref) == s.core
            else
              && taken.value in s.core.queue && taken.value.ref == ref
              && Without(s.core, ref).queue == s.core.queue - {taken.value}
  {
    forall e | e in s.core.queue ensures e in s.places {
      assert IsAt(s, e, Queued);
    }
    if TakenOf(s.core.queue, ref) == None {
      assert Without(s.core, ref).queue == s.core.queue;
    }
  }

  lemma CancelTakesEvent(s: State, t: nat)
    requires EventsOk(s) && ClientOf(s, t).CancelLocked?
    ensures EventsOk(ClientStep(s, t))
  {
    var ref, s' := ClientOf(s, t).ref, ClientStep(s, t);
    var taken := TakenOf(s.core.queue, ref);
    QueueWithout(s, ref);
    hide Without, TakenOf;
    DropsKept(s, s', t);
    if taken == None {
      NothingMoved(s, s');
    } else {
      var e := taken.value;
      assert IsAt(s, e, Queued);
      forall x, p ensures IsAt(s', x, p) <==> if x == e then p == Cancelling(t) else IsAt(s, x, p) {
        assert IsAt(s, x, p) <==> x in s.places && s.places[x] == p;
      }
      MovedOk(s, s', e, Cancelling(t));
    }
  }

  lemma CancelCallsEvent(s: State, t: nat)
    requires EventsOk(s) && ClientOf(s, t).CancelReleased?
    ensures EventsOk(ClientStep(s, t))
  {
    hide Logged, Calls, NoRepeats;
    var taken, s' := ClientOf(s, t).taken, ClientStep(s, t);
    NothingDropped();
    DropsKept(s, s', t);
    if taken == None {
      NothingMoved(s, s');
    } else {
      var e := taken.value;
      assert IsAt(s, e, Cancelling(t));
      assert IsAt(s, e, Called) <==> e in Logged(s.log);
      LoggedMore(s.log, Cancelled(e));
      forall x, p ensures IsAt(s', x, p) <==> if x == e then p == Called else IsAt(s, x, p) {
        assert IsAt(s, x, p) <==> x in s.places && s.places[x] == p;
      }
      MovedOk(s, s', e, Called);
    }
  }

  lemma CallbackFires(s: State)
    requires EventsOk(s) && s.loop.Calling? && s.loop.batch != []
    ensures EventsOk(LoopStep(s))
  {
    hide Logged, Calls;
    var e, rest, s' := s.loop.batch[0], s.loop.batch[1..], LoopStep(s);
    DropsSame(s, s');
    assert IsAt(s, e, Ready);
    assert IsAt(s, e, Called) <==> e in Logged(s.log);
    LoggedMore(s.log, Fired(e));
    assert forall x :: x in s.loop.batch <==> x == e || x in rest;
    assert e !in rest;
    forall x, p ensures IsAt(s', x, p) <==> if x == e then p == Called else IsAt(s, x, p) {
      assert IsAt(s, x, p) <==> x in s.places && s.places[x] == p;
    }
    MovedOk(s, s', e, Called);
  }

  lemma NothingDropped()
    ensures NoRepeats([])
  {
  }

  lemma DestroyDrains(s: State, t: nat, batch: seq<Event>)
    requires EventsOk(s) && Enabled(s, Drain(t, batch))
    ensures EventsOk(Drained(s, t, batch))
  {
    var s' := Drained(s, t, batch);
    forall x, p ensures IsAt(s', x, p) <==> x in s'.places && s'.places[x] == p {
      assert IsAt(s, x, p) <==> x in s.places && s.places[x] == p;
      assert IsAt(s, x, Queued) <==> x in s.places && s.places[x] == Queued;
    }
    forall x | x in s'.places ensures x in s.places {
      assert IsAt(s, x, Queued) <==> x in s.places && s.places[x] == Queued;
    }
    DropsKept(s, s', t);
  }

  lemma DestroyCallsEvent(s: State, t: nat)
    requires EventsOk(s) && ClientOf(s, t).Destroying? && ClientOf(s, t).batch != []
    ensures EventsOk(ClientStep(s, t))
  {
    hide Logged, Calls;
    var batch, s' := ClientOf(s, t).batch, ClientStep(s, t);
    var e, rest := batch[0], batch[1..];
    assert Drops(ClientOf(s, t)) == batch;
    assert IsAt(s, e, Dropping(t));
    assert IsAt(s, e, Called) <==> e in Logged(s.log);
    LoggedMore(s.log, Dropped(e));
    assert forall x :: x in batch <==> x == e || x in rest;
    assert e !in rest;
    forall x, p ensures IsAt(s', x, p) <==> if x == e then p == Called else IsAt(s, x, p) {
      assert IsAt(s, x, p) <==> x in s.places && s.places[x] == p;
    }
    MovedOk(s, s', e, Called);
    DropsKept(s, s', t);
  }

  lemma BatchExtracted(s: State, batch: seq<Event>)
    requires EventsOk(s) && Enabled(s, Extract(batch))
    ensures EventsOk(Extraction(s, batch))
  {
    var s' := Extraction(s, batch);
    DropsSame(s, s');
    if s.core.run {
      forall x, p ensures IsAt(s', x, p) <==> x in s'.places && s'.places[x] == p {
        assert IsAt(s, x, p) <==> x in s.places && s.places[x] == p;
        assert IsAt(s, x, Queued) <==> x in s.places && s.places[x] == Queued;
      }
      forall x | x in s'.places ensures x in s.places {
        assert IsAt(s, x, Queued) <==> x in s.places && s.places[x] == Queued;
      }
    } else {
      NothingMoved(s, s');
    }
  }

  lemma EventsByClient(s: State, t: nat)
    requires EventsOk(s) && Enabled(s, Go(t))
    ensures EventsOk(ClientStep(s, t))
  {
    var c := ClientOf(s, t);
    if c.AddLocked? {
      AddInserts(s, t);
    } else if c.CancelLocked? {
      CancelTakesEvent(s, t);
    } else if c.CancelReleased? {
      CancelCallsEvent(s, t);
    } else if c.Destroying? && c.batch != [] {
      DestroyCallsEvent(s, t);
    } else {
      PassesOn(s, t);
    }
  }

  /** The steps that move no event. */
  ghost predicate Passing(c: Client) {
    !c.AddLocked? && !c.CancelLocked? && !c.CancelReleased? && (c.Destroying? ==> c.batch == [])
  }

  lemma PassingStep(s: State, t: nat)
    requires ClientOf(s, t) != Idle && Passing(ClientOf(s, t))
    ensures var s' := ClientStep(s, t);
            && s'.places == s.places && s'.core.queue == s.core.queue && s'.loop == s.loop && s'.log == s.log
            && s'.clients == s.clients[t := ClientOf(s', t)] && SameEvents(ClientOf(s', t), ClientOf(s, t))
  {
    hide First, TakenOf, Without;
  }

  lemma PassesOn(s: State, t: nat)
    requires EventsOk(s) && ClientOf(s, t) != Idle && Passing(ClientOf(s, t))
    ensures EventsOk(ClientStep(s, t))
  {
    hide Logged, Calls, NoRepeats, PlacesOk, RefsOk, DropsOk, Passing, Adds, Takes, Drops, ClientStep;
    var s' := ClientStep(s, t);
    PassingStep(s, t);
    DropsInstance(s, t);
    forall x ensures SameEvents(ClientOf(s', x), ClientOf(s, x)) {
      assert x != t ==> ClientOf(s', x) == ClientOf(s, x);
    }
    NothingMoved(s, s');
    DropsKept(s, s', t);
  }

  lemma DropsInstance(s: State, t: nat)
    requires DropsOk(s)
    ensures NoRepeats(Drops(ClientOf(s, t)))
  {
  }

  lemma EventsByLoop(s: State)
    requires EventsOk(s) && Enabled(s, LoopGo)
    ensures EventsOk(LoopStep(s))
  {
    if s.loop.Calling? && s.loop.batch != [] {
      CallbackFires(s);
    } else {
      NothingMoved(s, LoopStep(s));
    }
  }

  lemma EventsKept(s: State, a: Action)
    requires EventsOk(s) && Enabled(s, a)
    ensures EventsOk(Do(s, a))
  {
    hide ClientStep, LoopStep, Extraction, Drained, PlacesOk, Logged, Calls, AtRest, WaitTime, NoRepeats, Lists;
    match a
    case Begin(t, request) =>
      if request.Add? {
        AddBegins(s, t, request.e);
      } else {
        NothingMoved(s, Do(s, a));
        NothingDropped();
        DropsKept(s, Do(s, a), t);
      }
    case Go(t) => EventsByClient(s, t);
    case Drain(t, batch) => DestroyDrains(s, t, batch);
    case LoopGo => EventsByLoop(s);
    case Extract(batch) => BatchExtracted(s, batch);
    case _ => NothingMoved(s, Do(s, a));
  }
}
