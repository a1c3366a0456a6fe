/** What every step keeps of the callbacks and the answers to cancellations. */
module TimerCalls {
  import opened TimeValues
  import opened TimerSteps
  import opened TimerProtocol
  import opened TimerEvents
  import opened Wrappers

  lemma OthersStay(s: State, u: nat, t: nat)
    requires t != u
    ensures ClientOf(ClientStep(s, u), t) == ClientOf(s, t)
  {
    hide First, Without, TakenOf, Inserted, Signalled;
    var clients := ClientStep(s, u).clients;
    match ClientOf(s, u)
    case CancelLocked(_) => assert clients == s.clients[u := clients[u]];
    case CancelReleased(_, _) => assert clients == s.clients[u := clients[u]];
    case Destroying(_) => assert clients == s.clients[u := clients[u]];
    case _ =>
  }

  lemma ClientKeepsLoop(s: State, t: nat)
    ensures ClientStep(s, t).loop == s.loop && ClientStep(s, t).now == s.now
  {
    hide First, TakenOf, Without;
  }

  /** A step of a client changes the state of no other, and the loop changes that of none. */
  lemma OneClientMoves(s: State, a: Action, t: nat)
    requires a != Go(t) && !((a.Begin? || a.Drain?) && a.id == t)
    ensures ClientOf(Do(s, a), t) == ClientOf(s, t)
  {
    hide Due, WaitTime, ClientStep;
    if a.Go? {
      OthersStay(s, a.id, t);
    }
  }

  // ---------- Callbacks ----------

  /** What is to be called as fired, or was, is due; a batch is in order. */
  ghost predicate DueOk(s: State) {
    && (forall e :: e in Batch(s.loop) ==> Earlier(e.deadline, s.now))
    && (forall e :: Fired(e) in s.log ==> Earlier(e.deadline, s.now))
    && (forall i, j :: 0 <= i < j < |Batch(s.loop)| ==> !Earlier(Batch(s.loop)[j].deadline, Batch(s.loop)[i].deadline))
  }

  lemma DueByClient(s: State, t: nat)
    requires DueOk(s) && Enabled(s, Go(t))
    ensures DueOk(ClientStep(s, t))
  {
    hide First, Without, TakenOf, WaitsFor, WaitTime, FreshRef, Earlier;
  }

  lemma DueByLoop(s: State)
    requires DueOk(s)
    ensures DueOk(LoopStep(s))
  {
    hide DueOk;
    if s.loop.Calling? && s.loop.batch != [] {
      DueCalled(s);
    } else {
      DueSame(s, LoopStep(s));
    }
  }

  lemma DueSame(s: State, s': State)
    requires DueOk(s) && Batch(s'.loop) == Batch(s.loop) && s'.log == s.log && s'.now == s.now
    ensures DueOk(s')
  {
  }

  lemma DueCalled(s: State)
    requires DueOk(s) && s.loop.Calling? && s.loop.batch != []
    ensures DueOk(LoopStep(s))
  {
    hide Earlier;
    var s', batch := LoopStep(s), s.loop.batch;
    assert Batch(s.loop) == batch && batch[0] in batch;
    forall e | e in Batch(s'.loop) ensures e in Batch(s.loop) {
    }
    forall i, j | 0 <= i < j < |Batch(s'.loop)|
      ensures !Earlier(Batch(s'.loop)[j].deadline, Batch(s'.loop)[i].deadline)
    {
      assert !Earlier(batch[j + 1].deadline, batch[i + 1].deadline);
    }
  }

  lemma DueKept(s: State, a: Action)
    requires DueOk(s) && Enabled(s, a)
    ensures DueOk(Do(s, a))
  {
    hide First, Without, TakenOf, WaitsFor, WaitTime, FreshRef, AtRest, ClientStep, LoopStep;
    if a.Go? {
      DueByClient(s, a.id);
    } else if a.LoopGo? {
      DueByLoop(s);
    }
  }

  // ---------- The order of the loop's callbacks ----------

  /** The events the loop has called back, in the order of the calls. */
  ghost function Fires(log: seq<Call>): seq<Event> {
    if log == [] then []
    else
      var last := log[|log| - 1];
      Fires(log[..|log| - 1]) + if last.Fired? then [last.e] else []
  }

  lemma {:induction false} FiresConcat(a: seq<Call>, b: seq<Call>)
    ensures Fires(a + b) == Fires(a) + Fires(b)
    decreases b
  {
    if b == [] {
      assert a + b == a;
    } else {
      var n := |b| - 1;
      FiresConcat(a, b[..n]);
      assert (a + b)[..|a + b| - 1] == a + b[..n];
    }
  }

  lemma OneFire(c: Call)
    ensures Fires([c]) == if c.Fired? then [c.e] else []
  {
    assert [c][..0] == [];
  }

  /** The calls of one step, and what it leaves of the batch. */
  ghost predicate TakesFromFront(s: State, s': State) {
    s.log <= s'.log && Fires(s'.log[|s.log|..]) + Batch(s'.loop) == Batch(s.loop)
  }

  lemma NothingFired(s: State, s': State, log: seq<Call>)
    requires s'.log == s.log + log && Batch(s'.loop) == Batch(s.loop)
    requires |log| <= 1 && forall c :: c in log ==> !c.Fired?
    ensures TakesFromFront(s, s')
  {
    assert s'.log[|s.log|..] == log;
    if log != [] {
      OneFire(log[0]);
      assert log == [log[0]];
    }
  }

  /** The callback a client makes in its next step, if any. */
  ghost function CallOf(c: Client): seq<Call> {
    if c.CancelReleased? && c.taken != None then [Cancelled(c.taken.value)]
    else if c.Destroying? && c.batch != [] then [Dropped(c.batch[0])]
    else []
  }

  lemma ClientCalls(s: State, t: nat)
    ensures ClientStep(s, t).log == s.log + CallOf(ClientOf(s, t))
  {
    hide First, Without, TakenOf, Inserted, Signalled;
    var log := ClientStep(s, t).log;
    match ClientOf(s, t)
    case CancelReleased(_, taken) => assert taken == None ==> log == s.log;
    case Destroying(batch) => assert batch == [] ==> log == s.log;
    case _ => assert log == s.log;
  }

  lemma FireByClient(s: State, t: nat)
    ensures TakesFromFront(s, ClientStep(s, t))
  {
    hide TakesFromFront, ClientStep;
    ClientCalls(s, t);
    ClientKeepsLoop(s, t);
    NothingFired(s, ClientStep(s, t), CallOf(ClientOf(s, t)));
  }

  lemma LoopFires(s: State)
    requires s.loop.Calling? && s.loop.batch != []
    ensures TakesFromFront(s, LoopStep(s))
  {
    var first := s.loop.batch[0];
    assert LoopStep(s).log[|s.log|..] == [Fired(first)];
    OneFire(Fired(first));
  }

  lemma FireByLoop(s: State)
    ensures TakesFromFront(s, LoopStep(s))
  {
    hide TakesFromFront;
    if s.loop.Calling? && s.loop.batch != [] {
      LoopFires(s);
    } else {
      NothingFired(s, LoopStep(s), []);
    }
  }

  /** Until it extracts again the loop takes its batch from the front, one callback at a time. */
  lemma FireStep(s: State, a: Action)
    requires Enabled(s, a) && !a.Extract?
    ensures TakesFromFront(s, Do(s, a))
  {
    hide Lists, WaitsFor, WaitTime, FreshRef, AtRest, TakesFromFront, ClientStep, LoopStep;
    if a.Go? {
      FireByClient(s, a.id);
    } else if a.LoopGo? {
      FireByLoop(s);
    } else {
      NothingFired(s, Do(s, a), []);
    }
  }

  lemma FireMore(s: State, m: State, s': State)
    requires TakesFromFront(s, m) && TakesFromFront(m, s')
    ensures TakesFromFront(s, s')
  {
    hide Fires, Batch;
    var first, second := m.log[|s.log|..], s'.log[|m.log|..];
    FiresConcat(first, second);
    assert s'.log[|s.log|..] == first + second;
    assert Fires(first) + Fires(second) + Batch(s'.loop) == Fires(first) + (Fires(second) + Batch(s'.loop));
  }

  // ---------- Destroying ----------

  ghost predicate InDestroy(c: Client) {
    c.DestroyWanted? || c.DestroyLocked? || c.DestroyDrained? || c.Destroying?
  }

  /** Only destroying calls events back as dropped. */
  ghost predicate GoneOk(s: State) {
    && (forall e :: Dropped(e) in s.log ==> s.gone)
    && (forall t :: InDestroy(ClientOf(s, t)) ==> s.gone)
  }

  lemma DroppedInDestroy(s: State, t: nat, e: Event)
    requires Dropped(e) in ClientStep(s, t).log
    ensures Dropped(e) in s.log || InDestroy(ClientOf(s, t))
  {
    hide First, Without, TakenOf;
  }

  lemma StaysInDestroy(s: State, t: nat)
    ensures InDestroy(ClientOf(ClientStep(s, t), t)) ==> InDestroy(ClientOf(s, t))
    ensures ClientStep(s, t).gone == s.gone
  {
    hide First, Without, TakenOf;
  }

  lemma GoneByClient(s: State, t: nat)
    requires GoneOk(s)
    ensures GoneOk(ClientStep(s, t))
  {
    hide ClientStep, InDestroy;
    StaysInDestroy(s, t);
    forall x | x != t ensures ClientOf(ClientStep(s, t), x) == ClientOf(s, x) {
      OthersStay(s, t, x);
    }
    forall e | Dropped(e) in ClientStep(s, t).log ensures s.gone {
      DroppedInDestroy(s, t, e);
    }
  }

  lemma GoneKept(s: State, a: Action)
    requires GoneOk(s) && Enabled(s, a)
    ensures GoneOk(Do(s, a))
  {
    hide Due, Lists, WaitsFor, WaitTime, FreshRef, AtRest, ClientStep;
    if a.Go? {
      GoneByClient(s, a.id);
    } else {
      forall x | !((a.Begin? || a.Drain?) && a.id == x)
        ensures InDestroy(ClientOf(Do(s, a), x)) ==> InDestroy(ClientOf(s, x)) {
      }
    }
  }

  // ---------- Answers ----------

  ghost function CancelledRefs(log: seq<Call>): multiset<Ref> {
    if log == [] then multiset{}
    else
      var last := log[|log| - 1];
      CancelledRefs(log[..|log| - 1]) + if last.Cancelled? then multiset{last.e.ref} else multiset{}
  }

  ghost function HitRefs(answers: seq<Answer>): multiset<Ref> {
    if answers == [] then multiset{}
    else
      var last := answers[|answers| - 1];
      HitRefs(answers[..|answers| - 1]) + if last.hit then multiset{last.ref} else multiset{}
  }

  ghost function ToAnswer(c: Client): multiset<Ref> {
    if c.CancelCalled? && c.hit then multiset{c.ref} else multiset{}
  }

  /** The references whose callback has run and whose cancellation has not returned yet. */
  ghost function InFlight(clients: map<nat, Client>): multiset<Ref>
    decreases |clients|
  {
    if clients == map[] then multiset{}
    else
      var t :| t in clients;
      assert |clients - {t}| < |clients| by { Smaller(clients, t); }
      ToAnswer(clients[t]) + InFlight(clients - {t})
  }

  lemma Smaller(clients: map<nat, Client>, t: nat)
    requires t in clients
    ensures |clients - {t}| < |clients|
  {
    assert (clients - {t}).Keys == clients.Keys - {t};
    assert |clients - {t}| == |(clients - {t}).Keys|;
  }

  /** Any client may be counted first. */
  lemma {:induction false} CountedFirst(clients: map<nat, Client>, t: nat)
    requires t in clients
    ensures InFlight(clients) == ToAnswer(clients[t]) + InFlight(clients - {t})
    decreases |clients|
  {
    hide ToAnswer;
    var u :| u in clients && InFlight(clients) == ToAnswer(clients[u]) + InFlight(clients - {u});
    if u != t {
      Smaller(clients, t);
      Smaller(clients, u);
      CountedFirst(clients - {u}, t);
      CountedFirst(clients - {t}, u);
      assert clients - {u} - {t} == clients - {t} - {u};
    }
  }

  lemma ClientChanged(clients: map<nat, Client>, t: nat, c: Client)
    ensures InFlight(clients[t := c]) + (if t in clients then ToAnswer(clients[t]) else multiset{})
         == InFlight(clients) + ToAnswer(c)
  {
    hide ToAnswer;
    CountedFirst(clients[t := c], t);
    assert clients[t := c] - {t} == clients - {t};
    if t in clients {
      CountedFirst(clients, t);
    } else {
      assert clients - {t} == clients;
    }
  }

  lemma NothingInFlightChanged(s: State, t: nat, c: Client)
    requires ToAnswer(ClientOf(s, t)) == ToAnswer(c) == multiset{}
    ensures InFlight(s.clients[t := c]) == InFlight(s.clients)
  {
    hide ToAnswer, InFlight;
    ClientChanged(s.clients, t, c);
    assert InFlight(s.clients[t := c]) + multiset{} == InFlight(s.clients[t := c]);
    assert InFlight(s.clients) + multiset{} == InFlight(s.clients);
  }

  // What the counts are, reference by reference.

  ghost function HitsOf(answers: seq<Answer>, ref: Ref): set<nat> {
    set i: nat | i < |answers| && answers[i] == Answer(ref, true)
  }

  ghost function CancelledOf(log: seq<Call>, ref: Ref): set<nat> {
    set i: nat | i < |log| && log[i].Cancelled? && log[i].e.ref == ref
  }

  ghost function ReturningOf(clients: map<nat, Client>, ref: Ref): set<nat> {
    set t | t in clients && clients[t] == CancelCalled(ref, true)
  }

  lemma {:induction false} HitsCounted(answers: seq<Answer>, ref: Ref)
    ensures HitRefs(answers)[ref] == |HitsOf(answers, ref)|
  {
    if answers != [] {
      var n := |answers| - 1;
      HitsCounted(answers[..n], ref);
      var here := if answers[n] == Answer(ref, true) then {n} else {};
      assert HitsOf(answers, ref) == HitsOf(answers[..n], ref) + here && HitsOf(answers[..n], ref) !! here;
    }
  }

  lemma CancelledParts(log: seq<Call>, c: Call, ref: Ref)
    ensures |CancelledOf(log + [c], ref)|
         == |CancelledOf(log, ref)| + if c.Cancelled? && c.e.ref == ref then 1 else 0
  {
    var here := if c.Cancelled? && c.e.ref == ref then {|log|} else {};
    assert CancelledOf(log + [c], ref) == CancelledOf(log, ref) + here && CancelledOf(log, ref) !! here;
  }

  lemma {:induction false} CancelledCounted(log: seq<Call>, ref: Ref)
    ensures CancelledRefs(log)[ref] == |CancelledOf(log, ref)|
  {
    if log == [] {
      assert CancelledOf(log, ref) == {};
    } else {
      hide CancelledOf;
      var n := |log| - 1;
      CancelledCounted(log[..n], ref);
      CancelledParts(log[..n], log[n], ref);
      assert log[..n] + [log[n]] == log;
    }
  }

  lemma ReturningParts(clients: map<nat, Client>, t: nat, ref: Ref)
    requires t in clients
    ensures |ReturningOf(clients, ref)|
         == |ReturningOf(clients - {t}, ref)| + if clients[t] == CancelCalled(ref, true) then 1 else 0
  {
    var rest, here := ReturningOf(clients - {t}, ref), if clients[t] == CancelCalled(ref, true) then {t} else {};
    assert ReturningOf(clients, ref) == rest + here && rest !! here;
  }

  lemma {:induction false} ReturningCounted(clients: map<nat, Client>, ref: Ref)
    ensures InFlight(clients)[ref] == |ReturningOf(clients, ref)|
    decreases |clients|
  {
    if clients == map[] {
      assert ReturningOf(clients, ref) == {};
    } else {
      hide ReturningOf;
      var t :| t in clients;
      Smaller(clients, t);
      CountedFirst(clients, t);
      ReturningCounted(clients - {t}, ref);
      ReturningParts(clients, t, ref);
    }
  }

  /** Each callback made as cancelled belongs to one cancellation that said it hit, or has yet to return. */
  ghost predicate AnswersOk(s: State) {
    HitRefs(s.answers) + InFlight(s.clients) == CancelledRefs(s.log)
  }

  ghost predicate TakesOwn(c: Client) { Takes(c) != None ==> c.ref == Takes(c).value.ref }
  ghost predicate TakesOk(s: State) { forall t :: TakesOwn(ClientOf(s, t)) }

  lemma OneCallMore(log: seq<Call>, c: Call)
    ensures CancelledRefs(log + [c]) == CancelledRefs(log) + if c.Cancelled? then multiset{c.e.ref} else multiset{}
  {
    assert (log + [c])[..|log|] == log;
  }

  lemma OneAnswerMore(answers: seq<Answer>, a: Answer)
    ensures HitRefs(answers + [a]) == HitRefs(answers) + if a.hit then multiset{a.ref} else multiset{}
  {
    assert (answers + [a])[..|answers|] == answers;
  }

  lemma AnswerGiven(s: State, t: nat)
    requires AnswersOk(s) && ClientOf(s, t).CancelCalled?
    ensures AnswersOk(ClientStep(s, t))
  {
    hide CancelledRefs, HitRefs, InFlight;
    var c := ClientOf(s, t);
    ClientChanged(s.clients, t, Idle);
    OneAnswerMore(s.answers, Answer(c.ref, c.hit));
    assert HitRefs(s.answers) + ToAnswer(c) + InFlight(s.clients[t := Idle])
        == HitRefs(s.answers) + (InFlight(s.clients[t := Idle]) + ToAnswer(c));
  }

  lemma CancellationCalled(s: State, t: nat)
    requires AnswersOk(s) && TakesOk(s) && ClientOf(s, t).CancelReleased?
    ensures AnswersOk(ClientStep(s, t))
  {
    hide CancelledRefs, HitRefs, InFlight;
    var c := ClientOf(s, t);
    assert TakesOwn(c);
    var c' := CancelCalled(c.ref, c.taken != None);
    if c.taken != None {
      ClientChanged(s.clients, t, c');
      assert InFlight(s.clients[t := c']) + multiset{} == InFlight(s.clients[t := c']);
      OneCallMore(s.log, Cancelled(c.taken.value));
      assert HitRefs(s.answers) + InFlight(s.clients) + ToAnswer(c')
          == HitRefs(s.answers) + (InFlight(s.clients) + ToAnswer(c'));
    } else {
      NothingInFlightChanged(s, t, c');
    }
  }

  lemma OtherClientStep(s: State, t: nat)
    requires var c := ClientOf(s, t); c != Idle && !c.CancelReleased? && !c.CancelCalled?
    ensures var s' := ClientStep(s, t);
            && s'.answers == s.answers && CancelledRefs(s'.log) == CancelledRefs(s.log)
            && s'.clients == s.clients[t := ClientOf(s', t)] && !ClientOf(s', t).CancelCalled?
  {
    hide First, TakenOf, Without, CancelledRefs;
    var c := ClientOf(s, t);
    if c.Destroying? && c.batch != [] {
      OneCallMore(s.log, Dropped(c.batch[0]));
    }
  }

  lemma OtherLoopStep(s: State)
    ensures var s' := LoopStep(s);
            && s'.answers == s.answers && s'.clients == s.clients && CancelledRefs(s'.log) == CancelledRefs(s.log)
  {
    hide CancelledRefs;
    if s.loop.Calling? && s.loop.batch != [] {
      OneCallMore(s.log, Fired(s.loop.batch[0]));
    }
  }

  lemma AnswersByClient(s: State, t: nat)
    requires AnswersOk(s) && TakesOk(s) && ClientOf(s, t) != Idle
    ensures AnswersOk(ClientStep(s, t))
  {
    hide TakesOk, InFlight, HitRefs, CancelledRefs, ClientStep;
    var c := ClientOf(s, t);
    if c.CancelCalled? {
      AnswerGiven(s, t);
    } else if c.CancelReleased? {
      CancellationCalled(s, t);
    } else {
      OtherClientStep(s, t);
      NothingInFlightChanged(s, t, ClientOf(ClientStep(s, t), t));
    }
  }

  lemma AnswersAtFirst(s: State, a: Action)
    requires AnswersOk(s) && Enabled(s, a) && (a.Begin? || a.Drain?)
    ensures AnswersOk(Do(s, a))
  {
    hide Lists, FreshRef, AtRest, InFlight, HitRefs, CancelledRefs;
    NothingInFlightChanged(s, a.id, ClientOf(Do(s, a), a.id));
  }

  lemma AnswersKept(s: State, a: Action)
    requires AnswersOk(s) && TakesOk(s) && Enabled(s, a)
    ensures AnswersOk(Do(s, a))
  {
    hide Due, Lists, WaitsFor, WaitTime, FreshRef, AtRest, TakesOk, InFlight, HitRefs, CancelledRefs;
    hide ClientStep, LoopStep, Begun, Drained;
    match a
    case Go(t) => AnswersByClient(s, t);
    case LoopGo => OtherLoopStep(s);
    case Begin(_, _) => AnswersAtFirst(s, a);
    case Drain(_, _) => AnswersAtFirst(s, a);
    case _ =>
  }

  lemma TakesByClient(s: State, t: nat)
    requires TakesOwn(ClientOf(s, t))
    ensures TakesOwn(ClientOf(ClientStep(s, t), t))
  {
    hide First, Without;
  }

  lemma TakesAtFirst(s: State, a: Action)
    requires Enabled(s, a) && (a.Begin? || a.Drain?)
    ensures TakesOwn(ClientOf(Do(s, a), a.id))
  {
    hide Lists, FreshRef, AtRest;
  }

  lemma TakesKept(s: State, a: Action)
    requires TakesOk(s) && Enabled(s, a)
    ensures TakesOk(Do(s, a))
  {
    hide TakesOwn, Enabled, Do;
    forall t ensures TakesOwn(ClientOf(Do(s, a), t)) {
      if a == Go(t) {
        TakesByClient(s, t);
        assert Do(s, a) == ClientStep(s, t) by { GoIs(s, t); }
      } else if (a.Begin? || a.Drain?) && a.id == t {
        TakesAtFirst(s, a);
      } else {
        OneClientMoves(s, a, t);
      }
    }
  }

  lemma GoIs(s: State, t: nat)
    ensures Do(s, Go(t)) == ClientStep(s, t)
  {
  }
}
