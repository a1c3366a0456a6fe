/**
 The timer under concurrency: any number of client threads that add, cancel, stop and at last destroy,
 and one thread in the run loop.  Each action is one step of one thread; taking and releasing the lock are steps of
 their own, as are changing the queue and writing to the pipe while the lock is held.  Callbacks that
 use the timer act as further clients.
 */
module TimerProtocol {
  import opened TimeValues
  import opened TimerSteps
  import opened Wrappers

  type Ref(==, !new)
  type Event = Entry<Ref>

  /** Where a client is: waiting for the lock, holding it, or past it. */
  datatype Client =
    | Idle
    | AddWanted(e: Event) | AddLocked(e: Event) | AddInserted(first: bool)
    | StopWanted | StopLocked | StopCleared
    | CancelWanted(ref: Ref) | CancelLocked(ref: Ref) | CancelTook(ref: Ref, taken: Option<Event>)
    | CancelReleased(ref: Ref, taken: Option<Event>) | CancelCalled(ref: Ref, hit: bool)
    | DestroyWanted | DestroyLocked | DestroyDrained(batch: seq<Event>) | Destroying(batch: seq<Event>)
    | Leaving

  datatype Loop =
    | Out
    | StartWanted | StartLocked | Started
    | Head(run: bool)
    | TopWanted | TopLocked
    | Asked(timeout: int, at: Timeval, until: Option<Timeval>)
    | Waiting(timeout: int, at: Timeval, until: Option<Timeval>)
    | Woken(signalled: bool) | Relocked(signalled: bool)
    | Extracting
    | Taken(run: bool, batch: seq<Event>)
    | Calling(run: bool, batch: seq<Event>)

  datatype Holder = Nobody | TheLoop | TheClient(id: nat)

  /** A callback made by the loop, by a cancellation, or by destroying; the last two say cancelled. */
  datatype Call = Fired(e: Event) | Cancelled(e: Event) | Dropped(e: Event)
  datatype Answer = Answer(ref: Ref, hit: bool)

  /** Where an event is; recorded for the proofs and read by no step. */
  datatype Place = Adding(client: nat) | Queued | Ready | Cancelling(client: nat) | Dropping(client: nat) | Called

  datatype State = State(
    core: Core<Ref>, holder: Holder, loop: Loop, clients: map<nat, Client>, gone: bool, now: Timeval,
    log: seq<Call>, answers: seq<Answer>, places: map<Event, Place>)

  datatype Request = Add(e: Event) | Cancel(ref: Ref) | Stop | Destroy

  datatype Action =
    | Tick(to: Timeval)
    | Begin(id: nat, request: Request)
    | Go(id: nat)
    | Drain(id: nat, batch: seq<Event>)
    | Run
    | LoopGo
    | Ask(until: Option<Timeval>)
    | Wake(signalled: bool)
    | Extract(batch: seq<Event>)

  ghost function Initially(now: Timeval): State {
    State(Core({}, false, 0, false), Nobody, Out, map[], false, now, [], [], map[])
  }

  ghost function ClientOf(s: State, t: nat): Client { if t in s.clients then s.clients[t] else Idle }
  ghost function SetClient(s: State, t: nat, c: Client): State { s.(clients := s.clients[t := c]) }

  /** The events of a set, each once, earliest first. */
  ghost predicate Lists(batch: seq<Event>, events: set<Event>) {
    && (forall e :: e in batch <==> e in events)
    && (forall i, j :: 0 <= i < j < |batch| ==> batch[i] != batch[j] && !Earlier(batch[j].deadline, batch[i].deadline))
  }

  ghost predicate FreshRef(s: State, ref: Ref) {
    forall e :: e in s.places ==> e.ref != ref
  }

  /** No thread is inside the timer. */
  ghost predicate AtRest(s: State) {
    s.loop == Out && forall t :: ClientOf(s, t) == Idle
  }

  ghost predicate WantsLock(c: Client) { c.AddWanted? || c.StopWanted? || c.CancelWanted? || c.DestroyWanted? }

  /** A timer is destroyed when no thread is inside, and not used afterwards. */
  ghost predicate Enabled(s: State, a: Action) {
    match a
    case Tick(to) => !Earlier(to, s.now)
    case Begin(t, request) =>
      && !s.gone && ClientOf(s, t) == Idle
      && (request.Add? ==> FreshRef(s, request.e.ref)) && (request.Destroy? ==> AtRest(s))
    case Go(t) =>
      var c := ClientOf(s, t);
      c != Idle && !c.DestroyLocked? && (WantsLock(c) ==> s.holder == Nobody)
    case Drain(t, batch) => ClientOf(s, t).DestroyLocked? && Lists(batch, s.core.queue)
    case Run => !s.gone && s.loop == Out
    case LoopGo =>
      && !s.loop.Out? && !s.loop.TopLocked? && !s.loop.Waiting? && !s.loop.Extracting?
      && (s.loop.StartWanted? || s.loop.TopWanted? || s.loop.Woken? ==> s.holder == Nobody)
    case Ask(until) => s.loop == TopLocked && WaitsFor(s.core, until)
    case Wake(signalled) => s.loop.Waiting? && (signalled ==> s.core.edge && s.core.unread > 0)
    case Extract(batch) =>
      s.loop == Extracting && if s.core.run then Lists(batch, Due(s.core, s.now)) else batch == []
  }

  ghost function TakenOf(queue: set<Event>, ref: Ref): Option<Event> {
    if exists e :: e in queue && e.ref == ref then
      var e :| e in queue && e.ref == ref;
      Some(e)
    else None
  }

  ghost function Begun(s: State, t: nat, request: Request): State {
    match request
    case Add(e) => SetClient(s, t, AddWanted(e)).(places := s.places[e := Adding(t)])
    case Cancel(ref) => SetClient(s, t, CancelWanted(ref))
    case Stop => SetClient(s, t, StopWanted)
    case Destroy => SetClient(s, t, DestroyWanted).(gone := true)
  }

  ghost function Locked(s: State, t: nat, c: Client): State { SetClient(s, t, c).(holder := TheClient(t)) }

  ghost function ClientStep(s: State, t: nat): State {
    match ClientOf(s, t)
    case Idle => s
    case AddWanted(e) => Locked(s, t, AddLocked(e))
    case AddLocked(e) =>
      SetClient(s, t, AddInserted(First(s.core.queue, e.deadline)))
        .(core := Inserted(s.core, e), places := s.places[e := Queued])
    case AddInserted(first) => SetClient(s, t, Leaving).(core := if first then Signalled(s.core) else s.core)
    case StopWanted => Locked(s, t, StopLocked)
    case StopLocked => SetClient(s, t, StopCleared).(core := s.core.(run := false))
    case StopCleared => SetClient(s, t, Leaving).(core := Signalled(s.core))
    case CancelWanted(ref) => Locked(s, t, CancelLocked(ref))
    case CancelLocked(ref) => CancelTakes(s, t, ref, TakenOf(s.core.queue, ref))
    case CancelTook(ref, taken) => SetClient(s, t, CancelReleased(ref, taken)).(holder := Nobody)
    case CancelReleased(ref, taken) => CancelCalls(s, t, ref, taken)
    case CancelCalled(ref, hit) => SetClient(s, t, Idle).(answers := s.answers + [Answer(ref, hit)])
    case DestroyWanted => Locked(s, t, DestroyLocked)
    case DestroyLocked => s
    case DestroyDrained(batch) => SetClient(s, t, Destroying(batch)).(holder := Nobody)
    case Destroying(batch) => DestroyCalls(s, t, batch)
    case Leaving => SetClient(s, t, Idle).(holder := Nobody)
  }

  ghost function CancelTakes(s: State, t: nat, ref: Ref, taken: Option<Event>): State {
    SetClient(s, t, CancelTook(ref, taken))
      .(core := Without(s.core, ref),
        places := if taken == None then s.places else s.places[taken.value := Cancelling(t)])
  }

  /** Outside the lock: the callback, if an event was taken; the answer is given in a later step. */
  ghost function CancelCalls(s: State, t: nat, ref: Ref, taken: Option<Event>): State {
    var s' := SetClient(s, t, CancelCalled(ref, taken != None));
    if taken == None then s'
    else s'.(log := s.log + [Cancelled(taken.value)], places := s.places[taken.value := Called])
  }

  /** With the lock held: the queue is shifted until it is empty. */
  ghost function Drained(s: State, t: nat, batch: seq<Event>): State {
    SetClient(s, t, DestroyDrained(batch))
      .(core := s.core.(queue := {}), places := s.places + (map e | e in s.core.queue :: Dropping(t)))
  }

  ghost function DestroyCalls(s: State, t: nat, batch: seq<Event>): State {
    if batch == [] then SetClient(s, t, Idle)
    else
      SetClient(s, t, Destroying(batch[1..]))
        .(log := s.log + [Dropped(batch[0])], places := s.places[batch[0] := Called])
  }

  ghost function LoopStep(s: State): State {
    match s.loop
    case StartWanted => s.(holder := TheLoop, loop := StartLocked)
    case StartLocked => s.(core := s.core.(run := true), loop := Started)
    case Started => s.(holder := Nobody, loop := Head(true))
    case Head(run) => s.(loop := if run then TopWanted else Out)
    case TopWanted => s.(holder := TheLoop, loop := TopLocked)
    case Asked(timeout, at, until) => s.(holder := Nobody, loop := Waiting(timeout, at, until))
    case Woken(signalled) => s.(holder := TheLoop, loop := Relocked(signalled))
    case Relocked(signalled) => s.(core := if signalled then Cleaned(s.core) else s.core, loop := Extracting)
    case Taken(run, batch) => s.(holder := Nobody, loop := Calling(run, batch))
    case Calling(run, batch) =>
      if batch == [] then s.(loop := Head(run))
      else
        s.(loop := Calling(run, batch[1..]), log := s.log + [Fired(batch[0])],
           places := s.places[batch[0] := Called])
    case _ => s
  }

  ghost function Extraction(s: State, batch: seq<Event>): State {
    if s.core.run then
      s.(core := Extracted(s.core, s.now), loop := Taken(true, batch),
         places := s.places + (map e | e in Due(s.core, s.now) :: Ready))
    else s.(loop := Taken(false, []))
  }

  ghost function Do(s: State, a: Action): State {
    match a
    case Tick(to) => s.(now := to)
    case Begin(t, request) => Begun(s, t, request)
    case Go(t) => ClientStep(s, t)
    case Drain(t, batch) => Drained(s, t, batch)
    case Run => s.(loop := StartWanted)
    case LoopGo => LoopStep(s)
    case Ask(until) =>
      var timeout := WaitTime(until, s.now);
      s.(loop := if timeout == 0 then Extracting else Asked(timeout, s.now, until))
    case Wake(signalled) =>
      s.(core := if signalled then s.core.(edge := false) else s.core, loop := Woken(signalled))
    case Extract(batch) => Extraction(s, batch)
  }

  ghost predicate Legal(s: State, actions: seq<Action>)
    decreases actions
  {
    actions == [] || (Enabled(s, actions[0]) && Legal(Do(s, actions[0]), actions[1..]))
  }

  ghost function StateAfter(s: State, actions: seq<Action>): State
    decreases actions
  {
    if actions == [] then s else StateAfter(Do(s, actions[0]), actions[1..])
  }
}
