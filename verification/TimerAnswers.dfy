/** What the answer to a cancellation tells: whether that very call took the event out of the queue. */
module TimerAnswers {
  import opened TimeValues
  import opened TimerSteps
  import opened TimerProtocol
  import opened TimerSafety
  import opened TimerEvents
  import opened TimerCalls
  import opened TimerRuns
  import opened Wrappers

  /** A client that is past the locked step of a cancellation, which it will answer so. */
  ghost predicate WillAnswer(c: Client, ref: Ref, hit: bool) {
    || ((c.CancelTook? || c.CancelReleased?) && c.ref == ref && (hit <==> c.taken != None))
    || c == CancelCalled(ref, hit)
  }

  ghost predicate HasRef(queue: set<Event>, ref: Ref) { exists e :: e in queue && e.ref == ref }

  /** The client looks for the reference in the queue, with the lock held. */
  ghost predicate Looks(s: State, a: Action, t: nat, ref: Ref) {
    a == Go(t) && ClientOf(s, t) == CancelLocked(ref)
  }

  lemma BackOne(s: State, a: Action, t: nat, ref: Ref, hit: bool)
    requires Enabled(s, a) && WillAnswer(ClientOf(Do(s, a), t), ref, hit)
    ensures WillAnswer(ClientOf(s, t), ref, hit) || (Looks(s, a, t, ref) && (hit <==> HasRef(s.core.queue, ref)))
  {
    hide Lists, AtRest, FreshRef, Without;
    if a == Go(t) {
      BackByClient(s, t, ref, hit);
    } else if !((a.Begin? || a.Drain?) && a.id == t) {
      OneClientMoves(s, a, t);
    }
  }

  lemma BackByClient(s: State, t: nat, ref: Ref, hit: bool)
    requires WillAnswer(ClientOf(ClientStep(s, t), t), ref, hit)
    ensures WillAnswer(ClientOf(s, t), ref, hit) || (Looks(s, Go(t), t, ref) && (hit <==> HasRef(s.core.queue, ref)))
  {
    hide First, Without;
  }

  /** Going back through a run, a client about to answer has looked, and done nothing else since. */
  lemma {:induction false} LookedBefore(start: Timeval, actions: seq<Action>, i: nat, t: nat, ref: Ref, hit: bool)
    returns (j: nat)
    requires Legal(Initially(start), actions) && i <= |actions|
    requires WillAnswer(ClientOf(At(Initially(start), actions, i), t), ref, hit)
    ensures j < i && Looks(At(Initially(start), actions, j), actions[j], t, ref)
    ensures hit <==> HasRef(At(Initially(start), actions, j).core.queue, ref)
    ensures forall k :: j < k <= i ==> WillAnswer(ClientOf(At(Initially(start), actions, k), t), ref, hit)
    decreases i
  {
    hide WillAnswer, HasRef, Looks, Legal, Enabled, Do, StateAfter;
    j := 0;
    if i == 0 {
      NoneAtFirst(start, actions, t, ref, hit);
    } else {
      var s := At(Initially(start), actions, i - 1);
      StepAt(Initially(start), actions, i - 1);
      BackOne(s, actions[i - 1], t, ref, hit);
      if WillAnswer(ClientOf(s, t), ref, hit) {
        j := LookedBefore(start, actions, i - 1, t, ref, hit);
      } else {
        j := i - 1;
      }
    }
  }

  lemma NoneAtFirst(start: Timeval, actions: seq<Action>, t: nat, ref: Ref, hit: bool)
    ensures !WillAnswer(ClientOf(At(Initially(start), actions, 0), t), ref, hit)
  {
    assert actions[..0] == [];
  }

  lemma AnswersGrow(s: State, a: Action)
    ensures var s' := Do(s, a);
            s'.answers == s.answers || (a.Go? && var c := ClientOf(s, a.id);
              c.CancelCalled? && s'.answers == s.answers + [Answer(c.ref, c.hit)])
  {
    hide First, Without, TakenOf, Due, WaitTime;
  }

  /** The step that gave the n-th answer. */
  lemma {:induction false} GivenBefore(start: Timeval, actions: seq<Action>, i: nat, n: nat) returns (k: nat)
    requires Legal(Initially(start), actions) && i <= |actions| && n < |At(Initially(start), actions, i).answers|
    ensures k < i && actions[k].Go?
    ensures var c := ClientOf(At(Initially(start), actions, k), actions[k].id);
            c.CancelCalled? && At(Initially(start), actions, i).answers[n] == Answer(c.ref, c.hit)
    ensures |At(Initially(start), actions, k).answers| == n
    decreases i
  {
    hide Legal, Enabled, Do, StateAfter;
    k := 0;
    if i == 0 {
      NoAnswersAtFirst(start, actions);
    } else {
      var s := At(Initially(start), actions, i - 1);
      StepAt(Initially(start), actions, i - 1);
      AnswersGrow(s, actions[i - 1]);
      if n < |s.answers| {
        k := GivenBefore(start, actions, i - 1, n);
      } else {
        k := i - 1;
      }
    }
  }

  lemma NoAnswersAtFirst(start: Timeval, actions: seq<Action>)
    ensures At(Initially(start), actions, 0).answers == []
  {
    assert actions[..0] == [];
  }

  lemma LastState(s: State, t: nat)
    requires ClientOf(s, t).CancelCalled?
    ensures WillAnswer(ClientOf(s, t), ClientOf(s, t).ref, ClientOf(s, t).hit)
  {
  }

  /** The locked step. */
  lemma Looked(s: State, t: nat, ref: Ref)
    requires Inv(s) && ClientOf(s, t) == CancelLocked(ref)
    ensures s.holder == TheClient(t) && Do(s, Go(t)).core == Without(s.core, ref)
  {
    hide RunOk, WaitOk, TimeoutOk, EventsOk, DueOk, AnswersOk, TakesOk, GoneOk, Without, TakenOf;
    assert ClientHolds(ClientOf(s, t));
  }

  lemma Answered(s: State, t: nat)
    requires ClientOf(s, t).CancelCalled?
    ensures Do(s, Go(t)).answers == s.answers + [Answer(ClientOf(s, t).ref, ClientOf(s, t).hit)]
  {
  }

  /**
   Every answer comes from a call of which the locked step, some steps before the answer, found the
   reference queued exactly if the answer says so, and took it out.
   */
  lemma AnswersTell(start: Timeval, actions: seq<Action>, n: nat) returns (t: nat, j: nat, k: nat)
    requires Legal(Initially(start), actions) && n < |StateAfter(Initially(start), actions).answers|
    ensures j < k < |actions| && actions[k] == Go(t)
    ensures var s, a := Initially(start), StateAfter(Initially(start), actions).answers[n];
            && Looks(At(s, actions, j), actions[j], t, a.ref) && At(s, actions, j).holder == TheClient(t)
            && (a.hit <==> HasRef(At(s, actions, j).core.queue, a.ref))
            && At(s, actions, j + 1).core == Without(At(s, actions, j).core, a.ref)
            && (forall i :: j < i <= k ==> WillAnswer(ClientOf(At(s, actions, i), t), a.ref, a.hit))
            && At(s, actions, k + 1).answers == At(s, actions, k).answers + [a]
            && |At(s, actions, k).answers| == n
  {
    hide Legal, Enabled, Do, StateAfter, HasRef, WillAnswer, Inv, Without;
    var s := Initially(start);
    AtEnd(s, actions);
    k := GivenBefore(start, actions, |actions|, n);
    t := actions[k].id;
    var a := StateAfter(s, actions).answers[n];
    LastState(At(s, actions, k), t);
    j := LookedBefore(start, actions, k, t, a.ref, a.hit);
    StepAt(s, actions, k);
    Answered(At(s, actions, k), t);
    StartsOk(start);
    InvAt(s, actions, j);
    StepAt(s, actions, j);
    Looked(At(s, actions, j), t, a.ref);
  }
}
