/**
 What the timer does while it holds its lock: the queue is a heap of events ordered by deadline,
 the pipe a count of unread bytes, and the edge-triggered poll a flag that each write arms.
 */
module EventTimer {
  import opened Orders
  import opened HeapOrder
  import opened BinaryHeap
  import opened Wrappers
  import opened TimeValues
  import opened TimerSteps

  type Event = Item<Timeval>

  ghost predicate EarlierThanAll(t: Timeval, events: seq<Event>)
    reads events`key
  {
    forall x :: x in events ==> Earlier(t, x.key)
  }

  /** Comparing the two minima tells whether the new event is earlier than all the others. */
  lemma NewMinimum(before: seq<Event>, after: seq<Event>, event: Event, min1: Option<Event>, min2: Event)
    requires multiset(after) == multiset(before) + multiset{event}
    requires if min1 == None then before == [] else min1.value in before && Least(Compare, min1.value, before)
    requires min2 in after && Least(Compare, min2, after)
    ensures min1 == None || Earlier(min2.key, min1.value.key) <==> EarlierThanAll(event.key, before)
  {
    if min1 == None {
      return;
    }
    var min1 := min1.value;
    assert min2 in multiset(after) && event in multiset(after) && min1 in multiset(before);
    assert min2 == event || min2 in multiset(before);
    assert event in after;
    assert min1 in multiset(after);
    if EarlierThanAll(event.key, before) {
      assert Compare(min2.key, event.key) <= 0;
    } else {
      var x :| x in before && !Earlier(event.key, x.key);
      assert Compare(min1.key, x.key) <= 0;
    }
  }

  ghost predicate IsQueue(q: Heap<Timeval>)
    reads q, q.heap, if q.Slots() then q.Items() else []
    ensures IsQueue(q) ==> q.Slots()
  {
    q.Valid() && q.cmp == Compare && !q.hasInfo
  }

  lemma NoneDue(events: seq<Event>, first: Event, now: Timeval)
    requires Least(Compare, first, events) && !Earlier(first.key, now)
    ensures forall x :: x in events ==> !Earlier(x.key, now)
  {
    forall x | x in events ensures !Earlier(x.key, now) {
      assert Compare(first.key, x.key) <= 0;
    }
  }

  method ExtractReady(q: Heap<Timeval>, now: Timeval) returns (ready: seq<Event>)
    requires IsQueue(q)
    modifies q, q.heap, q.Items()`pos
    ensures IsQueue(q) && (q.heap == old(q.heap) || fresh(q.heap))
    ensures multiset(ready) + multiset(q.Items()) == multiset(old(q.Items()))
    ensures Ascending(Compare, ready)
    ensures forall x :: x in ready ==> Earlier(x.key, now)
    ensures forall x :: x in q.Items() ==> !Earlier(x.key, now)
  {
    hide Ahead, Ascending, TotalOrder, HeapFrom, Least, Earlier;
    ready := [];
    NothingAhead(Compare, q.Items());
    ghost var S := set x | x in q.Items();
    while true
      invariant IsQueue(q) && (q.heap == old(q.heap) || fresh(q.heap))
      invariant forall y :: y in q.Items() ==> y in S
      invariant multiset(ready) + multiset(q.Items()) == multiset(old(q.Items()))
      invariant Ahead(Compare, ready, q.Items())
      invariant forall x :: x in ready ==> Earlier(x.key, now)
      decreases q.size
    {
      var event := q.Min();
      if event == None {
        return;
      }
      if Earlier(event.value.key, now) {
        ready := q.ShiftTo(ready, S);
      } else {
        NoneDue(q.Items(), event.value, now);
        return;
      }
    }
  }

  /** Inserts an event and finds out whether it is now the earliest, as etimer_add does. */
  method Enqueue(q: Heap<Timeval>, event: Event) returns (first: bool)
    requires IsQueue(q)
    modifies q, q.heap, q.Items()`pos, event`pos
    ensures IsQueue(q) && (q.heap == old(q.heap) || fresh(q.heap))
    ensures multiset(q.Items()) == multiset(old(q.Items())) + multiset{event}
    ensures first <==> old(EarlierThanAll(event.key, q.Items()))
  {
    hide TotalOrder, HeapFrom, Least, EarlierThanAll;
    ghost var before := q.Items();
    var min1 := q.Min();
    var _ := q.Insert(event);
    var min2 := q.Min();
    NewMinimum(before, q.Items(), event, min1, min2.value);
    first := min1 == None || Earlier(min2.value.key, min1.value.key);
  }

  /** Looks for an event from the front of the array, as etimer_cancel does. */
  method Dequeue(q: Heap<Timeval>, ref: Event) returns (taken: bool)
    requires IsQueue(q)
    modifies q, q.heap, q.Items()`pos
    ensures IsQueue(q) && (q.heap == old(q.heap) || fresh(q.heap))
    ensures taken <==> ref in old(q.Items())
    ensures multiset(q.Items()) == multiset(old(q.Items())) - multiset{ref}
  {
    ghost var before := q.Items();
    var event, at := q.DelItem((item, _) => item == ref);
    taken := event != None;
    if !taken {
      assert forall i :: 0 <= i < |before| ==> before[i] != ref;
      assert ref !in multiset(before);
    }
  }

  // ---------- The queue as a set of entries ----------

  ghost function Entries(events: seq<Event>): set<Entry<Event>>
    reads events`key
  {
    set x | x in events :: Entry(x, x.key)
  }

  ghost predicate Distinct(events: seq<Event>) {
    forall x :: x in events ==> multiset(events)[x] == 1
  }

  lemma EntriesAdded(before: seq<Event>, after: seq<Event>, event: Event)
    requires multiset(after) == multiset(before) + multiset{event} && event !in before && Distinct(before)
    ensures Entries(after) == Entries(before) + {Entry(event, event.key)} && Distinct(after)
    ensures EarlierThanAll(event.key, before) <==> First(Entries(before), event.key)
  {
    forall x ensures x in after <==> x in before || x == event {
      assert x in after <==> x in multiset(after);
      assert x in before <==> x in multiset(before);
    }
    forall x | x in before ensures Entry(x, x.key) in Entries(before) {
    }
  }

  lemma EntriesRemoved(before: seq<Event>, after: seq<Event>, event: Event, c: Core<Event>)
    requires c.queue == Entries(before)
    requires multiset(after) == multiset(before) - multiset{event} && Distinct(before)
    ensures Distinct(after)
    ensures Without(c, event) == c.(queue := Entries(after))
    ensures event in before <==> Entry(event, event.key) in c.queue
  {
    forall x ensures x in after <==> x in before && x != event {
      assert x in after <==> x in multiset(after);
      assert x in before <==> x in multiset(before);
    }
  }

  lemma SameEntries(before: seq<Event>, after: seq<Event>)
    requires multiset(after) == multiset(before)
    ensures Entries(after) == Entries(before) && (Distinct(before) ==> Distinct(after))
    ensures before == [] ==> Entries(after) == {} && Distinct(after)
  {
    forall x ensures x in after <==> x in before {
      assert x in after <==> x in multiset(after);
      assert x in before <==> x in multiset(before);
    }
  }

  lemma EntriesParted(before: seq<Event>, ready: seq<Event>, rest: seq<Event>, now: Timeval, c: Core<Event>)
    requires c.queue == Entries(before)
    requires multiset(ready) + multiset(rest) == multiset(before) && Distinct(before)
    requires forall x :: x in ready ==> Earlier(x.key, now)
    requires forall x :: x in rest ==> !Earlier(x.key, now)
    ensures Entries(ready) == Due(c, now) && Distinct(ready)
    ensures Extracted(c, now) == c.(queue := Entries(rest)) && Distinct(rest)
  {
    forall x ensures x in before <==> x in ready || x in rest {
      assert x in ready <==> x in multiset(ready);
      assert x in rest <==> x in multiset(rest);
      assert x in before <==> x in multiset(before);
    }
    forall x | x in ready ensures multiset(ready)[x] == 1 {
      assert x in before && multiset(before)[x] == 1;
    }
    forall x | x in rest ensures multiset(rest)[x] == 1 {
      assert x in before && multiset(before)[x] == 1;
    }
  }

  /** The fields of a timer, which only the holder of its lock touches. */
  class Timer {
    var queue: Heap<Timeval>
    var run: bool
    var unread: nat
    var edge: bool

    ghost predicate Valid()
      reads this, queue, queue.heap, if queue.Slots() then queue.Items() else []
    {
      IsQueue(queue) && Distinct(queue.Items())
    }

    ghost function Queued(): seq<Event>
      requires queue.Slots()
      reads this, queue, queue.heap
    {
      queue.Items()
    }

    /** What the lock protects. */
    ghost function View(): Core<Event>
      requires queue.Slots()
      reads this, queue, queue.heap, queue.Items()`key
    {
      Core(Entries(Queued()), run, unread, edge)
    }

    constructor ()
      ensures Valid() && View() == Core({}, false, 0, false)
      ensures fresh(queue) && fresh(queue.heap)
    {
      CompareTotal();
      queue := new Heap(Compare);
      run, unread, edge := false, 0, false;
    }

    method Empty() returns (empty: bool)
      requires Valid()
      ensures empty <==> View().queue == {}
    {
      empty := queue.size == 0;
      if !empty {
        assert Entry(Queued()[0], Queued()[0].key) in View().queue;
      }
    }

    method Signal()
      requires Valid()
      modifies this`unread, this`edge
      ensures Valid() && View() == Signalled(old(View()))
      ensures unread == old(unread) + 1 && edge
    {
      unread, edge := unread + 1, true;
    }

    method Stop()
      requires Valid()
      modifies this`run, this`unread, this`edge
      ensures Valid() && View() == Stopped(old(View()))
      ensures !run && unread == old(unread) + 1 && edge && Queued() == old(Queued())
    {
      run := false;
      Signal();
    }

    /** The pipe is read a hundred bytes at a time until nothing is left. */
    method CleanSignals() returns (total: nat)
      requires Valid()
      modifies this`unread
      ensures Valid() && View() == Cleaned(old(View())) && total == old(unread) && unread == 0
    {
      total := 0;
      while true
        invariant total + unread == old(unread)
        decreases unread
      {
        if unread == 0 {
          return;
        }
        var n := if unread < 100 then unread else 100;
        unread := unread - n;
        total := total + n;
      }
    }

    method AddEvent(event: Event)
      requires Valid() && event !in Queued()
      modifies this`unread, this`edge, queue, queue.heap, Queued()`pos, event`pos
      ensures Valid() && (queue.heap == old(queue.heap) || fresh(queue.heap))
      ensures View() == Added(old(View()), Entry(event, event.key))
      ensures multiset(Queued()) == multiset(old(Queued())) + multiset{event}
      ensures unread == old(unread) + if old(EarlierThanAll(event.key, Queued())) then 1 else 0
    {
      hide IsQueue, EarlierThanAll, First, Least;
      ghost var before := Queued();
      var first := Enqueue(queue, event);
      EntriesAdded(before, Queued(), event);
      if first {
        Signal();
      }
    }

    /** Takes the event out if it is still queued; the caller then runs its callback as cancelled. */
    method Cancel(ref: Event) returns (taken: bool)
      requires Valid()
      modifies queue, queue.heap, Queued()`pos
      ensures Valid() && (queue.heap == old(queue.heap) || fresh(queue.heap))
      ensures taken <==> Entry(ref, ref.key) in old(View()).queue
      ensures multiset(Queued()) == multiset(old(Queued())) - multiset{ref}
      ensures View() == Without(old(View()), ref)
    {
      hide IsQueue, Entries, Without, Distinct;
      ghost var before, c := Queued(), View();
      taken := Dequeue(queue, ref);
      EntriesRemoved(before, Queued(), ref, c);
    }

    method CalcTimeout(now: Timeval) returns (timeout: int)
      requires Valid()
      ensures exists until :: WaitsFor(View(), until) && timeout == WaitTime(until, now)
      ensures timeout == -1 <==> Queued() == []
    {
      var event := queue.Min();
      if event == None {
        assert Queued() == [] && WaitsFor(View(), None);
        return -1;
      }
      ghost var first := Entry(event.value, event.value.key);
      assert IsEarliest(View().queue, first) by {
        forall x | x in Queued() ensures !Earlier(x.key, event.value.key) {
          assert Compare(event.value.key, x.key) <= 0;
        }
      }
      assert WaitsFor(View(), Some(first.deadline));
      if Earlier(event.value.key, now) {
        return 0;
      }
      var sub := Sub(event.value.key, now);
      timeout := ToInt(sub.sec * 1000 + CDiv(sub.usec, 1000) + (if CMod(sub.usec, 1000) != 0 then 1 else 0));
      if timeout < 0 {
        timeout := 0;
      }
    }

    /** Exactly the events whose deadline has passed leave the queue, earliest first. */
    method Ready(now: Timeval) returns (ready: seq<Event>)
      requires Valid()
      modifies queue, queue.heap, Queued()`pos
      ensures Valid() && (queue.heap == old(queue.heap) || fresh(queue.heap))
      ensures View() == Extracted(old(View()), now)
      ensures Entries(ready) == Due(old(View()), now) && Distinct(ready) && Ascending(Compare, ready)
      ensures multiset(ready) + multiset(Queued()) == multiset(old(Queued()))
      ensures (forall x :: x in ready ==> Earlier(x.key, now)) && forall x :: x in Queued() ==> !Earlier(x.key, now)
    {
      hide IsQueue, Entries, Distinct, Ascending, Due, Extracted;
      ghost var before, c := Queued(), View();
      ready := ExtractReady(queue, now);
      EntriesParted(before, ready, Queued(), now, c);
    }

    /** With the lock held the queue is emptied; the caller then runs the callbacks as cancelled. */
    method Destroy() returns (cancelled: seq<Event>)
      requires Valid()
      modifies queue, queue.heap, Queued()`pos
      ensures Valid() && View() == old(View()).(queue := {})
      ensures Entries(cancelled) == old(View()).queue && Distinct(cancelled) && Ascending(Compare, cancelled)
    {
      hide Ascending, TotalOrder, HeapFrom, Distinct, Entries;
      ghost var before := Queued();
      cancelled := queue.ShiftAll(set x | x in before);
      SameEntries(before, cancelled);
      SameEntries([], Queued());
    }
  }
}
