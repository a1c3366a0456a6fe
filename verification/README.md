# A verified model of bflib

bflib is a small C library of data structures and algorithms. This project models the parts of it
whose correctness is not obvious from reading them, and proves what callers rely on:

- `tree.c`, a red-black tree with parent links, repaired in place after insertion and deletion;
- `heap.c`, a binary heap in a growing array, whose items may record their own position;
- `timer.c`, an event timer: a heap of events, a lock, a pipe that wakes the run loop, and any number
  of threads that add, cancel, stop and at last destroy;
- `bits.c`, bit fields of a byte buffer that start and end anywhere;
- `uintvar.c` and its use in `octstr.c`, variable length integers (WAP-230-WSP section 8.1.2).

## How it is built

Code that changes memory is modelled by classes and methods with the same fields, branches and loops,
each proved against a specification on values; the laws of the specifications are lemmas.

| files | content |
|---|---|
| `Wrappers.dfy`, `Orders.dfy`, `Powers.dfy` | options, comparators as C callers pass them, powers of two |
| `Entries.dfy`, `Dictionary.dfy`, `TreeRuns.dfy` | sorted entries and their laws; runs against a finite map |
| `RedBlackShape.dfy`, `RedBlackRepair.dfy`, `RedBlackTree.dfy` | trees and paths as values; what each repair case does to them; the linked nodes |
| `HeapOrder.dfy`, `BinaryHeap.dfy`, `HeapRuns.dfy` | the order of an array heap with one position out of place; the heap; runs against a bag of items |
| `TimeValues.dfy`, `TimerSteps.dfy`, `EventTimer.dfy` | `struct timeval`; the effect of each critical section; the timer under its lock |
| `TimerProtocol.dfy`, `TimerSafety.dfy`, `TimerEvents.dfy`, `TimerCalls.dfy` | the threads as a transition system, and what every step keeps: lock, wakeups, events, callbacks and answers |
| `TimerRuns.dfy`, `TimerAnswers.dfy`, `TimerStops.dfy`, `TimerDestroys.dfy` | the theorems over all runs; those about cancelling, stopping and destroying |
| `BitFields.dfy`, `BitOperators.dfy`, `BitAccess.dfy` | fields of numbers; C's bitwise operators; reading and writing buffers |
| `Uintvar.dfy`, `OctetString.dfy`, `OctetRuns.dfy` | the integer format; octet strings; lists of values written and read back |

A tree at one moment is a `Shape` (the subtree in focus) plugged into a `Path` (everything around it).
The insertion cases carry "all rules hold except that the root of the subtree may be red under a red
parent or at the top"; the deletion cases carry "all rules hold except that the subtree is one black
node short", which is `PathOk(path, h + 1)` around a subtree to be settled at `h`. Ghost parameters
say which shape and path the nodes have; `Focus` says that the linked nodes really have them.

In the timer's protocol taking the lock, changing the queue, writing to the pipe and releasing the
lock are separate steps, so the wake-up proof covers the moment between changing the queue and writing
to the pipe. A callback and the return of the call that made it are separate too, so threads may call
back in one order and return in another. Destroying begins when no thread is inside the timer, and
nothing begins after it. The class `Timer` and the protocol use the same functions of
`TimerSteps.dfy`: each method proves that its effect on `View()` is that function, and
`TimerRuns.SectionsAmountTo` that the steps under the lock amount to it.

## Findings

- `bits_set` with a value that has more than n bits: where the field lies in one byte, the surplus bits
  run into the bits above the field. `BitOperators.SpillNever` says exactly when this cannot happen,
  `BitOperators.SpillExact` when it does not show.
- `uintvar_pack` keeps the lowest 35 bits. `Uintvar.RoundTripExact`: a value comes back exactly if it
  has no more.
- `etimer_mafter` computes a normalised deadline, whatever the clock says, exactly for 0 to 1000
  milliseconds (`TimeValues.MsecAfterSafe`); beyond that the order of the queue can contradict the
  clock (`TimeValues.MsecAfterMisordered`).
- `etimer_calc_timeout` cuts the milliseconds to an int: the result reaches the deadline exactly if
  it is at most 1000 * INT_MAX microseconds away (`TimeValues.TimeoutExact`), and is never late. Further
  away it wraps around, and is 0, no wait at all, wherever the int would be negative: for about 25 to 50
  days, for instance (`TimeValues.TimeoutWraps`).
- A completed `etimer_stop` can be lost. `TimerStops.StopIsLost` is such a run: the loop's thread has
  entered `etimer_run`, a client stops the timer and returns, and the loop then sets the run flag;
  `TimerStops.LostStopWaits` takes it on to a wait without a timeout for which the stop's signal is used
  up. `TimerStops.StopLost` says exactly when this happens: after a stop the flag stays cleared along a
  run if and only if no loop sets it at its start. `TimerStops.StopWorks` says that the loop then ends, and
  `TimerStops.LeavesByStop` that nothing but a stop ends it.
- In `tree_delete` the branches for a black only child are never taken (`RedBlackRepair.OnlyChild`), and
  the depth test of `tree_check_integrity` never decides (`RedBlackShape.BalancedHeights`). The comment at
  `tree.c:428` says that the far nephew has two black children; only its own red colour is needed.

## Model

| member | source | states |
|---|---|---|
| RedBlackTree.Tree.Insert | tree.c:130-157 | A valid tree stays valid (links, order, colours, black heights, size) and holds exactly the old entries and, if its key was absent, the new one; the answer is the value now stored; at most two rotations |
| RedBlackTree.Tree.Grow | tree.c:148-156 | The new leaf at the end of the walk becomes part of a valid tree with the one entry added in its sorted place |
| RedBlackTree.Tree.Attach | tree.c:148-151 | The new red leaf is linked both ways where the walk ended |
| RedBlackTree.Node.Insert1 | tree.c:159-165 | From any tree whose only fault is a red node under a red parent or at the root, a red-black tree with the same nodes and entries results, with at most two rotations |
| RedBlackTree.Node.Insert2 | tree.c:167-176 | The same, below a parent |
| RedBlackTree.Node.Insert3 | tree.c:178-200 | The same, below a red parent: recolouring moves the fault two levels up, so the cases end |
| RedBlackTree.Node.Insert4 | tree.c:202-225 | Inner grandchildren become outer ones; every node it follows exists |
| RedBlackTree.Node.Insert5 | tree.c:227-245 | One rotation puts the parent above node and grandparent |
| RedBlackRepair.StraightenedMends | tree.c:227-245 | That shape keeps all rules, nodes and entries when the uncle is black |
| RedBlackRepair.AlignedMends | tree.c:202-225 | So does the shape reached through the fourth case |
| RedBlackRepair.RecoloredFits | tree.c:186-196 | After recolouring, the only fault left is at the grandparent, and black heights around it still fit |
| RedBlackTree.Tree.Delete | tree.c:247-303 | A valid tree stays valid and loses exactly the entry of the key, whose value is the answer; nothing changes if the key is absent; at most three rotations |
| RedBlackTree.Tree.TakeHeir | tree.c:255-267 | Copying the neighbouring entry up leaves the same remaining entries and a victim with at most one child |
| RedBlackTree.Tree.Remove | tree.c:269-300 | Taking the victim out yields a red-black tree of the remaining entries; the branch for a black only child is unreachable |
| RedBlackTree.Tree.DropLeaf | tree.c:292-297 | Unlinking the leaf that the repair left a place for closes the tree again |
| RedBlackRepair.OnlyChild | tree.c:269-285 | An only child of a balanced tree is a red leaf below a black node |
| RedBlackRepair.RemovalFits | tree.c:269-290 | Where the removed place leaves a gap of one black node, and where it leaves none |
| RedBlackRepair.HeirOnLeft | tree.c:256-267 | The entries that remain are the same whether the node's own or its predecessor's place goes |
| RedBlackRepair.HeirOnRight | tree.c:258-267 | The same for the successor |
| RedBlackTree.Node.Delete1 | tree.c:305-311 | From any tree that is one black node short below the node, one that is not, with the same nodes and order around it; at most three rotations |
| RedBlackTree.Node.Delete2 | tree.c:313-332 | The same, with a parent; after its rotation the sibling is black and the parent red |
| RedBlackTree.Node.Delete3 | tree.c:334-353 | The same, with a black sibling, which exists; it passes the gap up only below a black parent, so never after the second case, and a red parent costs one rotation less |
| RedBlackTree.Node.PassUp | tree.c:344-349 | Making the sibling red moves the gap to the parent, and settling it there settles the node |
| RedBlackTree.Node.Delete4 | tree.c:355-373 | The same, with at most two rotations; a red parent absorbs the gap |
| RedBlackTree.Node.Delete5 | tree.c:375-403 | The same, when a nephew is red; every nephew it follows exists |
| RedBlackTree.Node.Delete6 | tree.c:405-434 | One rotation; it needs only that sibling and far nephew exist |
| RedBlackRepair.SiblingLiftedFits | tree.c:320-329 | After rotating a red sibling up, black heights still fit, order is kept, the new sibling is black and the parent red |
| RedBlackRepair.PassedUpFits | tree.c:344-349 | If the parent's surroundings are settled, a red sibling settles the node's |
| RedBlackRepair.NephewLiftedFits | tree.c:385-400 | After rotating the near nephew up, order and black heights are kept and the far nephew is red |
| RedBlackRepair.FarLiftedFits | tree.c:405-434 | The last rotation fills the gap and keeps the order |
| RedBlackTree.Node.RotateLeft | tree.c:436-454 | The nodes, linked both ways, have the rotated shape, in the tree or at its root |
| RedBlackTree.Node.RotateRight | tree.c:456-474 | The mirror image |
| RedBlackRepair.RotationKeeps | tree.c:436-474 | Rotation changes neither the order of the entries nor the set of nodes |
| RedBlackTree.Tree.FindNode | tree.c:111-128 | The node with an equivalent key, or null when all keys before the place are below and all after it above; the loop body runs at most 2 * log2(size + 1) times, the last run included |
| RedBlackTree.Tree.Find | tree.c:101-109 | The value the sorted entries hold for the key |
| RedBlackTree.Tree.Descend | tree.c:111-146 | The walk ends where the key is or belongs, and its loop body runs at most 2 * log2(size + 1) times, the run that finds the key included |
| RedBlackShape.LogarithmicHeight | tree.c:111-128 | Two to the power of any number of steps within the height is at most the square of size + 1 |
| RedBlackShape.BlackHeightBounds | tree.c:599-628 | A balanced tree of black height b has at least 2^b - 1 entries and, with a black root, a height of at most 2 * b |
| RedBlackTree.Tree.Size | tree.c:96-99 | The number of entries |
| RedBlackTree.Node.Max | tree.c:570-580 | The last node of a subtree, with everything else of it before |
| RedBlackTree.Node.Min | tree.c:582-592 | The first node of a subtree, with everything else of it after |
| RedBlackTree.Tree.FoldL | tree.c:481-495 | The function is applied to every entry exactly once, in ascending order, each time to what it gave for the entry before |
| RedBlackTree.Tree.FoldR | tree.c:497-511 | The same in exactly the reverse order |
| RedBlackTree.NodeFoldL | tree.c:486-495 | The same for the entries of any subtree |
| RedBlackTree.NodeFoldR | tree.c:502-511 | The same for the entries of any subtree, in reverse |
| Entries.FoldMeans | tree.c:486-495 | The result of a fold is the end of a chain with one application of the function per entry, in order |
| Entries.ReversedAt | tree.c:497-511 | What the reverse order is, position by position |
| RedBlackTree.Tree.Info | tree.c:594-628 | In a valid tree: the number of entries, the lengths of a longest and a shortest way down, the number of black nodes on every way, and the numbers of nodes that are red and that are black |
| RedBlackTree.NodeInfo | tree.c:599-628 | On any linked nodes: size, longest and shortest way down, most black nodes on a way, numbers of places with a red and with a black node, which are the numbers of such nodes if no node is linked twice |
| RedBlackShape.HeightsMean | tree.c:609-618 | The recursive heights are the lengths of a longest and of a shortest way down and the number of black nodes on a blackest one |
| RedBlackTree.ColoredNodes | tree.c:620-624 | Where no node is linked twice, counting places of a colour counts the nodes of that colour |
| RedBlackTree.Tree.CheckIntegrity | tree.c:630-636 | On any linked nodes: true exactly if the children of every node link back to it, the root is black, no red node has a red child and black heights agree |
| RedBlackTree.NodeCheckIntegrity | tree.c:638-669 | The same for a subtree, given the colour of its parent |
| RedBlackTree.LinkedMeans | tree.c:638-647 | Linked nodes are a tree exactly if they have its shape, hold its entries, are distinct, and all link back to their parents |
| RedBlackShape.BalancedMeans | tree.c:652-658 | Equal black heights at every node mean that all ways from the root to a missing child have as many black nodes, and conversely |
| RedBlackShape.BalancedHeights | tree.c:660-665 | The longest way down of a balanced tree is at most twice the shortest |
| Entries.GetPut | tree.c:130-157 | Looking up after inserting: the new value exactly for equivalent keys that were absent |
| Entries.GetDrop | tree.c:247-303 | Looking up after deleting: nothing for equivalent keys, the same for all others |
| Dictionary.OneOfAKind | tree.c:111-128 | A map that the sorted entries stand for has no two keys that compare as equal |
| Dictionary.StepAgrees | tree.c:96-303 | For every total order, also one that equates distinct keys: one operation answers as the finite map with keys told apart by the comparator, and ends in entries that stand for it; inserting under an equivalent key keeps the key and value there |
| Dictionary.RunsAgree | tree.c:96-303 | So does every run of operations |
| TreeRuns.PerformAll | tree.c:96-303 | For every comparator that is a total order, every run of insertions, deletions, searches and sizes on the linked tree answers as the finite map and leaves a valid tree that stands for it |
| HeapOrder.SwapUp | heap.c:133-141 | Exchanging a small key with its parent moves the only fault to the parent |
| HeapOrder.SwapDown | heap.c:162-169 | Exchanging a large key with its least child moves the only fault to the child |
| HeapOrder.ChosenLeast | heap.c:157-161 | The child chosen is not above the other one |
| HeapOrder.StopUp | heap.c:129-148 | Where going up stops, the edges above are in order: a heap if those below were, else ready to go down |
| HeapOrder.StopDown | heap.c:170-177 | Where going down stops, the order holds |
| HeapOrder.Replaced | heap.c:259-271 | After any change of one key, its neighbours still fit each other |
| HeapOrder.RootLeast | heap.c:106-112 | The first key of a heap is not above any other |
| HeapOrder.SumLevelsLinear | heap.c:192-203 | The levels below all positions together are fewer than the positions |
| BinaryHeap.Heap.constructor | heap.c:34-45 | An empty heap of one block |
| BinaryHeap.Heap.Up | heap.c:127-148 | Restores the order if only the edge above was wrong; its answer is the number of exchanges made, at most log2(position + 1), and none only if that edge was right |
| BinaryHeap.Heap.Down | heap.c:150-180 | Restores the order from a position on; its answer is the number of exchanges made, at most the levels below and at most log2(size) |
| BinaryHeap.Heap.HipifyPos | heap.c:182-190 | Restores the order with one key arbitrary, in at most log2(size) exchanges, which it counts: one move up makes moving down unnecessary |
| BinaryHeap.Heap.BuildHeap | heap.c:192-203 | Any array becomes a heap of the same items; the answer is the number of exchanges made, fewer than there are items |
| BinaryHeap.Heap.Build | heap.c:47-58 | A valid heap of the items of any array |
| BinaryHeap.Heap.Resize | heap.c:205-216 | Keeps the items; the capacity is the next multiple of 128 above the size asked for |
| BinaryHeap.Heap.Move | heap.c:218-230 | Puts the item into its slot and, with position information, the slot into the item |
| BinaryHeap.Heap.SetInfoAccessor | heap.c:232-246 | Turned on, every item says where it is |
| BinaryHeap.Heap.Insert | heap.c:79-88 | Order, capacity and recorded positions are kept and exactly the item is added, with at most log2(size) exchanges |
| BinaryHeap.Heap.Min | heap.c:106-112 | The item that shifting would take, which no item is below; nothing of an empty heap |
| BinaryHeap.Heap.Shift | heap.c:90-104 | Takes out exactly a least item; order, capacity and recorded positions are kept, with at most log2(size) exchanges |
| BinaryHeap.Heap.ShiftAll | timer.c:87-90 | Shifting until nothing is left returns all items in ascending order |
| BinaryHeap.Heap.BuildAndShift | tests/check_heap.c:182-207 | A heap built from any array gives its items back sorted |
| BinaryHeap.Heap.DelPos | heap.c:286-305 | Takes out exactly the item at a position, with at most log2(size) exchanges, or nothing outside the heap |
| BinaryHeap.Heap.Del | heap.c:273-284 | By its recorded position exactly the item asked for is taken out, and the rest is a valid heap |
| BinaryHeap.Heap.DelItem | heap.c:114-125 | Takes out the first match in array order, or nothing if nothing matches |
| BinaryHeap.Heap.Hipify | heap.c:259-271 | After any change of one item's key the heap is valid again with the same items, after at most log2(size) exchanges |
| BinaryHeap.Heap.CheckProperties | heap.c:307-334 | On any array of items: true exactly if recorded positions and order are right |
| HeapRuns.Perform | heap.c:79-305 | One operation on a heap with position information answers as a bag of items with keys may: shifting gives one of its least items; the heap stays valid, every item says where it is, and it holds what the bag does |
| HeapRuns.PerformAll | heap.c:79-305 | So does every run of insertions, shifts, changes of a key with repair, and deletions |
| HeapRuns.Conserved | heap.c:79-305 | Over every such run, the items there at first and those that came are those left and those given back, each as often |
| TimeValues.CompareTotal | timer.c:364-375 | The comparator is a total order, whatever the microseconds |
| TimeValues.CompareChronological | timer.c:364-375 | On normalised times it is the order of the clock |
| TimeValues.TimeoutExact | timer.c:166-185 | The timeout is the least number of milliseconds that reaches the deadline, exactly if the distance fits an int of milliseconds |
| TimeValues.TimeoutNeverLate | timer.c:166-185 | It never lasts a whole millisecond past the deadline |
| TimeValues.TimeoutWraps | timer.c:166-185 | The timeout for any deadline: the least number of milliseconds that reaches it, wrapped around in 32 bits, or 0 where that comes out negative |
| TimeValues.AfterIsLater | timer.c:235-252 | The deadline is normalised and as many seconds after now |
| TimeValues.MsecAfterNormalised | timer.c:254-271 | The deadline is as many milliseconds after now, and normalised exactly if one carry is enough |
| TimeValues.MsecAfterSafe | timer.c:254-271 | One carry is enough at every time exactly for 0 to 1000 milliseconds |
| TimeValues.MsecAfterMisordered | timer.c:254-271 | With 1500 milliseconds a later deadline can compare as earlier |
| EventTimer.NewMinimum | timer.c:286-298 | Comparing the minima before and after tells whether the new event is earlier than all others |
| EventTimer.ExtractReady | timer.c:203-222 | Exactly the events due before now leave the queue, in order; the rest is a valid heap |
| EventTimer.Enqueue | timer.c:286-298 | The event is queued, and said to be first exactly if it is earlier than everything before |
| EventTimer.Timer.constructor | timer.c:52-78 | An empty queue, nothing to read, not running |
| EventTimer.Timer.Empty | timer.c:106-115 | Whether anything is queued |
| EventTimer.Timer.AddEvent | timer.c:286-298 | Exactly the event is queued, and one byte written exactly if it is earlier than everything before |
| EventTimer.Timer.Cancel | timer.c:300-316 | The event leaves the queue and nothing else does; the answer says whether it was there |
| EventTimer.Timer.Stop | timer.c:158-164 | The run flag is cleared, one byte is written, the edge armed and the queue left alone |
| EventTimer.Timer.Signal | timer.c:318-323 | One byte more to read, and the edge armed |
| EventTimer.Timer.CleanSignals | timer.c:187-201 | Everything is read, however much |
| EventTimer.Timer.CalcTimeout | timer.c:166-185 | The timeout of an earliest deadline, or -1 exactly when nothing is queued |
| EventTimer.Timer.Ready | timer.c:203-222 | The set of events due leaves the queue, each once and earliest first, and the others stay |
| EventTimer.Timer.Destroy | timer.c:80-104 | Under the lock: returns every queued event once, earliest first, and leaves the queue empty and the rest as it was; the callbacks are in TimerDestroys.DestroySettles |
| TimerSafety.LockKept | timer.c:325-333 | No step breaks mutual exclusion: who is in a critical section is the holder |
| TimerSafety.RunKept | timer.c:117-164 | A loop that relies on the run flag still finds it set, or a signal is there or coming |
| TimerSafety.WaitKept | timer.c:127-147 | No step of any thread makes a wait outlast the earliest deadline without a signal there or coming |
| TimerEvents.EventsKept | timer.c:80-316 | Every step moves an event from the one place it is at to another one, or all that are due, or at the end all that are queued |
| TimerEvents.QueueWithout | timer.c:305-313 | Cancelling takes one event at most, the one referred to |
| TimerCalls.AnswersKept | timer.c:300-316 | Every step keeps the callbacks made as cancelled equal, reference by reference, to the answers that hit and the calls about to return one |
| TimerRuns.RunKeeps | timer.c:80-316 | All invariants hold after every run of every number of threads |
| TimerRuns.SectionsAmountTo | timer.c:80-316 | The steps under the lock amount to the effect the timer's methods prove |
| TimerRuns.NoWakeupLost | timer.c:127-164 | In every reachable state, while the loop waits: the timeout covers the queue and the run flag is set, or an unread signal has its edge armed, or the lock's holder is about to signal; with the lock free, one of the first two |
| TimerRuns.NoOversleep | timer.c:127-185 | In every reachable state where nobody signals, the wait ends less than a millisecond after every queued deadline |
| TimerRuns.SettledOnce | timer.c:80-152 | Every event ever handed in is in exactly one place (being added, queued, extracted, being cancelled, being dropped by destroying, called back) and is called back once at most |
| TimerRuns.SettledAtRest | timer.c:80-152 | With no thread inside, every event ever handed in is queued or has been called back, and not both |
| TimerRuns.CalledFaithfully | timer.c:224-233 | The loop's callbacks come after the deadline, and none is called back as dropped before destroying began; for every reference there are as many callbacks made as cancelled as cancellations that answered with it and cancellations that have yet to return |
| TimerRuns.CalledInOrder | timer.c:142-233 | What the loop has called back since it extracted a batch, followed by what it has yet to call back, is the batch in its order; back at its head it has called back exactly the events that were due, earliest first |
| TimerAnswers.AnswersTell | timer.c:300-316 | Every answer belongs to a call whose own locked step, earlier in the run, found the reference in the queue exactly if the answer says so and took it out; in between that client was in this call |
| TimerDestroys.DestroySettles | timer.c:80-104 | Once destroying is done, every event ever handed in has been called back exactly once; those queued when it began are called back after that, all as cancelled, earliest first |
| TimerStops.StopClears | timer.c:158-164 | The locked step of a stop clears the run flag |
| TimerStops.StopLost | timer.c:117-164 | After a stop the run flag stays cleared along a run exactly if no loop starts after it |
| TimerStops.StopIsLost | timer.c:123-164 | One legal run in which a stop has returned and the loop goes on with the run flag set |
| TimerStops.LostStopWaits | timer.c:127-147 | From there the loop comes to wait without a timeout and with no signal to wake it |
| TimerStops.StopEndsLoop | timer.c:127-164 | With the run flag cleared, every interleaving leaves the loop a bounded number of its own steps |
| TimerStops.StopWorks | timer.c:127-164 | A stop taken once the loop is past its start leaves it at most 14 steps and one per event it has extracted, and it calls back nothing but those events, in order |
| TimerStops.LeavesByStop | timer.c:117-156 | The loop leaves only after a stop that was taken while it was past its start |
| TimerRuns.NoDeadlock | timer.c:80-156 | In every reachable state with any thread inside, one can take a step: the loop, or the client that holds the lock, or, with the loop outside, some client |
| BitAccess.BitsGet | bits.c:5-34 | The n bits at pos of the buffer, read as one big-endian number |
| BitAccess.BitsSet | bits.c:36-72 | A value of n bits replaces exactly the field in that number; any other value is written as `Written` says |
| BitFields.RoundTrip | bits.c:5-72 | What was written is read back |
| BitFields.Frame | bits.c:36-72 | Writing a field changes no field apart from it |
| BitFields.WritesCommute | bits.c:36-72 | Two fields apart from each other can be written in either order |
| BitFields.LastWriteWins | bits.c:36-72 | Of two writes to a field the second remains |
| BitFields.NumDetermines | bits.c:36-72 | The number and the length determine the bytes of a buffer |
| BitFields.SplitField | bits.c:24-33 | A field is its upper bits followed by its lower bits |
| BitFields.ByteField | bits.c:17-21 | A field inside one byte is the field of the whole number at that place |
| BitFields.ByteWritten | bits.c:48-54 | Writing inside one byte writes the field of the whole number |
| BitOperators.PokedWritten | bits.c:49-52 | Clearing, shifting, or-ing and cutting to a byte write the value and what runs over, for every value |
| BitOperators.SpillNever | bits.c:48-54 | Exactly if the value has no bits that reach the free bits above the field, nothing but the field changes in any buffer |
| BitOperators.SpillExact | bits.c:48-54 | In one buffer: exactly if the bits that run over are set there already |
| BitOperators.WrittenReadBack | bits.c:36-72 | For every value its lowest n bits are read back and fields apart from field and free bits stay |
| BitOperators.BitsOf | bits.c:24-72 | The operators bit by bit: a bit of the conjunction is in both numbers, one of the disjunction in one or both |
| Uintvar.Groups | uintvar.c:10-18 | The buffer ends with exactly the packed value, as far as five bytes hold it |
| Uintvar.Pack | uintvar.c:5-25 | Writes the packed value at the front and its length is the answer, or changes nothing and answers -1 if it does not fit |
| Uintvar.Unpack | uintvar.c:27-42 | The value and length read from the front of the bytes, or -1 if no value ends within five bytes |
| Uintvar.UnpackPacked | uintvar.c:5-42 | Reading back yields the lowest 35 bits and ends where the value does, whatever follows |
| Uintvar.RoundTripExact | uintvar.c:5-42 | The whole value comes back exactly if it is below 2^35 |
| Uintvar.PrefixFree | uintvar.c:5-25 | No packed value is a proper prefix of another |
| Uintvar.PackedShortest | uintvar.c:5-42 | Of all bytes that read as a value the packed value is the shortest, and the only one that is not padded |
| Uintvar.UnpackedExact | uintvar.c:27-42 | A value is read exactly if one of the first five bytes has no mark, ends at the first such byte, and is the number of the groups up to there, padded or not |
| Uintvar.PackedExact | uintvar.c:5-25 | A packed value has marks on all bytes but the last, and its groups to base 128 are the lowest 35 bits |
| Uintvar.StreamReadBack | octstr.c:331-354 | Any list of values below 2^35, written behind any bytes, is read back by feeding each position to the next reading, which ends where the bytes do |
| OctetString.CalcSize | octstr.c:193-196 | The capacity is a multiple of 1024 and leaves room |
| OctetString.Octstr.Grow | octstr.c:175-191 | Room for the length and a terminator, with all bytes kept |
| OctetString.Octstr.StrAppend | octstr.c:105-120 | Exactly the octets are appended, with a terminator behind them |
| OctetString.Octstr.AppendUintvar | octstr.c:331-340 | Exactly the packed value is appended and its length is the answer |
| OctetString.Octstr.UnpackUintvar | octstr.c:342-354 | The value at a position and the position behind it, or -1 |
| OctetString.Octstr.constructor | octstr.c:34-43 | A string of exactly the octets given |
| OctetRuns.AppendAll | octstr.c:331-340 | Appending a list of values one by one appends exactly the packed values in order |
| OctetRuns.ReadFrom | octstr.c:342-354 | Feeding each position to the next call reads all values up to where none can be read |
| OctetRuns.AppendAndRead | octstr.c:331-354 | Any list of values below 2^35 appended to any string is read back from where it begins, up to the string's end |

## Left out

- Sockets, files, `iconv`, `sprintf` and process exit (`addrwatch.c`, `die.c`, the rest of `octstr.c`): foreign calls and thin wrappers.
- `counter.c`, `netint.c`, `bits_size` and `list.c`: only easy members; the timer's list of ready events is a sequence.
- Allocation failure, freeing and destructors. A shrinking `realloc` is a new array with the same items.
- Wrap-around of `long` and of the `int` lengths in `octstr.c`. In `bits_get` no wrap-around can occur: with n up to 30 it reads at most five bytes into a `long`.
- Bit fields of more than 30 bits, whose masks overflow an `int`, and negative positions.
- The system calls of the timer: the pipe is a count of unread bytes and writing to it always succeeds; `epoll_wait` may return at any time, with a signal only if bytes are unread and the edge is armed; the clock is a reading that never goes back.
- Timer operations after `etimer_destroy` has begun, destroying while a thread is inside the timer or from a callback, two run loops on one timer, and events whose memory is reused while a thread still holds their reference. Callbacks that call the timer act as clients of their own.
- Aliasing in `octstr_append` of a string to itself.
- TimerRuns.NoOversleep: says nothing about deadlines or clock readings that are not normalised, for which comparison does not follow the clock.
- EventTimer.Timer.AddEvent: an event is queued once only, as every event is newly allocated.
- BinaryHeap.Heap.SetInfoAccessor: items must be distinct for recorded positions to make sense.
- BinaryHeap.Heap.DelItem: the match function is a function of the item and its key.
