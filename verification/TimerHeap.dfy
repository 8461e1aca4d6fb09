/** `ds/timer-heap/timer_heap.cc`: a min-heap of shared timer objects, each of which knows its
    own index, with the set of active ids. It refines a map from id to deadline. */
module TimerHeap {
  import opened HeapOrder
  import Timestamp

  /** A timer; only its index in the heap changes. */
  class TimerObj {
    const id: nat
    const deadline: nat
    var heapIndex: nat

    constructor (id: nat, deadline: nat, index: nat)
      ensures this.id == id && this.deadline == deadline && heapIndex == index
    {
      this.id, this.deadline, heapIndex := id, deadline, index;
    }
  }

  /** The process-wide counter behind `TimerID::UniqueID`. */
  class IdSource {
    var counter: nat

    constructor ()
      ensures counter == 0
    {
      counter := 0;
    }

    method UniqueID() returns (id: nat)
      requires counter < Timestamp.MODULUS
      modifies this
      ensures id == counter < Timestamp.MODULUS
      ensures old(counter) + 1 < Timestamp.MODULUS ==> id == old(counter) + 1
      ensures old(counter) + 1 == Timestamp.MODULUS ==> id == 0
    {
      counter := (counter + 1) % Timestamp.MODULUS;
      id := counter;
    }
  }

  /** What `AddTimer` hands out; it can be copied and can outlive its timer. */
  datatype TimerID = TimerID(timer: TimerObj?, id: nat)

  function EntryOf(t: TimerObj): Entry {
    Entry(t.id, t.deadline)
  }

  function Entries(h: seq<TimerObj>): (s: seq<Entry>)
    ensures |s| == |h| && forall i :: 0 <= i < |h| ==> s[i] == EntryOf(h[i])
  {
    seq(|h|, i requires 0 <= i < |h| => EntryOf(h[i]))
  }

  /** Every timer knows where it is; so no timer is in the heap twice. */
  ghost predicate Placed(h: seq<TimerObj>)
    reads h
  {
    forall i :: 0 <= i < |h| ==> h[i].heapIndex == i
  }

  ghost predicate DistinctIds(timers: set<TimerObj>) {
    forall x, y :: x in timers && y in timers && x.id == y.id ==> x == y
  }

  lemma EntriesSnoc(h: seq<TimerObj>, t: TimerObj)
    ensures Entries(h + [t]) == Entries(h) + [EntryOf(t)]
  {}

  lemma EntriesSwap(h: seq<TimerObj>, i: nat, j: nat)
    requires i < |h| && j < |h|
    ensures Entries(Swap(h, i, j)) == Swap(Entries(h), i, j)
  {}

  class TimerHeap {
    var heap: seq<TimerObj>
    var active: set<nat>
    /** The map from id to deadline that the heap stands for. */
    ghost var pending: map<nat, nat>
    /** The timers this heap has ever created. */
    ghost var issued: set<TimerObj>

    ghost predicate Valid()
      reads this, heap
    {
      && Placed(heap) && Heap(Entries(heap))
      && Represents(multiset(Entries(heap)), pending)
      && active == pending.Keys
      && Within(issued) && DistinctIds(issued)
    }

    constructor ()
      ensures Valid() && pending == map[] && issued == {}
    {
      heap, active, pending, issued := [], {}, map[], {};
    }

    /** The heap holds only timers of `objs`; the sifting methods change no others. */
    ghost predicate Within(objs: set<TimerObj>)
      reads this
    {
      forall i :: 0 <= i < |heap| ==> heap[i] in objs
    }

    method SwapHeap(i: nat, j: nat)
      requires Placed(heap) && i < |heap| && j < |heap|
      modifies this`heap, heap[i], heap[j]
      ensures Placed(heap) && heap == Swap(old(heap), i, j)
    {
      heap := heap[i := heap[j]][j := heap[i]];
      heap[i].heapIndex := i;
      heap[j].heapIndex := j;
    }

    /** The same, on the entries, when only timers of `objs` may change. */
    method SwapEntries(i: nat, j: nat, ghost objs: set<TimerObj>)
      requires Placed(heap) && i < |heap| && j < |heap| && Within(objs)
      modifies this`heap, objs
      ensures Placed(heap) && Within(objs) && Entries(heap) == Swap(Entries(old(heap)), i, j)
    {
      EntriesSwap(heap, i, j);
      SwapHeap(i, j);
    }

    method UpHeap(start: nat, ghost objs: set<TimerObj>)
      requires Placed(heap) && start < |heap| && Within(objs)
      modifies this`heap, objs
      ensures Placed(heap) && Within(objs) && Entries(heap) == Up(Entries(old(heap)), start)
    {
      var index: nat := start;
      ghost var target := Up(Entries(heap), start);
      while index > 0
        invariant Placed(heap) && index < |heap| && Within(objs) && Up(Entries(heap), index) == target
      {
        var parent := (index - 1) / 2;
        if heap[index].deadline >= heap[parent].deadline {
          break;
        }
        SwapEntries(index, parent, objs);
        index := parent;
      }
    }

    /** Lines 74-78. */
    method SmallerChild(child: nat) returns (minChild: nat)
      requires child < |heap|
      ensures minChild == MinChild(Entries(heap), child)
    {
      minChild := if child + 1 == |heap| || heap[child].deadline < heap[child + 1].deadline then child else child + 1;
    }

    /** One turn of the loop of `DownHeap`: the timer at `index` swaps with its smaller child, or
        the loop ends. */
    method DownOne(index: nat, ghost objs: set<TimerObj>) returns (stop: bool, index': nat)
      requires Placed(heap) && index * 2 + 1 < |heap| && Within(objs)
      modifies this`heap, objs
      ensures Placed(heap) && Within(objs) && |heap| == |old(heap)| && index <= index' < |heap|
      ensures stop ==> Entries(heap) == Down(Entries(old(heap)), index)
      ensures !stop ==> index < index' && Down(Entries(heap), index') == Down(Entries(old(heap)), index)
    {
      var minChild := SmallerChild(index * 2 + 1);
      DownStep(Entries(heap), index);
      stop, index' := heap[index].deadline < heap[minChild].deadline, index;
      if !stop {
        SwapEntries(index, minChild, objs);
        index' := minChild;
      }
    }

    method DownHeap(start: nat, ghost objs: set<TimerObj>)
      requires Placed(heap) && start < |heap| && Within(objs)
      modifies this`heap, objs
      ensures Placed(heap) && Within(objs) && Entries(heap) == Down(Entries(old(heap)), start)
    {
      var index: nat := start;
      var child := index * 2 + 1;
      ghost var target := Down(Entries(heap), start);
      while child < |heap|
        invariant Placed(heap) && index < |heap| && child == index * 2 + 1 && Within(objs)
        invariant Down(Entries(heap), index) == target
        decreases |heap| - index
      {
        var stop;
        stop, index := DownOne(index, objs);
        if stop {
          break;
        }
        child := index * 2 + 1;
      }
    }

    /** Lines 101-106. */
    method Sift(index: nat, ghost objs: set<TimerObj>)
      requires Placed(heap) && index < |heap| && Within(objs)
      modifies this`heap, objs
      ensures Placed(heap) && Within(objs) && Entries(heap) == Sifted(Entries(old(heap)), index)
    {
      if index > 0 && heap[index].deadline < heap[(index - 1) / 2].deadline {
        UpHeap(index, objs);
      } else {
        DownHeap(index, objs);
      }
    }

    /** Lines 99-100: the last timer takes the place of the one at `index`, which goes. */
    method SwapOut(index: nat, ghost objs: set<TimerObj>)
      requires Placed(heap) && index < |heap| - 1 && Within(objs)
      modifies this`heap, objs
      ensures |heap| == |old(heap)| - 1 && Placed(heap) && Within(objs)
      ensures Entries(heap) == Swap(Entries(old(heap)), index, |heap|)[..|heap|]
    {
      SwapEntries(index, |heap| - 1, objs);
      heap := heap[..|heap| - 1];
    }

    /** The heap part of `RemoveTimer`. */
    method RemoveAt(index: nat, ghost objs: set<TimerObj>)
      requires Placed(heap) && index < |heap| && Within(objs)
      modifies this`heap, objs
      ensures Placed(heap) && Within(objs) && Entries(heap) == Removed(Entries(old(heap)), index)
    {
      if index == |heap| - 1 {
        heap := heap[..|heap| - 1];
      } else {
        SwapOut(index, objs);
        Sift(index, objs);
      }
    }

    /** Removing a timer of the heap drops exactly its id from the map. */
    method RemoveTimer(timer: TimerObj)
      requires Valid() && timer.heapIndex < |heap| && heap[timer.heapIndex] == timer
      modifies this`heap, this`active, this`pending, issued
      ensures Valid() && pending == old(pending) - {timer.id}
      ensures Entries(heap) == Removed(Entries(old(heap)), old(timer.heapIndex))
    {
      ghost var s := Entries(heap);
      RemoveContents(s, pending, timer.heapIndex);
      active := active - {timer.id};
      RemoveAt(timer.heapIndex, issued);
      pending := pending - {timer.id};
    }

    /** A handle that `AddTimer` of this or another heap returned, or a default one: if its id is
        one this heap has given out, it points to that timer. */
    ghost predicate Genuine(tid: TimerID)
      reads this
    {
      forall x :: x in issued && x.id == tid.id ==> x == tid.timer
    }

    /** An active id belongs to a timer of the heap. */
    lemma ActiveIsInHeap(id: nat) returns (i: nat)
      requires Valid() && id in active
      ensures i < |heap| && heap[i].id == id
    {
      var e := Entry(id, pending[id]);
      assert multiset(Entries(heap))[e] == 1;
      assert e in Entries(heap);
      i :| 0 <= i < |heap| && Entries(heap)[i] == e;
    }

    lemma InHeapIsPending(i: nat)
      requires Valid() && i < |heap|
      ensures heap[i].id in pending && pending[heap[i].id] == heap[i].deadline
    {
      var e := Entries(heap)[i];
      assert e in multiset(Entries(heap));
    }

    /** The root of a non-empty heap has the least of the pending deadlines. */
    lemma RootIsNext(deadline: nat)
      requires Valid() && heap != []
      ensures deadline < heap[0].deadline <==> forall id :: id in pending ==> deadline < pending[id]
    {
      InHeapIsPending(0);
      forall id | id in pending ensures heap[0].deadline <= pending[id] {
        var i := ActiveIsInHeap(id);
        InHeapIsPending(i);
        RootIsLeast(Entries(heap), i);
      }
    }

    /** Whether a deadline comes before all pending ones of a non-empty heap (lines 28-31). */
    method IsFirst(deadline: nat) returns (ret: bool)
      requires Valid()
      ensures ret <==> pending != map[] && forall id :: id in pending ==> deadline < pending[id]
    {
      ret := false;
      if heap != [] {
        RootIsNext(deadline);
        InHeapIsPending(0);
        ret := deadline < heap[0].deadline;
      } else if pending != map[] {
        ghost var id :| id in pending;
        ghost var i := ActiveIsInHeap(id);
      }
    }

    /** A new timer enters at the end and sifts up (lines 32-36). */
    method Push(timer: TimerObj, ghost objs: set<TimerObj>)
      requires Placed(heap) && Within(objs) && timer in objs && timer.heapIndex == |heap|
      modifies this`heap, objs
      ensures Placed(heap) && Within(objs) && Entries(heap) == Up(Entries(old(heap)) + [EntryOf(timer)], |old(heap)|)
    {
      EntriesSnoc(heap, timer);
      heap := heap + [timer];
      UpHeap(|heap| - 1, objs);
    }

    method Insert(timer: TimerObj)
      requires Valid() && timer !in issued && timer.heapIndex == |heap| && timer.id !in pending
      requires forall x :: x in issued ==> x.id != timer.id
      modifies this, issued, timer
      ensures Valid() && pending == old(pending)[timer.id := timer.deadline] && issued == old(issued) + {timer}
    {
      AddContents(Entries(heap), pending, EntryOf(timer));
      active := active + {timer.id};
      issued := issued + {timer};
      Push(timer, issued);
      pending := pending[timer.id := timer.deadline];
    }

    /** A new timer gets a new id and enters the map. The result tells whether it is the first to
        expire; it is false for the first timer of an empty heap. */
    method AddTimer(source: IdSource, deadline: nat) returns (ret: bool, tid: TimerID)
      requires Valid() && source.counter + 1 < Timestamp.MODULUS
      requires forall x :: x in issued ==> x.id <= source.counter
      modifies this, issued, source
      ensures Valid() && source.counter == old(source.counter) + 1
      ensures tid.id == source.counter && tid.id !in old(pending) && pending == old(pending)[tid.id := deadline]
      ensures tid.timer != null && fresh(tid.timer) && tid.timer.id == tid.id && issued == old(issued) + {tid.timer}
      ensures ret <==> old(pending) != map[] && forall id :: id in old(pending) ==> deadline < old(pending)[id]
    {
      ret := IsFirst(deadline);
      FreshId(source.counter);
      var id := source.UniqueID();
      var timer := new TimerObj(id, deadline, |heap|);
      tid := TimerID(timer, id);
      Insert(timer);
    }

    lemma FreshId(counter: nat)
      requires Valid() && forall x :: x in issued ==> x.id <= counter
      ensures counter + 1 !in pending
    {
      if counter + 1 in pending {
        var i := ActiveIsInHeap(counter + 1);
      }
    }

    /** Cancelling through a handle removes its timer if the id is active, and otherwise changes
        nothing at all. */
    method CancelTimer(tid: TimerID) returns (tid': TimerID)
      requires Valid() && Genuine(tid)
      modifies this`heap, this`active, this`pending, issued
      ensures Valid()
      ensures pending == old(pending) - {tid.id}
      ensures tid.id in old(active) ==> tid' == TimerID(null, 0)
      ensures tid.id !in old(active) ==>
                tid' == tid && heap == old(heap) && active == old(active) && forall x :: x in issued ==> unchanged(x)
    {
      tid' := tid;
      if heap != [] && tid.id in active {
        ghost var i := ActiveIsInHeap(tid.id);
        RemoveTimer(tid.timer);
        tid' := TimerID(null, 0);
      } else if tid.id in active {
        ghost var i := ActiveIsInHeap(tid.id);
      }
    }

    /** What has been taken out, with what is still to be taken, is `due`; `rest` is what stays. */
    ghost predicate Collecting(expired: seq<TimerObj>, now: nat, due: seq<Entry>, rest: seq<Entry>)
      reads this, heap
    {
      && Valid() && Entries(expired) + Expired(Entries(heap), now) == due && Unexpired(Entries(heap), now) == rest
      && forall i :: 0 <= i < |expired| ==> expired[i] in issued
    }

    /** One turn of the loop of `GetExpiredTimers` (lines 50-51). */
    method CollectOne(expired: seq<TimerObj>, now: nat, ghost due: seq<Entry>, ghost rest: seq<Entry>)
      returns (expired': seq<TimerObj>)
      requires Collecting(expired, now, due, rest) && heap != [] && now >= heap[0].deadline
      modifies this`heap, this`active, this`pending, issued
      ensures Collecting(expired', now, due, rest) && |heap| == |old(heap)| - 1
    {
      ghost var s := Entries(heap);
      ExpiredStep(s, now, Entries(expired));
      EntriesSnoc(expired, heap[0]);
      expired' := expired + [heap[0]];
      RemoveTimer(heap[0]);
    }

    /** The loop of `GetExpiredTimers`. */
    method Collect(now: nat) returns (expired: seq<TimerObj>)
      requires Valid()
      modifies this`heap, this`active, this`pending, issued
      ensures Valid() && Heap(Entries(old(heap)))
      ensures Entries(expired) == Expired(Entries(old(heap)), now)
      ensures Entries(heap) == Unexpired(Entries(old(heap)), now)
      ensures forall i :: 0 <= i < |expired| ==> expired[i] in issued
    {
      expired := [];
      ghost var due, rest := Expired(Entries(heap), now), Unexpired(Entries(heap), now);
      while heap != [] && now >= heap[0].deadline
        invariant Collecting(expired, now, due, rest)
        decreases |heap|
      {
        expired := CollectOne(expired, now, due, rest);
      }
    }

    /** Exactly the timers due by `now` are returned, once each and in deadline order, and exactly
        the others stay. */
    method GetExpiredTimers(now: nat) returns (expired: seq<TimerObj>)
      requires Valid()
      modifies this`heap, this`active, this`pending, issued
      ensures Valid() && pending == DueAfter(old(pending), now)
      ensures SortedByDeadline(Entries(expired)) && Represents(multiset(Entries(expired)), DueBy(old(pending), now))
      ensures forall i :: 0 <= i < |expired| ==> expired[i] in issued
    {
      ExpiredPending(Entries(heap), pending, now);
      expired := Collect(now);
      SameContents(multiset(Entries(heap)), pending, DueAfter(old(pending), now));
    }
  }

  // ------------------------------------------------------------------------------------
  // Every run.

  /** `Cancel(k)` cancels through the handle of the k-th timer added, stale or not. */
  datatype Op = Add(deadline: nat) | Cancel(k: nat) | Expire(now: nat)

  /** The map from id to deadline, and the number of timers added so far. */
  datatype World = World(pending: map<nat, nat>, added: nat)

  /** What an operation does to the map. */
  function MapStep(w: World, op: Op): World {
    match op
    case Add(deadline) => World(w.pending[w.added + 1 := deadline], w.added + 1)
    case Cancel(k) => if k < w.added then w.(pending := w.pending - {k + 1}) else w
    case Expire(now) => w.(pending := DueAfter(w.pending, now))
  }

  function MapRun(ops: seq<Op>): World {
    if ops == [] then World(map[], 0) else MapStep(MapRun(ops[..|ops| - 1]), ops[|ops| - 1])
  }

  lemma {:induction false} AddedBound(ops: seq<Op>)
    ensures MapRun(ops).added <= |ops|
  {
    if ops != [] {
      AddedBound(ops[..|ops| - 1]);
    }
  }

  /** The heap, the id counter and the handles given out agree with the map. */
  ghost predicate Agree(timers: TimerHeap, source: IdSource, handles: seq<TimerID>, w: World)
    reads timers, timers.heap, source
  {
    && timers.Valid() && timers.pending == w.pending
    && |handles| == source.counter == w.added
    && (forall x :: x in timers.issued ==> x.id <= source.counter)
    && (forall k :: 0 <= k < |handles| ==> timers.Genuine(handles[k]) && handles[k].id == k + 1)
  }

  /** What a caller gets back: the result of `AddTimer`, whether `CancelTimer` cleared the handle,
      and the timers that `GetExpiredTimers` returns. */
  datatype Answer = Added(first: bool) | Cancelled(cleared: bool) | Fired(due: seq<Entry>)

  /** The answer that the map gives: an added timer is first if it comes before all pending ones
      and there are some, a handle is cleared if its id is pending, and the due timers fire once
      each, in deadline order. */
  ghost predicate MapAnswer(w: World, op: Op, a: Answer) {
    match op
    case Add(deadline) => a.Added? && (a.first <==> w.pending != map[] && forall id :: id in w.pending ==> deadline < w.pending[id])
    case Cancel(k) => a.Cancelled? && (a.cleared <==> k < w.added && k + 1 in w.pending)
    case Expire(now) => a.Fired? && SortedByDeadline(a.due) && Represents(multiset(a.due), DueBy(w.pending, now))
  }

  /** The answers so far are those of the map. */
  ghost predicate Answered(ops: seq<Op>, answers: seq<Answer>) {
    |answers| <= |ops| && forall n :: 0 <= n < |answers| ==> MapAnswer(MapRun(ops[..n]), ops[n], answers[n])
  }

  lemma AnsweredNext(ops: seq<Op>, answers: seq<Answer>, a: Answer)
    requires Answered(ops, answers) && |answers| < |ops| && MapAnswer(MapRun(ops[..|answers|]), ops[|answers|], a)
    ensures Answered(ops, answers + [a])
  {}

  lemma MapRunNext(ops: seq<Op>, n: nat)
    requires n < |ops|
    ensures MapRun(ops[..n + 1]) == MapStep(MapRun(ops[..n]), ops[n]) && MapRun(ops[..n]).added <= n
  {
    assert ops[..n + 1][..n] == ops[..n];
    AddedBound(ops[..n]);
  }

  method RunOne(timers: TimerHeap, source: IdSource, handles: seq<TimerID>, op: Op, ghost w: World)
    returns (handles': seq<TimerID>, answer: Answer)
    requires Agree(timers, source, handles, w) && w.added + 1 < Timestamp.MODULUS
    modifies timers, timers.issued, source
    ensures Agree(timers, source, handles', MapStep(w, op)) && fresh(timers.issued - old(timers.issued))
    ensures MapAnswer(w, op, answer)
  {
    handles' := handles;
    match op {
      case Add(deadline) =>
        var first, tid := timers.AddTimer(source, deadline);
        handles', answer := handles + [tid], Added(first);
      case Cancel(k) =>
        if k < |handles| {
          var tid := timers.CancelTimer(handles[k]);
          answer := Cancelled(tid.id == 0);
        } else {
          answer := Cancelled(false);
        }
      case Expire(now) =>
        var expired := timers.GetExpiredTimers(now);
        answer := Fired(Entries(expired));
    }
  }

  /** Every run of the three operations on a new heap, with cancels through any handle handed
      out before, keeps the heap valid, does to it what it does to the map, and answers each call
      as the map does. */
  method EveryRun(ops: seq<Op>) returns (timers: TimerHeap, answers: seq<Answer>)
    requires |ops| + 1 < Timestamp.MODULUS
    ensures timers.Valid() && timers.pending == MapRun(ops).pending
    ensures |answers| == |ops| && Answered(ops, answers)
  {
    timers := new TimerHeap();
    answers := [];
    var source := new IdSource();
    var handles: seq<TimerID> := [];
    for n := 0 to |ops|
      invariant fresh(timers) && fresh(source) && fresh(timers.issued)
      invariant Agree(timers, source, handles, MapRun(ops[..n]))
      invariant |answers| == n && Answered(ops, answers)
    {
      MapRunNext(ops, n);
      var answer;
      handles, answer := RunOne(timers, source, handles, ops[n], MapRun(ops[..n]));
      AnsweredNext(ops, answers, answer);
      answers := answers + [answer];
    }
    assert ops[..|ops|] == ops;
  }
}
