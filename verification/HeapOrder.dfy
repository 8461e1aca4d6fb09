/** The min-heap of `ds/timer-heap/timer_heap.cc` on sequences: what sifting, removal at an
    index and repeated removal at the root do to heap order and to the contents. */
module HeapOrder {

  datatype Entry = Entry(id: nat, deadline: nat)

  function Parent(i: nat): nat
    requires i > 0
  {
    (i - 1) / 2
  }

  function Swap<T>(s: seq<T>, i: nat, j: nat): seq<T>
    requires i < |s| && j < |s|
  {
    s[i := s[j]][j := s[i]]
  }

  lemma SwapPermutes<T>(s: seq<T>, i: nat, j: nat)
    requires i < |s| && j < |s|
    ensures multiset(Swap(s, i, j)) == multiset(s)
  {}

  predicate Heap(s: seq<Entry>) {
    forall j :: 1 <= j < |s| ==> s[Parent(j)].deadline <= s[j].deadline
  }

  /** Heap order holds except that entry i may be below its parent's key. */
  predicate AlmostUp(s: seq<Entry>, i: nat)
    requires i < |s|
  {
    && (forall j :: 1 <= j < |s| && j != i ==> s[Parent(j)].deadline <= s[j].deadline)
    && (i > 0 ==> forall j :: 1 <= j < |s| && Parent(j) == i ==> s[Parent(i)].deadline <= s[j].deadline)
  }

  /** Heap order holds except that entry i may be above its children's keys. */
  predicate AlmostDown(s: seq<Entry>, i: nat)
    requires i < |s|
  {
    && (forall j :: 1 <= j < |s| && Parent(j) != i ==> s[Parent(j)].deadline <= s[j].deadline)
    && (i > 0 ==> forall j :: 1 <= j < |s| && Parent(j) == i ==> s[Parent(i)].deadline <= s[j].deadline)
  }

  function Up(s: seq<Entry>, i: nat): seq<Entry>
    requires i < |s|
    decreases i
  {
    if i == 0 || s[i].deadline >= s[Parent(i)].deadline then s
    else Up(Swap(s, i, Parent(i)), Parent(i))
  }

  function MinChild(s: seq<Entry>, child: nat): (m: nat)
    requires child < |s|
    ensures m < |s| && (m == child || m == child + 1)
  {
    if child + 1 == |s| || s[child].deadline < s[child + 1].deadline then child else child + 1
  }

  function Down(s: seq<Entry>, i: nat): seq<Entry>
    requires i < |s|
    decreases |s| - i
  {
    if 2 * i + 1 >= |s| then s
    else
      var m := MinChild(s, 2 * i + 1);
      if s[i].deadline < s[m].deadline then s else Down(Swap(s, i, m), m)
  }

  /** `RemoveTimer` (lines 92-109): the last entry takes the place of entry i and sifts. */
  function Removed(s: seq<Entry>, i: nat): seq<Entry>
    requires i < |s|
  {
    var last := |s| - 1;
    if i == last then s[..last]
    else
      Sifted(Swap(s, i, last)[..last], i)
  }

  /** Sifting one entry up or down, as the comparison with its parent tells. */
  function Sifted(s: seq<Entry>, i: nat): seq<Entry>
    requires i < |s|
  {
    if i > 0 && s[i].deadline < s[Parent(i)].deadline then Up(s, i) else Down(s, i)
  }

  lemma {:induction false} UpRestores(s: seq<Entry>, i: nat)
    requires i < |s| && AlmostUp(s, i)
    ensures Heap(Up(s, i)) && multiset(Up(s, i)) == multiset(s) && |Up(s, i)| == |s|
    decreases i
  {
    if i > 0 && s[i].deadline < s[Parent(i)].deadline {
      SwapPermutes(s, i, Parent(i));
      UpRestores(Swap(s, i, Parent(i)), Parent(i));
    }
  }

  lemma SwapDown(s: seq<Entry>, i: nat)
    requires 2 * i + 1 < |s| && AlmostDown(s, i) && s[i].deadline >= s[MinChild(s, 2 * i + 1)].deadline
    ensures AlmostDown(Swap(s, i, MinChild(s, 2 * i + 1)), MinChild(s, 2 * i + 1))
  {
    var m := MinChild(s, 2 * i + 1);
    assert Parent(m) == i;
    forall j | 1 <= j < |s| && Parent(j) == i ensures j == 2 * i + 1 || j == 2 * i + 2 {}
  }

  lemma StopDown(s: seq<Entry>, i: nat)
    requires i < |s| && AlmostDown(s, i)
    requires 2 * i + 1 >= |s| || s[i].deadline < s[MinChild(s, 2 * i + 1)].deadline
    ensures Heap(s)
  {
    forall j | 1 <= j < |s| && Parent(j) == i ensures s[i].deadline <= s[j].deadline {
      assert j == 2 * i + 1 || j == 2 * i + 2;
    }
  }

  lemma {:induction false} DownRestores(s: seq<Entry>, i: nat)
    requires i < |s| && AlmostDown(s, i)
    ensures Heap(Down(s, i)) && multiset(Down(s, i)) == multiset(s) && |Down(s, i)| == |s|
    decreases |s| - i
  {
    if 2 * i + 1 >= |s| || s[i].deadline < s[MinChild(s, 2 * i + 1)].deadline {
      StopDown(s, i);
    } else {
      var m := MinChild(s, 2 * i + 1);
      SwapDown(s, i);
      SwapPermutes(s, i, m);
      DownRestores(Swap(s, i, m), m);
    }
  }

  /** One step of `DownHeap`. */
  lemma DownStep(s: seq<Entry>, i: nat)
    requires 2 * i + 1 < |s|
    ensures var m := MinChild(s, 2 * i + 1);
      Down(s, i) == if s[i].deadline < s[m].deadline then s else Down(Swap(s, i, m), m)
  {}

  /** Swapping in the last entry breaks heap order at index i only, on the side that the
      comparison with the parent tells. */
  lemma BrokenAtOnePlace(s: seq<Entry>, i: nat)
    requires Heap(s) && i < |s| - 1
    ensures var t := Swap(s, i, |s| - 1)[..|s| - 1];
      if i > 0 && t[i].deadline < t[Parent(i)].deadline then AlmostUp(t, i) else AlmostDown(t, i)
  {}

  lemma DropLast(s: seq<Entry>, i: nat)
    requires i < |s|
    ensures multiset(Swap(s, i, |s| - 1)[..|s| - 1]) == multiset(s) - multiset{s[i]}
  {
    var r := Swap(s, i, |s| - 1);
    SwapPermutes(s, i, |s| - 1);
    assert r == r[..|s| - 1] + [s[i]];
  }

  /** Removal at any index keeps heap order and drops exactly that entry. */
  lemma RemovedKeepsHeap(s: seq<Entry>, i: nat)
    requires Heap(s) && i < |s|
    ensures Heap(Removed(s, i)) && |Removed(s, i)| == |s| - 1
    ensures multiset(Removed(s, i)) == multiset(s) - multiset{s[i]}
  {
    DropLast(s, i);
    if i < |s| - 1 {
      BrokenAtOnePlace(s, i);
      var t := Swap(s, i, |s| - 1)[..|s| - 1];
      if i > 0 && t[i].deadline < t[Parent(i)].deadline {
        UpRestores(t, i);
      } else {
        DownRestores(t, i);
      }
    } else {
      assert Swap(s, i, i) == s;
    }
  }

  /** An entry appended at the end and sifted up. */
  lemma AddedKeepsHeap(s: seq<Entry>, e: Entry)
    requires Heap(s)
    ensures Heap(Up(s + [e], |s|)) && multiset(Up(s + [e], |s|)) == multiset(s) + multiset{e}
  {
    UpRestores(s + [e], |s|);
  }

  lemma {:induction false} RootIsLeast(s: seq<Entry>, i: nat)
    requires Heap(s) && i < |s|
    ensures s[0].deadline <= s[i].deadline
    decreases i
  {
    if i > 0 {
      RootIsLeast(s, Parent(i));
    }
  }

  // ------------------------------------------------------------------------------------
  // Taking out all that has expired.

  predicate SortedByDeadline(s: seq<Entry>) {
    forall a, b :: 0 <= a < b < |s| ==> s[a].deadline <= s[b].deadline
  }

  /** What `GetExpiredTimers` (lines 46-54) returns. */
  function Expired(s: seq<Entry>, now: nat): seq<Entry>
    requires Heap(s)
    decreases |s|
  {
    if s == [] || now < s[0].deadline then []
    else RemovedKeepsHeap(s, 0); [s[0]] + Expired(Removed(s, 0), now)
  }

  /** ... and what it leaves. */
  function Unexpired(s: seq<Entry>, now: nat): seq<Entry>
    requires Heap(s)
    decreases |s|
  {
    if s == [] || now < s[0].deadline then s
    else RemovedKeepsHeap(s, 0); Unexpired(Removed(s, 0), now)
  }

  /** One round of the loop: the root moves from the heap to the result. */
  lemma ExpiredStep(s: seq<Entry>, now: nat, done: seq<Entry>)
    requires Heap(s) && s != [] && s[0].deadline <= now
    ensures Heap(Removed(s, 0)) && |Removed(s, 0)| == |s| - 1
    ensures done + Expired(s, now) == (done + [s[0]]) + Expired(Removed(s, 0), now)
    ensures Unexpired(s, now) == Unexpired(Removed(s, 0), now)
  {
    RemovedKeepsHeap(s, 0);
  }

  lemma Rejoin(a: seq<Entry>, b: seq<Entry>, s: seq<Entry>, r: seq<Entry>)
    requires s != [] && multiset(r) == multiset(s) - multiset{s[0]} && multiset(a) + multiset(b) == multiset(r)
    ensures multiset([s[0]] + a) + multiset(b) == multiset(s)
  {
    assert multiset([s[0]] + a) == multiset{s[0]} + multiset(a);
    PutBack(multiset(s), s[0]);
  }

  lemma PutBack(m: multiset<Entry>, e: Entry)
    requires e in m
    ensures multiset{e} + (m - multiset{e}) == m
  {}

  lemma {:induction false} ExpiredConserves(s: seq<Entry>, now: nat)
    requires Heap(s)
    ensures Heap(Unexpired(s, now))
    ensures multiset(Expired(s, now)) + multiset(Unexpired(s, now)) == multiset(s)
    decreases |s|
  {
    if s != [] && now >= s[0].deadline {
      RemovedKeepsHeap(s, 0);
      var r := Removed(s, 0);
      ExpiredConserves(r, now);
      Rejoin(Expired(r, now), Unexpired(r, now), s, r);
    }
  }

  lemma MemberOfPart(a: seq<Entry>, b: seq<Entry>, s: seq<Entry>, e: Entry)
    requires multiset(a) + multiset(b) == multiset(s) && (e in a || e in b)
    ensures e in s
  {
    assert e in multiset(a) + multiset(b);
  }

  lemma LeastOfAll(s: seq<Entry>, e: Entry)
    requires Heap(s) && e in s
    ensures s[0].deadline <= e.deadline
  {
    var i :| 0 <= i < |s| && s[i] == e;
    RootIsLeast(s, i);
  }

  /** All that is left after the root was not due is not due. */
  lemma {:induction false} UnexpiredIsLater(s: seq<Entry>, now: nat, e: Entry)
    requires Heap(s) && e in Unexpired(s, now)
    ensures e.deadline > now
    decreases |s|
  {
    if now < s[0].deadline {
      LeastOfAll(s, e);
    } else {
      RemovedKeepsHeap(s, 0);
      UnexpiredIsLater(Removed(s, 0), now, e);
    }
  }

  /** The root comes before all that is taken out after it. */
  lemma RootGoesFirst(s: seq<Entry>, r: seq<Entry>, now: nat, e: Entry)
    requires Heap(s) && s != [] && Heap(r) && multiset(r) == multiset(s) - multiset{s[0]} && e in Expired(r, now)
    ensures s[0].deadline <= e.deadline
  {
    ExpiredConserves(r, now);
    MemberOfPart(Expired(r, now), Unexpired(r, now), r, e);
    assert e in multiset(r);
    assert e in multiset(s);
    LeastOfAll(s, e);
  }

  lemma {:induction false} ExpiredIsSorted(s: seq<Entry>, now: nat)
    requires Heap(s)
    ensures SortedByDeadline(Expired(s, now))
    ensures forall e :: e in Expired(s, now) ==> e.deadline <= now
    decreases |s|
  {
    if s != [] && now >= s[0].deadline {
      RemovedKeepsHeap(s, 0);
      var r := Removed(s, 0);
      ExpiredIsSorted(r, now);
      forall e | e in Expired(r, now) ensures s[0].deadline <= e.deadline {
        RootGoesFirst(s, r, now, e);
      }
      PrependSorted(s[0], Expired(r, now));
    }
  }

  lemma PrependSorted(e: Entry, s: seq<Entry>)
    requires SortedByDeadline(s) && forall f :: f in s ==> e.deadline <= f.deadline
    ensures SortedByDeadline([e] + s)
  {}

  /** The entries returned are in deadline order and due, those left are not due, and together
      they are the entries there were. */
  lemma ExpiredSplits(s: seq<Entry>, now: nat)
    requires Heap(s)
    ensures Heap(Unexpired(s, now))
    ensures multiset(Expired(s, now)) + multiset(Unexpired(s, now)) == multiset(s)
    ensures SortedByDeadline(Expired(s, now))
    ensures forall e :: e in Expired(s, now) ==> e.deadline <= now
    ensures forall e :: e in Unexpired(s, now) ==> e.deadline > now
  {
    ExpiredConserves(s, now);
    ExpiredIsSorted(s, now);
    forall e | e in Unexpired(s, now) ensures e.deadline > now {
      UnexpiredIsLater(s, now, e);
    }
  }

  lemma RemoveRoot4(a: Entry, b: Entry, c: Entry, e: Entry)
    requires a.deadline == b.deadline == c.deadline == e.deadline
    ensures Removed([a, b, c, e], 0) == [c, b, e]
  {
    var t := [e, b, c];
    assert Swap([a, b, c, e], 0, 3)[..3] == t;
    DownStep(t, 0);
    assert Swap(t, 0, 2) == [c, b, e];
  }

  lemma RemoveRoot3(a: Entry, b: Entry, c: Entry)
    requires a.deadline == b.deadline == c.deadline
    ensures Removed([a, b, c], 0) == [b, c] && Removed([b, c], 0) == [c] && Removed([c], 0) == []
  {
    var t := [c, b];
    assert Swap([a, b, c], 0, 2)[..2] == t;
    DownStep(t, 0);
    assert Swap(t, 0, 1) == [b, c];
    assert Swap([b, c], 0, 1)[..1] == [c];
  }

  /** Timers with one deadline stay in the order of their addition in the heap, but are not taken
      out in that order: the first four come out as the first, the third, the second and the
      fourth. */
  lemma TiesOutOfOrder(a: Entry, b: Entry, c: Entry, e: Entry)
    requires a.deadline == b.deadline == c.deadline == e.deadline
    ensures Up([a] + [b], 1) == [a, b] && Up([a, b] + [c], 2) == [a, b, c] && Up([a, b, c] + [e], 3) == [a, b, c, e]
    ensures Heap([a, b, c, e]) && Expired([a, b, c, e], a.deadline) == [a, c, b, e]
  {
    RemoveRoot4(a, b, c, e);
    RemoveRoot3(c, b, e);
    assert Expired([], a.deadline) == [];
    assert Expired([e], a.deadline) == [e];
    assert Expired([b, e], a.deadline) == [b, e];
    assert Expired([c, b, e], a.deadline) == [c, b, e];
  }

  // ------------------------------------------------------------------------------------
  // The contents as a map from id to deadline.

  /** The entries are the graph of the map, each once; so no two of them share an id. */
  ghost predicate Represents(m: multiset<Entry>, p: map<nat, nat>) {
    forall e: Entry :: m[e] == if e.id in p && p[e.id] == e.deadline then 1 else 0
  }

  lemma RepresentsAdd(m: multiset<Entry>, p: map<nat, nat>, e: Entry)
    requires Represents(m, p) && e.id !in p
    ensures Represents(m + multiset{e}, p[e.id := e.deadline])
  {}

  lemma RepresentsRemove(m: multiset<Entry>, p: map<nat, nat>, e: Entry)
    requires Represents(m, p) && e in m
    ensures e.id in p && p[e.id] == e.deadline
    ensures Represents(m - multiset{e}, p - {e.id})
  {}

  function DueBy(p: map<nat, nat>, now: nat): map<nat, nat> {
    map id | id in p && p[id] <= now :: p[id]
  }

  function DueAfter(p: map<nat, nat>, now: nat): map<nat, nat> {
    map id | id in p && p[id] > now :: p[id]
  }

  /** Splitting the entries by a deadline splits the map the same way. */
  lemma RepresentsSplit(a: multiset<Entry>, b: multiset<Entry>, p: map<nat, nat>, now: nat)
    requires Represents(a + b, p)
    requires forall e :: e in a ==> e.deadline <= now
    requires forall e :: e in b ==> e.deadline > now
    ensures Represents(a, DueBy(p, now)) && Represents(b, DueAfter(p, now))
  {
    forall e: Entry
      ensures a[e] == (if e.id in DueBy(p, now) && DueBy(p, now)[e.id] == e.deadline then 1 else 0)
      ensures b[e] == (if e.id in DueAfter(p, now) && DueAfter(p, now)[e.id] == e.deadline then 1 else 0)
    {
      assert (a + b)[e] == a[e] + b[e];
    }
  }

  /** The entries determine the map. */
  lemma SameContents(m: multiset<Entry>, p: map<nat, nat>, q: map<nat, nat>)
    requires Represents(m, p) && Represents(m, q)
    ensures p == q
  {
    forall id | id in p ensures id in q && q[id] == p[id] {
      assert m[Entry(id, p[id])] == 1;
    }
    forall id | id in q ensures id in p {
      assert m[Entry(id, q[id])] == 1;
    }
  }

  /** Taking out what has expired splits the map by `now`. */
  lemma ExpiredPending(s: seq<Entry>, p: map<nat, nat>, now: nat)
    requires Heap(s) && Represents(multiset(s), p)
    ensures SortedByDeadline(Expired(s, now)) && Represents(multiset(Expired(s, now)), DueBy(p, now))
    ensures Heap(Unexpired(s, now)) && Represents(multiset(Unexpired(s, now)), DueAfter(p, now))
  {
    ExpiredSplits(s, now);
    RepresentsSplit(multiset(Expired(s, now)), multiset(Unexpired(s, now)), p, now);
  }

  /** Adding an entry, as a whole: heap order and the map. */
  lemma AddContents(s: seq<Entry>, p: map<nat, nat>, e: Entry)
    requires Heap(s) && Represents(multiset(s), p) && e.id !in p
    ensures Heap(Up(s + [e], |s|)) && Represents(multiset(Up(s + [e], |s|)), p[e.id := e.deadline])
  {
    AddedKeepsHeap(s, e);
    RepresentsAdd(multiset(s), p, e);
  }

  /** Removing an entry, as a whole. */
  lemma RemoveContents(s: seq<Entry>, p: map<nat, nat>, i: nat)
    requires Heap(s) && Represents(multiset(s), p) && i < |s|
    ensures Heap(Removed(s, i)) && Represents(multiset(Removed(s, i)), p - {s[i].id})
  {
    RemovedKeepsHeap(s, i);
    assert s[i] in multiset(s);
    RepresentsRemove(multiset(s), p, s[i]);
  }
}
