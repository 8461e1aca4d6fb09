/** `ds/loser-tree/loser-tree.hpp`: the class, on linked lists. */
module LoserTree {
  import opened KWayMerge
  import opened MergeOrder
  import T = Tournament
  import C = Counting

  /** What `mergeKLists` does: it returns a list, or it reads `lists` at the sentinel's index. */
  datatype Outcome = Returned(head: ListNode?) | OutOfBounds

  /** Who plays at each leaf: its list, or the sentinel k for a later list that ties with it. */
  function SeatsOf(nodes: seq<seq<ListNode>>): (r: seq<int>)
    ensures |r| == |nodes| && T.Seated(r)
    ensures forall i :: 0 <= i < |nodes| ==> r[i] == if i >= 1 && StartsLow(nodes, i) then |nodes| else i
  {
    seq(|nodes|, i requires 0 <= i < |nodes| => if i >= 1 && StartsLow(nodes, i) then |nodes| else i)
  }

  function Resize(s: seq<int>, n: nat): (r: seq<int>)
    ensures |r| == n && forall i :: 0 <= i < n && i < |s| ==> r[i] == s[i]
  {
    if n <= |s| then s[..n] else s + seq(n - |s|, _ => 0)
  }

  // The linked structure during the merge.

  /** The link of the node output last, which still leads into its own list. */
  ghost function After(nodes: seq<seq<ListNode>>, pos: seq<nat>, trace: seq<nat>): ListNode?
    requires |pos| == |nodes| && forall n :: 0 <= n < |trace| ==> trace[n] < |nodes|
  {
    if trace == [] then null else var w := trace[|trace| - 1]; NodeAt(nodes[w], pos[w])
  }

  /** Nodes not yet output still have their original successors. */
  ghost predicate Links(nodes: seq<seq<ListNode>>, pos: seq<nat>)
    requires |pos| == |nodes|
    reads set i, j | 0 <= i < |nodes| && 0 <= j < |nodes[i]| :: nodes[i][j]
  {
    forall i, j :: 0 <= i < |nodes| && pos[i] <= j < |nodes[i]| ==> nodes[i][j].next == NodeAt(nodes[i], j + 1)
  }

  ghost predicate Heads(heads: seq<ListNode?>, nodes: seq<seq<ListNode>>, pos: seq<nat>)
    requires |pos| == |nodes|
  {
    |heads| == |nodes| && forall i :: 0 <= i < |nodes| ==> heads[i] == NodeAt(nodes[i], pos[i])
  }

  /** The output hangs off the dummy node and ends in `tail`, whose own link is still the one it
      had in its list. */
  ghost predicate OutChain(dummy: ListNode, tail: ListNode, after: ListNode?, out: seq<ListNode>)
    reads dummy, tail, out
  {
    && dummy !in out
    && tail == (if out == [] then dummy else out[|out| - 1])
    && tail.next == after
    && (out != [] ==> dummy.next == out[0])
    && (forall n :: 0 <= n < |out| - 1 ==> out[n].next == out[n + 1])
  }

  /** The whole linked structure when `out` has been output and pos[i] nodes of list i are in it. */
  ghost predicate Linked(lists: array<ListNode?>, dummy: ListNode, tail: ListNode,
                         nodes: seq<seq<ListNode>>, pos: seq<nat>, out: seq<ListNode>, trace: seq<nat>)
    requires |pos| == |nodes| && forall n :: 0 <= n < |trace| ==> trace[n] < |nodes|
    reads lists, dummy, tail, out, set i, j | 0 <= i < |nodes| && 0 <= j < |nodes[i]| :: nodes[i][j]
  {
    && Links(nodes, pos) && Heads(lists[..], nodes, pos)
    && OutChain(dummy, tail, After(nodes, pos, trace), out)
    && forall i, j :: 0 <= i < |nodes| && 0 <= j < |nodes[i]| ==> nodes[i][j] != dummy
  }

  /** No node still to come is the last one output. */
  lemma Apart(dummy: ListNode, tail: ListNode, nodes: seq<seq<ListNode>>, pos: seq<nat>, out: seq<ListNode>, trace: seq<nat>)
    requires Progress(nodes, pos, out, trace) && OutChain(dummy, tail, After(nodes, pos, trace), out)
    requires forall i, j :: 0 <= i < |nodes| && 0 <= j < |nodes[i]| ==> nodes[i][j] != dummy
    ensures forall i, j :: 0 <= i < |nodes| && pos[i] <= j < |nodes[i]| ==> nodes[i][j] != tail
  {}

  lemma HeadsStep(heads: seq<ListNode?>, nodes: seq<seq<ListNode>>, pos: seq<nat>, w: nat)
    requires |pos| == |nodes| && Heads(heads, nodes, pos) && w < |nodes|
    ensures Heads(heads[w := NodeAt(nodes[w], pos[w] + 1)], nodes, pos[w := pos[w] + 1])
  {}

  /** The output so far with what the two-way merges have yet to output is the whole of it. */
  ghost predicate OnCourse(nodes: seq<seq<ListNode>>, pos: seq<nat>, turn: seq<nat>, out: seq<ListNode>) {
    Fits(nodes, pos, turn) && nodes != [] && (LaterHigh(nodes) ==> out + Rest(nodes, pos, turn, 1) == Merged(nodes))
  }

  class LoserTree {
    var loser: seq<int>
    var leaf: seq<int>

    constructor ()
      ensures loser == [] && leaf == []
    {
      loser, leaf := [], [];
    }

    predicate Sized(k: nat)
      reads this
    {
      k >= 1 && |loser| == k && |leaf| == k + 1 && T.Entries(loser)
    }

    method Adjust(s0: nat)
      requires Sized(|loser|) && s0 < |loser|
      modifies this`loser
      ensures Sized(|old(loser)|) && loser == T.Adjust(leaf, old(loser), s0)
    {
      var kWays := |loser|;
      var s := s0;
      var p: nat := (s + kWays) / 2;
      ghost var target := T.Adjust(leaf, loser, s);
      while p > 0
        invariant p < kWays && 0 <= s <= kWays && Sized(kWays) && T.AdjustFrom(leaf, loser, s, p) == target
      {
        T.AdjustStep(leaf, loser, s, p);
        if leaf[s] > leaf[loser[p]] {
          s, loser := loser[p], loser[p := s];
        }
        p := p / 2;
      }
      loser := loser[0 := s];
    }

    /** Lines 66-68. */
    method FillSentinels()
      modifies this`loser
      ensures loser == seq(|old(loser)|, _ => |old(loser)|)
    {
      var kWays := |loser|;
      for i := 0 to kWays
        invariant |loser| == kWays && forall q :: 0 <= q < i ==> loser[q] == kWays
      {
        loser := loser[i := kWays];
      }
    }

    method CreateLoserTree()
      requires |loser| >= 1 && |leaf| == |loser| + 1
      modifies this
      ensures |loser| == old(|loser|)
      ensures leaf == old(leaf)[|loser| := INT_MIN] && loser == T.Created(leaf, 0)
    {
      var kWays := |loser|;
      leaf := leaf[kWays := INT_MIN];
      FillSentinels();
      var i := kWays - 1;
      while i >= 0
        invariant -1 <= i < kWays && |loser| == kWays && leaf == old(leaf)[kWays := INT_MIN]
        invariant loser == T.Created(leaf, i + 1)
      {
        T.CreatedStep(leaf, i);
        Adjust(i);
        i := i - 1;
      }
    }

    /** Leaf i gets the key of what is left of its list. */
    method Input(lists: array<ListNode?>, i: nat, ghost ns: seq<ListNode>, ghost j: nat)
      requires i < lists.Length && i < |leaf| && lists[i] == NodeAt(ns, j)
      modifies this`leaf
      ensures leaf == old(leaf)[i := Key(ns, j)]
    {
      if lists[i] != null {
        leaf := leaf[i := lists[i].val];
      } else {
        leaf := leaf[i := INT_MAX];
      }
    }

    method Output(lists: array<ListNode?>, tail: ListNode) returns (tail': ListNode)
      requires |loser| >= 1 && 0 <= loser[0] < lists.Length && lists[loser[0]] != null
      modifies tail`next, lists
      ensures tail' == old(lists[loser[0]]) && tail.next == tail'
      ensures lists[..] == old(lists[..])[loser[0] := tail'.next]
    {
      var w := loser[0];
      tail.next := lists[w];
      tail' := tail.next;
      lists[w] := lists[w].next;
    }

    /** One output, with what it does to the output chain. */
    method Append(lists: array<ListNode?>, dummy: ListNode, tail: ListNode, ghost out: seq<ListNode>) returns (tail': ListNode)
      requires |loser| >= 1 && 0 <= loser[0] < lists.Length && lists[loser[0]] != null
      requires OutChain(dummy, tail, tail.next, out) && AllDistinct(out)
      requires lists[loser[0]] !in out && lists[loser[0]] != dummy
      modifies tail`next, lists
      ensures tail' == old(lists[loser[0]]) && tail'.next == old(tail'.next)
      ensures lists[..] == old(lists[..])[loser[0] := tail'.next]
      ensures OutChain(dummy, tail', tail'.next, out + [tail'])
    {
      tail' := Output(lists, tail);
    }

    /** One output, with what it does to the linked structure: the node goes from the front of
        its list to the end of the output, and every other link stays. */
    method Relink(lists: array<ListNode?>, dummy: ListNode, tail: ListNode,
                  ghost nodes: seq<seq<ListNode>>, ghost pos: seq<nat>, ghost out: seq<ListNode>, ghost trace: seq<nat>)
      returns (tail': ListNode)
      requires |loser| >= 1 && 0 <= loser[0] < |nodes|
      requires Separate(nodes) && Progress(nodes, pos, out, trace) && pos[loser[0]] < |nodes[loser[0]]|
      requires Linked(lists, dummy, tail, nodes, pos, out, trace)
      modifies tail`next, lists
      ensures var w := loser[0];
        Linked(lists, dummy, tail', nodes, pos[w := pos[w] + 1], out + [nodes[w][pos[w]]], trace + [w])
    {
      ghost var w := loser[0];
      Apart(dummy, tail, nodes, pos, out, trace);
      HeadsStep(lists[..], nodes, pos, w);
      assert lists[w] == lists[..][w];
      tail' := Append(lists, dummy, tail, out);
      assert Links(nodes, pos[w := pos[w] + 1]);
    }

    /** The tree is full and its keys are the heads of the lists. */
    ghost predicate Ready(nodes: seq<seq<ListNode>>, pos: seq<nat>, turn: seq<nat>)
      reads this
    {
      && |loser| == |nodes| == |pos| && T.Full(leaf, loser, T.Draw(SeatsOf(nodes), turn)) && leaf[|nodes|] == INT_MIN
      && forall i :: 0 <= i < |nodes| ==> leaf[i] == Key(nodes[i], pos[i])
    }

    /** The champion is a list, or the sentinel where a later list ties with it ... */
    lemma ChampionSeat(nodes: seq<seq<ListNode>>, pos: seq<nat>, turn: seq<nat>)
      requires Ready(nodes, pos, turn)
      ensures 0 <= loser[0] <= |nodes|
      ensures loser[0] == |nodes| ==> !LaterHigh(nodes)
    {
      T.ChampionIsLeast(leaf, loser, T.Draw(SeatsOf(nodes), turn));
    }

    /** ... in which case its key is the sentinel's. */
    lemma TiedChampion(nodes: seq<seq<ListNode>>, pos: seq<nat>, turn: seq<nat>)
      requires Mergeable(nodes) && Ready(nodes, pos, turn) && !LaterHigh(nodes)
      ensures leaf[loser[0]] == INT_MIN
    {
      var i :| 1 <= i < |nodes| && StartsLow(nodes, i);
      T.ChampionIsLeast(leaf, loser, T.Draw(SeatsOf(nodes), turn));
      assert leaf[loser[0]] <= leaf[SeatsOf(nodes)[i]];
    }

    /** A list that is champion has a least head. */
    lemma LeastHead(nodes: seq<seq<ListNode>>, pos: seq<nat>, turn: seq<nat>)
      requires Mergeable(nodes) && Ready(nodes, pos, turn) && loser[0] < |nodes|
      ensures forall i :: 0 <= i < |nodes| ==> Key(nodes[loser[0]], pos[loser[0]]) <= Key(nodes[i], pos[i])
    {
      if LaterHigh(nodes) {
        T.ChampionIsLeast(leaf, loser, T.Draw(SeatsOf(nodes), turn));
        forall i | 0 <= i < |nodes| ensures leaf[loser[0]] <= leaf[i] {
          assert SeatsOf(nodes)[i] == i;
        }
      } else {
        TiedChampion(nodes, pos, turn);
      }
    }

    /** The champion's leaf gets the next key of its list and its path is replayed. */
    method Refill(lists: array<ListNode?>, ghost nodes: seq<seq<ListNode>>, ghost pos: seq<nat>, ghost turn: seq<nat>)
      requires Ready(nodes, pos, turn) && loser[0] < |nodes|
      requires Heads(lists[..], nodes, pos[loser[0] := pos[loser[0]] + 1])
      modifies this
      ensures var w := old(loser[0]); Ready(nodes, pos[w := pos[w] + 1], T.Toward(turn, w))
    {
      ghost var w := loser[0];
      T.ReplayKeepsFull(leaf, loser, T.Draw(SeatsOf(nodes), turn), w, Key(nodes[w], pos[w] + 1));
      assert lists[w] == lists[..][w];
      Input(lists, loser[0], nodes[w], pos[w] + 1);
      Adjust(loser[0]);
    }

    /** What holds before and after each round of the merge. */
    ghost predicate Merging(lists: array<ListNode?>, dummy: ListNode, tail: ListNode,
                            nodes: seq<seq<ListNode>>, pos: seq<nat>, turn: seq<nat>, out: seq<ListNode>, trace: seq<nat>)
      reads this, lists, dummy, tail, out, set i, j | 0 <= i < |nodes| && 0 <= j < |nodes[i]| :: nodes[i][j]
    {
      Plan(nodes, pos, out, trace) && Ready(nodes, pos, turn) && Linked(lists, dummy, tail, nodes, pos, out, trace)
    }

    /** The first half of a round (line 46): the champion's node is output. */
    method Emit(lists: array<ListNode?>, dummy: ListNode, tail: ListNode, ghost nodes: seq<seq<ListNode>>,
                ghost pos: seq<nat>, ghost turn: seq<nat>, ghost out: seq<ListNode>, ghost trace: seq<nat>)
      returns (tail': ListNode)
      requires Merging(lists, dummy, tail, nodes, pos, turn, out, trace)
      requires loser[0] < |nodes| && leaf[loser[0]] != INT_MAX
      modifies tail`next, lists
      ensures var w := loser[0];
        && pos[w] < |nodes[w]| && tail' == nodes[w][pos[w]]
        && Plan(nodes, pos[w := pos[w] + 1], out + [nodes[w][pos[w]]], trace + [w])
        && Linked(lists, dummy, tail', nodes, pos[w := pos[w] + 1], out + [nodes[w][pos[w]]], trace + [w])
    {
      LeastHead(nodes, pos, turn);
      PlanStep(nodes, pos, out, trace, loser[0]);
      tail' := Relink(lists, dummy, tail, nodes, pos, out, trace);
    }

    /** One round of the loop (lines 46-48): the champion's node is output, its leaf gets the next
        key and its path is replayed. */
    method Round(lists: array<ListNode?>, dummy: ListNode, tail: ListNode, ghost nodes: seq<seq<ListNode>>,
                 ghost pos: seq<nat>, ghost turn: seq<nat>, ghost out: seq<ListNode>, ghost trace: seq<nat>)
      returns (tail': ListNode, ghost w: nat, ghost turn': seq<nat>)
      requires Merging(lists, dummy, tail, nodes, pos, turn, out, trace) && OnCourse(nodes, pos, turn, out)
      requires loser[0] < |nodes| && leaf[loser[0]] != INT_MAX
      modifies this, tail`next, lists
      ensures w < |nodes| && pos[w] < |nodes[w]| && tail' == nodes[w][pos[w]]
      ensures Merging(lists, dummy, tail', nodes, pos[w := pos[w] + 1], turn', out + [nodes[w][pos[w]]], trace + [w])
      ensures OnCourse(nodes, pos[w := pos[w] + 1], turn', out + [nodes[w][pos[w]]])
    {
      w, turn' := loser[0], T.Toward(turn, loser[0]);
      InOrder(nodes, pos, turn, out);
      tail' := Emit(lists, dummy, tail, nodes, pos, turn, out, trace);
      Refill(lists, nodes, pos, turn);
    }

    /** What a round outputs is what the tree of two-way merges outputs next. */
    lemma InOrder(nodes: seq<seq<ListNode>>, pos: seq<nat>, turn: seq<nat>, out: seq<ListNode>)
      requires Mergeable(nodes) && Ready(nodes, pos, turn) && OnCourse(nodes, pos, turn, out)
      requires loser[0] < |nodes| && leaf[loser[0]] != INT_MAX
      ensures var w := loser[0];
        && pos[w] < |nodes[w]|
        && OnCourse(nodes, pos[w := pos[w] + 1], T.Toward(turn, w), out + [nodes[w][pos[w]]])
    {
      if LaterHigh(nodes) {
        EveryListRaces(nodes, pos, turn);
        RestStep(leaf, loser, nodes, pos, turn, 1, loser[0]);
      }
    }

    /** Where every later list starts above the sentinel's value, each list plays at its leaf. */
    lemma EveryListRaces(nodes: seq<seq<ListNode>>, pos: seq<nat>, turn: seq<nat>)
      requires Mergeable(nodes) && Ready(nodes, pos, turn) && LaterHigh(nodes)
      ensures Racing(leaf, loser, nodes, pos, turn) && T.Played(leaf, loser, T.Draw(T.Everyone(|nodes|), turn))
    {
      assert SeatsOf(nodes) == T.Everyone(|nodes|);
    }

    /** Lines 36-44: the vectors are sized, every leaf gets the head of its list, and the tree is
        created, whatever the object held before. */
    method Build(lists: array<ListNode?>, ghost nodes: seq<seq<ListNode>>) returns (ghost turn: seq<nat>)
      requires lists.Length == |nodes| >= 1 && Mergeable(nodes) && Heads(lists[..], nodes, Zeros(|nodes|))
      modifies this
      ensures Ready(nodes, Zeros(|nodes|), turn)
      ensures LaterHigh(nodes) ==> turn == T.Entered(|nodes|, 0)
    {
      var kWays := lists.Length;
      loser, leaf := Resize(loser, kWays), Resize(leaf, kWays + 1);
      for i := 0 to kWays
        invariant |loser| == kWays && |leaf| == kWays + 1
        invariant forall j :: 0 <= j < i ==> leaf[j] == Key(nodes[j], 0)
      {
        assert lists[i] == lists[..][i];
        Input(lists, i, nodes[i], 0);
      }
      CreateLoserTree();
      turn := T.EntryTurns(leaf, 0);
      SeatsOfHeads(leaf, nodes);
      if LaterHigh(nodes) {
        TurnsOfHeads(leaf, nodes);
      }
      T.CreatedIsFull(leaf);
    }

    /** When the champion's key is INT_MAX, what is left of every list is INT_MAX, and the output
        with what hangs off its last node is a null-terminated list. */
    lemma Finish(lists: array<ListNode?>, dummy: ListNode, tail: ListNode,
                 nodes: seq<seq<ListNode>>, pos: seq<nat>, turn: seq<nat>, out: seq<ListNode>, trace: seq<nat>)
      requires Merging(lists, dummy, tail, nodes, pos, turn, out, trace) && leaf[loser[0]] == INT_MAX
      ensures LaterHigh(nodes) && Stopped(nodes, pos, out, trace) && Rest(nodes, pos, turn, 1) == []
      ensures Chain(dummy.next, out + LeftOver(nodes, pos, trace))
    {
      if !LaterHigh(nodes) {
        TiedChampion(nodes, pos, turn);
      }
      ChampionSeat(nodes, pos, turn);
      LeastHead(nodes, pos, turn);
      OnlyMaxLeft(nodes, pos, loser[0]);
      EveryListRaces(nodes, pos, turn);
      NothingRests(leaf, loser, nodes, pos, turn);
      FinishChain(lists, dummy, tail, nodes, pos, out, trace);
    }

    method Prepare(lists: array<ListNode?>, dummy: ListNode, ghost nodes: seq<seq<ListNode>>) returns (ghost turn: seq<nat>)
      requires lists.Length == |nodes| >= 1 && Mergeable(nodes) && dummy.next == null
      requires forall i :: 0 <= i < |nodes| ==> Chain(lists[i], nodes[i])
      requires forall i, j :: 0 <= i < |nodes| && 0 <= j < |nodes[i]| ==> nodes[i][j] != dummy
      modifies this
      ensures Merging(lists, dummy, dummy, nodes, Zeros(|nodes|), turn, [], []) && OnCourse(nodes, Zeros(|nodes|), turn, [])
    {
      Start(lists, dummy, nodes);
      turn := Build(lists, nodes);
    }

    /** The loop of lines 45-49, from the full tree to a champion of INT_MAX, or to the sentinel
        as champion. */
    method Drain(lists: array<ListNode?>, dummy: ListNode, ghost nodes: seq<seq<ListNode>>, ghost turn0: seq<nat>)
      returns (ok: bool, ghost out: seq<ListNode>, ghost trace: seq<nat>, ghost pos: seq<nat>)
      requires Merging(lists, dummy, dummy, nodes, Zeros(|nodes|), turn0, [], []) && OnCourse(nodes, Zeros(|nodes|), turn0, [])
      modifies this, lists, dummy, set i, j | 0 <= i < |nodes| && 0 <= j < |nodes[i]| :: nodes[i][j]
      ensures ok <==> LaterHigh(nodes)
      ensures ok ==> Stopped(nodes, pos, out, trace) && out == Merged(nodes)
      ensures ok ==> Chain(dummy.next, out + LeftOver(nodes, pos, trace))
    {
      var tail := dummy;
      out, trace, pos := [], [], Zeros(|nodes|);
      ghost var turn := turn0;
      while leaf[loser[0]] != INT_MAX
        invariant Merging(lists, dummy, tail, nodes, pos, turn, out, trace)
        invariant tail == dummy || exists i, j :: 0 <= i < |nodes| && 0 <= j < |nodes[i]| && nodes[i][j] == tail
        invariant OnCourse(nodes, pos, turn, out)
        decreases Left(nodes, pos)
      {
        ChampionSeat(nodes, pos, turn);
        if loser[0] == lists.Length {
          return false, out, trace, pos;
        }
        ghost var w;
        tail, w, turn := Round(lists, dummy, tail, nodes, pos, turn, out, trace);
        LeftStep(nodes, pos, w);
        pos, out, trace := pos[w := pos[w] + 1], out + [nodes[w][pos[w]]], trace + [w];
      }
      Finish(lists, dummy, tail, nodes, pos, turn, out, trace);
      ok := true;
    }

    /** Merging k sorted disjoint lists. The merge runs into the sentinel, whose index is outside
        `lists`, if and only if a list but the first starts with INT_MIN. Otherwise it outputs what
        the tree of two-way merges outputs, node n from list trace[n], pos[i] nodes of list i in
        all: each list in its own order, the whole sorted. It stops at keys of INT_MAX, so what is
        left of the lists are nodes with that value, and the returned list ends in those of the
        list output last. No node is missing if and only if no other list has such nodes. */
    method MergeKLists(lists: array<ListNode?>, ghost nodes: seq<seq<ListNode>>)
      returns (r: Outcome, ghost out: seq<ListNode>, ghost trace: seq<nat>, ghost pos: seq<nat>)
      requires lists.Length == |nodes| && Mergeable(nodes)
      requires forall i :: 0 <= i < |nodes| ==> Chain(lists[i], nodes[i])
      modifies this, lists, set i, j | 0 <= i < |nodes| && 0 <= j < |nodes[i]| :: nodes[i][j]
      ensures r.Returned? <==> LaterHigh(nodes)
      ensures r.Returned? ==> out == Merged(nodes) && Stopped(nodes, pos, out, trace)
      ensures r.Returned? ==> var result := out + LeftOver(nodes, pos, trace);
        && Chain(r.head, result) && Sorted(result) && AllDistinct(result)
        && (Complete(nodes, result) <==> forall i :: 0 <= i < |nodes| && HasMax(nodes[i]) ==> EndsIn(Merged(nodes), nodes[i]))
      ensures r.Returned? && (forall i :: 0 <= i < |nodes| ==> !HasMax(nodes[i])) ==>
        && Chain(r.head, out) && Sorted(out) && AllDistinct(out)
        && forall i :: 0 <= i < |nodes| ==> Project(out, trace, i) == nodes[i]
    {
      if lists.Length == 0 {
        return Returned(null), [], [], [];
      }
      var dummy := new ListNode(-1);
      ghost var turn := Prepare(lists, dummy, nodes);
      var ok;
      ok, out, trace, pos := Drain(lists, dummy, nodes, turn);
      if !ok {
        return OutOfBounds, out, trace, pos;
      }
      r := Returned(dummy.next);
      Summary(nodes, pos, out, trace);
    }
  }

  lemma SeatsOfHeads(leaf: seq<int>, nodes: seq<seq<ListNode>>)
    requires |leaf| == |nodes| + 1 >= 2 && leaf[|nodes|] == INT_MIN
    requires forall i :: 0 <= i < |nodes| ==> leaf[i] == Key(nodes[i], 0)
    ensures T.Seats(leaf) == SeatsOf(nodes)
  {
    TiedIsLow(leaf, nodes);
  }

  lemma TurnsOfHeads(leaf: seq<int>, nodes: seq<seq<ListNode>>)
    requires LaterHigh(nodes) && |leaf| == |nodes| + 1 >= 2 && leaf[|nodes|] == INT_MIN
    requires forall i :: 0 <= i < |nodes| ==> leaf[i] == Key(nodes[i], 0)
    ensures T.EntryTurns(leaf, 0) == T.Entered(|nodes|, 0)
  {
    TiedIsLow(leaf, nodes);
    T.EveryoneEnters(leaf, 0);
  }

  lemma TiedIsLow(leaf: seq<int>, nodes: seq<seq<ListNode>>)
    requires |leaf| == |nodes| + 1 >= 2 && leaf[|nodes|] == INT_MIN
    requires forall i :: 0 <= i < |nodes| ==> leaf[i] == Key(nodes[i], 0)
    ensures forall i :: 0 <= i < |nodes| ==> (T.Tied(leaf, i) <==> StartsLow(nodes, i))
    ensures T.LaterUntied(leaf) <==> LaterHigh(nodes)
  {}

  lemma OnlyMaxLeft(nodes: seq<seq<ListNode>>, pos: seq<nat>, w: nat)
    requires Mergeable(nodes) && |pos| == |nodes| && w < |nodes| && Key(nodes[w], pos[w]) == INT_MAX
    requires forall i :: 0 <= i < |nodes| ==> Key(nodes[w], pos[w]) <= Key(nodes[i], pos[i])
    ensures forall i, j :: 0 <= i < |nodes| && pos[i] <= j < |nodes[i]| ==> nodes[i][j].val == INT_MAX
  {
    forall i, j | 0 <= i < |nodes| && pos[i] <= j < |nodes[i]| ensures nodes[i][j].val == INT_MAX {
      assert Key(nodes[i], pos[i]) == INT_MAX;
    }
  }

  lemma Summary(nodes: seq<seq<ListNode>>, pos: seq<nat>, out: seq<ListNode>, trace: seq<nat>)
    requires Stopped(nodes, pos, out, trace)
    ensures var result := out + LeftOver(nodes, pos, trace);
      && Sorted(result) && AllDistinct(result)
      && (Complete(nodes, result) <==> forall i :: 0 <= i < |nodes| && HasMax(nodes[i]) ==> EndsIn(out, nodes[i]))
    ensures (forall i :: 0 <= i < |nodes| ==> !HasMax(nodes[i])) ==>
      && out + LeftOver(nodes, pos, trace) == out
      && forall i :: 0 <= i < |nodes| ==> Project(out, trace, i) == nodes[i]
  {
    ResultSorted(nodes, pos, out, trace);
    ResultCompleteExactly(nodes, pos, out, trace);
    if forall i :: 0 <= i < |nodes| ==> !HasMax(nodes[i]) {
      ResultComplete(nodes, pos, out, trace);
    }
  }

  /** Before the first round nothing has been output. */
  lemma Start(lists: array<ListNode?>, dummy: ListNode, nodes: seq<seq<ListNode>>)
    requires lists.Length == |nodes| && Mergeable(nodes) && dummy.next == null
    requires forall i :: 0 <= i < |nodes| ==> Chain(lists[i], nodes[i])
    requires forall i, j :: 0 <= i < |nodes| && 0 <= j < |nodes[i]| ==> nodes[i][j] != dummy
    ensures Plan(nodes, Zeros(|nodes|), [], []) && Linked(lists, dummy, dummy, nodes, Zeros(|nodes|), [], [])
  {}

  lemma FinishChain(lists: array<ListNode?>, dummy: ListNode, tail: ListNode,
                    nodes: seq<seq<ListNode>>, pos: seq<nat>, out: seq<ListNode>, trace: seq<nat>)
    requires Progress(nodes, pos, out, trace) && Linked(lists, dummy, tail, nodes, pos, out, trace)
    ensures Chain(dummy.next, out + LeftOver(nodes, pos, trace))
  {
    if out != [] {
      var w := trace[|trace| - 1];
      var rest := nodes[w][pos[w]..];
      forall j | 0 <= j < |rest| ensures rest[j].next == NodeAt(rest, j + 1) {
        assert rest[j] == nodes[w][pos[w] + j];
      }
    }
  }

  ghost function LeftIn(nodes: seq<seq<ListNode>>, pos: seq<nat>): (r: seq<nat>)
    requires |pos| == |nodes| && forall i :: 0 <= i < |nodes| ==> pos[i] <= |nodes[i]|
    ensures |r| == |nodes| && forall i :: 0 <= i < |nodes| ==> r[i] == |nodes[i]| - pos[i]
  {
    seq(|nodes|, i requires 0 <= i < |nodes| => |nodes[i]| - pos[i])
  }

  /** The number of nodes not yet output. */
  ghost function Left(nodes: seq<seq<ListNode>>, pos: seq<nat>): nat
    requires |pos| == |nodes| && forall i :: 0 <= i < |nodes| ==> pos[i] <= |nodes[i]|
  {
    C.Sum(LeftIn(nodes, pos))
  }

  lemma LeftStep(nodes: seq<seq<ListNode>>, pos: seq<nat>, w: nat)
    requires |pos| == |nodes| && forall i :: 0 <= i < |nodes| ==> pos[i] <= |nodes[i]|
    requires w < |nodes| && pos[w] < |nodes[w]|
    ensures Left(nodes, pos[w := pos[w] + 1]) < Left(nodes, pos)
  {
    var left := LeftIn(nodes, pos);
    C.SumUpdate(left, w, left[w] - 1);
    assert LeftIn(nodes, pos[w := pos[w] + 1]) == left[w := left[w] - 1];
  }
}
