/** `ds/loser-tree/loser-tree.hpp`: the lists, and what a merge of them has done so far. */
module KWayMerge {
  const INT_MIN: int := -0x8000_0000
  const INT_MAX: int := 0x7fff_ffff

  /** A list node; the merge relinks `next` and never changes `val`. */
  class ListNode {
    const val: int
    var next: ListNode?

    constructor (x: int)
      ensures val == x && next == null
    {
      val, next := x, null;
    }
  }

  function Zeros(k: nat): (r: seq<nat>)
    ensures |r| == k && forall i :: 0 <= i < k ==> r[i] == 0
  {
    seq(k, _ => 0)
  }

  // The input lists, as sequences of nodes.

  predicate Sorted(ns: seq<ListNode>) {
    forall a, b :: 0 <= a < b < |ns| ==> ns[a].val <= ns[b].val
  }

  predicate AllDistinct(ns: seq<ListNode>) {
    forall a, b :: 0 <= a < b < |ns| ==> ns[a] != ns[b]
  }

  /** The lists are acyclic and pairwise disjoint. */
  ghost predicate Separate(nodes: seq<seq<ListNode>>) {
    forall i, j, i', j' | 0 <= i < |nodes| && 0 <= j < |nodes[i]| && 0 <= i' < |nodes| && 0 <= j' < |nodes[i']| ::
      nodes[i][j] == nodes[i'][j'] ==> i == i' && j == j'
  }

  /** Sorted, disjoint lists of ints. */
  ghost predicate Mergeable(nodes: seq<seq<ListNode>>) {
    && Separate(nodes)
    && (forall i :: 0 <= i < |nodes| ==> Sorted(nodes[i]))
    && (forall i, j :: 0 <= i < |nodes| && 0 <= j < |nodes[i]| ==> INT_MIN <= nodes[i][j].val <= INT_MAX)
  }

  /** List i starts with the sentinel's value. */
  predicate StartsLow(nodes: seq<seq<ListNode>>, i: nat)
    requires i < |nodes|
  {
    nodes[i] != [] && nodes[i][0].val == INT_MIN
  }

  /** No list but the first starts with the sentinel's value. */
  predicate LaterHigh(nodes: seq<seq<ListNode>>) {
    forall i :: 1 <= i < |nodes| ==> !StartsLow(nodes, i)
  }

  function NodeAt(ns: seq<ListNode>, j: nat): ListNode? {
    if j < |ns| then ns[j] else null
  }

  /** What `input` stores for a list of which j nodes have been output. */
  function Key(ns: seq<ListNode>, j: nat): int {
    if j < |ns| then ns[j].val else INT_MAX
  }

  /** A null-terminated list that starts at `head`. */
  ghost predicate Chain(head: ListNode?, ns: seq<ListNode>)
    reads ns
  {
    head == NodeAt(ns, 0) && forall j :: 0 <= j < |ns| ==> ns[j].next == NodeAt(ns, j + 1)
  }

  /** The nodes of `out` that came from list i, in order. */
  ghost function Project(out: seq<ListNode>, trace: seq<nat>, i: nat): seq<ListNode>
    requires |out| == |trace|
  {
    if out == [] then []
    else Project(out[..|out| - 1], trace[..|out| - 1], i)
         + if trace[|out| - 1] == i then [out[|out| - 1]] else []
  }

  /** How far the merge has come: `out` has been output, node n of it from list trace[n], and
      pos[i] nodes of list i are in it. */
  ghost predicate Progress(nodes: seq<seq<ListNode>>, pos: seq<nat>, out: seq<ListNode>, trace: seq<nat>) {
    && |pos| == |nodes| && |out| == |trace|
    && (forall i :: 0 <= i < |nodes| ==> pos[i] <= |nodes[i]|)
    && (forall n :: 0 <= n < |trace| ==> trace[n] < |nodes|)
    && (forall i :: 0 <= i < |nodes| ==> Project(out, trace, i) == nodes[i][..pos[i]])
    && AllDistinct(out)
    && (forall n, i, j :: 0 <= n < |out| && 0 <= i < |nodes| && pos[i] <= j < |nodes[i]| ==> out[n] != nodes[i][j])
  }

  /** The output is sorted, below INT_MAX, and no greater than any key still to come. */
  ghost predicate Ordered(nodes: seq<seq<ListNode>>, pos: seq<nat>, out: seq<ListNode>)
    requires |pos| == |nodes|
  {
    && Sorted(out)
    && (forall n, i :: 0 <= n < |out| && 0 <= i < |nodes| ==> out[n].val <= Key(nodes[i], pos[i]))
    && (forall n :: 0 <= n < |out| ==> out[n].val < INT_MAX)
  }

  /** The merge so far, heap aside. */
  ghost predicate Plan(nodes: seq<seq<ListNode>>, pos: seq<nat>, out: seq<ListNode>, trace: seq<nat>) {
    Mergeable(nodes) && Progress(nodes, pos, out, trace) && Ordered(nodes, pos, out)
  }

  lemma PlanStep(nodes: seq<seq<ListNode>>, pos: seq<nat>, out: seq<ListNode>, trace: seq<nat>, w: nat)
    requires Plan(nodes, pos, out, trace) && w < |nodes| && Key(nodes[w], pos[w]) < INT_MAX
    requires forall i :: 0 <= i < |nodes| ==> Key(nodes[w], pos[w]) <= Key(nodes[i], pos[i])
    ensures pos[w] < |nodes[w]|
    ensures Plan(nodes, pos[w := pos[w] + 1], out + [nodes[w][pos[w]]], trace + [w])
  {
    ProgressStep(nodes, pos, out, trace, w);
    OrderedStep(nodes, pos, out, w);
  }

  lemma ProjectSnoc(out: seq<ListNode>, trace: seq<nat>, x: ListNode, w: nat, i: nat)
    requires |out| == |trace|
    ensures Project(out + [x], trace + [w], i) == Project(out, trace, i) + if w == i then [x] else []
  {
    assert (out + [x])[..|out|] == out && (trace + [w])[..|out|] == trace;
  }

  lemma ProgressStep(nodes: seq<seq<ListNode>>, pos: seq<nat>, out: seq<ListNode>, trace: seq<nat>, w: nat)
    requires Separate(nodes) && Progress(nodes, pos, out, trace) && w < |nodes| && pos[w] < |nodes[w]|
    ensures Progress(nodes, pos[w := pos[w] + 1], out + [nodes[w][pos[w]]], trace + [w])
  {
    var x := nodes[w][pos[w]];
    forall i | 0 <= i < |nodes|
      ensures Project(out + [x], trace + [w], i) == nodes[i][..pos[w := pos[w] + 1][i]]
    {
      ProjectSnoc(out, trace, x, w, i);
    }
  }

  lemma OrderedStep(nodes: seq<seq<ListNode>>, pos: seq<nat>, out: seq<ListNode>, w: nat)
    requires |pos| == |nodes| && Ordered(nodes, pos, out) && w < |nodes| && pos[w] < |nodes[w]| && Sorted(nodes[w])
    requires nodes[w][pos[w]].val < INT_MAX
    requires forall i :: 0 <= i < |nodes| ==> nodes[w][pos[w]].val <= Key(nodes[i], pos[i])
    ensures Ordered(nodes, pos[w := pos[w] + 1], out + [nodes[w][pos[w]]])
  {
    var pos' := pos[w := pos[w] + 1];
    forall i | 0 <= i < |nodes| ensures Key(nodes[i], pos[i]) <= Key(nodes[i], pos'[i]) || i == w {}
    assert nodes[w][pos[w]].val <= Key(nodes[w], pos'[w]);
  }

  /** Every node that has been output comes from the list the trace names. */
  lemma {:induction false} OutputNode(out: seq<ListNode>, trace: seq<nat>, n: nat, i: nat)
    requires |out| == |trace| && n < |out| && trace[n] == i
    ensures out[n] in Project(out, trace, i)
  {
    if n < |out| - 1 {
      OutputNode(out[..|out| - 1], trace[..|out| - 1], n, i);
    }
  }

  lemma {:induction false} ProjectNode(out: seq<ListNode>, trace: seq<nat>, i: nat, x: ListNode)
    requires |out| == |trace| && x in Project(out, trace, i)
    ensures x in out
  {
    if out != [] {
      var m := |out| - 1;
      if x in Project(out[..m], trace[..m], i) {
        ProjectNode(out[..m], trace[..m], i, x);
      }
    }
  }

  /** What still hangs off the last node output. */
  ghost function LeftOver(nodes: seq<seq<ListNode>>, pos: seq<nat>, trace: seq<nat>): seq<ListNode>
    requires |pos| == |nodes| && forall n :: 0 <= n < |trace| ==> trace[n] < |nodes|
    requires forall i :: 0 <= i < |nodes| ==> pos[i] <= |nodes[i]|
  {
    if trace == [] then [] else var w := trace[|trace| - 1]; nodes[w][pos[w]..]
  }

  /** The merge has stopped: only nodes with the value INT_MAX are left. */
  ghost predicate Stopped(nodes: seq<seq<ListNode>>, pos: seq<nat>, out: seq<ListNode>, trace: seq<nat>) {
    && Plan(nodes, pos, out, trace)
    && forall i, j :: 0 <= i < |nodes| && pos[i] <= j < |nodes[i]| ==> nodes[i][j].val == INT_MAX
  }

  /** The nodes of list i that have been output are in `out`. */
  lemma OutputNodes(nodes: seq<seq<ListNode>>, pos: seq<nat>, out: seq<ListNode>, trace: seq<nat>)
    requires Progress(nodes, pos, out, trace)
    ensures forall i, j :: 0 <= i < |nodes| && 0 <= j < pos[i] ==> nodes[i][j] in out
    ensures forall n :: 0 <= n < |out| ==> out[n] in nodes[trace[n]]
  {
    forall i, j | 0 <= i < |nodes| && 0 <= j < pos[i] ensures nodes[i][j] in out {
      assert nodes[i][..pos[i]][j] == nodes[i][j];
      ProjectNode(out, trace, i, nodes[i][j]);
    }
    forall n | 0 <= n < |out| ensures out[n] in nodes[trace[n]] {
      OutputNode(out, trace, n, trace[n]);
      assert nodes[trace[n]][..pos[trace[n]]] <= nodes[trace[n]];
    }
  }

  /** The returned list is sorted and repeats no node. */
  lemma ResultSorted(nodes: seq<seq<ListNode>>, pos: seq<nat>, out: seq<ListNode>, trace: seq<nat>)
    requires Stopped(nodes, pos, out, trace)
    ensures Sorted(out + LeftOver(nodes, pos, trace)) && AllDistinct(out + LeftOver(nodes, pos, trace))
  {
    if trace != [] {
      var w := trace[|trace| - 1];
      forall j | pos[w] <= j < |nodes[w]| ensures nodes[w][j] == nodes[w][pos[w]..][j - pos[w]] {}
    }
  }

  /** For lists with all values below INT_MAX the returned list contains every input node, each
      exactly once, keeps the order of each list, and is sorted. */
  lemma ResultComplete(nodes: seq<seq<ListNode>>, pos: seq<nat>, out: seq<ListNode>, trace: seq<nat>)
    requires Stopped(nodes, pos, out, trace)
    requires forall i :: 0 <= i < |nodes| ==> !HasMax(nodes[i])
    ensures LeftOver(nodes, pos, trace) == [] && Sorted(out) && AllDistinct(out)
    ensures forall i :: 0 <= i < |nodes| ==> Project(out, trace, i) == nodes[i]
    ensures forall i, j :: 0 <= i < |nodes| && 0 <= j < |nodes[i]| ==> nodes[i][j] in out
    ensures forall n :: 0 <= n < |out| ==> out[n] in nodes[trace[n]]
  {
    PosIsMax(nodes, pos, out, trace);
    forall i | 0 <= i < |nodes| ensures pos[i] == |nodes[i]| && nodes[i][..pos[i]] == nodes[i] {}
    OutputNodes(nodes, pos, out, trace);
  }

  // ------------------------------------------------------------------------------------
  // Values of INT_MAX.

  predicate HasMax(ns: seq<ListNode>) {
    ns != [] && ns[|ns| - 1].val == INT_MAX
  }

  /** The last node of `out` is from the list `ns`. */
  predicate EndsIn(out: seq<ListNode>, ns: seq<ListNode>) {
    out != [] && out[|out| - 1] in ns
  }

  ghost predicate Complete(nodes: seq<seq<ListNode>>, result: seq<ListNode>) {
    forall i, j :: 0 <= i < |nodes| && 0 <= j < |nodes[i]| ==> nodes[i][j] in result
  }

  /** The merge outputs exactly the nodes with a value below INT_MAX. */
  lemma PosIsMax(nodes: seq<seq<ListNode>>, pos: seq<nat>, out: seq<ListNode>, trace: seq<nat>)
    requires Stopped(nodes, pos, out, trace)
    ensures forall i, j :: 0 <= i < |nodes| && 0 <= j < |nodes[i]| ==> (nodes[i][j].val == INT_MAX <==> j >= pos[i])
    ensures forall i, j :: 0 <= i < |nodes| && 0 <= j < |nodes[i]| && nodes[i][j].val < INT_MAX ==> nodes[i][j] in out
    ensures forall i :: 0 <= i < |nodes| ==> (HasMax(nodes[i]) <==> pos[i] < |nodes[i]|)
  {
    OutputNodes(nodes, pos, out, trace);
    forall i, j | 0 <= i < |nodes| && 0 <= j < pos[i] ensures nodes[i][j].val < INT_MAX {
      var n :| 0 <= n < |out| && out[n] == nodes[i][j];
    }
  }

  lemma EndsInLast(nodes: seq<seq<ListNode>>, pos: seq<nat>, out: seq<ListNode>, trace: seq<nat>, i: nat)
    requires Separate(nodes) && Progress(nodes, pos, out, trace) && i < |nodes|
    ensures EndsIn(out, nodes[i]) <==> trace != [] && trace[|trace| - 1] == i
  {
    OutputNodes(nodes, pos, out, trace);
  }

  lemma NothingMissing(nodes: seq<seq<ListNode>>, pos: seq<nat>, out: seq<ListNode>, trace: seq<nat>)
    requires Progress(nodes, pos, out, trace)
    requires forall i :: 0 <= i < |nodes| && pos[i] < |nodes[i]| ==> trace != [] && trace[|trace| - 1] == i
    ensures Complete(nodes, out + LeftOver(nodes, pos, trace))
  {
    OutputNodes(nodes, pos, out, trace);
    forall i, j | 0 <= i < |nodes| && pos[i] <= j < |nodes[i]| ensures nodes[i][j] in LeftOver(nodes, pos, trace) {
      assert nodes[i][pos[i]..][j - pos[i]] == nodes[i][j];
    }
  }

  lemma SomethingMissing(nodes: seq<seq<ListNode>>, pos: seq<nat>, out: seq<ListNode>, trace: seq<nat>, i: nat)
    requires Separate(nodes) && Progress(nodes, pos, out, trace) && i < |nodes| && pos[i] < |nodes[i]|
    requires trace != [] ==> trace[|trace| - 1] != i
    ensures nodes[i][pos[i]] !in out + LeftOver(nodes, pos, trace)
  {}

  /** No node is missing from the returned list if and only if every list with an INT_MAX is the
      one output last. */
  lemma ResultCompleteExactly(nodes: seq<seq<ListNode>>, pos: seq<nat>, out: seq<ListNode>, trace: seq<nat>)
    requires Stopped(nodes, pos, out, trace)
    ensures Complete(nodes, out + LeftOver(nodes, pos, trace))
       <==> forall i :: 0 <= i < |nodes| && HasMax(nodes[i]) ==> EndsIn(out, nodes[i])
  {
    PosIsMax(nodes, pos, out, trace);
    forall i | 0 <= i < |nodes| ensures EndsIn(out, nodes[i]) <==> trace != [] && trace[|trace| - 1] == i {
      EndsInLast(nodes, pos, out, trace, i);
    }
    if i :| 0 <= i < |nodes| && HasMax(nodes[i]) && !EndsIn(out, nodes[i]) {
      SomethingMissing(nodes, pos, out, trace, i);
    } else {
      NothingMissing(nodes, pos, out, trace);
    }
  }

  /** Two lists that both hold an INT_MAX always lose a node. */
  lemma TwoMaxLoses(nodes: seq<seq<ListNode>>, pos: seq<nat>, out: seq<ListNode>, trace: seq<nat>, a: nat, b: nat)
    requires Stopped(nodes, pos, out, trace) && a < b < |nodes| && HasMax(nodes[a]) && HasMax(nodes[b])
    ensures !Complete(nodes, out + LeftOver(nodes, pos, trace))
  {
    ResultCompleteExactly(nodes, pos, out, trace);
    EndsInLast(nodes, pos, out, trace, a);
    EndsInLast(nodes, pos, out, trace, b);
  }

  /** A value of list w below INT_MAX is greater than every such value of the other lists. */
  ghost predicate Tops(nodes: seq<seq<ListNode>>, w: nat, j: nat) {
    && w < |nodes| && j < |nodes[w]| && nodes[w][j].val < INT_MAX
    && forall i, l :: 0 <= i < |nodes| && i != w && 0 <= l < |nodes[i]| && nodes[i][l].val < INT_MAX ==>
                        nodes[i][l].val < nodes[w][j].val
  }

  /** The list with the greatest such value is the one output last. */
  lemma TopIsLast(nodes: seq<seq<ListNode>>, pos: seq<nat>, out: seq<ListNode>, trace: seq<nat>, w: nat, j: nat)
    requires Stopped(nodes, pos, out, trace) && Tops(nodes, w, j)
    ensures trace != [] && trace[|trace| - 1] == w
  {
    PosIsMax(nodes, pos, out, trace);
    OutputNodes(nodes, pos, out, trace);
    var n :| 0 <= n < |out| && out[n] == nodes[w][j];
    var last := |out| - 1;
    assert out[n].val <= out[last].val < INT_MAX;
    var l :| 0 <= l < |nodes[trace[last]]| && nodes[trace[last]][l] == out[last];
  }

  /** With one list on top, no node is missing if and only if no other list holds an INT_MAX. */
  lemma TopCompleteExactly(nodes: seq<seq<ListNode>>, pos: seq<nat>, out: seq<ListNode>, trace: seq<nat>, w: nat, j: nat)
    requires Stopped(nodes, pos, out, trace) && Tops(nodes, w, j)
    ensures Complete(nodes, out + LeftOver(nodes, pos, trace))
       <==> forall i :: 0 <= i < |nodes| && HasMax(nodes[i]) ==> i == w
  {
    ResultCompleteExactly(nodes, pos, out, trace);
    TopIsLast(nodes, pos, out, trace, w, j);
    forall i | 0 <= i < |nodes| ensures EndsIn(out, nodes[i]) <==> i == w {
      EndsInLast(nodes, pos, out, trace, i);
    }
  }

  lemma OutputValues(nodes: seq<seq<ListNode>>, pos: seq<nat>, out: seq<ListNode>, trace: seq<nat>, v: int)
    requires Progress(nodes, pos, out, trace)
    requires forall i, j :: 0 <= i < |nodes| && 0 <= j < |nodes[i]| ==> nodes[i][j].val == v
    ensures forall n :: 0 <= n < |out| ==> out[n].val == v
  {
    OutputNodes(nodes, pos, out, trace);
  }

  /** Lists that hold nothing but INT_MAX merge into the empty list: all their nodes are lost. */
  lemma MaxIsLost(nodes: seq<seq<ListNode>>, pos: seq<nat>, out: seq<ListNode>, trace: seq<nat>)
    requires Stopped(nodes, pos, out, trace)
    requires forall i, j :: 0 <= i < |nodes| && 0 <= j < |nodes[i]| ==> nodes[i][j].val == INT_MAX
    ensures out + LeftOver(nodes, pos, trace) == []
  {
    OutputValues(nodes, pos, out, trace, INT_MAX);
  }
}
