/** What the loser tree computes, ties included: a tree of two-way merges, in which each merge
    takes equal values from the side it took from last. */
module MergeOrder {
  import opened KWayMerge
  import opened Tournament

  /** Merging two sorted lists; `near` is the one taken from last. */
  function TwoWay(near: seq<ListNode>, far: seq<ListNode>): seq<ListNode>
    decreases |near| + |far|
  {
    if near == [] then far
    else if far == [] then near
    else if near[0].val <= far[0].val then [near[0]] + TwoWay(near[1..], far)
    else [far[0]] + TwoWay(far[1..], near)
  }

  lemma TakeNear(x: ListNode, near: seq<ListNode>, far: seq<ListNode>)
    requires far == [] || x.val <= far[0].val
    ensures TwoWay([x] + near, far) == [x] + TwoWay(near, far)
  {
    assert ([x] + near)[1..] == near;
  }

  lemma TakeFar(x: ListNode, near: seq<ListNode>, far: seq<ListNode>)
    requires near == [] || x.val < near[0].val
    ensures TwoWay(near, [x] + far) == [x] + TwoWay(far, near)
  {
    assert ([x] + far)[1..] == far;
  }

  /** The nodes of a sorted list from j on, up to the first INT_MAX. */
  function Finite(ns: seq<ListNode>, j: nat): seq<ListNode>
    decreases |ns| - j
  {
    if j < |ns| && ns[j].val < INT_MAX then [ns[j]] + Finite(ns, j + 1) else []
  }

  predicate Fits(nodes: seq<seq<ListNode>>, pos: seq<nat>, turn: seq<nat>) {
    |pos| == |turn| == |nodes| && Turns(turn)
  }

  /** What the subtree at p has yet to output when pos[i] nodes of list i have been output and the
      merges have been turned as `turn` says. */
  function Rest(nodes: seq<seq<ListNode>>, pos: seq<nat>, turn: seq<nat>, p: nat): seq<ListNode>
    requires Fits(nodes, pos, turn) && 1 <= p < 2 * |nodes|
    decreases 2 * |nodes| - p
  {
    if p >= |nodes| then Finite(nodes[p - |nodes|], pos[p - |nodes|])
    else TwoWay(Rest(nodes, pos, turn, turn[p]), Rest(nodes, pos, turn, Sibling(turn[p])))
  }

  /** The order of the whole merge: the lists come in from the last to the first, and then the
      merges run. */
  function Merged(nodes: seq<seq<ListNode>>): seq<ListNode> {
    if nodes == [] then [] else Rest(nodes, Zeros(|nodes|), Entered(|nodes|, 0), 1)
  }

  ghost predicate SameLists(nodes: seq<seq<ListNode>>, pos: seq<nat>, turn: seq<nat>, pos': seq<nat>, turn': seq<nat>, p: nat)
    requires Fits(nodes, pos, turn) && Fits(nodes, pos', turn')
  {
    && (forall q :: p <= q < |nodes| && Above(p, q) ==> turn'[q] == turn[q])
    && (forall j :: 0 <= j < |nodes| && Above(p, j + |nodes|) ==> pos'[j] == pos[j])
  }

  lemma SameListsInChild(nodes: seq<seq<ListNode>>, pos: seq<nat>, turn: seq<nat>, pos': seq<nat>, turn': seq<nat>, c: nat)
    requires Fits(nodes, pos, turn) && Fits(nodes, pos', turn') && c >= 2
    requires SameLists(nodes, pos, turn, pos', turn', c / 2)
    ensures SameLists(nodes, pos, turn, pos', turn', c)
  {
    forall q | Above(c, q) ensures Above(c / 2, q) {
      AboveParent(c, q);
    }
  }

  /** A subtree in which nothing changes has the same to output. */
  lemma {:induction false} RestFrame(nodes: seq<seq<ListNode>>, pos: seq<nat>, turn: seq<nat>,
                                     pos': seq<nat>, turn': seq<nat>, p: nat)
    requires Fits(nodes, pos, turn) && Fits(nodes, pos', turn') && 1 <= p < 2 * |nodes|
    requires SameLists(nodes, pos, turn, pos', turn', p)
    ensures Rest(nodes, pos', turn', p) == Rest(nodes, pos, turn, p)
    decreases 2 * |nodes| - p
  {
    var k := |nodes|;
    if p >= k {
      assert Above(p, p - k + k);
    } else {
      assert Above(p, p);
      SameListsInChild(nodes, pos, turn, pos', turn', turn[p]);
      RestFrame(nodes, pos, turn, pos', turn', turn[p]);
      SameListsInChild(nodes, pos, turn, pos', turn', Sibling(turn[p]));
      RestFrame(nodes, pos, turn, pos', turn', Sibling(turn[p]));
    }
  }

  /** The tree has been played by all the lists, with the heads as keys. */
  ghost predicate Racing(leaf: seq<int>, loser: seq<int>, nodes: seq<seq<ListNode>>, pos: seq<nat>, turn: seq<nat>) {
    && Fits(nodes, pos, turn) && |loser| == |nodes| && Shape(leaf, loser, Draw(Everyone(|nodes|), turn))
    && forall i :: 0 <= i < |nodes| ==> leaf[i] == Key(nodes[i], pos[i]) <= INT_MAX
  }

  /** w's head is the first node that the subtree at p outputs, if it is not INT_MAX. */
  ghost predicate Leads(leaf: seq<int>, loser: seq<int>, nodes: seq<seq<ListNode>>, pos: seq<nat>, turn: seq<nat>, p: nat, w: int)
    requires Racing(leaf, loser, nodes, pos, turn) && 1 <= p < 2 * |nodes|
  {
    && 0 <= w < |nodes| && Above(p, w + |nodes|)
    && if leaf[w] < INT_MAX then Rest(nodes, pos, turn, p) != [] && Rest(nodes, pos, turn, p)[0] == nodes[w][pos[w]]
       else Rest(nodes, pos, turn, p) == []
  }

  /** The merge at the node above c starts with what c starts with, unless the sibling has an
      earlier node or wins the tie. */
  lemma LeadsAbove(leaf: seq<int>, loser: seq<int>, nodes: seq<seq<ListNode>>, pos: seq<nat>, turn: seq<nat>, c: nat, w: int, l: int)
    requires Racing(leaf, loser, nodes, pos, turn) && 2 <= c < 2 * |nodes|
    requires Leads(leaf, loser, nodes, pos, turn, c, w) && Leads(leaf, loser, nodes, pos, turn, Sibling(c), l)
    requires leaf[w] < leaf[l] || (leaf[w] == leaf[l] && turn[c / 2] == c)
    ensures Leads(leaf, loser, nodes, pos, turn, c / 2, w)
  {
    AboveParent(c, w + |nodes|);
    RestNode(nodes, pos, turn, c);
  }

  /** The winner of a subtree holds the first node it outputs. */
  lemma {:induction false} WinnerLeads(leaf: seq<int>, loser: seq<int>, nodes: seq<seq<ListNode>>, pos: seq<nat>, turn: seq<nat>,
                                       p: nat, w: int)
    requires Racing(leaf, loser, nodes, pos, turn) && 1 <= p < 2 * |nodes| && 0 <= w <= |nodes|
    requires Wins(leaf, loser, Draw(Everyone(|nodes|), turn), p, w)
    ensures Leads(leaf, loser, nodes, pos, turn, p, w)
    decreases 2 * |nodes| - p
  {
    if p < |nodes| {
      var c := WonFrom(leaf, loser, Draw(Everyone(|nodes|), turn), p, w);
      WinnerLeads(leaf, loser, nodes, pos, turn, c, w);
      WinnerLeads(leaf, loser, nodes, pos, turn, Sibling(c), loser[p]);
      LeadsAbove(leaf, loser, nodes, pos, turn, c, w, loser[p]);
    }
  }

  /** The other subtree at a node of w's path keeps what it has to output. */
  lemma RestBeside(nodes: seq<seq<ListNode>>, pos: seq<nat>, turn: seq<nat>, w: nat, c: nat, v: nat)
    requires Fits(nodes, pos, turn) && w < |nodes| && 2 <= c < 2 * |nodes| && Above(c, w + |nodes|)
    ensures Rest(nodes, pos[w := v], Toward(turn, w), Sibling(c)) == Rest(nodes, pos, turn, Sibling(c))
  {
    OffPath(c, w + |nodes|);
    TowardTurns(turn, w);
    RestFrame(nodes, pos, turn, pos[w := v], Toward(turn, w), Sibling(c));
  }

  lemma Take(x: ListNode, mine: seq<ListNode>, beside: seq<ListNode>, near: bool)
    requires beside == [] || x.val < beside[0].val || (x.val == beside[0].val && near)
    ensures (if near then TwoWay([x] + mine, beside) else TwoWay(beside, [x] + mine)) == [x] + TwoWay(mine, beside)
  {
    if near { TakeNear(x, mine, beside); } else { TakeFar(x, beside, mine); }
  }

  lemma RestNode(nodes: seq<seq<ListNode>>, pos: seq<nat>, turn: seq<nat>, c: nat)
    requires Fits(nodes, pos, turn) && 2 <= c < 2 * |nodes|
    ensures var mine, beside := Rest(nodes, pos, turn, c), Rest(nodes, pos, turn, Sibling(c));
      Rest(nodes, pos, turn, c / 2) == if turn[c / 2] == c then TwoWay(mine, beside) else TwoWay(beside, mine)
  {
    SiblingTwice(c);
    if turn[c / 2] == c {
      RestUnfolds(nodes, pos, turn, c / 2, c, Sibling(c));
    } else {
      RestUnfolds(nodes, pos, turn, c / 2, Sibling(c), c);
    }
  }

  lemma RestUnfolds(nodes: seq<seq<ListNode>>, pos: seq<nat>, turn: seq<nat>, p: nat, near: nat, far: nat)
    requires Fits(nodes, pos, turn) && 1 <= p < |nodes| && near == turn[p] && far == Sibling(near)
    ensures Rest(nodes, pos, turn, p) == TwoWay(Rest(nodes, pos, turn, near), Rest(nodes, pos, turn, far))
  {}

  lemma TowardAt(turn: seq<nat>, w: nat, c: nat)
    requires w < |turn| && Turns(turn) && 2 <= c < 2 * |turn| && Above(c, w + |turn|)
    ensures Toward(turn, w)[c / 2] == c
  {
    TowardTurns(turn, w);
  }

  /** The merge above c takes from c what c outputs ... */
  lemma RestBefore(nodes: seq<seq<ListNode>>, pos: seq<nat>, turn: seq<nat>, c: nat, x: ListNode, mine: seq<ListNode>)
    requires Fits(nodes, pos, turn) && 2 <= c < 2 * |nodes| && Rest(nodes, pos, turn, c) == [x] + mine
    requires var beside := Rest(nodes, pos, turn, Sibling(c));
      beside == [] || x.val < beside[0].val || (x.val == beside[0].val && turn[c / 2] == c)
    ensures Rest(nodes, pos, turn, c / 2) == [x] + TwoWay(mine, Rest(nodes, pos, turn, Sibling(c)))
  {
    RestNode(nodes, pos, turn, c);
    Take(x, mine, Rest(nodes, pos, turn, Sibling(c)), turn[c / 2] == c);
  }

  /** ... and is then turned to c. */
  lemma RestAfter(nodes: seq<seq<ListNode>>, pos: seq<nat>, turn: seq<nat>, w: nat, c: nat, v: nat)
    requires Fits(nodes, pos, turn) && w < |nodes| && 2 <= c < 2 * |nodes| && Above(c, w + |nodes|)
    ensures Rest(nodes, pos[w := v], Toward(turn, w), c / 2)
            == TwoWay(Rest(nodes, pos[w := v], Toward(turn, w), c), Rest(nodes, pos, turn, Sibling(c)))
  {
    TowardAt(turn, w, c);
    RestBeside(nodes, pos, turn, w, c, v);
    RestNode(nodes, pos[w := v], Toward(turn, w), c);
  }

  /** Outputting the winner's node and turning its path takes that node off the front. */
  lemma {:induction false} RestStep(leaf: seq<int>, loser: seq<int>, nodes: seq<seq<ListNode>>, pos: seq<nat>, turn: seq<nat>,
                                    p: nat, w: int)
    requires Racing(leaf, loser, nodes, pos, turn) && 1 <= p < 2 * |nodes| && 0 <= w < |nodes| && leaf[w] < INT_MAX
    requires Wins(leaf, loser, Draw(Everyone(|nodes|), turn), p, w)
    ensures Rest(nodes, pos, turn, p)
            == [nodes[w][pos[w]]] + Rest(nodes, pos[w := pos[w] + 1], Toward(turn, w), p)
    decreases 2 * |nodes| - p
  {
    if p < |nodes| {
      var c := WonFrom(leaf, loser, Draw(Everyone(|nodes|), turn), p, w);
      RestStep(leaf, loser, nodes, pos, turn, c, w);
      WinnerLeads(leaf, loser, nodes, pos, turn, c, w);
      WinnerLeads(leaf, loser, nodes, pos, turn, Sibling(c), loser[p]);
      RestBefore(nodes, pos, turn, c, nodes[w][pos[w]], Rest(nodes, pos[w := pos[w] + 1], Toward(turn, w), c));
      RestAfter(nodes, pos, turn, w, c, pos[w] + 1);
    }
  }

  /** When the champion's key is INT_MAX nothing is left to output. */
  lemma NothingRests(leaf: seq<int>, loser: seq<int>, nodes: seq<seq<ListNode>>, pos: seq<nat>, turn: seq<nat>)
    requires Racing(leaf, loser, nodes, pos, turn) && Played(leaf, loser, Draw(Everyone(|nodes|), turn))
    requires leaf[loser[0]] >= INT_MAX
    ensures Rest(nodes, pos, turn, 1) == []
  {
    WinnerLeads(leaf, loser, nodes, pos, turn, 1, loser[0]);
  }

  /** Two lists: one two-way merge, in which the first list wins the first tie. */
  lemma MergedTwo(a: seq<ListNode>, b: seq<ListNode>)
    ensures Merged([a, b]) == TwoWay(Finite(a, 0), Finite(b, 0))
  {
    var nodes := [a, b];
    TowardAt(Entered(2, 1), 0, 2);
    RestNode(nodes, Zeros(2), Entered(2, 0), 2);
  }

  lemma MergedOneTwo(a: ListNode, m: ListNode, b: ListNode)
    requires a.val == 1 && m.val == INT_MAX && b.val == 2
    ensures Merged([[a, m], [b]]) == [a, b]
  {
    MergedTwo([a, m], [b]);
    assert Finite([a, m], 0) == [a] && Finite([b], 0) == [b];
    assert [a][1..] == [];
  }

  /** Behind a smaller value INT_MAX is lost: [1, INT_MAX] and [2] merge into [1, 2]. */
  lemma MaxBehindSmaller(a: ListNode, m: ListNode, b: ListNode, pos: seq<nat>, out: seq<ListNode>, trace: seq<nat>)
    requires a.val == 1 && m.val == INT_MAX && b.val == 2
    requires Stopped([[a, m], [b]], pos, out, trace) && out == Merged([[a, m], [b]])
    ensures out + LeftOver([[a, m], [b]], pos, trace) == [a, b]
  {
    var nodes: seq<seq<ListNode>> := [[a, m], [b]];
    MergedOneTwo(a, m, b);
    assert nodes[1][0].val == 2;
    PosIsMax(nodes, pos, out, trace);
    EndsInLast(nodes, pos, out, trace, 1);
  }

  /** A tie at the top is decided by the tree: between [v, INT_MAX] and [v] the INT_MAX is kept if
      its list comes second and lost if it comes first. */
  lemma MaxBehindTie(a: ListNode, m: ListNode, b: ListNode)
    requires a.val == b.val < INT_MAX && m.val == INT_MAX && a != b
    ensures Merged([[a, m], [b]]) == [a, b] && !EndsIn([a, b], [a, m])
    ensures Merged([[b], [a, m]]) == [b, a] && EndsIn([b, a], [a, m])
  {
    MergedTwo([a, m], [b]);
    MergedTwo([b], [a, m]);
    assert Finite([a, m], 0) == [a] && Finite([b], 0) == [b];
    assert [a][1..] == [] && [b][1..] == [];
  }
}
