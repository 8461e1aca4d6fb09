/** The loser tree of `ds/loser-tree/loser-tree.hpp` as a mathematical object: k leaves, the
    leaf i at position i + k, and k - 1 internal nodes 1..k-1, where node p has the children
    2p and 2p + 1 and records the loser of the match between their winners.

    `leaf` maps a player to its key; it has one more entry, at k, for a sentinel. */
module Tournament {
  import opened Counting

  /** `occ` says who plays at each leaf position: the leaf's own index, or the sentinel k.
      `turn` says from which child of each node the last challenger came; ties go to that side. */
  datatype Draw = Draw(occ: seq<int>, turn: seq<nat>)

  /** p is the position x or one of its ancestors. */
  predicate Above(p: nat, x: nat)
    decreases x
  {
    p == x || (x > p && Above(p, x / 2))
  }

  function Sibling(c: nat): (b: nat)
    ensures c >= 2 ==> (c == 2 * (c / 2) && b == c + 1) || (c == 2 * (c / 2) + 1 && b == c - 1)
  {
    if c % 2 == 0 then c + 1 else c - 1
  }

  lemma SiblingTwice(c: nat)
    requires c >= 2
    ensures Sibling(Sibling(c)) == c
  {}

  predicate Entries(loser: seq<int>) {
    |loser| >= 1 && forall p :: 0 <= p < |loser| ==> 0 <= loser[p] <= |loser|
  }

  predicate Turns(turn: seq<nat>) {
    forall p :: 1 <= p < |turn| ==> turn[p] == 2 * p || turn[p] == 2 * p + 1
  }

  predicate Shape(leaf: seq<int>, loser: seq<int>, d: Draw) {
    && |loser| == |d.occ| == |d.turn| && |leaf| == |loser| + 1
    && Entries(loser) && Entries(d.occ) && Turns(d.turn)
  }

  /** The subtree at p has been played, w is its winner, and every node in it holds the loser of
      the match between the winners of its two subtrees; a tie is won by the side of the last
      challenger. */
  predicate Wins(leaf: seq<int>, loser: seq<int>, d: Draw, p: nat, w: int)
    requires Shape(leaf, loser, d) && 1 <= p < 2 * |loser| && 0 <= w <= |loser|
    decreases 2 * |loser| - p
  {
    if p >= |loser| then w == d.occ[p - |loser|]
    else
      var near, far, l := d.turn[p], Sibling(d.turn[p]), loser[p];
      || (leaf[w] <= leaf[l] && Wins(leaf, loser, d, near, w) && Wins(leaf, loser, d, far, l))
      || (leaf[w] < leaf[l] && Wins(leaf, loser, d, far, w) && Wins(leaf, loser, d, near, l))
  }

  /** The whole tree has been played and slot 0 holds its champion. */
  predicate Played(leaf: seq<int>, loser: seq<int>, d: Draw) {
    Shape(leaf, loser, d) && Wins(leaf, loser, d, 1, loser[0])
  }

  // ------------------------------------------------------------------------------------
  // Paths.

  lemma {:induction false} RootAbove(x: nat)
    requires x >= 1
    ensures Above(1, x)
  {
    if x > 1 {
      RootAbove(x / 2);
    }
  }

  lemma {:induction false} AboveParent(c: nat, x: nat)
    requires c >= 2 && Above(c, x)
    ensures Above(c / 2, x)
    decreases x
  {
    if c != x {
      AboveParent(c, x / 2);
    }
  }

  lemma {:induction false} AboveTrans(p: nat, q: nat, x: nat)
    requires Above(p, q) && Above(q, x)
    ensures Above(p, x)
    decreases x
  {
    if q != x {
      AboveTrans(p, q, x / 2);
    }
  }

  /** The subtrees of siblings are disjoint, and a node is not in the subtree of its child. */
  lemma {:induction false} Disjoint(c: nat, x: nat)
    requires c >= 2 && Above(c, x)
    ensures !Above(Sibling(c), x)
    ensures x != c / 2
    decreases x
  {
    if c != x {
      Disjoint(c, x / 2);
    }
  }

  /** Below an internal node every leaf is below one of its children. */
  lemma {:induction false} AboveSplit(p: nat, x: nat)
    requires 1 <= p < x && Above(p, x)
    ensures Above(2 * p, x) || Above(2 * p + 1, x)
    decreases x
  {
    if x / 2 != p {
      AboveSplit(p, x / 2);
    }
  }

  /** Every node on the path of leaf s turns to the side from which s comes. */
  function Toward(turn: seq<nat>, s: nat): (r: seq<nat>)
    requires s < |turn| && Turns(turn)
    ensures |r| == |turn| && Turns(r)
  {
    seq(|turn|, p requires 0 <= p < |turn| =>
      if p == 0 || !Above(p, s + |turn|) then turn[p] else if Above(2 * p, s + |turn|) then 2 * p else 2 * p + 1)
  }

  /** What changes from turn to turn' when s comes up its path: only the nodes of the path, which
      turn to s. */
  ghost predicate Turned(turn: seq<nat>, turn': seq<nat>, s: nat) {
    && |turn'| == |turn| && s < |turn|
    && (forall q :: 0 <= q < |turn| && !Above(q, s + |turn|) ==> turn'[q] == turn[q])
    && (forall c :: 2 <= c < 2 * |turn| && Above(c, s + |turn|) ==> turn'[c / 2] == c)
  }

  lemma TowardTurns(turn: seq<nat>, s: nat)
    requires s < |turn| && Turns(turn)
    ensures Turned(turn, Toward(turn, s), s)
  {
    forall c | 2 <= c < 2 * |turn| && Above(c, s + |turn|) ensures Toward(turn, s)[c / 2] == c {
      AboveParent(c, s + |turn|);
      Disjoint(c, s + |turn|);
    }
  }

  /** A subtree beside a path has no node of it. */
  lemma OffPath(c: nat, x: nat)
    requires c >= 2 && Above(c, x)
    ensures !Above(Sibling(c), x)
    ensures forall q :: Above(Sibling(c), q) ==> !Above(c, q) && !Above(q, x)
  {
    Disjoint(c, x);
    forall q | Above(Sibling(c), q) ensures !Above(c, q) && !Above(q, x) {
      Disjoint(Sibling(c), q);
      if Above(q, x) {
        AboveTrans(Sibling(c), q, x);
      }
    }
  }

  // ------------------------------------------------------------------------------------
  // What a played subtree depends on, and what its winner is.

  ghost predicate SameNodes(loser: seq<int>, turn: seq<nat>, loser': seq<int>, turn': seq<nat>, p: nat) {
    && |loser| == |loser'| == |turn| == |turn'|
    && forall q :: 0 <= q < |loser| && Above(p, q) ==> loser'[q] == loser[q] && turn'[q] == turn[q]
  }

  ghost predicate SamePlayers(leaf: seq<int>, occ: seq<int>, leaf': seq<int>, occ': seq<int>, p: nat) {
    && Entries(occ) && |occ| == |occ'| && |leaf| == |leaf'| == |occ| + 1
    && forall j :: 0 <= j < |occ| && Above(p, j + |occ|) ==> occ'[j] == occ[j] && leaf'[occ[j]] == leaf[occ[j]]
  }

  /** Nothing in the subtree at p differs. */
  ghost predicate SameBelow(leaf: seq<int>, loser: seq<int>, d: Draw, leaf': seq<int>, loser': seq<int>, d': Draw, p: nat) {
    SameNodes(loser, d.turn, loser', d'.turn, p) && SamePlayers(leaf, d.occ, leaf', d'.occ, p)
  }

  lemma SameInChild(leaf: seq<int>, loser: seq<int>, d: Draw, leaf': seq<int>, loser': seq<int>, d': Draw, c: nat)
    requires c >= 2 && SameBelow(leaf, loser, d, leaf', loser', d', c / 2)
    ensures SameBelow(leaf, loser, d, leaf', loser', d', c)
  {
    forall q | Above(c, q) ensures Above(c / 2, q) {
      AboveParent(c, q);
    }
  }

  /** A played subtree stays played when nothing in it changes. */
  lemma {:induction false} WinsFrame(leaf: seq<int>, loser: seq<int>, d: Draw,
                                     leaf': seq<int>, loser': seq<int>, d': Draw, p: nat, w: int)
    requires Shape(leaf, loser, d) && Shape(leaf', loser', d') && |loser| == |loser'|
    requires 1 <= p < 2 * |loser| && 0 <= w <= |loser| && Wins(leaf, loser, d, p, w)
    requires SameBelow(leaf, loser, d, leaf', loser', d', p)
    ensures Wins(leaf', loser', d', p, w) && leaf'[w] == leaf[w]
    decreases 2 * |loser| - p
  {
    var k := |loser|;
    if p >= k {
      assert Above(p, p - k + k);
    } else {
      assert Above(p, p);
      var near, far, l := d.turn[p], Sibling(d.turn[p]), loser[p];
      SameInChild(leaf, loser, d, leaf', loser', d', near);
      SameInChild(leaf, loser, d, leaf', loser', d', far);
      if leaf[w] <= leaf[l] && Wins(leaf, loser, d, near, w) && Wins(leaf, loser, d, far, l) {
        WinsFrame(leaf, loser, d, leaf', loser', d', near, w);
        WinsFrame(leaf, loser, d, leaf', loser', d', far, l);
      } else {
        WinsFrame(leaf, loser, d, leaf', loser', d', near, l);
        WinsFrame(leaf, loser, d, leaf', loser', d', far, w);
      }
    }
  }

  /** The child c of node p from which its winner w comes. */
  lemma WonFrom(leaf: seq<int>, loser: seq<int>, d: Draw, p: nat, w: int) returns (c: nat)
    requires Shape(leaf, loser, d) && 1 <= p < |loser| && 0 <= w <= |loser| && Wins(leaf, loser, d, p, w)
    ensures p < c < 2 * |loser| && c / 2 == p && Wins(leaf, loser, d, c, w) && Wins(leaf, loser, d, Sibling(c), loser[p])
    ensures leaf[w] < leaf[loser[p]] || (leaf[w] == leaf[loser[p]] && d.turn[p] == c)
  {
    var near, far, l := d.turn[p], Sibling(d.turn[p]), loser[p];
    c := if leaf[w] <= leaf[l] && Wins(leaf, loser, d, near, w) && Wins(leaf, loser, d, far, l) then near else far;
  }

  /** The winner of a subtree plays at one of its leaves. */
  lemma {:induction false} WinnerPlays(leaf: seq<int>, loser: seq<int>, d: Draw, p: nat, w: int) returns (j: nat)
    requires Shape(leaf, loser, d) && 1 <= p < 2 * |loser| && 0 <= w <= |loser| && Wins(leaf, loser, d, p, w)
    ensures j < |loser| && Above(p, j + |loser|) && d.occ[j] == w
    decreases 2 * |loser| - p
  {
    if p >= |loser| {
      j := p - |loser|;
    } else {
      var c := if Wins(leaf, loser, d, 2 * p, w) then 2 * p else 2 * p + 1;
      j := WinnerPlays(leaf, loser, d, c, w);
      AboveParent(c, j + |loser|);
    }
  }

  /** The winner of a subtree has a key no greater than any player at its leaves. */
  lemma {:induction false} WinnerIsLeast(leaf: seq<int>, loser: seq<int>, d: Draw, p: nat, w: int, j: nat)
    requires Shape(leaf, loser, d) && 1 <= p < 2 * |loser| && 0 <= w <= |loser| && Wins(leaf, loser, d, p, w)
    requires j < |loser| && Above(p, j + |loser|)
    ensures leaf[w] <= leaf[d.occ[j]]
    decreases 2 * |loser| - p
  {
    var x := j + |loser|;
    if p < |loser| {
      AboveSplit(p, x);
      var c := if Above(2 * p, x) then 2 * p else 2 * p + 1;
      if Wins(leaf, loser, d, c, w) {
        WinnerIsLeast(leaf, loser, d, c, w, j);
      } else {
        WinnerIsLeast(leaf, loser, d, c, loser[p], j);
      }
    }
  }

  // ------------------------------------------------------------------------------------
  // Replaying the path of one leaf.

  /** `Adjust` (lines 53-61) from node p on: the challenger s meets the loser stored at each node
      up the path, and the better of the two moves on. */
  function AdjustFrom(leaf: seq<int>, loser: seq<int>, s: int, p: nat): (r: seq<int>)
    requires |leaf| == |loser| + 1 && Entries(loser) && p < |loser| && 0 <= s <= |loser|
    ensures |r| == |loser| && Entries(r)
    decreases p
  {
    if p == 0 then loser[0 := s]
    else if leaf[s] > leaf[loser[p]] then AdjustFrom(leaf, loser[p := s], loser[p], p / 2)
    else AdjustFrom(leaf, loser, s, p / 2)
  }

  /** One turn of the loop of `Adjust`. */
  lemma AdjustStep(leaf: seq<int>, loser: seq<int>, s: int, p: nat)
    requires |leaf| == |loser| + 1 && Entries(loser) && 0 < p < |loser| && 0 <= s <= |loser|
    ensures AdjustFrom(leaf, loser, s, p) ==
            if leaf[s] > leaf[loser[p]] then AdjustFrom(leaf, loser[p := s], loser[p], p / 2)
            else AdjustFrom(leaf, loser, s, p / 2)
  {}

  function Adjust(leaf: seq<int>, loser: seq<int>, s: int): (r: seq<int>)
    requires |leaf| == |loser| + 1 && Entries(loser) && 0 <= s < |loser|
    ensures |r| == |loser| && Entries(r)
  {
    AdjustFrom(leaf, loser, s, (s + |loser|) / 2)
  }

  /** The player at leaf s plays nowhere else, or has a key strictly below all others. */
  ghost predicate StandsOut(leaf: seq<int>, d: Draw, s: nat)
    requires Entries(d.occ) && |leaf| == |d.occ| + 1 && s < |d.occ|
  {
    || (forall j :: 0 <= j < |d.occ| && j != s ==> d.occ[j] != d.occ[s])
    || (forall j :: 0 <= j < |d.occ| && d.occ[j] != d.occ[s] ==> leaf[d.occ[s]] < leaf[d.occ[j]])
  }

  /** If l wins the subtree of s and the player of s wins a subtree beside it, the two are one. */
  lemma ChampionFromChild(leaf: seq<int>, loser: seq<int>, d: Draw, s: nat, c: nat, b: nat, l: int)
    requires Shape(leaf, loser, d) && s < |loser| && 1 <= c < 2 * |loser| && 1 <= b < 2 * |loser| && 0 <= l <= |loser|
    requires Above(c, s + |loser|) && !Above(b, s + |loser|) && StandsOut(leaf, d, s)
    requires Wins(leaf, loser, d, c, l) && Wins(leaf, loser, d, b, d.occ[s])
    ensures l == d.occ[s]
  {
    var j := WinnerPlays(leaf, loser, d, b, d.occ[s]);
    assert j != s;
    var i := WinnerPlays(leaf, loser, d, c, l);
    WinnerIsLeast(leaf, loser, d, c, l, s);
  }

  /** A match won by the player of s: either child may seem to bring the winner, but it is the
      child on the path of s. */
  lemma ChampionMatch(leaf: seq<int>, loser: seq<int>, d: Draw, s: nat, p: nat, c: nat, b: nat)
    requires Shape(leaf, loser, d) && s < |loser| && 1 <= p < |loser| && StandsOut(leaf, d, s)
    requires (c == 2 * p && b == 2 * p + 1) || (c == 2 * p + 1 && b == 2 * p)
    requires Above(c, s + |loser|) && !Above(b, s + |loser|) && Wins(leaf, loser, d, p, d.occ[s])
    ensures Wins(leaf, loser, d, c, d.occ[s]) && Wins(leaf, loser, d, b, loser[p])
  {
    MatchSides(leaf, loser, d, p, c, b, d.occ[s]);
    if Wins(leaf, loser, d, c, loser[p]) && Wins(leaf, loser, d, b, d.occ[s]) {
      ChampionFromChild(leaf, loser, d, s, c, b, loser[p]);
    }
  }

  lemma MatchSides(leaf: seq<int>, loser: seq<int>, d: Draw, p: nat, c: nat, b: nat, w: int)
    requires Shape(leaf, loser, d) && 1 <= p < |loser| && 0 <= w <= |loser| && Wins(leaf, loser, d, p, w)
    requires (c == 2 * p && b == 2 * p + 1) || (c == 2 * p + 1 && b == 2 * p)
    ensures || (Wins(leaf, loser, d, c, w) && Wins(leaf, loser, d, b, loser[p]))
            || (Wins(leaf, loser, d, b, w) && Wins(leaf, loser, d, c, loser[p]))
  {}

  /** A champion that stands out has won every match on its path, and each node of the path holds
      the winner beside it. */
  lemma {:induction false} ChampionPath(leaf: seq<int>, loser: seq<int>, d: Draw, s: nat, c: nat)
    requires Shape(leaf, loser, d) && s < |loser| && 1 <= c < 2 * |loser| && Above(c, s + |loser|)
    requires Wins(leaf, loser, d, 1, d.occ[s]) && StandsOut(leaf, d, s)
    ensures Wins(leaf, loser, d, c, d.occ[s])
    ensures c >= 2 ==> Wins(leaf, loser, d, Sibling(c), loser[c / 2])
    decreases c
  {
    if c >= 2 {
      AboveParent(c, s + |loser|);
      ChampionPath(leaf, loser, d, s, c / 2);
      Disjoint(c, s + |loser|);
      ChampionMatch(leaf, loser, d, s, c / 2, c, Sibling(c));
    }
  }

  /** Only leaf s changes: who plays there, or the key of player s; its path turns toward it. */
  ghost predicate OnlyLeaf(leaf: seq<int>, d: Draw, leaf': seq<int>, d': Draw, s: nat) {
    && |leaf'| == |leaf| == |d.occ| + 1 && s < |d.occ|
    && d'.occ == d.occ[s := s] && Turned(d.turn, d'.turn, s)
    && (forall w :: 0 <= w < |leaf| && w != s ==> leaf'[w] == leaf[w])
    && (forall j :: 0 <= j < |d.occ| && j != s ==> d.occ[j] != s)
  }

  /** The replay of the path of s has come to c: the subtree at c has been replayed with winner s1,
      nothing outside it has changed, and before the change the player at s was champion. */
  ghost predicate Replayed(leaf: seq<int>, loser: seq<int>, d: Draw, leaf': seq<int>, d': Draw,
                           s: nat, now: seq<int>, s1: int, c: nat)
  {
    && Shape(leaf, loser, d) && Shape(leaf', now, d') && OnlyLeaf(leaf, d, leaf', d', s)
    && Wins(leaf, loser, d, 1, d.occ[s]) && StandsOut(leaf, d, s)
    && 1 <= c < 2 * |loser| && Above(c, s + |loser|) && 0 <= s1 <= |loser| && Wins(leaf', now, d', c, s1)
    && forall q :: 0 <= q < |loser| && !Above(c, q) ==> now[q] == loser[q]
  }

  /** The subtree beside c is as it was before the leaf changed ... */
  lemma SameNodesBeside(loser: seq<int>, now: seq<int>, turn: seq<nat>, turn': seq<nat>, s: nat, c: nat)
    requires |now| == |loser| == |turn| && s < |loser| && 2 <= c && Above(c, s + |loser|) && Turned(turn, turn', s)
    requires forall q :: 0 <= q < |loser| && !Above(c, q) ==> now[q] == loser[q]
    ensures SameNodes(loser, turn, now, turn', Sibling(c))
  {
    OffPath(c, s + |loser|);
  }

  lemma SamePlayersBeside(leaf: seq<int>, d: Draw, leaf': seq<int>, d': Draw, s: nat, c: nat)
    requires Entries(d.occ) && OnlyLeaf(leaf, d, leaf', d', s) && 2 <= c && Above(c, s + |d.occ|)
    ensures SamePlayers(leaf, d.occ, leaf', d'.occ, Sibling(c))
  {
    Disjoint(c, s + |d.occ|);
  }

  lemma SiblingWas(leaf: seq<int>, loser: seq<int>, d: Draw, s: nat, c: nat)
    requires Shape(leaf, loser, d) && s < |loser| && 2 <= c < 2 * |loser| && Above(c, s + |loser|)
    requires Wins(leaf, loser, d, 1, d.occ[s]) && StandsOut(leaf, d, s)
    ensures Wins(leaf, loser, d, Sibling(c), loser[c / 2])
  {
    ChampionPath(leaf, loser, d, s, c);
  }

  /** ... winner included. */
  lemma SiblingKept(leaf: seq<int>, loser: seq<int>, d: Draw, leaf': seq<int>, d': Draw, s: nat, now: seq<int>, s1: int, c: nat)
    requires Replayed(leaf, loser, d, leaf', d', s, now, s1, c) && c >= 2
    ensures Wins(leaf', now, d', Sibling(c), loser[c / 2])
  {
    SiblingWas(leaf, loser, d, s, c);
    SameNodesBeside(loser, now, d.turn, d'.turn, s, c);
    SamePlayersBeside(leaf, d, leaf', d', s, c);
    WinsFrame(leaf, loser, d, leaf', now, d', Sibling(c), loser[c / 2]);
  }

  /** Changing the node above c leaves the subtree at c as it is. */
  lemma ChildKept(leaf: seq<int>, now: seq<int>, now': seq<int>, d: Draw, c: nat, w: int)
    requires Shape(leaf, now, d) && Shape(leaf, now', d)
    requires 2 <= c < 2 * |now| && 0 <= w <= |now| && Wins(leaf, now, d, c, w)
    requires forall q :: 0 <= q < |now| && q != c / 2 ==> now'[q] == now[q]
    ensures Wins(leaf, now', d, c, w)
  {
    forall q | Above(c, q) ensures q != c / 2 {
      Disjoint(c, q);
    }
    WinsFrame(leaf, now, d, leaf, now', d, c, w);
  }

  /** One match of the replay: the challenger s1 from c against the loser stored above. */
  lemma AdjustNode(leaf: seq<int>, now: seq<int>, d: Draw, s1: int, c: nat)
    requires Shape(leaf, now, d) && 2 <= c < 2 * |now| && 0 <= s1 <= |now| && d.turn[c / 2] == c
    requires Wins(leaf, now, d, c, s1) && Wins(leaf, now, d, Sibling(c), now[c / 2])
    ensures leaf[s1] > leaf[now[c / 2]] ==>
              Shape(leaf, now[c / 2 := s1], d) && Wins(leaf, now[c / 2 := s1], d, c / 2, now[c / 2])
    ensures leaf[s1] <= leaf[now[c / 2]] ==> Wins(leaf, now, d, c / 2, s1)
  {
    var p := c / 2;
    if leaf[s1] > leaf[now[p]] {
      ChildKept(leaf, now, now[p := s1], d, c, s1);
      ChildKept(leaf, now, now[p := s1], d, Sibling(c), now[p]);
    }
  }

  lemma OutsideParent(loser: seq<int>, now: seq<int>, c: nat, s1: int)
    requires |now| == |loser| && 2 <= c < 2 * |loser|
    requires forall q :: 0 <= q < |loser| && !Above(c, q) ==> now[q] == loser[q]
    ensures forall q :: 0 <= q < |loser| && !Above(c / 2, q) ==> now[q] == loser[q] && now[c / 2 := s1][q] == loser[q]
  {
    forall q | 0 <= q < |loser| && !Above(c / 2, q) ensures !Above(c, q) {
      if Above(c, q) { AboveParent(c, q); }
    }
  }

  /** One climb of the replay. */
  lemma Climb(leaf: seq<int>, loser: seq<int>, d: Draw, leaf': seq<int>, d': Draw, s: nat, now: seq<int>, s1: int, c: nat)
    requires Replayed(leaf, loser, d, leaf', d', s, now, s1, c) && c >= 2
    ensures var p := c / 2;
      if leaf'[s1] > leaf'[now[p]] then Replayed(leaf, loser, d, leaf', d', s, now[p := s1], now[p], p)
      else Replayed(leaf, loser, d, leaf', d', s, now, s1, p)
  {
    AboveParent(c, s + |loser|);
    SiblingKept(leaf, loser, d, leaf', d', s, now, s1, c);
    assert !Above(c, c / 2);
    AdjustNode(leaf', now, d', s1, c);
    OutsideParent(loser, now, c, s1);
  }

  /** The rest of the replay completes the tree. */
  lemma {:induction false} AdjustFromRestores(leaf: seq<int>, loser: seq<int>, d: Draw, leaf': seq<int>, d': Draw,
                                              s: nat, now: seq<int>, s1: int, c: nat)
    requires Replayed(leaf, loser, d, leaf', d', s, now, s1, c)
    ensures Played(leaf', AdjustFrom(leaf', now, s1, c / 2), d')
    decreases c
  {
    var p := c / 2;
    if c == 1 {
      WinsFrame(leaf', now, d', leaf', now[0 := s1], d', 1, s1);
    } else {
      Climb(leaf, loser, d, leaf', d', s, now, s1, c);
      AdjustStep(leaf', now, s1, p);
      if leaf'[s1] > leaf'[now[p]] {
        AdjustFromRestores(leaf, loser, d, leaf', d', s, now[p := s1], now[p], p);
      } else {
        AdjustFromRestores(leaf, loser, d, leaf', d', s, now, s1, p);
      }
    }
  }

  /** `Adjust` restores the tree after the champion's leaf has changed. */
  lemma AdjustRestores(leaf: seq<int>, loser: seq<int>, d: Draw, leaf': seq<int>, d': Draw, s: nat)
    requires Shape(leaf, loser, d) && Shape(leaf', loser, d') && OnlyLeaf(leaf, d, leaf', d', s)
    requires Wins(leaf, loser, d, 1, d.occ[s]) && StandsOut(leaf, d, s)
    ensures Played(leaf', Adjust(leaf', loser, s), d')
  {
    AdjustFromRestores(leaf, loser, d, leaf', d', s, loser, s, s + |loser|);
  }

  lemma CountAfterUpdate(m: seq<int>, p: nat, s: int, x: int)
    requires p < |m|
    ensures multiset(m[p := s])[x] == multiset(m)[x] - Ind(x == m[p]) + Ind(x == s)
  {
    assert m[p] in multiset(m);
  }

  /** `Adjust` drops the old champion from the array and brings the challenger in; here for one
      player x. */
  lemma {:induction false} AdjustFromCount(leaf: seq<int>, loser: seq<int>, s: int, p: nat, x: int)
    requires |leaf| == |loser| + 1 && Entries(loser) && p < |loser| && 0 <= s <= |loser|
    ensures multiset(AdjustFrom(leaf, loser, s, p))[x] == multiset(loser)[x] - Ind(x == loser[0]) + Ind(x == s)
    decreases p
  {
    if p == 0 {
      CountAfterUpdate(loser, 0, s, x);
    } else if leaf[s] > leaf[loser[p]] {
      AdjustFromCount(leaf, loser[p := s], loser[p], p / 2, x);
      CountAfterUpdate(loser, p, s, x);
    } else {
      AdjustFromCount(leaf, loser, s, p / 2, x);
    }
  }

  lemma AdjustMultiset(leaf: seq<int>, loser: seq<int>, s: int)
    requires |leaf| == |loser| + 1 && Entries(loser) && 0 <= s < |loser|
    ensures multiset(Adjust(leaf, loser, s)) == multiset(loser[0 := s])
  {
    forall x: int ensures multiset(Adjust(leaf, loser, s))[x] == multiset(loser[0 := s])[x] {
      AdjustFromCount(leaf, loser, s, (s + |loser|) / 2, x);
      CountAfterUpdate(loser, 0, s, x);
    }
  }

  /** What slot 0 held does not matter. */
  lemma {:induction false} AdjustIgnoresTop(leaf: seq<int>, loser: seq<int>, s: int, p: nat, x: int)
    requires |leaf| == |loser| + 1 && Entries(loser) && p < |loser| && 0 <= s <= |loser| && 0 <= x <= |loser|
    ensures AdjustFrom(leaf, loser[0 := x], s, p) == AdjustFrom(leaf, loser, s, p)
    decreases p
  {
    if p == 0 {
      assert loser[0 := x][0 := s] == loser[0 := s];
    } else if leaf[s] > leaf[loser[p]] {
      assert loser[0 := x][p := s] == loser[p := s][0 := x];
      AdjustIgnoresTop(leaf, loser[p := s], loser[p], p / 2, x);
    } else {
      AdjustIgnoresTop(leaf, loser, s, p / 2, x);
    }
  }

  lemma TopIsIgnored(leaf: seq<int>, loser: seq<int>, s: int, x: int)
    requires |leaf| == |loser| + 1 && Entries(loser) && 0 <= s < |loser| && 0 <= x <= |loser|
    ensures Adjust(leaf, loser[0 := x], s) == Adjust(leaf, loser, s)
  {
    AdjustIgnoresTop(leaf, loser, s, (s + |loser|) / 2, x);
  }

  /** A challenger with a least key climbs to the top without a swap. */
  lemma {:induction false} LeastClimbs(leaf: seq<int>, loser: seq<int>, s: int, p: nat)
    requires |leaf| == |loser| + 1 && Entries(loser) && p < |loser| && 0 <= s <= |loser|
    requires forall w :: 0 <= w < |leaf| ==> leaf[s] <= leaf[w]
    ensures AdjustFrom(leaf, loser, s, p) == loser[0 := s]
    decreases p
  {
    if p > 0 {
      LeastClimbs(leaf, loser, s, p / 2);
    }
  }

  // ------------------------------------------------------------------------------------
  // Replay during the merge.

  /** The tree is played and its array holds just the players. */
  predicate Full(leaf: seq<int>, loser: seq<int>, d: Draw) {
    Played(leaf, loser, d) && multiset(loser) == multiset(d.occ)
  }

  /** Each leaf is played by its own list or by the sentinel. */
  predicate Seated(occ: seq<int>) {
    forall j :: 0 <= j < |occ| ==> occ[j] == j || occ[j] == |occ|
  }

  /** Slot 0 is the index of a least key among the players; it is a list that plays at its own
      leaf, or the sentinel. */
  lemma ChampionIsLeast(leaf: seq<int>, loser: seq<int>, d: Draw)
    requires Played(leaf, loser, d) && Seated(d.occ)
    ensures loser[0] < |loser| ==> d.occ[loser[0]] == loser[0]
    ensures loser[0] == |loser| ==> exists j :: 0 <= j < |loser| && d.occ[j] == |loser|
    ensures forall j :: 0 <= j < |loser| ==> leaf[loser[0]] <= leaf[d.occ[j]]
  {
    var k := |loser|;
    var i := WinnerPlays(leaf, loser, d, 1, loser[0]);
    forall j | 0 <= j < k ensures leaf[loser[0]] <= leaf[d.occ[j]] {
      RootAbove(j + k);
      WinnerIsLeast(leaf, loser, d, 1, loser[0], j);
    }
  }

  lemma ReplayIsPlayed(leaf: seq<int>, loser: seq<int>, d: Draw, s: nat, v: int)
    requires Played(leaf, loser, d) && Seated(d.occ) && s == loser[0] && s < |loser| && d.occ[s] == s
    ensures Played(leaf[s := v], Adjust(leaf[s := v], loser, s), Draw(d.occ, Toward(d.turn, s)))
  {
    assert d.occ == d.occ[s := s];
    TowardTurns(d.turn, s);
    AdjustRestores(leaf, loser, d, leaf[s := v], Draw(d.occ, Toward(d.turn, s)), s);
  }

  /** Rewriting the champion's key and replaying its path gives a full tree again: every node
      holds the loser between its subtrees' winners and the array holds the same players. */
  lemma ReplayKeepsFull(leaf: seq<int>, loser: seq<int>, d: Draw, s: nat, v: int)
    requires Full(leaf, loser, d) && Seated(d.occ) && s == loser[0] && s < |loser|
    ensures Full(leaf[s := v], Adjust(leaf[s := v], loser, s), Draw(d.occ, Toward(d.turn, s)))
  {
    ChampionIsLeast(leaf, loser, d);
    ReplayIsPlayed(leaf, loser, d, s, v);
    AdjustMultiset(leaf[s := v], loser, s);
    assert loser[0 := s] == loser;
  }

  // ------------------------------------------------------------------------------------
  // Creation.

  /** The array after `Adjust` has run for the leaves k-1 down to i (lines 66-71). */
  function Created(leaf: seq<int>, i: nat): (r: seq<int>)
    requires |leaf| >= 2 && i < |leaf|
    ensures |r| == |leaf| - 1 && Entries(r)
    decreases |leaf| - i
  {
    var k := |leaf| - 1;
    if i == k then seq(k, _ => k) else Adjust(leaf, Created(leaf, i + 1), i)
  }

  lemma CreatedStep(leaf: seq<int>, i: nat)
    requires i + 1 < |leaf|
    ensures Created(leaf, i) == Adjust(leaf, Created(leaf, i + 1), i)
  {}

  /** The key of leaf i ties with the sentinel's. */
  predicate Tied(leaf: seq<int>, i: nat)
    requires i < |leaf|
  {
    leaf[i] == leaf[|leaf| - 1]
  }

  /** The leaves i..k-1 play, except those that tie with the sentinel; it stands in for the
      others. */
  function Open(leaf: seq<int>, i: nat): (r: seq<int>)
    requires |leaf| >= 2
    ensures |r| == |leaf| - 1 && Entries(r) && Seated(r)
  {
    var k := |leaf| - 1;
    seq(k, j requires 0 <= j < k => if j >= i && !Tied(leaf, j) then j else k)
  }

  /** The same with the last leaf to come in, leaf 0, which plays in any case. */
  function Seats(leaf: seq<int>): (r: seq<int>)
    requires |leaf| >= 2
    ensures |r| == |leaf| - 1 && Entries(r) && Seated(r)
  {
    Open(leaf, 1)[0 := 0]
  }

  /** Where the nodes turn when the leaves k-1 down to i have come in, tied ones aside. */
  function EntryTurns(leaf: seq<int>, i: nat): (r: seq<nat>)
    requires |leaf| >= 2 && i < |leaf|
    ensures |r| == |leaf| - 1 && Turns(r)
    decreases |leaf| - i
  {
    var k := |leaf| - 1;
    if i == k then seq(k, p => 2 * p)
    else if i > 0 && Tied(leaf, i) then EntryTurns(leaf, i + 1)
    else Toward(EntryTurns(leaf, i + 1), i)
  }

  /** The sentinel's key is a least one. */
  predicate SentinelLeast(leaf: seq<int>) {
    |leaf| >= 2 && forall w :: 0 <= w < |leaf| ==> leaf[|leaf| - 1] <= leaf[w]
  }

  /** With nobody playing, the sentinel wins everywhere. */
  lemma {:induction false} SentinelsOnly(leaf: seq<int>, loser: seq<int>, d: Draw, p: nat)
    requires Shape(leaf, loser, d) && 1 <= p < 2 * |loser|
    requires forall q :: 0 <= q < |loser| ==> loser[q] == d.occ[q] == |loser|
    ensures Wins(leaf, loser, d, p, |loser|)
    decreases 2 * |loser| - p
  {
    if p < |loser| {
      SentinelsOnly(leaf, loser, d, d.turn[p]);
      SentinelsOnly(leaf, loser, d, Sibling(d.turn[p]));
    }
  }

  /** Where the sentinel stands in at some leaf and all players have greater keys, it wins. */
  lemma SentinelLeads(leaf: seq<int>, loser: seq<int>, d: Draw, i: nat)
    requires Played(leaf, loser, d) && i < |loser| && d.occ[i] == |loser|
    requires forall j :: 0 <= j < |loser| && d.occ[j] != |loser| ==> leaf[|loser|] < leaf[d.occ[j]]
    ensures loser[0] == |loser|
  {
    var k := |loser|;
    RootAbove(i + k);
    WinnerIsLeast(leaf, loser, d, 1, loser[0], i);
    var j := WinnerPlays(leaf, loser, d, 1, loser[0]);
  }

  /** One round of creation: leaf i joins in the place of a sentinel. */
  lemma JoinKeepsPlayed(leaf: seq<int>, loser: seq<int>, d: Draw, i: nat)
    requires Played(leaf, loser, d) && Seated(d.occ) && i < |loser| && d.occ[i] == |loser|
    requires forall j :: 0 <= j < |loser| && d.occ[j] != |loser| ==> leaf[|loser|] < leaf[d.occ[j]]
    ensures Played(leaf, Adjust(leaf, loser, i), Draw(d.occ[i := i], Toward(d.turn, i)))
  {
    SentinelLeads(leaf, loser, d, i);
    TowardTurns(d.turn, i);
    AdjustRestores(leaf, loser, d, leaf, Draw(d.occ[i := i], Toward(d.turn, i)), i);
  }

  /** The array without its champion. */
  function Headless(leaf: seq<int>, i: nat): (r: seq<int>)
    requires |leaf| >= 2 && i < |leaf|
    ensures |r| == |leaf| - 1 && Entries(r)
  {
    Created(leaf, i)[0 := |leaf| - 1]
  }

  function OpenDraw(leaf: seq<int>, i: nat): Draw
    requires |leaf| >= 2 && i < |leaf|
  {
    Draw(Open(leaf, i), EntryTurns(leaf, i))
  }

  lemma CreatedFromHeadless(leaf: seq<int>, i: nat)
    requires i + 1 < |leaf|
    ensures Created(leaf, i) == Adjust(leaf, Headless(leaf, i + 1), i)
  {
    CreatedStep(leaf, i);
    TopIsIgnored(leaf, Created(leaf, i + 1), i, |leaf| - 1);
  }

  /** A tied leaf goes straight to slot 0 and changes nothing below. */
  lemma TiedLeafOnTop(leaf: seq<int>, i: nat)
    requires SentinelLeast(leaf) && i + 1 < |leaf| && Tied(leaf, i)
    ensures Created(leaf, i) == Headless(leaf, i + 1)[0 := i]
    ensures Headless(leaf, i) == Headless(leaf, i + 1)
  {
    var k := |leaf| - 1;
    CreatedFromHeadless(leaf, i);
    LeastClimbs(leaf, Headless(leaf, i + 1), i, (i + k) / 2);
  }

  lemma OpenStep(leaf: seq<int>, i: nat)
    requires 1 <= i < |leaf| - 1
    ensures Open(leaf, i) == if Tied(leaf, i) then Open(leaf, i + 1) else Open(leaf, i + 1)[i := i]
  {}

  lemma OpenIsGreater(leaf: seq<int>, i: nat)
    requires SentinelLeast(leaf)
    ensures forall j :: 0 <= j < |leaf| - 1 && Open(leaf, i)[j] != |leaf| - 1 ==> leaf[|leaf| - 1] < leaf[Open(leaf, i)[j]]
  {}

  /** An untied leaf comes in ... */
  lemma UntiedLeafJoins(leaf: seq<int>, i: nat)
    requires SentinelLeast(leaf) && 1 <= i < |leaf| - 1 && !Tied(leaf, i)
    requires Played(leaf, Headless(leaf, i + 1), OpenDraw(leaf, i + 1))
    ensures Played(leaf, Created(leaf, i), OpenDraw(leaf, i))
  {
    OpenIsGreater(leaf, i + 1);
    OpenStep(leaf, i);
    CreatedFromHeadless(leaf, i);
    JoinKeepsPlayed(leaf, Headless(leaf, i + 1), OpenDraw(leaf, i + 1), i);
  }

  /** ... and while leaf 0 is out, the sentinel leads. */
  lemma SentinelStays(leaf: seq<int>, i: nat)
    requires SentinelLeast(leaf) && 1 <= i < |leaf| - 1
    requires Played(leaf, Created(leaf, i), OpenDraw(leaf, i))
    ensures Headless(leaf, i) == Created(leaf, i)
  {
    OpenIsGreater(leaf, i);
    SentinelLeads(leaf, Created(leaf, i), OpenDraw(leaf, i), 0);
  }

  lemma NobodyIn(leaf: seq<int>)
    requires |leaf| >= 2
    ensures Headless(leaf, |leaf| - 1) == Open(leaf, |leaf| - 1)
  {}

  /** After `Adjust` for the leaves k-1 down to i the array is, slot 0 aside, exactly the
      tournament in which the sentinel stands in for the leaves below i and the tied ones. */
  lemma {:induction false} CreatedIsPlayed(leaf: seq<int>, i: nat)
    requires SentinelLeast(leaf) && 1 <= i < |leaf|
    ensures Played(leaf, Headless(leaf, i), OpenDraw(leaf, i))
    decreases |leaf| - i
  {
    if i == |leaf| - 1 {
      NobodyIn(leaf);
      SentinelsOnly(leaf, Headless(leaf, i), OpenDraw(leaf, i), 1);
    } else {
      CreatedIsPlayed(leaf, i + 1);
      if Tied(leaf, i) {
        OpenStep(leaf, i);
        TiedLeafOnTop(leaf, i);
      } else {
        UntiedLeafJoins(leaf, i);
        SentinelStays(leaf, i);
      }
    }
  }

  lemma SameUpdate(a: seq<int>, p: nat, b: seq<int>, q: nat, x: int)
    requires p < |a| && q < |b| && a[p] == b[q] && multiset(a) == multiset(b)
    ensures multiset(a[p := x]) == multiset(b[q := x])
  {}

  lemma UntiedLeafCounts(leaf: seq<int>, i: nat)
    requires 1 <= i < |leaf| - 1 && Headless(leaf, i) == Created(leaf, i)
    requires multiset(Headless(leaf, i + 1)) == multiset(Open(leaf, i + 1))
    ensures multiset(Headless(leaf, i)) == multiset(Open(leaf, i + 1)[i := i])
  {
    CreatedFromHeadless(leaf, i);
    AdjustMultiset(leaf, Headless(leaf, i + 1), i);
    SameUpdate(Headless(leaf, i + 1), 0, Open(leaf, i + 1), i, i);
  }

  lemma UntiedLeafLeads(leaf: seq<int>, i: nat)
    requires SentinelLeast(leaf) && 1 <= i < |leaf| - 1 && !Tied(leaf, i)
    ensures Headless(leaf, i) == Created(leaf, i)
  {
    CreatedIsPlayed(leaf, i + 1);
    UntiedLeafJoins(leaf, i);
    SentinelStays(leaf, i);
  }

  lemma PlayersStep(leaf: seq<int>, i: nat)
    requires SentinelLeast(leaf) && 1 <= i < |leaf| - 1
    requires multiset(Headless(leaf, i + 1)) == multiset(Open(leaf, i + 1))
    ensures multiset(Headless(leaf, i)) == multiset(Open(leaf, i))
  {
    OpenStep(leaf, i);
    if Tied(leaf, i) {
      TiedLeafOnTop(leaf, i);
    } else {
      UntiedLeafLeads(leaf, i);
      UntiedLeafCounts(leaf, i);
    }
  }

  /** Its array holds exactly the players. */
  lemma {:induction false} CreatedPlayers(leaf: seq<int>, i: nat)
    requires SentinelLeast(leaf) && 1 <= i < |leaf|
    ensures multiset(Headless(leaf, i)) == multiset(Open(leaf, i))
    decreases |leaf| - i
  {
    if i == |leaf| - 1 {
      NobodyIn(leaf);
    } else {
      CreatedPlayers(leaf, i + 1);
      PlayersStep(leaf, i);
    }
  }

  lemma FirstLeafJoins(leaf: seq<int>)
    requires SentinelLeast(leaf)
    ensures Played(leaf, Created(leaf, 0), Draw(Seats(leaf), EntryTurns(leaf, 0)))
  {
    CreatedIsPlayed(leaf, 1);
    CreatedFromHeadless(leaf, 0);
    OpenIsGreater(leaf, 1);
    JoinKeepsPlayed(leaf, Headless(leaf, 1), OpenDraw(leaf, 1), 0);
  }

  lemma FirstLeafCounts(leaf: seq<int>)
    requires SentinelLeast(leaf)
    ensures multiset(Created(leaf, 0)) == multiset(Seats(leaf))
  {
    CreatedPlayers(leaf, 1);
    CreatedFromHeadless(leaf, 0);
    AdjustMultiset(leaf, Headless(leaf, 1), 0);
    SameUpdate(Headless(leaf, 1), 0, Open(leaf, 1), 0, 0);
  }

  /** `CreateLoserTree` builds the tree in which the sentinel stands in for every later leaf that
      ties with it. */
  lemma CreatedIsFull(leaf: seq<int>)
    requires SentinelLeast(leaf)
    ensures Full(leaf, Created(leaf, 0), Draw(Seats(leaf), EntryTurns(leaf, 0)))
  {
    FirstLeafJoins(leaf);
    FirstLeafCounts(leaf);
  }

  /** Everybody plays at their own leaf. */
  function Everyone(k: nat): (r: seq<int>)
    ensures |r| == k && forall j :: 0 <= j < k ==> r[j] == j
  {
    seq(k, j => j)
  }

  /** Where the nodes turn when the leaves k-1 down to i have come in: each to the side of the
      lowest-numbered of them below it. */
  function Entered(k: nat, i: nat): (r: seq<nat>)
    requires i <= k
    ensures |r| == k && Turns(r)
    decreases k - i
  {
    if i == k then seq(k, p => 2 * p) else Toward(Entered(k, i + 1), i)
  }

  lemma {:induction false} EveryoneEnters(leaf: seq<int>, i: nat)
    requires |leaf| >= 2 && i < |leaf| && LaterUntied(leaf)
    ensures EntryTurns(leaf, i) == Entered(|leaf| - 1, i)
    decreases |leaf| - i
  {
    if i < |leaf| - 1 {
      EveryoneEnters(leaf, i + 1);
    }
  }

  predicate LaterUntied(leaf: seq<int>)
    requires |leaf| >= 2
  {
    forall j :: 1 <= j < |leaf| - 1 ==> !Tied(leaf, j)
  }

  /** A later leaf that ties with the sentinel is lost, and the sentinel is in its place. */
  lemma TiedLeafIsLost(leaf: seq<int>, j: nat)
    requires SentinelLeast(leaf) && 1 <= j < |leaf| - 1 && Tied(leaf, j)
    ensures j !in Created(leaf, 0) && |leaf| - 1 in Created(leaf, 0)
    ensures !Tied(leaf, 0) ==> Created(leaf, 0)[0] == |leaf| - 1
  {
    var seats, k := Seats(leaf), |leaf| - 1;
    CreatedIsFull(leaf);
    assert seats[j] == k && j !in seats;
    assert j !in multiset(seats) && k in multiset(seats);
    if !Tied(leaf, 0) {
      SentinelLeads(leaf, Created(leaf, 0), Draw(seats, EntryTurns(leaf, 0)), j);
    }
  }

  /** The array is a permutation of 0..k-1 if and only if no later leaf ties with the sentinel. */
  lemma CreatedExactly(leaf: seq<int>)
    requires SentinelLeast(leaf)
    ensures multiset(Created(leaf, 0)) == multiset(Everyone(|leaf| - 1)) <==> LaterUntied(leaf)
  {
    var k := |leaf| - 1;
    CreatedIsFull(leaf);
    if j :| 1 <= j < k && Tied(leaf, j) {
      TiedLeafIsLost(leaf, j);
      assert Everyone(k)[j] in multiset(Everyone(k)) && j !in multiset(Created(leaf, 0));
    } else {
      assert Seats(leaf) == Everyone(k);
    }
  }
}
