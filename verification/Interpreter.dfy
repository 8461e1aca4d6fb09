/** `dp/interpreter/release`: variables joined by + and -, parsed with a stack and evaluated
    against a map that the evaluation itself may extend. */
module Interpreter {
  import opened Counting

  datatype Option<T> = None | Some(value: T)

  /** `node` is the number of the allocation that made the object. */
  datatype Expr =
    | Var(node: nat, key: char)
    | Add(node: nat, left: Expr, right: Expr)
    | Sub(node: nat, left: Expr, right: Expr)

  // ------------------------------------------------------------------------------------
  // Evaluation.

  /** The value of an expression, with missing variables read as 0. */
  function Eval(e: Expr, vars: map<char, int>): int {
    match e
    case Var(_, key) => if key in vars then vars[key] else 0
    case Add(_, l, r) => Eval(l, vars) + Eval(r, vars)
    case Sub(_, l, r) => Eval(l, vars) - Eval(r, vars)
  }

  function Keys(e: Expr): set<char> {
    match e
    case Var(_, key) => {key}
    case Add(_, l, r) => Keys(l) + Keys(r)
    case Sub(_, l, r) => Keys(l) + Keys(r)
  }

  /** `after` is `before` with the missing ones of `keys` entered as 0, and nothing else. */
  ghost predicate Defaulted(before: map<char, int>, keys: set<char>, after: map<char, int>) {
    && after.Keys == before.Keys + keys
    && (forall c :: c in before ==> after[c] == before[c])
    && (forall c :: c in keys && c !in before ==> after[c] == 0)
  }

  class Variables {
    var vars: map<char, int>

    constructor (vars: map<char, int>)
      ensures this.vars == vars
    {
      this.vars := vars;
    }

    /** `Interpret`: reading a missing variable inserts it with the value 0. */
    method Interpret(e: Expr) returns (v: int)
      modifies this
      ensures v == Eval(e, old(vars))
      ensures Defaulted(old(vars), Keys(e), vars)
      decreases e
    {
      match e {
        case Var(_, key) =>
          if key !in vars {
            vars := vars[key := 0];
          }
          v := vars[key];
        case Add(_, left, right) =>
          ghost var before := vars;
          var l := Interpret(left);
          EvalDefaulted(right, before, Keys(left), vars);
          var r := Interpret(right);
          v := l + r;
        case Sub(_, left, right) =>
          ghost var before := vars;
          var l := Interpret(left);
          EvalDefaulted(right, before, Keys(left), vars);
          var r := Interpret(right);
          v := l - r;
      }
    }
  }

  /** What one operand inserts does not change the value of the other, so the order in which C++
      evaluates the two does not matter. */
  lemma {:induction false} EvalDefaulted(e: Expr, before: map<char, int>, keys: set<char>, after: map<char, int>)
    requires Defaulted(before, keys, after)
    ensures Eval(e, after) == Eval(e, before)
  {
    match e
    case Var(_, _) =>
    case Add(_, l, r) => EvalDefaulted(l, before, keys, after); EvalDefaulted(r, before, keys, after);
    case Sub(_, l, r) => EvalDefaulted(l, before, keys, after); EvalDefaulted(r, before, keys, after);
  }

  // ------------------------------------------------------------------------------------
  // Parsing.

  predicate IsOp(c: char) {
    c == '+' || c == '-'
  }

  /** Indexing a `std::string` at its size gives the null character. */
  function At(s: string, i: nat): char {
    if i < |s| then s[i] else '\0'
  }

  /** A first operand and then, at every odd position, an operator. */
  predicate Chained(s: string) {
    |s| >= 1 && !IsOp(s[0]) && forall i :: 0 <= i < |s| && i % 2 == 1 ==> IsOp(s[i])
  }

  /** Where the parser last starts afresh, if it has started at m and come to i: it does so at
      every operand that stands where an operator is due. */
  function LastStart(s: string, m: nat, i: nat): nat
    requires m < i
    decreases |s| - i
  {
    if i >= |s| then m else if IsOp(s[i]) then LastStart(s, m, i + 2) else LastStart(s, i, i + 1)
  }

  function Start(s: string): nat {
    LastStart(s, 0, 1)
  }

  /** The end of the string, moved by one if it ends in an operator. */
  function End(s: string): nat {
    if (|s| - Start(s)) % 2 == 1 then |s| else |s| + 1
  }

  predicate Between(m: nat, n: nat) {
    m < n && (n - m) % 2 == 1
  }

  /** The left-associated expression of the characters m..n-1. Each node has the number of the
      character that completes it: one for the operand after an operator, the next for both. */
  function Tree(s: string, m: nat, n: nat): Expr
    requires Between(m, n)
  {
    if n == m + 1 then Var(m, At(s, m))
    else
      var left, right := Tree(s, m, n - 2), Var(n - 2, At(s, n - 1));
      if At(s, n - 2) == '+' then Add(n - 1, left, right) else Sub(n - 1, left, right)
  }

  lemma {:induction false} LastStartFacts(s: string, m: nat, i: nat)
    requires m < i && m < |s| && i <= |s| + 1 && (i - m) % 2 == 1 && !IsOp(s[m])
    requires forall j :: m < j < i && j < |s| && (j - m) % 2 == 1 ==> IsOp(s[j])
    ensures var r := LastStart(s, m, i);
      && m <= r < |s| && !IsOp(s[r])
      && (forall j :: r < j < |s| && (j - r) % 2 == 1 ==> IsOp(s[j]))
      && (r == m <==> forall j :: m < j < |s| && (j - m) % 2 == 1 ==> IsOp(s[j]))
    decreases |s| - i
  {
    if i < |s| {
      if IsOp(s[i]) {
        LastStartFacts(s, m, i + 2);
      } else {
        LastStartFacts(s, i, i + 1);
      }
    }
  }

  /** What is parsed is a chained suffix of the string, and the whole if and only if that is
      chained. */
  lemma StartFacts(s: string)
    requires s != [] && !IsOp(s[0])
    ensures Start(s) < |s| && Chained(s[Start(s)..]) && (Start(s) == 0 <==> Chained(s))
    ensures Between(Start(s), End(s))
  {
    LastStartFacts(s, 0, 1);
    var m := Start(s);
    forall j | 0 <= j < |s| - m ensures s[m..][j] == s[j + m] {}
  }

  /** `Analyse`. It has no result where the source takes the top of an empty stack; `n` is the
      number of nodes allocated. */
  method Analyse(s: string) returns (r: Option<Expr>, n: nat)
    ensures r.None? <==> s == [] || IsOp(s[0])
    ensures r.Some? ==> n == End(s) && Between(Start(s), n) && r.value == Tree(s, Start(s), n)
  {
    var stack: seq<Expr> := [];
    n := 0;
    var i := 0;
    ghost var m := 0;
    while i < |s|
      invariant 0 <= i <= |s| + 1 && n == i && (i == 0 <==> stack == [])
      invariant i > 0 ==> s != [] && !IsOp(s[0]) && Between(m, i) && LastStart(s, m, i) == Start(s)
      invariant i > 0 ==> stack[|stack| - 1] == Tree(s, m, i)
    {
      if s[i] == '+' || s[i] == '-' {
        if stack == [] {
          return None, n;
        }
        var left := stack[|stack| - 1];
        var right := Var(n, if i + 1 < |s| then s[i + 1] else '\0');
        stack := stack + [if s[i] == '+' then Add(n + 1, left, right) else Sub(n + 1, left, right)];
        i, n := i + 2, n + 2;
      } else {
        m := i;
        stack := stack + [Var(n, s[i])];
        i, n := i + 1, n + 1;
      }
    }
    if stack == [] {
      return None, n;
    }
    return Some(stack[|stack| - 1]), n;
  }

  // ------------------------------------------------------------------------------------
  // Release.

  /** `Release`: the order in which the nodes of an expression are freed. */
  function Release(e: Expr): seq<nat> {
    match e
    case Var(node, _) => [node]
    case Add(node, l, r) => Release(l) + Release(r) + [node]
    case Sub(node, l, r) => Release(l) + Release(r) + [node]
  }

  /** How often the node x occurs in an expression. */
  function Occurs(e: Expr, x: nat): nat {
    Ind(e.node == x) + if e.Var? then 0 else Occurs(e.left, x) + Occurs(e.right, x)
  }

  lemma {:induction false} FreedCounts(e: Expr, x: nat)
    ensures multiset(Release(e))[x] == Occurs(e, x)
  {
    if !e.Var? {
      FreedCounts(e.left, x);
      FreedCounts(e.right, x);
      assert multiset(Release(e.left) + Release(e.right) + [e.node])[x]
          == multiset(Release(e.left))[x] + multiset(Release(e.right))[x] + multiset([e.node])[x];
    }
  }

  function Nodes(e: Expr): set<nat> {
    {e.node} + if e.Var? then {} else Nodes(e.left) + Nodes(e.right)
  }

  /** x is e or a part of it. */
  predicate Within(x: Expr, e: Expr) {
    x == e || (!e.Var? && (Within(x, e.left) || Within(x, e.right)))
  }

  predicate Distinct(f: seq<nat>) {
    forall i, j :: 0 <= i < j < |f| ==> f[i] != f[j]
  }

  /** Exactly the nodes of an expression are freed. */
  lemma {:induction false} FreedNodes(e: Expr)
    ensures forall x :: x in Release(e) <==> x in Nodes(e)
  {
    if !e.Var? {
      FreedNodes(e.left);
      FreedNodes(e.right);
    }
  }

  lemma {:induction false} PartNodes(x: Expr, e: Expr)
    requires Within(x, e)
    ensures Nodes(x) <= Nodes(e)
  {
    if x != e {
      if Within(x, e.left) { PartNodes(x, e.left); } else { PartNodes(x, e.right); }
    }
  }

  /** g is the part of f that starts at a. */
  predicate Embeds(f: seq<nat>, a: nat, g: seq<nat>) {
    a + |g| <= |f| && forall i :: 0 <= i < |g| ==> f[a + i] == g[i]
  }

  /** A node that occurs in a part of a sequence without repetition occurs nowhere else. */
  lemma InPart(f: seq<nat>, a: nat, g: seq<nat>, p: nat)
    requires Distinct(f) && Embeds(f, a, g) && p < |f| && f[p] in g
    ensures a <= p < a + |g| && g[p - a] == f[p]
  {
    var i :| 0 <= i < |g| && g[i] == f[p];
    assert f[a + i] == f[p];
  }

  lemma PartDistinct(f: seq<nat>, a: nat, g: seq<nat>)
    requires Distinct(f) && Embeds(f, a, g)
    ensures Distinct(g)
  {
    forall i, j | 0 <= i < j < |g| ensures g[i] != g[j] {
      assert f[a + i] == g[i] && f[a + j] == g[j];
    }
  }

  lemma PartFrees(x: Expr, e: Expr)
    requires Within(x, e) && !x.Var?
    ensures x.node in Release(e) && forall y :: y in Nodes(x.left) + Nodes(x.right) ==> y in Release(e)
  {
    FreedNodes(e);
    PartNodes(x, e);
  }

  lemma TopLast(e: Expr, p: nat, q: nat)
    requires Distinct(Release(e)) && !e.Var? && p < |Release(e)| && q < |Release(e)|
    requires Release(e)[p] in Nodes(e.left) + Nodes(e.right) && Release(e)[q] == e.node
    ensures p < q
  {
    var f, l, r := Release(e), Release(e.left), Release(e.right);
    FreedNodes(e.left);
    FreedNodes(e.right);
    assert f[|f| - 1] == e.node;
    InPart(f, 0, l + r, p);
  }

  /** The part of an expression that is released from position a on. */
  lemma PartReleased(e: Expr, x: Expr) returns (part: Expr, a: nat)
    requires Within(x, e) && x != e
    ensures !e.Var? && (part == e.left || part == e.right) && Within(x, part)
    ensures Embeds(Release(e), a, Release(part))
  {
    part, a := if Within(x, e.left) then e.left else e.right, if Within(x, e.left) then 0 else |Release(e.left)|;
  }

  lemma Descend(e: Expr, x: Expr, p: nat, q: nat) returns (part: Expr, a: nat)
    requires Distinct(Release(e)) && Within(x, e) && x != e && !x.Var? && p < |Release(e)| && q < |Release(e)|
    requires Release(e)[p] in Nodes(x.left) + Nodes(x.right) && Release(e)[q] == x.node
    ensures !e.Var? && (part == e.left || part == e.right) && Within(x, part) && Distinct(Release(part))
    ensures a <= p < a + |Release(part)| && Release(part)[p - a] == Release(e)[p]
    ensures a <= q < a + |Release(part)| && Release(part)[q - a] == Release(e)[q]
  {
    part, a := PartReleased(e, x);
    PartFrees(x, part);
    InPart(Release(e), a, Release(part), p);
    InPart(Release(e), a, Release(part), q);
    PartDistinct(Release(e), a, Release(part));
  }

  /** The nodes of both operands of x are freed before x, so none is read after it is freed. */
  lemma {:induction false} OperandsFirst(e: Expr, x: Expr, p: nat, q: nat)
    requires Distinct(Release(e)) && Within(x, e) && !x.Var? && p < |Release(e)| && q < |Release(e)|
    requires Release(e)[p] in Nodes(x.left) + Nodes(x.right) && Release(e)[q] == x.node
    ensures p < q
  {
    if x == e {
      TopLast(e, p, q);
    } else {
      var part, a := Descend(e, x, p, q);
      OperandsFirst(part, x, p - a, q - a);
    }
  }

  /** For every operator x of e: by position in `freed`, the nodes of its operands come before it. */
  ghost predicate OperandsBefore(e: Expr, freed: seq<nat>) {
    forall x, p, q | Within(x, e) && !x.Var? && 0 <= p < |freed| && 0 <= q < |freed| ::
      freed[p] in Nodes(x.left) + Nodes(x.right) && freed[q] == x.node ==> p < q
  }

  lemma ReleaseInOrder(e: Expr)
    requires Distinct(Release(e))
    ensures OperandsBefore(e, Release(e))
  {
    forall x, p, q | Within(x, e) && !x.Var? && 0 <= p < |Release(e)| && 0 <= q < |Release(e)|
                     && Release(e)[p] in Nodes(x.left) + Nodes(x.right) && Release(e)[q] == x.node
      ensures p < q
    {
      OperandsFirst(e, x, p, q);
    }
  }

  /** The nodes of a parsed expression are freed in the order of their allocation. */
  lemma {:induction false} TreeReleased(s: string, m: nat, n: nat)
    requires Between(m, n)
    ensures |Release(Tree(s, m, n))| == n - m
    ensures forall i :: 0 <= i < n - m ==> Release(Tree(s, m, n))[i] == m + i
  {
    if n > m + 1 {
      TreeReleased(s, m, n - 2);
    }
  }

  /** Releasing what `Analyse` has built frees the nodes from that of the last start on, in the
      order of their allocation: each once, operands before operators; and every node allocated
      if and only if the string is chained. */
  method AnalyseAndRelease(s: string) returns (e: Expr, freed: seq<nat>, n: nat)
    requires s != [] && !IsOp(s[0])
    ensures n == End(s) && Between(Start(s), n) && e == Tree(s, Start(s), n)
    ensures |freed| == n - Start(s) && forall i :: 0 <= i < |freed| ==> freed[i] == Start(s) + i
    ensures OperandsBefore(e, freed)
    ensures (forall x :: 0 <= x < n ==> x in freed) <==> Chained(s)
  {
    var r;
    r, n := Analyse(s);
    e := r.value;
    freed := Release(e);
    StartFacts(s);
    TreeReleased(s, Start(s), n);
    ReleaseInOrder(e);
    if Start(s) == 0 {
      forall x | 0 <= x < n ensures x in freed {
        assert freed[x] == x;
      }
    } else {
      assert 0 !in freed;
    }
  }

  // ------------------------------------------------------------------------------------
  // The meaning of a string, read off its characters.

  /** How often variable c is added less how often it is subtracted, in the characters m..n-1. */
  function Net(s: string, m: nat, n: nat, c: char): int
    requires Between(m, n)
  {
    if n == m + 1 then Ind(At(s, m) == c)
    else Net(s, m, n - 2, c) + Sign(s, n) * Ind(At(s, n - 1) == c)
  }

  /** The sign of the last of the first n characters. */
  function Sign(s: string, n: nat): int
    requires n >= 2
  {
    if At(s, n - 2) == '+' then 1 else -1
  }

  /** The sum, over those of `names` that have a value, of the net count times the value. */
  function Weighted(s: string, m: nat, n: nat, names: seq<char>, vars: map<char, int>): int
    requires Between(m, n)
  {
    if names == [] then 0
    else (if names[0] in vars then Net(s, m, n, names[0]) * vars[names[0]] else 0) + Weighted(s, m, n, names[1..], vars)
  }

  ghost predicate Once(names: seq<char>, c: char) {
    multiset(names)[c] == 1
  }

  lemma Distribute(a: int, b: int, v: int)
    ensures (a + b) * v == a * v + b * v
  {}

  /** The change to one summand when one more operand is read. */
  lemma NetStep(s: string, m: nat, n: nat, c: char, v: int)
    requires Between(m, n) && n >= m + 3
    ensures Net(s, m, n, c) * v == Net(s, m, n - 2, c) * v + Ind(At(s, n - 1) == c) * (Sign(s, n) * v)
  {
    Distribute(Net(s, m, n - 2, c), Sign(s, n) * Ind(At(s, n - 1) == c), v);
  }

  /** One more operand changes the sum by its own value v, once for each time it is named. */
  lemma {:induction false} WeightedStep(s: string, m: nat, n: nat, names: seq<char>, vars: map<char, int>, v: int)
    requires Between(m, n) && n >= m + 3 && v == Eval(Var(0, At(s, n - 1)), vars)
    ensures Weighted(s, m, n, names, vars)
            == Weighted(s, m, n - 2, names, vars) + multiset(names)[At(s, n - 1)] * (Sign(s, n) * v)
  {
    if names != [] {
      var c, h := At(s, n - 1), names[0];
      WeightedStep(s, m, n, names[1..], vars, v);
      if h in vars {
        NetStep(s, m, n, h, vars[h]);
      }
      assert names == [h] + names[1..];
      Distribute(Ind(c == h), multiset(names[1..])[c], Sign(s, n) * v);
    }
  }

  lemma {:induction false} WeightedFirst(s: string, m: nat, names: seq<char>, vars: map<char, int>, v: int)
    requires v == Eval(Var(0, At(s, m)), vars)
    ensures Weighted(s, m, m + 1, names, vars) == multiset(names)[At(s, m)] * v
  {
    if names != [] {
      var c, h := At(s, m), names[0];
      WeightedFirst(s, m, names[1..], vars, v);
      assert names == [h] + names[1..];
      Distribute(Ind(c == h), multiset(names[1..])[c], v);
    }
  }

  /** Evaluating the tree of a string gives the sum, over any list that names each variable of
      the string once, of the net count of the variable times its value. */
  lemma {:induction false} TreeMeans(s: string, m: nat, n: nat, names: seq<char>, vars: map<char, int>)
    requires Between(m, n)
    requires forall i :: m <= i < n && (i - m) % 2 == 0 ==> Once(names, At(s, i))
    ensures Eval(Tree(s, m, n), vars) == Weighted(s, m, n, names, vars)
  {
    if n == m + 1 {
      WeightedFirst(s, m, names, vars, Eval(Var(0, At(s, m)), vars));
    } else {
      TreeMeans(s, m, n - 2, names, vars);
      WeightedStep(s, m, n, names, vars, Eval(Var(0, At(s, n - 1)), vars));
      assert Once(names, At(s, n - 1));
    }
  }

  /** The variables among the characters m..n-1, each once. */
  function Operands(s: string, m: nat, n: nat): seq<char>
    requires Between(m, n)
  {
    if n == m + 1 then [At(s, m)]
    else
      var earlier := Operands(s, m, n - 2);
      if At(s, n - 1) in earlier then earlier else earlier + [At(s, n - 1)]
  }

  lemma {:induction false} OperandsOnce(s: string, m: nat, n: nat)
    requires Between(m, n)
    ensures forall c :: c in Operands(s, m, n) ==> Once(Operands(s, m, n), c)
    ensures forall i :: m <= i < n && (i - m) % 2 == 0 ==> At(s, i) in Operands(s, m, n)
    ensures forall c :: c in Operands(s, m, n) <==> c in Keys(Tree(s, m, n))
  {
    if n > m + 1 {
      OperandsOnce(s, m, n - 2);
      forall i | m <= i < n && (i - m) % 2 == 0 ensures At(s, i) in Operands(s, m, n) {
        assert i < n - 2 || i == n - 1;
      }
    }
  }

  /** `Interpret(Analyse(s))` for every string that `Analyse` accepts and every map of variables:
      the value is the sum over the variables parsed that are in the map, and the others among
      them are entered with 0. */
  method AnalyseAndInterpret(s: string, env: Variables) returns (v: int, ghost names: seq<char>)
    requires s != [] && !IsOp(s[0])
    modifies env
    ensures Between(Start(s), End(s)) && names == Operands(s, Start(s), End(s))
    ensures v == Weighted(s, Start(s), End(s), names, old(env.vars))
    ensures env.vars.Keys == old(env.vars).Keys + set c | c in names
    ensures forall c :: c in env.vars ==> env.vars[c] == if c in old(env.vars) then old(env.vars)[c] else 0
  {
    var r, n := Analyse(s);
    v := env.Interpret(r.value);
    names := Operands(s, Start(s), n);
    OperandsOnce(s, Start(s), n);
    TreeMeans(s, Start(s), n, names, old(env.vars));
  }
}
