/** When two nodes, each in its own world, behave alike: same completion and same state for every
    state and every amount of fuel below a bound.  The log is not compared.

    With `avoid == Some(m)` the comparison is limited to the runs of the first node that never
    cover mutant m.  That one notion serves both main results: `avoid == None` states that
    instrumentation keeps the meaning, `avoid == Some(m)` that an uncovered mutant has no effect. */
module Simulation {
  import opened Ast
  import opened Options
  import opened Semantics

  ghost predicate Covers(log: seq<Event>, avoid: Option<nat>) {
    avoid.Some? && Covered(avoid.value) in log
  }

  ghost predicate Agree(a: Outcome, b: Outcome, avoid: Option<nat>) {
    Covers(a.log, avoid) || (a.completion == b.completion && a.env == b.env)
  }

  ghost predicate AgreeLists(a: ListOutcome, b: ListOutcome, avoid: Option<nat>) {
    Covers(a.log, avoid) || (a.completion == b.completion && a.env == b.env && a.values == b.values)
  }

  ghost predicate AgreeCases(a: CaseOutcome, b: CaseOutcome, avoid: Option<nat>) {
    Covers(a.log, avoid) || (a.completion == b.completion && a.env == b.env && a.index == b.index)
  }

  /** The two worlds under comparison. */
  datatype Pair = Pair(w1: World, w2: World, avoid: Option<nat>)

  ghost predicate Alike(k: nat, p: Pair, a: Node, b: Node) {
    forall fuel: nat, env: Env {:trigger Eval(p.w1, a, fuel, env)} {:trigger Eval(p.w2, b, fuel, env)} ::
      fuel < k ==> Agree(Eval(p.w1, a, fuel, env), Eval(p.w2, b, fuel, env), p.avoid)
  }

  /** `Alike`, and for switch cases also alike in their tests. */
  ghost predicate Simulates(k: nat, p: Pair, a: Node, b: Node) {
    && Alike(k, p, a, b)
    && (a.kind.Case? || b.kind.Case? ==>
          && a.kind == b.kind
          && (a.kind.hasTest ==> |a.kids| > 0 && |b.kids| > 0 && Alike(k, p, a.kids[0], b.kids[0])))
  }

  ghost predicate SimulateAll(k: nat, p: Pair, xs: seq<Node>, ys: seq<Node>) {
    |xs| == |ys| && forall i :: 0 <= i < |xs| ==> Simulates(k, p, xs[i], ys[i])
  }

  /** The functions that calls reach are alike for all smaller amounts of fuel. */
  ghost predicate FunctionsAlike(k: nat, p: Pair) {
    && p.w1.host == p.w2.host
    && p.w1.functions.Keys == p.w2.functions.Keys
    && forall f <- p.w1.functions ::
         && p.w1.functions[f].params == p.w2.functions[f].params
         && (k > 0 ==> Alike(k - 1, p, p.w1.functions[f].body, p.w2.functions[f].body))
  }

  lemma {:induction false} EvalListAlike(k: nat, p: Pair, xs: seq<Node>, ys: seq<Node>, fuel: nat, env: Env)
    requires SimulateAll(k, p, xs, ys) && fuel < k
    ensures AgreeLists(EvalList(p.w1, xs, fuel, env), EvalList(p.w2, ys, fuel, env), p.avoid)
    decreases |xs|
  {
    if xs != [] {
      var a := Eval(p.w1, xs[0], fuel, env);
      assert Simulates(k, p, xs[0], ys[0]);
      assert forall i :: 0 <= i < |xs[1..]| ==> xs[1..][i] == xs[i + 1] && ys[1..][i] == ys[i + 1];
      EvalListAlike(k, p, xs[1..], ys[1..], fuel, a.env);
    }
  }

  lemma {:induction false} FindCaseAlike(k: nat, p: Pair, xs: seq<Node>, ys: seq<Node>, v: Value, fuel: nat, env: Env)
    requires SimulateAll(k, p, xs, ys) && fuel < k
    ensures AgreeCases(FindCase(p.w1, xs, v, fuel, env), FindCase(p.w2, ys, v, fuel, env), p.avoid)
    decreases |xs|
  {
    if xs != [] {
      assert Simulates(k, p, xs[0], ys[0]);
      assert forall i :: 0 <= i < |xs[1..]| ==> xs[1..][i] == xs[i + 1] && ys[1..][i] == ys[i + 1];
      if xs[0].kind.Case? && xs[0].kind.hasTest {
        var a := Eval(p.w1, xs[0].kids[0], fuel, env);
        FindCaseAlike(k, p, xs[1..], ys[1..], v, fuel, a.env);
      } else {
        FindCaseAlike(k, p, xs[1..], ys[1..], v, fuel, env);
      }
    }
  }

  lemma {:induction false} DefaultCaseAlike(k: nat, p: Pair, xs: seq<Node>, ys: seq<Node>)
    requires SimulateAll(k, p, xs, ys)
    ensures DefaultCase(xs) == DefaultCase(ys)
  {
    if xs != [] {
      assert Simulates(k, p, xs[0], ys[0]);
      assert forall i :: 0 <= i < |xs[1..]| ==> xs[1..][i] == xs[i + 1] && ys[1..][i] == ys[i + 1];
      DefaultCaseAlike(k, p, xs[1..], ys[1..]);
    }
  }

  lemma {:induction false} LoopAlike(k: nat, p: Pair, a: Node, b: Node, fuel: nat, env: Env)
    requires SimulateAll(k, p, a.kids, b.kids) && |a.kids| == 2 && fuel < k
    ensures Agree(EvalLoop(p.w1, a, fuel, env), EvalLoop(p.w2, b, fuel, env), p.avoid)
    decreases fuel
  {
    if fuel > 0 {
      assert Simulates(k, p, a.kids[0], b.kids[0]) && Simulates(k, p, a.kids[1], b.kids[1]);
      var c := Eval(p.w1, a.kids[0], fuel, env);
      if c.completion.Normal? && Truthy(c.completion.v) {
        var body := Eval(p.w1, a.kids[1], fuel, c.env);
        LoopAlike(k, p, a, b, fuel - 1, body.env);
      }
    }
  }

  lemma {:induction false} CasesAlike(k: nat, p: Pair, xs: seq<Node>, ys: seq<Node>, v: Value, fuel: nat, env: Env)
    requires SimulateAll(k, p, xs, ys) && fuel < k
    ensures Agree(EvalCases(p.w1, xs, v, fuel, env), EvalCases(p.w2, ys, v, fuel, env), p.avoid)
  {
    FindCaseAlike(k, p, xs, ys, v, fuel, env);
    DefaultCaseAlike(k, p, xs, ys);
    var found := FindCase(p.w1, xs, v, fuel, env);
    var start := if found.index.Some? then found.index else DefaultCase(xs);
    if found.completion.Normal? && start.Some? && start.value < |xs| {
      assert SimulateAll(k, p, xs[start.value..], ys[start.value..]);
      EvalListAlike(k, p, xs[start.value..], ys[start.value..], fuel, found.env);
    }
  }

  lemma {:induction false} SwitchAlike(k: nat, p: Pair, a: Node, b: Node, fuel: nat, env: Env)
    requires a.kind == b.kind == Switch && SimulateAll(k, p, a.kids, b.kids) && fuel < k
    ensures Agree(Eval(p.w1, a, fuel, env), Eval(p.w2, b, fuel, env), p.avoid)
  {
    if |a.kids| > 0 {
      assert Simulates(k, p, a.kids[0], b.kids[0]);
      var d := Eval(p.w1, a.kids[0], fuel, env);
      assert SimulateAll(k, p, a.kids[1..], b.kids[1..]);
      if d.completion.Normal? {
        CasesAlike(k, p, a.kids[1..], b.kids[1..], d.completion.v, fuel, d.env);
      }
    }
  }

  lemma {:induction false} CallAlike(k: nat, p: Pair, a: Node, b: Node, fuel: nat, env: Env)
    requires a.kind == b.kind && a.kind.Call? && SimulateAll(k, p, a.kids, b.kids) && fuel < k
    requires FunctionsAlike(k, p)
    ensures Agree(Eval(p.w1, a, fuel, env), Eval(p.w2, b, fuel, env), p.avoid)
  {
    EvalListAlike(k, p, a.kids, b.kids, fuel, env);
    var r := EvalList(p.w1, a.kids, fuel, env);
    if r.completion.Normal? && a.kind.callee in p.w1.functions && fuel > 0 && !Covers(r.log, p.avoid) {
      var f, g := p.w1.functions[a.kind.callee], p.w2.functions[a.kind.callee];
      assert Alike(k - 1, p, f.body, g.body);
      var inner := Bind(r.env, f.params, r.values);
      assert Agree(Eval(p.w1, f.body, fuel - 1, inner), Eval(p.w2, g.body, fuel - 1, inner), p.avoid);
    }
  }

  lemma {:induction false} UnaryAlike(k: nat, p: Pair, a: Node, b: Node, fuel: nat, env: Env)
    requires a.kind == b.kind && SimulateAll(k, p, a.kids, b.kids) && fuel < k
    requires a.kind.Assign? || a.kind.ExprStmt? || a.kind.Return? || a.kind.Throw?
    ensures Agree(Eval(p.w1, a, fuel, env), Eval(p.w2, b, fuel, env), p.avoid)
  {
    if |a.kids| == 1 {
      assert Simulates(k, p, a.kids[0], b.kids[0]);
    }
  }

  lemma {:induction false} BranchAlike(k: nat, p: Pair, a: Node, b: Node, fuel: nat, env: Env)
    requires a.kind == b.kind && SimulateAll(k, p, a.kids, b.kids) && fuel < k
    requires a.kind.Conditional? || a.kind.And? || a.kind.Or?
    ensures Agree(Eval(p.w1, a, fuel, env), Eval(p.w2, b, fuel, env), p.avoid)
  {
    if |a.kids| > 1 {
      assert Simulates(k, p, a.kids[0], b.kids[0]) && Simulates(k, p, a.kids[1], b.kids[1]);
      var c := Eval(p.w1, a.kids[0], fuel, env);
      if |a.kids| == 3 && c.completion.Normal? && !Truthy(c.completion.v) {
        assert Simulates(k, p, a.kids[2], b.kids[2]);
      }
    }
  }

  lemma {:induction false} IfAlike(k: nat, p: Pair, a: Node, b: Node, fuel: nat, env: Env)
    requires a.kind == b.kind && a.kind.If? && SimulateAll(k, p, a.kids, b.kids) && fuel < k
    ensures Agree(Eval(p.w1, a, fuel, env), Eval(p.w2, b, fuel, env), p.avoid)
  {
    if |a.kids| == 2 || |a.kids| == 3 {
      assert Simulates(k, p, a.kids[0], b.kids[0]);
      var c := Eval(p.w1, a.kids[0], fuel, env);
      if c.completion.Normal? && Truthy(c.completion.v) {
        assert Simulates(k, p, a.kids[1], b.kids[1]);
        assert Agree(Eval(p.w1, a.kids[1], fuel, c.env), Eval(p.w2, b.kids[1], fuel, c.env), p.avoid);
      } else if c.completion.Normal? && |a.kids| == 3 {
        assert Simulates(k, p, a.kids[2], b.kids[2]);
        assert Agree(Eval(p.w1, a.kids[2], fuel, c.env), Eval(p.w2, b.kids[2], fuel, c.env), p.avoid);
      }
    }
  }

  lemma {:induction false} TryAlike(k: nat, p: Pair, a: Node, b: Node, fuel: nat, env: Env)
    requires a.kind == b.kind && a.kind.Try? && SimulateAll(k, p, a.kids, b.kids) && fuel < k
    ensures Agree(Eval(p.w1, a, fuel, env), Eval(p.w2, b, fuel, env), p.avoid)
  {
    if |a.kids| == 2 {
      assert Simulates(k, p, a.kids[0], b.kids[0]) && Simulates(k, p, a.kids[1], b.kids[1]);
    }
  }

  lemma {:induction false} CaseAlike(k: nat, p: Pair, a: Node, b: Node, fuel: nat, env: Env)
    requires a.kind == b.kind && a.kind.Case? && SimulateAll(k, p, a.kids, b.kids) && fuel < k
    ensures Agree(Eval(p.w1, a, fuel, env), Eval(p.w2, b, fuel, env), p.avoid)
  {
    if !a.kind.hasTest {
      EvalListAlike(k, p, a.kids, b.kids, fuel, env);
    } else if |a.kids| > 0 {
      assert SimulateAll(k, p, a.kids[1..], b.kids[1..]);
      EvalListAlike(k, p, a.kids[1..], b.kids[1..], fuel, env);
    }
  }

  lemma {:induction false} StepAlike(k: nat, p: Pair, a: Node, b: Node, fuel: nat, env: Env)
    requires a.kind == b.kind && !a.kind.IsActive? && SimulateAll(k, p, a.kids, b.kids) && fuel < k
    requires FunctionsAlike(k, p)
    ensures Agree(Eval(p.w1, a, fuel, env), Eval(p.w2, b, fuel, env), p.avoid)
  {
    match a.kind
    case Lit(_) | Ident(_) | Cover(_) | Break | Continue =>
    case Op(_, _) | Sequence | Block | Program => EvalListAlike(k, p, a.kids, b.kids, fuel, env);
    case Call(_) => CallAlike(k, p, a, b, fuel, env);
    case While => if |a.kids| == 2 { LoopAlike(k, p, a, b, fuel, env); }
    case Switch => SwitchAlike(k, p, a, b, fuel, env);
    case Case(_) => CaseAlike(k, p, a, b, fuel, env);
    case Try(_) => TryAlike(k, p, a, b, fuel, env);
    case Assign(_) | ExprStmt | Return | Throw => UnaryAlike(k, p, a, b, fuel, env);
    case If => IfAlike(k, p, a, b, fuel, env);
    case Conditional | And | Or => BranchAlike(k, p, a, b, fuel, env);
  }

  /** Nodes of one kind whose children simulate one another simulate one another. */
  lemma Congruence(k: nat, p: Pair, a: Node, b: Node)
    requires a.kind == b.kind && !a.kind.IsActive? && SimulateAll(k, p, a.kids, b.kids)
    requires FunctionsAlike(k, p)
    requires a.kind == Case(true) ==> |a.kids| > 0
    ensures Simulates(k, p, a, b)
  {
    forall fuel: nat, env: Env | fuel < k
      ensures Agree(Eval(p.w1, a, fuel, env), Eval(p.w2, b, fuel, env), p.avoid)
    {
      StepAlike(k, p, a, b, fuel, env);
    }
    if a.kind == Case(true) {
      assert Simulates(k, p, a.kids[0], b.kids[0]);
    }
  }

  /** Code that never calls the runtime header does not depend on the active mutant. */
  lemma {:induction false} CleanSimulatesItself(k: nat, p: Pair, n: Node)
    requires Clean(n) && WellFormed(n) && FunctionsAlike(k, p)
    ensures Simulates(k, p, n, n)
    decreases n
  {
    forall i | 0 <= i < |n.kids|
      ensures Simulates(k, p, n.kids[i], n.kids[i])
    {
      CleanSimulatesItself(k, p, n.kids[i]);
    }
    Congruence(k, p, n, n);
  }
}
