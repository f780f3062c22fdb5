/** The three mutant placers: they wrap a node in a switch that selects the copy of the active
    mutant, and counts coverage on the way to the original. */
module Placers {
  import opened Ast
  import opened Options
  import opened Semantics

  /** An entry of a placement's `appliedMutants`: the placed node with one mutant applied to it. */
  datatype Applied = Applied(id: nat, copy: Node)

  function Ids(ms: seq<Applied>): seq<nat> {
    seq(|ms|, i requires 0 <= i < |ms| => ms[i].id)
  }

  function TestCall(id: nat): Node {
    Fresh(IsActive(id), [])
  }

  function CoverCall(ms: seq<Applied>): Node {
    Fresh(Cover(Ids(ms)), [])
  }

  function CoverStatement(ms: seq<Applied>): Node {
    Fresh(ExprStmt, [Fresh(Sequence, [CoverCall(ms)])])
  }

  function Consequents(n: Node): seq<Node> {
    if n.kind == Case(true) && |n.kids| > 0 then n.kids[1..] else n.kids
  }

  function WrapExpression(ms: seq<Applied>, base: Node): Node {
    if ms == [] then base
    else
      var m := ms[|ms| - 1];
      Fresh(Conditional, [TestCall(m.id), m.copy, WrapExpression(ms[..|ms| - 1], base)])
  }

  function WrapStatement(ms: seq<Applied>, base: Node): Node {
    if ms == [] then base
    else
      var m := ms[|ms| - 1];
      Fresh(If, [TestCall(m.id), Fresh(Block, [m.copy]), WrapStatement(ms[..|ms| - 1], base)])
  }

  function WrapConsequents(ms: seq<Applied>, base: Node): Node {
    if ms == [] then base
    else
      var m := ms[|ms| - 1];
      Fresh(If, [TestCall(m.id), Fresh(Block, Consequents(m.copy)), WrapConsequents(ms[..|ms| - 1], base)])
  }

  function PlacedExpression(n: Node, ms: seq<Applied>): Node {
    WrapExpression(ms, Fresh(Sequence, [CoverCall(ms), n]))
  }

  function PlacedStatement(n: Node, ms: seq<Applied>): Node {
    var body := if n.kind.Block? then n.kids else [n];
    var statement := WrapStatement(ms, Fresh(Block, [CoverStatement(ms)] + body));
    if n.kind.Block? then Fresh(Block, [statement]) else statement
  }

  function PlacedCase(n: Node, ms: seq<Applied>): Node {
    var consequence := WrapConsequents(ms, Fresh(Block, [CoverStatement(ms)] + Consequents(n)));
    if n.kind == Case(true) && |n.kids| > 0
    then Fresh(n.kind, [n.kids[0], consequence])
    else Fresh(n.kind, [consequence])
  }

  function Placed(n: Node, ms: seq<Applied>): Node {
    match CategoryOf(n.kind)
    case Expression => PlacedExpression(n, ms)
    case Statement => PlacedStatement(n, ms)
    case SwitchCase => PlacedCase(n, ms)
    case Root => n
  }

  // ----- the placers as the source writes them: a loop that keeps wrapping

  method PlaceExpression(n: Node, ms: seq<Applied>) returns (expression: Node)
    ensures expression == PlacedExpression(n, ms)
  {
    expression := Fresh(Sequence, [CoverCall(ms), n]);
    ghost var base := expression;
    for i := 0 to |ms|
      invariant expression == WrapExpression(ms[..i], base)
    {
      assert ms[..i + 1][..i] == ms[..i];
      expression := Fresh(Conditional, [TestCall(ms[i].id), ms[i].copy, expression]);
    }
    assert ms[..|ms|] == ms;
  }

  method PlaceStatement(n: Node, ms: seq<Applied>) returns (statement: Node)
    ensures statement == PlacedStatement(n, ms)
  {
    statement := Fresh(Block, [CoverStatement(ms)] + if n.kind.Block? then n.kids else [n]);
    ghost var base := statement;
    for i := 0 to |ms|
      invariant statement == WrapStatement(ms[..i], base)
    {
      assert ms[..i + 1][..i] == ms[..i];
      statement := Fresh(If, [TestCall(ms[i].id), Fresh(Block, [ms[i].copy]), statement]);
    }
    assert ms[..|ms|] == ms;
    statement := if n.kind.Block? then Fresh(Block, [statement]) else statement;
  }

  method PlaceCase(n: Node, ms: seq<Applied>) returns (switchCase: Node)
    ensures switchCase == PlacedCase(n, ms)
  {
    var consequence := Fresh(Block, [CoverStatement(ms)] + Consequents(n));
    ghost var base := consequence;
    for i := 0 to |ms|
      invariant consequence == WrapConsequents(ms[..i], base)
    {
      assert ms[..i + 1][..i] == ms[..i];
      consequence := Fresh(If, [TestCall(ms[i].id), Fresh(Block, Consequents(ms[i].copy)), consequence]);
    }
    assert ms[..|ms|] == ms;
    switchCase := Fresh(n.kind, (if n.kind == Case(true) && |n.kids| > 0 then [n.kids[0]] else []) + [consequence]);
  }

  // ----- what a switch does when it runs

  /** The copy that a switch selects. */
  function Chosen(ms: seq<Applied>, active: Option<nat>): Option<Node> {
    if ms == [] then None
    else if active == Some(ms[|ms| - 1].id) then Some(ms[|ms| - 1].copy)
    else Chosen(ms[..|ms| - 1], active)
  }

  ghost predicate SameEffect(a: Outcome, b: Outcome) {
    a.completion == b.completion && a.env == b.env
  }

  /** What evaluation makes of a placed node: the effect of the chosen copy, or the effect of the
      original preceded by one coverage count for each of the mutants. */
  ghost predicate SwitchOutcome(w: World, ms: seq<Applied>, n: Node, fuel: nat, env: Env, o: Outcome) {
    match Chosen(ms, w.active)
    case Some(copy) => SameEffect(o, Eval(w, copy, fuel, env))
    case None =>
      && SameEffect(o, Eval(w, n, fuel, env))
      && o.log == CoveredEvents(Ids(ms)) + Eval(w, n, fuel, env).log
  }

  lemma {:induction false} ChosenIsApplied(ms: seq<Applied>, active: Option<nat>)
    ensures Chosen(ms, active).Some? ==>
              active.Some? && exists m <- ms :: m.id == active.value && m.copy == Chosen(ms, active).value
    ensures Chosen(ms, active).None? ==> forall m <- ms :: active != Some(m.id)
  {
    if ms != [] {
      var last := ms[|ms| - 1];
      assert ms == ms[..|ms| - 1] + [last];
      ChosenIsApplied(ms[..|ms| - 1], active);
    }
  }

  lemma {:induction false} StatementYieldsNoValue(w: World, n: Node, fuel: nat, env: Env)
    requires CategoryOf(n.kind) == Statement
    ensures Void(Eval(w, n, fuel, env)) == Eval(w, n, fuel, env)
  {
    match n.kind
    case Block => ListYieldsNoValue(w, n.kids, fuel, env);
    case While => if |n.kids| == 2 { LoopYieldsNoValue(w, n, fuel, env); }
    case Switch =>
      if |n.kids| > 0 {
        var d := Eval(w, n.kids[0], fuel, env);
        if d.completion.Normal? {
          CasesYieldNoValue(w, n.kids[1..], d.completion.v, fuel, d.env);
        }
      }
    case _ =>
  }

  lemma {:induction false} ListYieldsNoValue(w: World, ns: seq<Node>, fuel: nat, env: Env)
    ensures EvalList(w, ns, fuel, env).completion.Normal? ==> EvalList(w, ns, fuel, env).completion.v == Undefined
  {
    if ns != [] {
      ListYieldsNoValue(w, ns[1..], fuel, Eval(w, ns[0], fuel, env).env);
    }
  }

  lemma {:induction false} LoopYieldsNoValue(w: World, n: Node, fuel: nat, env: Env)
    requires |n.kids| == 2
    ensures Void(EvalLoop(w, n, fuel, env)) == EvalLoop(w, n, fuel, env)
    decreases fuel
  {
    if fuel > 0 {
      var c := Eval(w, n.kids[0], fuel, env);
      if c.completion.Normal? {
        LoopYieldsNoValue(w, n, fuel - 1, Eval(w, n.kids[1], fuel, c.env).env);
      }
    }
  }

  lemma {:induction false} CasesYieldNoValue(w: World, cases: seq<Node>, v: Value, fuel: nat, env: Env)
    ensures Void(EvalCases(w, cases, v, fuel, env)) == EvalCases(w, cases, v, fuel, env)
  {
    SearchYieldsNoValue(w, cases, v, fuel, env);
    var found := FindCase(w, cases, v, fuel, env);
    var start := if found.index.Some? then found.index else DefaultCase(cases);
    if found.completion.Normal? && start.Some? && start.value < |cases| {
      ListYieldsNoValue(w, cases[start.value..], fuel, found.env);
    }
  }

  lemma {:induction false} SearchYieldsNoValue(w: World, cases: seq<Node>, v: Value, fuel: nat, env: Env)
    ensures FindCase(w, cases, v, fuel, env).completion.Normal? ==>
              FindCase(w, cases, v, fuel, env).completion.v == Undefined
  {
    if cases != [] {
      if cases[0].kind.Case? && cases[0].kind.hasTest && |cases[0].kids| > 0 {
        SearchYieldsNoValue(w, cases[1..], v, fuel, Eval(w, cases[0].kids[0], fuel, env).env);
      } else {
        SearchYieldsNoValue(w, cases[1..], v, fuel, env);
      }
    }
  }

  /** Wrapping a list of statements in a block, or a single statement in a list, changes nothing. */
  lemma {:induction false} SingletonRuns(w: World, n: Node, fuel: nat, env: Env)
    ensures var r := EvalList(w, [n], fuel, env);
            Outcome(r.completion, r.env, r.log) == Void(Eval(w, n, fuel, env))
  {
    var o := Eval(w, n, fuel, env);
    assert EvalList(w, [n][1..], fuel, o.env) == ListOutcome(Normal(Undefined), [], o.env, []);
    assert o.log + [] == o.log;
  }

  lemma {:induction false} CoverStatementRuns(w: World, ms: seq<Applied>, rest: seq<Node>, fuel: nat, env: Env)
    ensures var r := EvalList(w, [CoverStatement(ms)] + rest, fuel, env);
            var s := EvalList(w, rest, fuel, env);
            r.completion == s.completion && r.env == s.env && r.log == CoveredEvents(Ids(ms)) + s.log
  {
    var call := CoverCall(ms);
    assert Eval(w, call, fuel, env) == Outcome(Normal(Undefined), env, CoveredEvents(Ids(ms)));
    SingletonRuns(w, call, fuel, env);
    var sequence := Fresh(Sequence, [call]);
    assert EvalList(w, [call], fuel, env).values == [Undefined];
    assert Eval(w, sequence, fuel, env) == Outcome(Normal(Undefined), env, CoveredEvents(Ids(ms)));
    assert Eval(w, CoverStatement(ms), fuel, env) == Outcome(Normal(Undefined), env, CoveredEvents(Ids(ms)));
    assert ([CoverStatement(ms)] + rest)[1..] == rest;
  }

  lemma {:induction false} WrapExpressionRuns(w: World, ms: seq<Applied>, base: Node, fuel: nat, env: Env)
    ensures var o := Eval(w, WrapExpression(ms, base), fuel, env);
            match Chosen(ms, w.active)
            case Some(copy) => SameEffect(o, Eval(w, copy, fuel, env))
            case None => o == Eval(w, base, fuel, env)
  {
    if ms != [] {
      var rest := ms[..|ms| - 1];
      WrapExpressionRuns(w, rest, base, fuel, env);
      if w.active != Some(ms[|ms| - 1].id) {
        var inner := WrapExpression(rest, base);
        assert Eval(w, TestCall(ms[|ms| - 1].id), fuel, env) == Outcome(Normal(Bool(false)), env, []);
        assert [] + Eval(w, inner, fuel, env).log == Eval(w, inner, fuel, env).log;
        assert Eval(w, WrapExpression(ms, base), fuel, env) == Eval(w, inner, fuel, env);
      }
    }
  }

  lemma {:induction false} PlacedExpressionRuns(w: World, n: Node, ms: seq<Applied>, fuel: nat, env: Env)
    ensures SwitchOutcome(w, ms, n, fuel, env, Eval(w, PlacedExpression(n, ms), fuel, env))
  {
    var base := Fresh(Sequence, [CoverCall(ms), n]);
    WrapExpressionRuns(w, ms, base, fuel, env);
    assert Eval(w, CoverCall(ms), fuel, env) == Outcome(Normal(Undefined), env, CoveredEvents(Ids(ms)));
    SingletonRuns(w, n, fuel, env);
    assert [CoverCall(ms), n][1..] == [n];
  }

  /** The common shape of the two placers that use `if` statements. */
  lemma {:induction false} TestRuns(w: World, id: nat, selected: Node, otherwise: Node, fuel: nat, env: Env)
    requires CategoryOf(selected.kind) == Statement && CategoryOf(otherwise.kind) == Statement
    ensures var o := Eval(w, Fresh(If, [TestCall(id), selected, otherwise]), fuel, env);
            if w.active == Some(id) then SameEffect(o, Eval(w, selected, fuel, env))
            else o == Eval(w, otherwise, fuel, env)
  {
    var statement := Fresh(If, [TestCall(id), selected, otherwise]);
    var c := Eval(w, TestCall(id), fuel, env);
    StatementYieldsNoValue(w, selected, fuel, env);
    StatementYieldsNoValue(w, otherwise, fuel, env);
    if w.active == Some(id) {
      assert c == Outcome(Normal(Bool(true)), env, [Hit(id)]);
      assert Eval(w, statement, fuel, env) == Void(Then(c.log, Eval(w, selected, fuel, env)));
    } else {
      assert c == Outcome(Normal(Bool(false)), env, []);
      assert Then([], Eval(w, otherwise, fuel, env)) == Eval(w, otherwise, fuel, env);
      assert Eval(w, statement, fuel, env) == Void(Then(c.log, Eval(w, otherwise, fuel, env)));
    }
  }

  lemma {:induction false} WrapStatementRuns(w: World, ms: seq<Applied>, base: Node, fuel: nat, env: Env)
    requires base.kind == Block && forall m <- ms :: CategoryOf(m.copy.kind) == Statement
    ensures CategoryOf(WrapStatement(ms, base).kind) == Statement
    ensures var o := Eval(w, WrapStatement(ms, base), fuel, env);
            match Chosen(ms, w.active)
            case Some(copy) => SameEffect(o, Eval(w, copy, fuel, env))
            case None => o == Eval(w, base, fuel, env)
  {
    if ms != [] {
      var last := ms[|ms| - 1];
      var rest := ms[..|ms| - 1];
      WrapStatementRuns(w, rest, base, fuel, env);
      TestRuns(w, last.id, Fresh(Block, [last.copy]), WrapStatement(rest, base), fuel, env);
      SingletonRuns(w, last.copy, fuel, env);
      StatementYieldsNoValue(w, last.copy, fuel, env);
    }
  }

  lemma {:induction false} PlacedStatementRuns(w: World, n: Node, ms: seq<Applied>, fuel: nat, env: Env)
    requires CategoryOf(n.kind) == Statement && forall m <- ms :: CategoryOf(m.copy.kind) == Statement
    ensures SwitchOutcome(w, ms, n, fuel, env, Eval(w, PlacedStatement(n, ms), fuel, env))
  {
    var body := if n.kind.Block? then n.kids else [n];
    var base := Fresh(Block, [CoverStatement(ms)] + body);
    WrapStatementRuns(w, ms, base, fuel, env);
    CoverStatementRuns(w, ms, body, fuel, env);
    SingletonRuns(w, n, fuel, env);
    StatementYieldsNoValue(w, n, fuel, env);
    if n.kind.Block? {
      var statement := WrapStatement(ms, base);
      SingletonRuns(w, statement, fuel, env);
      StatementYieldsNoValue(w, statement, fuel, env);
    }
  }

  lemma {:induction false} WrapConsequentsRuns(w: World, ms: seq<Applied>, base: Node, fuel: nat, env: Env)
    requires base.kind == Block
    ensures CategoryOf(WrapConsequents(ms, base).kind) == Statement
    ensures var o := Eval(w, WrapConsequents(ms, base), fuel, env);
            match Chosen(ms, w.active)
            case Some(copy) => SameEffect(o, Eval(w, Fresh(Block, Consequents(copy)), fuel, env))
            case None => o == Eval(w, base, fuel, env)
  {
    if ms != [] {
      var last := ms[|ms| - 1];
      var rest := ms[..|ms| - 1];
      WrapConsequentsRuns(w, rest, base, fuel, env);
      TestRuns(w, last.id, Fresh(Block, Consequents(last.copy)), WrapConsequents(rest, base), fuel, env);
    }
  }

  ghost predicate ProperCase(n: Node) {
    n.kind.Case? && (n.kind.hasTest ==> |n.kids| > 0)
  }

  lemma {:induction false} CaseRuns(w: World, n: Node, fuel: nat, env: Env)
    requires ProperCase(n)
    ensures Eval(w, n, fuel, env) == Eval(w, Fresh(Block, Consequents(n)), fuel, env)
  {
  }

  lemma {:induction false} PlacedCaseRuns(w: World, n: Node, ms: seq<Applied>, fuel: nat, env: Env)
    requires ProperCase(n) && forall m <- ms :: ProperCase(m.copy)
    ensures SwitchOutcome(w, ms, n, fuel, env, Eval(w, PlacedCase(n, ms), fuel, env))
  {
    var base := Fresh(Block, [CoverStatement(ms)] + Consequents(n));
    var consequence := WrapConsequents(ms, base);
    WrapConsequentsRuns(w, ms, base, fuel, env);
    SingletonRuns(w, consequence, fuel, env);
    StatementYieldsNoValue(w, consequence, fuel, env);
    assert Consequents(PlacedCase(n, ms)) == [consequence];
    CaseRuns(w, PlacedCase(n, ms), fuel, env);
    assert Eval(w, PlacedCase(n, ms), fuel, env) == Eval(w, consequence, fuel, env);
    ChosenIsApplied(ms, w.active);
    match Chosen(ms, w.active)
    case Some(copy) => CaseRuns(w, copy, fuel, env);
    case None =>
      CoverStatementRuns(w, ms, Consequents(n), fuel, env);
      CaseRuns(w, n, fuel, env);
  }
}
