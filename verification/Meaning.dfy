/** Instrumentation keeps the meaning of a tree: with a mutant active, the instrumented tree behaves
    like the original in which only that mutant's node is replaced; with none active, like the
    original.  The proof follows the traversal. */
module Meaning {
  import opened Ast
  import opened Options
  import opened Semantics
  import opened Simulation
  import opened Placers
  import opened Instrumenter

  /** What the placers rely on: a replacement is uninstrumented code of the same syntactic category,
      the replacement of a switch case keeps its test (the case placer only uses the consequents of
      the copy), and nothing mutates a whole program. */
  ghost predicate ProperReplacement(n: Node, r: Node) {
    && Clean(r) && WellFormed(r)
    && CategoryOf(r.kind) == CategoryOf(n.kind)
    && (n.kind.Case? ==> r.kind == n.kind)
    && (n.kind == Case(true) && |n.kids| > 0 ==> r.kids[0] == n.kids[0])
  }

  ghost predicate ProperMutators(cfg: Config) {
    forall n: Node {:trigger cfg.mutate(n)} ::
      && (n.kind == Program ==> cfg.mutate(n) == [])
      && forall m <- cfg.mutate(n) :: ProperReplacement(n, m.replacement)
  }

  ghost predicate Pending(applied: seq<Applied>, active: Option<nat>) {
    exists a <- applied :: active == Some(a.id)
  }

  /** `node` is the rewritten version of `n`, `target` is `n` with the active mutant applied: as long
      as the active mutant waits to be placed higher up, the node behaves like the original and the
      waiting copy like the target; otherwise the node itself behaves like the target. */
  ghost predicate Means(k: nat, p: Pair, node: Node, applied: seq<Applied>, n: Node, target: Node) {
    if Pending(applied, p.w1.active) then
      && Simulates(k, p, node, n)
      && forall a <- applied :: p.w1.active == Some(a.id) ==> Simulates(k, p, a.copy, target)
    else
      Simulates(k, p, node, target)
  }

  ghost predicate SameCategory(node: Node, applied: seq<Applied>, n: Node) {
    && CategoryOf(node.kind) == CategoryOf(n.kind)
    && (n.kind == Case(true) ==> |node.kids| > 0)
    && (n.kind.Case? ==> node.kind == n.kind)
    && forall a <- applied ::
         && CategoryOf(a.copy.kind) == CategoryOf(n.kind)
         && (n.kind.Case? ==> a.copy.kind == n.kind && ProperCase(a.copy))
  }

  lemma {:induction false} SkippedMutated(cfg: Config, parent: Category, n: Node, next: nat, active: Option<nat>)
    requires ShouldSkip(cfg, n)
    ensures Mutated(cfg, parent, n, next, active) == n
  {
  }

  lemma {:induction false} MutatedElsewhere(cfg: Config, parent: Category, n: Node, next: nat, active: Option<nat>)
    requires active.Some? ==> !(next <= active.value < next + |Visit(cfg, parent, n, next).mutants|)
    ensures Mutated(cfg, parent, n, next, active) == n
    decreases n, 1
  {
    hide Visit, VisitKids, Minted, OwnApplied, Placed, Mutated, MutatedKids, CanPlace, CategoryOf, ShouldSkip;
    if ShouldSkip(cfg, n) {
      SkippedMutated(cfg, parent, n, next, active);
    } else {
      VisitUnfolded(cfg, parent, n, next);
      MutatedBelow(cfg, parent, n, next, active);
      MutatedKidsElsewhere(cfg, n, [], n.kids, next + |Minted(cfg, n, next)|, active);
      assert n.(kids := n.kids) == n;
    }
  }

  lemma {:induction false} MutatedKidsElsewhere(cfg: Config, n: Node, done: seq<Node>, todo: seq<Node>, next: nat,
                                                active: Option<nat>)
    requires active.Some? ==> !(next <= active.value < next + |VisitKids(cfg, n, done, todo, next).mutants|)
    ensures MutatedKids(cfg, CategoryOf(n.kind), todo, next, active) == todo
    decreases todo, 0
  {
    hide Visit, Mutated, Lifted, CategoryOf, VisitKids;
    if todo != [] {
      var kid := Visit(cfg, CategoryOf(n.kind), todo[0], next);
      var rest := VisitKids(cfg, n, done + [kid.node], todo[1..], next + |kid.mutants|);
      VisitKidsUnfolded(cfg, n, done, todo, next);
      MutatedElsewhere(cfg, CategoryOf(n.kind), todo[0], next, active);
      MutatedKidsElsewhere(cfg, n, done + [kid.node], todo[1..], next + |kid.mutants|, active);
      assert todo == [todo[0]] + todo[1..];
    }
  }

  /** A mutant inside the test of a case is placed inside the test. */
  lemma {:induction false} TestPlacedInside(cfg: Config, n: Node, next: nat)
    requires n.kind == Case(true) && WellFormed(n)
    ensures Visit(cfg, SwitchCase, n.kids[0], next).applied == []
  {
    assert KidFits(n.kind, 0, CategoryOf(n.kids[0].kind));
  }

  lemma NothingLifted(n: Node, done: seq<Node>, rest: seq<Node>)
    ensures Lifted(n, done, rest, []) == []
  {
  }

  lemma {:induction false} MutatedFirst(cfg: Config, parent: Category, kids: seq<Node>, next: nat, active: Option<nat>)
    requires kids != []
    ensures MutatedKids(cfg, parent, kids, next, active)[0] == Mutated(cfg, parent, kids[0], next, active)
  {
  }

  lemma {:induction false} CaseHasTest(n: Node)
    requires n.kind == Case(true) && WellFormed(n)
    ensures |n.kids| > 0
  {
  }

  lemma PendingWithin(applied: seq<Applied>, lo: nat, hi: nat, active: Option<nat>)
    requires Ascending(applied, lo, hi) && Pending(applied, active)
    ensures active.Some? && lo <= active.value < hi
  {
  }

  lemma {:induction false} WaitingBehindTest(cfg: Config, n: Node, next: nat, active: Option<nat>)
    requires n.kind == Case(true) && WellFormed(n)
    requires Pending(VisitKids(cfg, n, [], n.kids, next).applied, active)
    ensures MutatedKids(cfg, SwitchCase, n.kids, next, active)[0] == n.kids[0]
  {
    hide Visit, Lifted, Mutated, VisitKids, MutatedKids, Pending, Ascending, WellFormed;
    assert |n.kids| > 0 by {
      CaseHasTest(n);
    }
    MutatedFirst(cfg, SwitchCase, n.kids, next, active);
    TestPlacedInside(cfg, n, next);
    VisitKidsUnfolded(cfg, n, [], n.kids, next);
    NothingLifted(n, [], n.kids[1..]);
    var test := Visit(cfg, SwitchCase, n.kids[0], next);
    var mid := next + |test.mutants|;
    var rest := VisitKids(cfg, n, [] + [test.node], n.kids[1..], mid);
    assert VisitKids(cfg, n, [], n.kids, next).applied == rest.applied;
    VisitKidsNumbers(cfg, n, [] + [test.node], n.kids[1..], mid);
    PendingWithin(rest.applied, mid, mid + |rest.mutants|, active);
    MutatedElsewhere(cfg, SwitchCase, n.kids[0], next, active);
  }

  lemma {:induction false} MutatedHere(cfg: Config, parent: Category, n: Node, next: nat, active: Option<nat>)
    requires ProperMutators(cfg) && !ShouldSkip(cfg, n)
    requires active.Some? && next <= active.value < next + |Minted(cfg, n, next)|
    ensures var m := Minted(cfg, n, next)[active.value - next];
            && Mutated(cfg, parent, n, next, active) == (if m.ignored then n else m.replacement)
            && ProperReplacement(n, m.replacement)
  {
    assert cfg.mutate(n)[active.value - next] in cfg.mutate(n);
  }

  lemma {:induction false} MutatedBelow(cfg: Config, parent: Category, n: Node, next: nat, active: Option<nat>)
    requires !ShouldSkip(cfg, n)
    requires active.Some? ==> !(next <= active.value < next + |Minted(cfg, n, next)|)
    ensures Mutated(cfg, parent, n, next, active) ==
            n.(kids := MutatedKids(cfg, CategoryOf(n.kind), n.kids, next + |Minted(cfg, n, next)|, active))
  {
  }

  lemma {:induction false} ReplacementKeepsTest(n: Node, r: Node)
    requires n.kind == Case(true) && WellFormed(n) && ProperReplacement(n, r)
    ensures |r.kids| > 0 && r.kids[0] == n.kids[0]
  {
  }

  lemma PlacedMeans(k: nat, p: Pair, node: Node, applied: seq<Applied>, n: Node, target: Node)
    requires p.avoid == None && CategoryOf(n.kind) != Root
    requires Means(k, p, node, applied, n, target) && SameCategory(node, applied, n)
    requires CategoryOf(target.kind) == CategoryOf(n.kind) && (n.kind.Case? ==> target.kind == n.kind)
    requires n.kind == Case(true) && Pending(applied, p.w1.active) ==>
               |n.kids| > 0 && |target.kids| > 0 && target.kids[0] == n.kids[0]
    ensures Simulates(k, p, Placed(node, applied), target)
  {
    forall fuel: nat, env: Env | fuel < k
      ensures Agree(Eval(p.w1, Placed(node, applied), fuel, env), Eval(p.w2, target, fuel, env), p.avoid)
    {
      PlacedRuns(p.w1, node, applied, n, fuel, env);
      ChosenIsApplied(applied, p.w1.active);
    }
  }

  lemma {:induction false} PlacedRuns(w: World, node: Node, applied: seq<Applied>, n: Node, fuel: nat, env: Env)
    requires CategoryOf(n.kind) != Root && SameCategory(node, applied, n)
    ensures SwitchOutcome(w, applied, node, fuel, env, Eval(w, Placed(node, applied), fuel, env))
  {
    match CategoryOf(n.kind)
    case Expression => PlacedExpressionRuns(w, node, applied, fuel, env);
    case Statement => PlacedStatementRuns(w, node, applied, fuel, env);
    case SwitchCase => PlacedCaseRuns(w, node, applied, fuel, env);
  }

  ghost predicate Hypotheses(k: nat, p: Pair, cfg: Config, n: Node) {
    Clean(n) && WellFormed(n) && ProperMutators(cfg) && FunctionsAlike(k, p) && p.avoid == None
  }

  /** `Means` for the rewritten children of `n`, of which `targets` are the children with the active
      mutant applied. */
  ghost predicate KidsMean(k: nat, p: Pair, n: Node, kids: seq<Node>, applied: seq<Applied>, targets: seq<Node>) {
    if Pending(applied, p.w1.active) then
      && SimulateAll(k, p, kids, n.kids)
      && forall a <- applied :: p.w1.active == Some(a.id) ==> Simulates(k, p, a.copy, n.(kids := targets))
    else SimulateAll(k, p, kids, targets)
  }

  ghost predicate SameShape(applied: seq<Applied>, n: Node) {
    forall a <- applied :: a.copy.kind == n.kind && |a.copy.kids| == |n.kids|
  }

  ghost predicate ReadyToPlace(k: nat, p: Pair, n: Node, node: Node, applied: seq<Applied>, target: Node) {
    && Means(k, p, node, applied, n, target)
    && SameCategory(node, applied, n)
    && CategoryOf(target.kind) == CategoryOf(n.kind)
    && (n.kind.Case? ==> target.kind == n.kind)
    && (n.kind == Case(true) && Pending(applied, p.w1.active) ==>
          |n.kids| > 0 && |target.kids| > 0 && target.kids[0] == n.kids[0])
  }

  lemma {:induction false} OwnProper(cfg: Config, n: Node, ms: seq<Mutant>)
    requires forall m <- ms :: ProperReplacement(n, m.replacement)
    ensures forall a <- OwnApplied(ms) :: ProperReplacement(n, a.copy)
    decreases |ms|
  {
    if ms != [] {
      OwnProper(cfg, n, ms[1..]);
    }
  }

  lemma {:induction false} OwnHolds(ms: seq<Mutant>, next: nat, id: nat)
    requires Dense(ms, next)
    ensures Pending(OwnApplied(ms), Some(id)) <==> next <= id < next + |ms| && !ms[id - next].ignored
    ensures forall a <- OwnApplied(ms) :: a.id == id ==> next <= id < next + |ms| && a.copy == ms[id - next].replacement
    decreases |ms|
  {
    if ms != [] {
      OwnHolds(ms[1..], next + 1, id);
      var rest := OwnApplied(ms[1..]);
      if !ms[0].ignored {
        assert OwnApplied(ms)[0] == Applied(ms[0].id, ms[0].replacement);
      }
      if Pending(rest, Some(id)) {
        var a :| a in rest && a.id == id;
        assert a in OwnApplied(ms);
      }
    }
  }

  lemma MintedProper(cfg: Config, n: Node, next: nat)
    requires ProperMutators(cfg)
    ensures forall m <- Minted(cfg, n, next) :: ProperReplacement(n, m.replacement)
  {
    if ShouldMutate(cfg, n) {
      var mutables := cfg.mutate(n);
      forall i | 0 <= i < |mutables|
        ensures ProperReplacement(n, mutables[i].replacement)
      {
        assert mutables[i] in mutables;
      }
    }
  }

  lemma {:induction false} ReplacementFits(n: Node, r: Node)
    requires ProperReplacement(n, r) && WellFormed(n)
    ensures CategoryOf(r.kind) == CategoryOf(n.kind)
    ensures n.kind.Case? ==> r.kind == n.kind && ProperCase(r)
  {
  }

  lemma {:induction false} RewrittenFits(n: Node, kids: seq<Node>, own: seq<Applied>, below: seq<Applied>)
    requires WellFormed(n) && |kids| == |n.kids| && SameShape(below, n)
    requires forall a <- own :: ProperReplacement(n, a.copy)
    ensures SameCategory(n.(kids := kids), own + below, n)
  {
    forall a | a in own + below
      ensures CategoryOf(a.copy.kind) == CategoryOf(n.kind)
      ensures n.kind.Case? ==> a.copy.kind == n.kind && ProperCase(a.copy)
    {
      if a in own {
        ReplacementFits(n, a.copy);
      } else {
        assert a in below;
      }
    }
  }

  /** The active mutant is one of the node's own and waits to be placed: its copy is the replacement. */
  lemma {:induction false} OwnReady(k: nat, p: Pair, n: Node, kids: seq<Node>, own: seq<Applied>, below: seq<Applied>,
                                    r: Node)
    requires Clean(n) && WellFormed(n) && FunctionsAlike(k, p)
    requires SimulateAll(k, p, kids, n.kids) && SameCategory(n.(kids := kids), own + below, n)
    requires Pending(own, p.w1.active) && !Pending(below, p.w1.active)
    requires ProperReplacement(n, r) && forall a <- own :: p.w1.active == Some(a.id) ==> a.copy == r
    ensures ReadyToPlace(k, p, n, n.(kids := kids), own + below, r)
  {
    Congruence(k, p, n.(kids := kids), n);
    CleanSimulatesItself(k, p, r);
    ReplacementFits(n, r);
    if n.kind == Case(true) {
      ReplacementKeepsTest(n, r);
    }
    var a :| a in own && p.w1.active == Some(a.id);
    assert a in own + below;
  }

  /** The active mutant is not one of the node's own, or is ignored. */
  lemma {:induction false} BelowReady(k: nat, p: Pair, n: Node, kids: seq<Node>, own: seq<Applied>,
                                      below: seq<Applied>, targets: seq<Node>)
    requires Clean(n) && WellFormed(n) && FunctionsAlike(k, p) && |targets| == |n.kids| == |kids|
    requires KidsMean(k, p, n, kids, below, targets) && SameCategory(n.(kids := kids), own + below, n)
    requires !Pending(own, p.w1.active)
    requires n.kind == Case(true) && Pending(below, p.w1.active) ==> targets[0] == n.kids[0]
    ensures ReadyToPlace(k, p, n, n.(kids := kids), own + below, n.(kids := targets))
  {
    if Pending(below, p.w1.active) {
      Congruence(k, p, n.(kids := kids), n);
      var a :| a in below && p.w1.active == Some(a.id);
      assert a in own + below;
    } else {
      Congruence(k, p, n.(kids := kids), n.(kids := targets));
    }
  }

  lemma {:induction false} BeforePlacementOwn(k: nat, p: Pair, cfg: Config, parent: Category, n: Node, next: nat,
                                              kids: seq<Node>, below: seq<Applied>)
    requires Hypotheses(k, p, cfg, n) && !ShouldSkip(cfg, n)
    requires p.w1.active.Some? && next <= p.w1.active.value < next + |Minted(cfg, n, next)|
    requires SimulateAll(k, p, kids, n.kids) && !Pending(below, p.w1.active)
    requires SameCategory(n.(kids := kids), OwnApplied(Minted(cfg, n, next)) + below, n)
    ensures ReadyToPlace(k, p, n, n.(kids := kids), OwnApplied(Minted(cfg, n, next)) + below,
                         Mutated(cfg, parent, n, next, p.w1.active))
  {
    var own := Minted(cfg, n, next);
    var m := own[p.w1.active.value - next];
    OwnHolds(own, next, p.w1.active.value);
    MutatedHere(cfg, parent, n, next, p.w1.active);
    if m.ignored {
      assert n.(kids := n.kids) == n;
      assert KidsMean(k, p, n, kids, below, n.kids);
      BelowReady(k, p, n, kids, OwnApplied(own), below, n.kids);
    } else {
      OwnReady(k, p, n, kids, OwnApplied(own), below, m.replacement);
    }
  }

  lemma {:induction false} BeforePlacement(k: nat, p: Pair, cfg: Config, parent: Category, n: Node, next: nat,
                                           kids: seq<Node>, below: seq<Applied>)
    requires Hypotheses(k, p, cfg, n) && !ShouldSkip(cfg, n)
    requires var mid := next + |Minted(cfg, n, next)|;
             && kids == VisitKids(cfg, n, [], n.kids, mid).kids && below == VisitKids(cfg, n, [], n.kids, mid).applied
             && KidsMean(k, p, n, kids, below, MutatedKids(cfg, CategoryOf(n.kind), n.kids, mid, p.w1.active))
    requires SameShape(below, n) && |kids| == |n.kids|
    ensures ReadyToPlace(k, p, n, n.(kids := kids), OwnApplied(Minted(cfg, n, next)) + below,
                         Mutated(cfg, parent, n, next, p.w1.active))
  {
    hide Clean, WellFormed, Simulates, Alike, ProperReplacement, ProperMutators, FunctionsAlike, Mutated, MutatedKids,
         Visit, VisitKids, OwnApplied, Means, SimulateAll, SameShape, Pending;
    var own := OwnApplied(Minted(cfg, n, next));
    var mid := next + |Minted(cfg, n, next)|;
    assert SameCategory(n.(kids := kids), own + below, n) by {
      MintedProper(cfg, n, next);
      OwnProper(cfg, n, Minted(cfg, n, next));
      RewrittenFits(n, kids, own, below);
    }
    var targets := MutatedKids(cfg, CategoryOf(n.kind), n.kids, mid, p.w1.active);
    if p.w1.active.Some? && next <= p.w1.active.value < mid {
      assert !Pending(below, p.w1.active) && targets == n.kids by {
        NotBelowKids(cfg, n, [], n.kids, mid, p.w1.active);
      }
      BeforePlacementOwn(k, p, cfg, parent, n, next, kids, below);
    } else {
      assert !Pending(own, p.w1.active) by {
        NotOwn(Minted(cfg, n, next), next, p.w1.active);
      }
      if n.kind == Case(true) && Pending(below, p.w1.active) {
        WaitingBehindTest(cfg, n, mid, p.w1.active);
      }
      MutatedBelow(cfg, parent, n, next, p.w1.active);
      BelowReady(k, p, n, kids, own, below, targets);
    }
  }

  lemma {:induction false} NotOwn(own: seq<Mutant>, next: nat, active: Option<nat>)
    requires Dense(own, next) && (active.Some? ==> !(next <= active.value < next + |own|))
    ensures !Pending(OwnApplied(own), active)
  {
    OwnAscending(own, next);
  }

  lemma AfterPlacement(k: nat, p: Pair, n: Node, node: Node, applied: seq<Applied>, target: Node)
    requires p.avoid == None && CategoryOf(n.kind) != Root && applied != []
    requires ReadyToPlace(k, p, n, node, applied, target)
    ensures Means(k, p, Placed(node, applied), [], n, target)
    ensures SameCategory(Placed(node, applied), [], n)
  {
    PlacedMeans(k, p, node, applied, n, target);
  }

  lemma {:induction false} SkippedMeans(k: nat, p: Pair, cfg: Config, parent: Category, n: Node, next: nat)
    requires Hypotheses(k, p, cfg, n) && ShouldSkip(cfg, n)
    ensures Means(k, p, Visit(cfg, parent, n, next).node, Visit(cfg, parent, n, next).applied,
                  n, Mutated(cfg, parent, n, next, p.w1.active))
    ensures SameCategory(Visit(cfg, parent, n, next).node, Visit(cfg, parent, n, next).applied, n)
  {
    CleanSimulatesItself(k, p, n);
  }

  lemma {:induction false} VisitMeans(k: nat, p: Pair, cfg: Config, parent: Category, n: Node, next: nat)
    requires Hypotheses(k, p, cfg, n)
    ensures Means(k, p, Visit(cfg, parent, n, next).node, Visit(cfg, parent, n, next).applied,
                  n, Mutated(cfg, parent, n, next, p.w1.active))
    ensures SameCategory(Visit(cfg, parent, n, next).node, Visit(cfg, parent, n, next).applied, n)
    decreases n, 2
  {
    hide Clean, WellFormed, Simulates, Alike, ProperReplacement, ProperMutators, FunctionsAlike, OwnApplied, Means,
         SameCategory, Placed, SameShape, ShouldSkip, Minted, Visit, VisitKids, Mutated, MutatedKids, KidsMean,
         Pending;
    if ShouldSkip(cfg, n) {
      SkippedMeans(k, p, cfg, parent, n, next);
    } else {
      var own := Minted(cfg, n, next);
      var below := VisitKids(cfg, n, [], n.kids, next + |own|);
      VisitKidsMeans(k, p, cfg, n, [], [], [], n.kids, next + |own|);
      VisitKidsNumbers(cfg, n, [], n.kids, next + |own|);
      var targets := MutatedKids(cfg, CategoryOf(n.kind), n.kids, next + |own|, p.w1.active);
      assert [] + targets == targets;
      VisitUnfolded(cfg, parent, n, next);
      BeforePlacement(k, p, cfg, parent, n, next, below.kids, below.applied);
      if CanPlace(cfg, parent, n) && OwnApplied(own) + below.applied != [] {
        AfterPlacement(k, p, n, n.(kids := below.kids), OwnApplied(own) + below.applied,
                       Mutated(cfg, parent, n, next, p.w1.active));
      }
    }
  }

  /** A copy lifted one level up behaves like the parent with the child's target in place. */
  lemma LiftedSimulates(k: nat, p: Pair, n: Node, done: seq<Node>, target: seq<Node>, rest: seq<Node>, copy: Node,
                        t: Node)
    requires FunctionsAlike(k, p) && !n.kind.IsActive?
    requires SimulateAll(k, p, done, target) && SimulateAll(k, p, rest, rest) && Simulates(k, p, copy, t)
    ensures Simulates(k, p, n.(kids := done + [copy] + rest), n.(kids := target + [t] + rest))
  {
    var xs, ys := done + [copy] + rest, target + [t] + rest;
    forall i | 0 <= i < |xs|
      ensures Simulates(k, p, xs[i], ys[i])
    {
      if i > |done| {
        assert xs[i] == rest[i - |done| - 1] == ys[i];
      }
    }
    Congruence(k, p, n.(kids := xs), n.(kids := ys));
  }

  /** The active mutant waits in a child: nothing else is affected by it. */
  lemma KidWaits(k: nat, p: Pair, n: Node, done: seq<Node>, target: seq<Node>, rest: seq<Node>,
                 waiting: seq<Applied>, t: Node, later: seq<Applied>, kids: seq<Node>)
    requires FunctionsAlike(k, p) && !n.kind.IsActive?
    requires SimulateAll(k, p, done, target) && SimulateAll(k, p, rest, rest) && SimulateAll(k, p, kids, n.kids)
    requires Pending(waiting, p.w1.active) && !Pending(later, p.w1.active)
    requires forall a <- waiting :: p.w1.active == Some(a.id) ==> Simulates(k, p, a.copy, t)
    ensures KidsMean(k, p, n, kids, Lifted(n, done, rest, waiting) + later, target + [t] + rest)
  {
    var lifted := Lifted(n, done, rest, waiting);
    LiftedPending(n, done, rest, waiting, p.w1.active);
    PendingAppend(lifted, later, p.w1.active);
    forall i | 0 <= i < |waiting| && p.w1.active == Some(lifted[i].id)
      ensures Simulates(k, p, lifted[i].copy, n.(kids := target + [t] + rest))
    {
      assert waiting[i] in waiting;
      LiftedSimulates(k, p, n, done, target, rest, waiting[i].copy, t);
    }
  }

  lemma PendingAppend(a: seq<Applied>, b: seq<Applied>, active: Option<nat>)
    ensures Pending(a + b, active) <==> Pending(a, active) || Pending(b, active)
  {
    if Pending(a, active) {
      var x :| x in a && active == Some(x.id);
      assert x in a + b;
    }
    if Pending(b, active) {
      var x :| x in b && active == Some(x.id);
      assert x in a + b;
    }
  }

  lemma LiftedPending(n: Node, done: seq<Node>, rest: seq<Node>, applied: seq<Applied>, active: Option<nat>)
    ensures Pending(Lifted(n, done, rest, applied), active) <==> Pending(applied, active)
  {
    var lifted := Lifted(n, done, rest, applied);
    assert forall i :: 0 <= i < |applied| ==> lifted[i] in lifted && lifted[i].id == applied[i].id;
    if Pending(applied, active) {
      var i :| 0 <= i < |applied| && active == Some(applied[i].id);
      assert lifted[i] in lifted;
    }
  }

  /** No entry of the first child is the active one: later children decide. */
  lemma KidPlaced(k: nat, p: Pair, n: Node, done: seq<Node>, rest: seq<Node>, waiting: seq<Applied>,
                  later: seq<Applied>, kids: seq<Node>, targets: seq<Node>)
    requires !Pending(waiting, p.w1.active) && KidsMean(k, p, n, kids, later, targets)
    ensures KidsMean(k, p, n, kids, Lifted(n, done, rest, waiting) + later, targets)
  {
    var lifted := Lifted(n, done, rest, waiting);
    LiftedPending(n, done, rest, waiting, p.w1.active);
    PendingAppend(lifted, later, p.w1.active);
  }

  lemma LiftedShape(n: Node, done: seq<Node>, rest: seq<Node>, waiting: seq<Applied>, later: seq<Applied>)
    requires |n.kids| == |done| + 1 + |rest| && SameShape(later, n)
    ensures SameShape(Lifted(n, done, rest, waiting) + later, n)
  {
  }

  lemma CleanList(k: nat, p: Pair, ns: seq<Node>)
    requires forall n <- ns :: Clean(n) && WellFormed(n)
    requires FunctionsAlike(k, p)
    ensures SimulateAll(k, p, ns, ns)
  {
    forall i | 0 <= i < |ns|
      ensures Simulates(k, p, ns[i], ns[i])
    {
      CleanSimulatesItself(k, p, ns[i]);
    }
  }

  lemma {:induction false} VisitKidsMeans(k: nat, p: Pair, cfg: Config, n: Node,
                                          orig: seq<Node>, target: seq<Node>, done: seq<Node>, todo: seq<Node>, next: nat)
    requires Hypotheses(k, p, cfg, n) && n.kids == orig + todo
    requires SimulateAll(k, p, done, target) && |orig| == |target|
    requires p.w1.active.Some? && p.w1.active.value >= next ==> target == orig
    ensures KidsMean(k, p, n, VisitKids(cfg, n, done, todo, next).kids, VisitKids(cfg, n, done, todo, next).applied,
                     target + MutatedKids(cfg, CategoryOf(n.kind), todo, next, p.w1.active))
    ensures SameShape(VisitKids(cfg, n, done, todo, next).applied, n)
    decreases todo, 1
  {
    hide Clean, WellFormed, Simulates, Alike, ProperReplacement, ProperMutators, FunctionsAlike, Mutated, Visit,
         OwnApplied, CategoryOf;
    if todo != [] {
      var cat := CategoryOf(n.kind);
      var kid := Visit(cfg, cat, todo[0], next);
      var t := Mutated(cfg, cat, todo[0], next, p.w1.active);
      var mid := next + |kid.mutants|;
      KidHypotheses(k, p, cfg, n, todo[0]);
      VisitMeans(k, p, cfg, cat, todo[0], next);
      KidBefore(k, p, cfg, n, orig, todo, next);
      var t' := if Pending(kid.applied, p.w1.active) then todo[0] else t;
      assert SimulateAll(k, p, done + [kid.node], target + [t']);
      VisitKidsMeans(k, p, cfg, n, orig + [todo[0]], target + [t'], done + [kid.node], todo[1..], mid);
      KidThenRest(k, p, cfg, n, orig, target, done, todo, next);
    }
  }

  lemma KidHypotheses(k: nat, p: Pair, cfg: Config, n: Node, kid: Node)
    requires Hypotheses(k, p, cfg, n) && kid in n.kids
    ensures Hypotheses(k, p, cfg, kid)
  {
  }

  lemma {:induction false} KidBefore(k: nat, p: Pair, cfg: Config, n: Node, orig: seq<Node>, todo: seq<Node>, next: nat)
    requires todo != []
    ensures var cat := CategoryOf(n.kind);
            var kid := Visit(cfg, cat, todo[0], next);
            && (p.w1.active.Some? && p.w1.active.value >= next + |kid.mutants| ==>
                  Mutated(cfg, cat, todo[0], next, p.w1.active) == todo[0])
            && (Pending(kid.applied, p.w1.active) ==> p.w1.active.Some? && next <= p.w1.active.value < next + |kid.mutants|)
  {
    var cat := CategoryOf(n.kind);
    VisitNumbers(cfg, cat, todo[0], next);
    if p.w1.active.Some? && p.w1.active.value >= next + |Visit(cfg, cat, todo[0], next).mutants| {
      MutatedElsewhere(cfg, cat, todo[0], next, p.w1.active);
    }
  }

  /** The step of the induction above: the first child, then the rest. */
  lemma {:induction false} KidThenRest(k: nat, p: Pair, cfg: Config, n: Node,
                    orig: seq<Node>, target: seq<Node>, done: seq<Node>, todo: seq<Node>, next: nat)
    requires Hypotheses(k, p, cfg, n) && n.kids == orig + todo && todo != []
    requires SimulateAll(k, p, done, target) && |orig| == |target| == |done|
    requires p.w1.active.Some? && p.w1.active.value >= next ==> target == orig
    requires var cat := CategoryOf(n.kind);
             var kid := Visit(cfg, cat, todo[0], next);
             var t := Mutated(cfg, cat, todo[0], next, p.w1.active);
             var mid := next + |kid.mutants|;
             var rest := VisitKids(cfg, n, done + [kid.node], todo[1..], mid);
             && Means(k, p, kid.node, kid.applied, todo[0], t)
             && SameShape(rest.applied, n)
             && KidsMean(k, p, n, rest.kids, rest.applied,
                         target + [if Pending(kid.applied, p.w1.active) then todo[0] else t]
                         + MutatedKids(cfg, cat, todo[1..], mid, p.w1.active))
    ensures KidsMean(k, p, n, VisitKids(cfg, n, done, todo, next).kids, VisitKids(cfg, n, done, todo, next).applied,
                     target + MutatedKids(cfg, CategoryOf(n.kind), todo, next, p.w1.active))
    ensures SameShape(VisitKids(cfg, n, done, todo, next).applied, n)
  {
    hide Clean, WellFormed, Simulates, Alike, ProperReplacement, ProperMutators, FunctionsAlike, Mutated, Visit,
         OwnApplied, CategoryOf, SimulateAll, VisitKids, Lifted, SameShape, Pending;
    VisitKidsUnfolded(cfg, n, done, todo, next);
    var cat := CategoryOf(n.kind);
    var kid := Visit(cfg, cat, todo[0], next);
    var t := Mutated(cfg, cat, todo[0], next, p.w1.active);
    var mid := next + |kid.mutants|;
    var rest := VisitKids(cfg, n, done + [kid.node], todo[1..], mid);
    var later := MutatedKids(cfg, cat, todo[1..], mid, p.w1.active);
    LiftedShape(n, done, todo[1..], kid.applied, rest.applied);
    assert MutatedKids(cfg, cat, todo, next, p.w1.active) == [t] + later;
    assert target + ([t] + later) == target + [t] + later;
    if Pending(kid.applied, p.w1.active) {
      KidBefore(k, p, cfg, n, orig, todo, next);
      NotBelowKids(cfg, n, done + [kid.node], todo[1..], mid, p.w1.active);
      FirstKidWaits(k, p, n, orig, done, todo, kid, t, rest);
    } else {
      KidPlaced(k, p, n, done, todo[1..], kid.applied, rest.applied, rest.kids, target + [t] + later);
    }
  }

  lemma {:induction false} FirstKidWaits(k: nat, p: Pair, n: Node, orig: seq<Node>, done: seq<Node>, todo: seq<Node>,
                                         kid: Walk, t: Node, rest: KidsWalk)
    requires Clean(n) && WellFormed(n) && FunctionsAlike(k, p) && n.kids == orig + todo && todo != []
    requires SimulateAll(k, p, done, orig) && Means(k, p, kid.node, kid.applied, todo[0], t)
    requires Pending(kid.applied, p.w1.active) && !Pending(rest.applied, p.w1.active)
    requires KidsMean(k, p, n, rest.kids, rest.applied, orig + [todo[0]] + todo[1..])
    ensures KidsMean(k, p, n, rest.kids, Lifted(n, done, todo[1..], kid.applied) + rest.applied, orig + [t] + todo[1..])
  {
    hide Clean, WellFormed, Simulates, FunctionsAlike, SimulateAll, Lifted, Pending;
    assert orig + [todo[0]] + todo[1..] == n.kids;
    OthersClean(k, p, n, orig, todo);
    KidWaits(k, p, n, done, orig, todo[1..], kid.applied, t, rest.applied, rest.kids);
  }

  lemma {:induction false} OthersClean(k: nat, p: Pair, n: Node, orig: seq<Node>, todo: seq<Node>)
    requires Clean(n) && WellFormed(n) && FunctionsAlike(k, p) && n.kids == orig + todo && todo != []
    ensures SimulateAll(k, p, todo[1..], todo[1..]) && !n.kind.IsActive?
  {
    assert forall x <- todo[1..] :: x in n.kids;
    CleanList(k, p, todo[1..]);
  }

  lemma {:induction false} NotBelowKids(cfg: Config, n: Node, done: seq<Node>, todo: seq<Node>, mid: nat,
                                        active: Option<nat>)
    requires active.Some? && active.value < mid
    ensures !Pending(VisitKids(cfg, n, done, todo, mid).applied, active)
    ensures MutatedKids(cfg, CategoryOf(n.kind), todo, mid, active) == todo
  {
    VisitKidsNumbers(cfg, n, done, todo, mid);
    MutatedKidsElsewhere(cfg, n, done, todo, mid, active);
  }
}
