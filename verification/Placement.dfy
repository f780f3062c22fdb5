/** Where the mutants of a tree end up: every mutant that is not ignored is placed once, and applying a
    mutant to a whole file by searching its node gives the tree that meaning preservation speaks of. */
module Placement {
  import opened Ast
  import opened Options
  import opened Paths
  import opened Placers
  import opened Instrumenter
  import opened Collection
  import opened Meaning
  import opened Schemata
  import opened Transformer

  predicate IsSwitch(n: Node) {
    (n.kind.Conditional? || n.kind.If?) && |n.kids| == 3 && n.kids[0].kind.IsActive?
  }

  /** The ids of the switches on the way to the original code: the copies of mutants are passed by. */
  function Switches(n: Node): seq<nat>
    decreases n, 1
  {
    if IsSwitch(n) then [n.kids[0].kind.id] + Switches(n.kids[2]) else SwitchesIn(n.kids)
  }

  function SwitchesIn(ns: seq<Node>): seq<nat>
    decreases ns, 0
  {
    if ns == [] then [] else Switches(ns[0]) + SwitchesIn(ns[1..])
  }

  function KeptIds(ms: seq<Mutant>): seq<nat> {
    if ms == [] then []
    else (if ms[0].ignored then [] else [ms[0].id]) + KeptIds(ms[1..])
  }

  lemma {:induction false} SwitchesAppend(xs: seq<Node>, ys: seq<Node>)
    ensures SwitchesIn(xs + ys) == SwitchesIn(xs) + SwitchesIn(ys)
  {
    if xs == [] {
      assert xs + ys == ys;
    } else {
      assert (xs + ys)[1..] == xs[1..] + ys;
      SwitchesAppend(xs[1..], ys);
    }
  }

  lemma {:induction false} KeptAppend(xs: seq<Mutant>, ys: seq<Mutant>)
    ensures KeptIds(xs + ys) == KeptIds(xs) + KeptIds(ys)
  {
    if xs == [] {
      assert xs + ys == ys;
    } else {
      assert (xs + ys)[1..] == xs[1..] + ys;
      KeptAppend(xs[1..], ys);
    }
  }

  lemma {:induction false} OwnIds(ms: seq<Mutant>)
    ensures Ids(OwnApplied(ms)) == KeptIds(ms)
  {
    if ms != [] {
      OwnIds(ms[1..]);
      var first := if ms[0].ignored then [] else [Applied(ms[0].id, ms[0].replacement)];
      assert Ids(first + OwnApplied(ms[1..])) == Ids(first) + Ids(OwnApplied(ms[1..]));
    }
  }

  lemma {:induction false} SingleSwitches(n: Node)
    ensures SwitchesIn([n]) == Switches(n)
  {
    assert [n][1..] == [];
  }

  lemma {:induction false} CoverHasNone(ms: seq<Applied>, rest: seq<Node>)
    ensures SwitchesIn([CoverStatement(ms)] + rest) == SwitchesIn(rest)
  {
    SingleSwitches(CoverCall(ms));
    SingleSwitches(Fresh(Sequence, [CoverCall(ms)]));
    assert Switches(CoverStatement(ms)) == [];
    SwitchesAppend([CoverStatement(ms)], rest);
    SingleSwitches(CoverStatement(ms));
  }

  lemma {:induction false} TestSwitches(kind: Kind, id: nat, selected: Node, otherwise: Node)
    requires kind.Conditional? || kind.If?
    ensures Switches(Fresh(kind, [TestCall(id), selected, otherwise])) == [id] + Switches(otherwise)
  {
  }

  lemma IdsSnoc(ms: seq<Applied>)
    requires ms != []
    ensures multiset(Ids(ms)) == multiset(Ids(ms[..|ms| - 1])) + multiset{ms[|ms| - 1].id}
  {
    assert Ids(ms) == Ids(ms[..|ms| - 1]) + [ms[|ms| - 1].id];
  }

  lemma {:induction false} WrapExpressionSwitches(ms: seq<Applied>, base: Node)
    ensures multiset(Switches(WrapExpression(ms, base))) == multiset(Ids(ms)) + multiset(Switches(base))
    decreases |ms|
  {
    if ms != [] {
      var m, inner := ms[|ms| - 1], WrapExpression(ms[..|ms| - 1], base);
      WrapExpressionSwitches(ms[..|ms| - 1], base);
      IdsSnoc(ms);
      TestSwitches(Conditional, m.id, m.copy, inner);
    }
  }

  lemma {:induction false} WrapStatementSwitches(ms: seq<Applied>, base: Node)
    ensures multiset(Switches(WrapStatement(ms, base))) == multiset(Ids(ms)) + multiset(Switches(base))
    decreases |ms|
  {
    if ms != [] {
      var m, inner := ms[|ms| - 1], WrapStatement(ms[..|ms| - 1], base);
      WrapStatementSwitches(ms[..|ms| - 1], base);
      IdsSnoc(ms);
      TestSwitches(If, m.id, Fresh(Block, [m.copy]), inner);
    }
  }

  lemma {:induction false} WrapConsequentsSwitches(ms: seq<Applied>, base: Node)
    ensures multiset(Switches(WrapConsequents(ms, base))) == multiset(Ids(ms)) + multiset(Switches(base))
    decreases |ms|
  {
    if ms != [] {
      var m, inner := ms[|ms| - 1], WrapConsequents(ms[..|ms| - 1], base);
      WrapConsequentsSwitches(ms[..|ms| - 1], base);
      IdsSnoc(ms);
      TestSwitches(If, m.id, Fresh(Block, Consequents(m.copy)), inner);
    }
  }

  lemma {:induction false} PlacedExpressionSwitches(n: Node, ms: seq<Applied>)
    ensures multiset(Switches(PlacedExpression(n, ms))) == multiset(Ids(ms)) + multiset(Switches(n))
  {
    var base := Fresh(Sequence, [CoverCall(ms), n]);
    WrapExpressionSwitches(ms, base);
    assert Switches(CoverCall(ms)) == [];
    assert [CoverCall(ms), n][1..] == [n];
    SingleSwitches(n);
    assert Switches(base) == Switches(n);
  }

  lemma {:induction false} PlacedStatementSwitches(n: Node, ms: seq<Applied>)
    requires !IsSwitch(n)
    ensures multiset(Switches(PlacedStatement(n, ms))) == multiset(Ids(ms)) + multiset(Switches(n))
  {
    var body := if n.kind.Block? then n.kids else [n];
    var base := Fresh(Block, [CoverStatement(ms)] + body);
    SingleSwitches(n);
    CoverHasNone(ms, body);
    assert Switches(base) == Switches(n);
    WrapStatementSwitches(ms, base);
    SingleSwitches(WrapStatement(ms, base));
  }

  lemma {:induction false} CaseSwitches(n: Node)
    requires n.kind.Case?
    ensures Switches(n) == (if n.kind == Case(true) && |n.kids| > 0 then Switches(n.kids[0]) else [])
                           + SwitchesIn(Consequents(n))
  {
  }

  lemma {:induction false} PlacedCaseSwitches(n: Node, ms: seq<Applied>)
    requires n.kind.Case?
    ensures multiset(Switches(PlacedCase(n, ms))) == multiset(Ids(ms)) + multiset(Switches(n))
  {
    hide Switches, SwitchesIn, WrapConsequents, CoverStatement, Ids;
    var base := Fresh(Block, [CoverStatement(ms)] + Consequents(n));
    var consequence := WrapConsequents(ms, base);
    var placed := PlacedCase(n, ms);
    CoverHasNone(ms, Consequents(n));
    BlockSwitches(base);
    WrapConsequentsSwitches(ms, base);
    SingleSwitches(consequence);
    if n.kind == Case(true) && |n.kids| > 0 {
      assert placed.kids == [n.kids[0], consequence];
      assert placed.kids[1..] == [consequence];
    } else if n.kind == Case(true) {
      NoSwitches();
      assert placed.kids[1..] == [];
    }
    CaseSwitches(n);
    CaseSwitches(placed);
  }

  lemma NoSwitches()
    ensures SwitchesIn([]) == []
  {
  }

  lemma {:induction false} BlockSwitches(n: Node)
    requires n.kind.Block?
    ensures Switches(n) == SwitchesIn(n.kids)
  {
  }

  /** Placing adds one switch for each of the mutants. */
  lemma {:induction false} PlacedSwitches(n: Node, ms: seq<Applied>)
    requires CategoryOf(n.kind) != Root && !IsSwitch(n)
    ensures multiset(Switches(Placed(n, ms))) == multiset(Ids(ms)) + multiset(Switches(n))
  {
    match CategoryOf(n.kind)
    case Expression => PlacedExpressionSwitches(n, ms);
    case Statement => PlacedStatementSwitches(n, ms);
    case SwitchCase => PlacedCaseSwitches(n, ms);
  }

  lemma {:induction false} CleanHasNoSwitches(n: Node)
    requires Clean(n)
    ensures Switches(n) == []
    decreases n, 1
  {
    assert |n.kids| > 0 ==> n.kids[0] in n.kids;
    CleanListHasNoSwitches(n.kids);
  }

  lemma {:induction false} CleanListHasNoSwitches(ns: seq<Node>)
    requires forall n <- ns :: Clean(n)
    ensures SwitchesIn(ns) == []
    decreases ns, 0
  {
    if ns != [] {
      CleanHasNoSwitches(ns[0]);
      CleanListHasNoSwitches(ns[1..]);
    }
  }

  lemma {:induction false} NotATest(cfg: Config, parent: Category, n: Node, next: nat)
    requires Clean(n)
    ensures !Visit(cfg, parent, n, next).node.kind.IsActive?
  {
  }

  lemma {:induction false} FirstKidNotATest(cfg: Config, n: Node, done: seq<Node>, todo: seq<Node>, next: nat)
    requires (forall k <- todo :: Clean(k)) && (done != [] ==> !done[0].kind.IsActive?)
    ensures var kids := VisitKids(cfg, n, done, todo, next).kids;
            kids != [] ==> !kids[0].kind.IsActive?
    decreases |todo|
  {
    if todo != [] {
      var kid := Visit(cfg, CategoryOf(n.kind), todo[0], next);
      NotATest(cfg, CategoryOf(n.kind), todo[0], next);
      FirstKidNotATest(cfg, n, done + [kid.node], todo[1..], next + |kid.mutants|);
    }
  }

  lemma {:induction false} RewrittenSwitches(n: Node, kids: seq<Node>)
    requires kids != [] ==> !kids[0].kind.IsActive?
    ensures !IsSwitch(n.(kids := kids)) && Switches(n.(kids := kids)) == SwitchesIn(kids)
  {
  }

  lemma Balance(all: multiset<nat>, done: multiset<nat>, here: multiset<nat>, up: multiset<nat>, later: multiset<nat>,
                kept: multiset<nat>, keptLater: multiset<nat>)
    requires all + later == done + here + keptLater && here + up == kept
    ensures all + (up + later) == done + (kept + keptLater)
  {
    forall x: nat
      ensures (all + (up + later))[x] == (done + (kept + keptLater))[x]
    {
      assert (all + later)[x] == (done + here + keptLater)[x] && (here + up)[x] == kept[x];
    }
  }

  lemma {:induction false} CleanKids(n: Node)
    requires Clean(n)
    ensures forall k <- n.kids :: Clean(k)
  {
  }

  lemma NoneKept()
    ensures KeptIds([]) == []
  {
  }

  /** Conservation: the mutants of a subtree that are not ignored are those placed in it and those
      handed on to an ancestor, each as often as it was collected. */
  lemma {:induction false} MutantsAreConserved(cfg: Config, parent: Category, n: Node, next: nat)
    requires Clean(n)
    ensures var v := Visit(cfg, parent, n, next);
            multiset(Switches(v.node)) + multiset(Ids(v.applied)) == multiset(KeptIds(v.mutants))
    decreases n, 1
  {
    hide Clean, Visit, VisitKids, OwnApplied, Minted, ShouldSkip, KeptIds, Placed;
    if ShouldSkip(cfg, n) {
      SkippedVisit(cfg, parent, n, next);
      CleanHasNoSwitches(n);
      assert KeptIds([]) == [] by {
        NoneKept();
      }
    } else {
      var own := Minted(cfg, n, next);
      var below := VisitKids(cfg, n, [], n.kids, next + |own|);
      CleanKids(n);
      KidsAreConserved(cfg, n, [], n.kids, next + |own|);
      FirstKidNotATest(cfg, n, [], n.kids, next + |own|);
      RewrittenSwitches(n, below.kids);
      assert SwitchesIn([]) == [];
      OwnAddsUp(own, below);
      PlacingConserves(cfg, parent, n, next);
    }
  }

  /** The mutants of a node itself add to those below it. */
  lemma {:induction false} OwnAddsUp(own: seq<Mutant>, below: KidsWalk)
    requires multiset(SwitchesIn(below.kids)) + multiset(Ids(below.applied)) == multiset(KeptIds(below.mutants))
    ensures multiset(SwitchesIn(below.kids)) + multiset(Ids(OwnApplied(own) + below.applied)) == multiset(KeptIds(own + below.mutants))
  {
    hide SwitchesIn, KeptIds, OwnApplied;
    assert Ids(OwnApplied(own) + below.applied) == Ids(OwnApplied(own)) + Ids(below.applied);
    OwnIds(own);
    KeptAppend(own, below.mutants);
    assert multiset(Ids(OwnApplied(own) + below.applied)) == multiset(KeptIds(own)) + multiset(Ids(below.applied));
  }

  /** Placing turns exactly the pending mutants into switches. */
  lemma {:induction false} PlacingConserves(cfg: Config, parent: Category, n: Node, next: nat)
    requires Clean(n) && !ShouldSkip(cfg, n)
    requires var own := Minted(cfg, n, next);
             var below := VisitKids(cfg, n, [], n.kids, next + |own|);
             multiset(Switches(n.(kids := below.kids))) + multiset(Ids(OwnApplied(own) + below.applied))
             == multiset(KeptIds(own + below.mutants))
    ensures var v := Visit(cfg, parent, n, next);
            multiset(Switches(v.node)) + multiset(Ids(v.applied)) == multiset(KeptIds(v.mutants))
  {
    hide Clean, Visit, VisitKids, OwnApplied, Minted, ShouldSkip, KeptIds, Placed, Switches;
    var own := Minted(cfg, n, next);
    var below := VisitKids(cfg, n, [], n.kids, next + |own|);
    var node := n.(kids := below.kids);
    var applied := OwnApplied(own) + below.applied;
    VisitUnfolded(cfg, parent, n, next);
    if CanPlace(cfg, parent, n) && applied != [] {
      CleanKids(n);
      FirstKidNotATest(cfg, n, [], n.kids, next + |own|);
      PlacedSwitches(node, applied);
    }
  }

  lemma LiftedIds(n: Node, done: seq<Node>, rest: seq<Node>, applied: seq<Applied>)
    ensures Ids(Lifted(n, done, rest, applied)) == Ids(applied)
  {
  }

  lemma {:induction false} KidsAreConserved(cfg: Config, n: Node, done: seq<Node>, todo: seq<Node>, next: nat)
    requires forall k <- todo :: Clean(k)
    ensures var v := VisitKids(cfg, n, done, todo, next);
            multiset(SwitchesIn(v.kids)) + multiset(Ids(v.applied))
            == multiset(SwitchesIn(done)) + multiset(KeptIds(v.mutants))
    decreases todo, 0
  {
    hide Clean, Visit, Switches, SwitchesIn, Lifted, KeptIds;
    if todo == [] {
      NoneKept();
    } else {
      var kid := Visit(cfg, CategoryOf(n.kind), todo[0], next);
      var rest := VisitKids(cfg, n, done + [kid.node], todo[1..], next + |kid.mutants|);
      var lifted := Lifted(n, done, todo[1..], kid.applied);
      MutantsAreConserved(cfg, CategoryOf(n.kind), todo[0], next);
      KidsAreConserved(cfg, n, done + [kid.node], todo[1..], next + |kid.mutants|);
      SwitchesAppend(done, [kid.node]);
      SingleSwitches(kid.node);
      KeptAppend(kid.mutants, rest.mutants);
      assert Ids(lifted + rest.applied) == Ids(lifted) + Ids(rest.applied);
      LiftedIds(n, done, todo[1..], kid.applied);
      var v := VisitKids(cfg, n, done, todo, next);
      assert v.kids == rest.kids && v.applied == lifted + rest.applied && v.mutants == kid.mutants + rest.mutants;
      assert multiset(Ids(v.applied)) == multiset(Ids(kid.applied)) + multiset(Ids(rest.applied));
      assert multiset(KeptIds(v.mutants)) == multiset(KeptIds(kid.mutants)) + multiset(KeptIds(rest.mutants));
      assert multiset(SwitchesIn(done + [kid.node])) == multiset(SwitchesIn(done)) + multiset(Switches(kid.node));
      Balance(multiset(SwitchesIn(v.kids)), multiset(SwitchesIn(done)), multiset(Switches(kid.node)),
              multiset(Ids(kid.applied)), multiset(Ids(rest.applied)),
              multiset(KeptIds(kid.mutants)), multiset(KeptIds(rest.mutants)));
    }
  }

  lemma {:induction false} KeptOnce(ms: seq<Mutant>, next: nat, id: nat)
    requires Dense(ms, next)
    ensures multiset(KeptIds(ms))[id] == if next <= id < next + |ms| && !ms[id - next].ignored then 1 else 0
    decreases |ms|
  {
    if ms != [] {
      KeptOnce(ms[1..], next + 1, id);
      var first := if ms[0].ignored then [] else [ms[0].id];
      assert multiset(KeptIds(ms)) == multiset(first) + multiset(KeptIds(ms[1..]));
      assert multiset(first)[id] == if id == next && !ms[0].ignored then 1 else 0;
      if next < id < next + |ms| {
        assert ms[id - next] == ms[1..][id - (next + 1)];
      }
    }
  }

  /** Every mutant of a file that is not ignored has exactly one switch, and no other id has one. */
  lemma {:induction false} EveryMutantHasOneSwitch(cfg: Config, root: Node, next: nat, id: nat)
    requires root.kind == Program && Clean(root) && WellFormed(root) && ProperMutators(cfg)
    ensures var v := Visit(cfg, Root, root, next);
            multiset(Switches(v.node))[id] ==
              if next <= id < next + |v.mutants| && !v.mutants[id - next].ignored then 1 else 0
  {
    var v := Visit(cfg, Root, root, next);
    MutantsAreConserved(cfg, Root, root, next);
    EveryMutantIsPlaced(cfg, root, next);
    VisitNumbers(cfg, Root, root, next);
    KeptOnce(v.mutants, next, id);
  }

  // ----- applying a mutant to a whole tree

  /** `Mutant.applied` */
  function AppliedTo(m: Mutant, tree: Node): Option<Node> {
    if tree == m.original then Some(m.replacement)
    else if KeyOf(m.original).None? then None
    else SearchReplace(tree, KeyOf(m.original).value, m.replacement)
  }

  /** The number with which the visit of the i-th of these children starts. */
  function NumberOf(cfg: Config, parent: Category, kids: seq<Node>, next: nat, i: nat): nat
    requires i < |kids|
    decreases i
  {
    if i == 0 then next
    else NumberOf(cfg, parent, kids[1..], next + |Visit(cfg, parent, kids[0], next).mutants|, i - 1)
  }

  /** The visit collects the mutant at the node at the path. */
  predicate CollectedAt(cfg: Config, n: Node, next: nat, path: Path, m: Mutant)
    decreases |path|
  {
    && !ShouldSkip(cfg, n)
    && if path == [] then m in Minted(cfg, n, next)
       else
         && path[0] < |n.kids|
         && CollectedAt(cfg, n.kids[path[0]],
                        NumberOf(cfg, CategoryOf(n.kind), n.kids, next + |Minted(cfg, n, next)|, path[0]), path[1..], m)
  }

  lemma {:induction false} FindMutant(cfg: Config, parent: Category, n: Node, next: nat, m: Mutant) returns (path: Path)
    requires m in Visit(cfg, parent, n, next).mutants && !m.ignored
    ensures ValidPath(n, path) && At(n, path) == m.original
    ensures Mutated(cfg, parent, n, next, Some(m.id)) == Replace(n, path, m.replacement)
    ensures CollectedAt(cfg, n, next, path, m)
    decreases n, 1
  {
    hide Visit, VisitKids, Minted, ShouldSkip, Mutated, MutatedKids, OwnApplied, Placed, NumberOf;
    if ShouldSkip(cfg, n) {
      SkippedVisit(cfg, parent, n, next);
      assert false;
    }
    var own := Minted(cfg, n, next);
    var below := VisitKids(cfg, n, [], n.kids, next + |own|);
    VisitUnfolded(cfg, parent, n, next);
    if m in own {
      path := [];
      MutatedToReplacement(cfg, parent, n, next, m);
    } else {
      VisitKidsNumbers(cfg, n, [], n.kids, next + |own|);
      var i, rest := FindInKids(cfg, n, [], n.kids, next + |own|, m);
      path := [i] + rest;
      assert path[1..] == rest;
      MutatedBelow(cfg, parent, n, next, Some(m.id));
    }
  }

  lemma {:induction false} MutatedToReplacement(cfg: Config, parent: Category, n: Node, next: nat, m: Mutant)
    requires !ShouldSkip(cfg, n) && m in Minted(cfg, n, next) && !m.ignored
    ensures m.original == n && Mutated(cfg, parent, n, next, Some(m.id)) == m.replacement
  {
  }

  lemma {:induction false} NumberStep(cfg: Config, parent: Category, kids: seq<Node>, next: nat, i: nat)
    requires i < |kids|
    ensures NumberOf(cfg, parent, kids, next, i) ==
            if i == 0 then next
            else NumberOf(cfg, parent, kids[1..], next + |Visit(cfg, parent, kids[0], next).mutants|, i - 1)
  {
  }

  lemma {:induction false} FindInKids(cfg: Config, n: Node, done: seq<Node>, todo: seq<Node>, next: nat, m: Mutant)
    returns (i: nat, path: Path)
    requires m in VisitKids(cfg, n, done, todo, next).mutants && !m.ignored
    ensures i < |todo| && ValidPath(todo[i], path) && At(todo[i], path) == m.original
    ensures MutatedKids(cfg, CategoryOf(n.kind), todo, next, Some(m.id)) == todo[i := Replace(todo[i], path, m.replacement)]
    ensures CollectedAt(cfg, todo[i], NumberOf(cfg, CategoryOf(n.kind), todo, next, i), path, m)
    decreases todo, 0
  {
    hide Visit, Mutated, Lifted, CategoryOf, Replace, VisitKids, NumberOf, CollectedAt;
    if todo == [] {
      NoKids(cfg, n, done, next);
      assert false;
    }
    VisitKidsUnfolded(cfg, n, done, todo, next);
    var cat := CategoryOf(n.kind);
    var kid := Visit(cfg, cat, todo[0], next);
    var mid := next + |kid.mutants|;
    VisitNumbers(cfg, cat, todo[0], next);
    if m in kid.mutants {
      path := FindMutant(cfg, cat, todo[0], next, m);
      i := 0;
      NumberStep(cfg, cat, todo, next, i);
      MutatedKidsElsewhere(cfg, n, done + [kid.node], todo[1..], mid, Some(m.id));
    } else {
      VisitKidsNumbers(cfg, n, done + [kid.node], todo[1..], mid);
      var j;
      j, path := FindInKids(cfg, n, done + [kid.node], todo[1..], mid, m);
      i := j + 1;
      NumberStep(cfg, cat, todo, next, i);
      MutatedElsewhere(cfg, cat, todo[0], next, Some(m.id));
    }
  }

  lemma {:induction false} UniqueFirst(n: Node, path: Path)
    requires UniqueKeys(n) && ValidPath(n, path)
    ensures KeyOf(At(n, path)).Some? && FirstAt(n, path, KeyOf(At(n, path)).value)
    decreases |path|
  {
    KeyInside(n, path);
    if path != [] {
      var kid := n.kids[path[0]];
      assert kid in n.kids;
      UniqueFirst(kid, path[1..]);
      KeyInside(kid, path[1..]);
    }
  }

  /** In a file with unique keys, `Mutant.applied` yields the tree in which exactly the mutated node
      is replaced. */
  lemma {:induction false} MutatedIsApplied(cfg: Config, parent: Category, n: Node, next: nat, m: Mutant)
    requires m in Visit(cfg, parent, n, next).mutants && !m.ignored && UniqueKeys(n)
    ensures AppliedTo(m, n) == Some(Mutated(cfg, parent, n, next, Some(m.id)))
  {
    var path := FindMutant(cfg, parent, n, next, m);
    UniqueFirst(n, path);
    if path != [] {
      KeyInside(n, path);
      SearchFindsPath(n, path, KeyOf(m.original).value, m.replacement);
    }
  }

  function One(b: bool): nat {
    if b then 1 else 0
  }

  /** Instrumenting a file in place: the tree and the mutants that the functional description gives.  All that
      the mutators yield for the nodes that are reached and selected is collected, and each of these mutants
      that is not ignored has one switch. */
  method TransformFile(cfg: Config, root: Node, collected: seq<Mutant>) returns (ast: Node, mutants: seq<Mutant>)
    requires root.kind == Program && WellFormed(root) && ProperMutators(cfg) && ProperKeys(cfg) && UniqueKeys(root)
    ensures ast == Visit(cfg, Root, root, |collected|).node
    ensures mutants == collected + Visit(cfg, Root, root, |collected|).mutants
    ensures SitesOf(mutants[|collected|..]) == AllSites(cfg, root)
    ensures forall i | |collected| <= i < |mutants| :: mutants[i].id == i
    ensures Clean(root) ==>
              forall id: nat :: multiset(Switches(ast))[id] == One(|collected| <= id < |mutants| && !mutants[id].ignored)
  {
    EveryMutantIsPlaced(cfg, root, |collected|);
    var traversal := new Traversal(cfg, root, collected);
    traversal.Traverse([], Root);
    ast, mutants := traversal.ast, traversal.mutants;
    TransformedFile(cfg, root, collected, ast, mutants);
  }

  lemma {:induction false} TransformedFile(cfg: Config, root: Node, collected: seq<Mutant>, ast: Node, mutants: seq<Mutant>)
    requires root.kind == Program && WellFormed(root) && ProperMutators(cfg)
    requires ast == Visit(cfg, Root, root, |collected|).node
    requires mutants == collected + Visit(cfg, Root, root, |collected|).mutants
    ensures SitesOf(mutants[|collected|..]) == AllSites(cfg, root)
    ensures forall i | |collected| <= i < |mutants| :: mutants[i].id == i
    ensures Clean(root) ==>
              forall id: nat :: multiset(Switches(ast))[id] == One(|collected| <= id < |mutants| && !mutants[id].ignored)
  {
    hide Visit, Switches, SitesOf, AllSites, Clean, WellFormed, ProperMutators;
    var v := Visit(cfg, Root, root, |collected|);
    assert mutants[|collected|..] == v.mutants;
    CollectionIsComplete(cfg, Root, root, |collected|);
    VisitNumbers(cfg, Root, root, |collected|);
    if Clean(root) {
      forall id: nat
        ensures multiset(Switches(ast))[id] == One(|collected| <= id < |mutants| && !mutants[id].ignored)
      {
        EveryMutantHasOneSwitch(cfg, root, |collected|, id);
      }
    }
  }
}
