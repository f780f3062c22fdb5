/** Whole programs.  All files of a project share one mutant collector, so the numbering runs on from
    file to file.  A program is a table of functions; what runs it is a driver, uninstrumented code
    such as a test. */
module Schemata {
  import opened Ast
  import opened Options
  import opened Semantics
  import opened Simulation
  import opened Placers
  import opened Instrumenter
  import opened Meaning

  datatype File = File(name: string, params: seq<string>, tree: Node)

  datatype Instrumented = Instrumented(files: seq<File>, mutants: seq<Mutant>)

  function Instrument(cfg: Config, files: seq<File>, next: nat): Instrumented {
    if files == [] then Instrumented([], [])
    else
      var v := Visit(cfg, Root, files[0].tree, next);
      var rest := Instrument(cfg, files[1..], next + |v.mutants|);
      Instrumented([files[0].(tree := v.node)] + rest.files, v.mutants + rest.mutants)
  }

  /** The program in which the node of the active mutant is replaced and nothing else changes. */
  function MutatedProgram(cfg: Config, files: seq<File>, next: nat, active: Option<nat>): seq<File> {
    if files == [] then []
    else
      [files[0].(tree := Mutated(cfg, Root, files[0].tree, next, active))] +
      MutatedProgram(cfg, files[1..], next + |Visit(cfg, Root, files[0].tree, next).mutants|, active)
  }

  /** Later declarations of a name win. */
  function Functions(files: seq<File>): map<string, Function> {
    if files == [] then map[]
    else map[files[0].name := Function(files[0].params, files[0].tree)] + Functions(files[1..])
  }

  ghost predicate ProperFile(f: File) {
    f.tree.kind == Program && Clean(f.tree) && WellFormed(f.tree)
  }

  ghost predicate ProperProgram(cfg: Config, files: seq<File>) {
    ProperMutators(cfg) && forall f <- files :: ProperFile(f)
  }

  /** Every mutant finds a place: statements can always carry a switch. */
  lemma {:induction false} EveryMutantIsPlaced(cfg: Config, n: Node, next: nat)
    requires n.kind == Program && WellFormed(n) && ProperMutators(cfg)
    ensures Visit(cfg, Root, n, next).applied == []
  {
    assert cfg.mutate(n) == [];
    KidsArePlaced(cfg, n, [], n.kids, next);
  }

  lemma {:induction false} KidsArePlaced(cfg: Config, n: Node, done: seq<Node>, todo: seq<Node>, next: nat)
    requires n.kind == Program && forall k <- todo :: CategoryOf(k.kind) == Statement
    ensures VisitKids(cfg, n, done, todo, next).applied == []
    decreases |todo|
  {
    hide VisitKids, Minted, OwnApplied, Lifted, Placed;
    if todo == [] {
      NoKids(cfg, n, done, next);
    } else {
      var kid := Visit(cfg, Root, todo[0], next);
      VisitKidsUnfolded(cfg, n, done, todo, next);
      NothingLifted(n, done, todo[1..]);
      KidsArePlaced(cfg, n, done + [kid.node], todo[1..], next + |kid.mutants|);
    }
  }

  ghost predicate FilesAlike(k: nat, p: Pair, xs: seq<File>, ys: seq<File>) {
    && |xs| == |ys|
    && forall i :: 0 <= i < |xs| ==>
         && xs[i].name == ys[i].name && xs[i].params == ys[i].params
         && Alike(k, p, xs[i].tree, ys[i].tree)
  }

  lemma {:induction false} TablesAlike(k: nat, p: Pair, xs: seq<File>, ys: seq<File>)
    requires FilesAlike(k, p, xs, ys)
    ensures Functions(xs).Keys == Functions(ys).Keys
    ensures forall f <- Functions(xs) ::
              && Functions(xs)[f].params == Functions(ys)[f].params
              && Alike(k, p, Functions(xs)[f].body, Functions(ys)[f].body)
    decreases |xs|
  {
    if xs != [] {
      assert forall i :: 0 <= i < |xs[1..]| ==> xs[1..][i] == xs[i + 1] && ys[1..][i] == ys[i + 1];
      TablesAlike(k, p, xs[1..], ys[1..]);
    }
  }

  lemma {:induction false} FilesMean(k: nat, p: Pair, cfg: Config, files: seq<File>, next: nat)
    requires ProperProgram(cfg, files) && FunctionsAlike(k, p) && p.avoid == None
    ensures FilesAlike(k, p, Instrument(cfg, files, next).files, MutatedProgram(cfg, files, next, p.w1.active))
    decreases |files|
  {
    hide Clean, WellFormed, Alike, ProperMutators, FunctionsAlike, Visit, Mutated;
    if files != [] {
      var v := Visit(cfg, Root, files[0].tree, next);
      assert ProperFile(files[0]);
      VisitMeans(k, p, cfg, Root, files[0].tree, next);
      EveryMutantIsPlaced(cfg, files[0].tree, next);
      FilesMean(k, p, cfg, files[1..], next + |v.mutants|);
    }
  }

  /** Alike for all fuel below zero: no two tables differ in that. */
  lemma AlikeBelowZero(p: Pair, xs: seq<File>, ys: seq<File>)
    requires |xs| == |ys| && forall i :: 0 <= i < |xs| ==> xs[i].name == ys[i].name && xs[i].params == ys[i].params
    ensures FilesAlike(0, p, xs, ys)
  {
  }

  lemma {:induction false} SameNames(cfg: Config, files: seq<File>, next: nat, active: Option<nat>)
    ensures var xs, ys := Instrument(cfg, files, next).files, MutatedProgram(cfg, files, next, active);
            |xs| == |ys| == |files| && forall i :: 0 <= i < |xs| ==>
              xs[i].name == ys[i].name == files[i].name && xs[i].params == ys[i].params == files[i].params
    decreases |files|
  {
    hide Visit, Mutated;
    if files != [] {
      SameNames(cfg, files[1..], next + |Visit(cfg, Root, files[0].tree, next).mutants|, active);
    }
  }

  /** The induction over fuel that ties the knot between calls and function bodies. */
  lemma {:induction false} ProgramsAlike(k: nat, cfg: Config, files: seq<File>, host: (string, seq<Value>,
                                         Env) -> (Completion, Env), active: Option<nat>)
    requires ProperProgram(cfg, files)
    ensures FunctionsAlike(k, Comparison(cfg, files, host, active))
    decreases k
  {
    var p := Comparison(cfg, files, host, active);
    var xs, ys := Instrument(cfg, files, 0).files, MutatedProgram(cfg, files, 0, active);
    if k == 0 {
      SameNames(cfg, files, 0, active);
      AlikeBelowZero(p, xs, ys);
      TablesAlike(0, p, xs, ys);
    } else {
      ProgramsAlike(k - 1, cfg, files, host, active);
      FilesMean(k - 1, p, cfg, files, 0);
      TablesAlike(k - 1, p, xs, ys);
    }
  }

  /** The instrumented program with a mutant active, beside the plain program with that mutant applied. */
  ghost function Comparison(cfg: Config, files: seq<File>, host: (string, seq<Value>, Env) -> (Completion, Env),
                            active: Option<nat>): Pair {
    Pair(World(host, Functions(Instrument(cfg, files, 0).files), active),
         World(host, Functions(MutatedProgram(cfg, files, 0, active)), None),
         None)
  }

  /** Meaning preservation.  For every program, every placeability predicate, every choice of mutators
      and ranges, every driver and every state: the instrumented program with `active` switched on
      completes as the program does in which only the node of that mutant is replaced. */
  lemma {:induction false} InstrumentedBehavesLikeMutant(cfg: Config, files: seq<File>, active: Option<nat>,
                                                         driver: Node,
                                      host: (string, seq<Value>, Env) -> (Completion, Env), fuel: nat, env: Env)
    requires ProperProgram(cfg, files) && Clean(driver) && WellFormed(driver)
    ensures SameEffect(
              Eval(World(host, Functions(Instrument(cfg, files, 0).files), active), driver, fuel, env),
              Eval(World(host, Functions(MutatedProgram(cfg, files, 0, active)), None), driver, fuel, env))
  {
    var p := Comparison(cfg, files, host, active);
    ProgramsAlike(fuel + 1, cfg, files, host, active);
    CleanSimulatesItself(fuel + 1, p, driver);
    assert Agree(Eval(p.w1, driver, fuel, env), Eval(p.w2, driver, fuel, env), None);
  }

  lemma {:induction false} NothingMutated(cfg: Config, files: seq<File>, next: nat)
    ensures MutatedProgram(cfg, files, next, None) == files
    decreases |files|
  {
    hide Visit, Mutated;
    if files != [] {
      MutatedElsewhere(cfg, Root, files[0].tree, next, None);
      NothingMutated(cfg, files[1..], next + |Visit(cfg, Root, files[0].tree, next).mutants|);
      assert files == [files[0]] + files[1..];
    }
  }

  /** With no mutant active the instrumented program behaves like the original. */
  lemma {:induction false} InstrumentedBehavesLikeOriginal(cfg: Config, files: seq<File>, driver: Node,
                                        host: (string, seq<Value>, Env) -> (Completion, Env), fuel: nat, env: Env)
    requires ProperProgram(cfg, files) && Clean(driver) && WellFormed(driver)
    ensures SameEffect(
              Eval(World(host, Functions(Instrument(cfg, files, 0).files), None), driver, fuel, env),
              Eval(World(host, Functions(files), None), driver, fuel, env))
  {
    InstrumentedBehavesLikeMutant(cfg, files, None, driver, host, fuel, env);
    NothingMutated(cfg, files, 0);
  }

  /** The ids of all mutants of a project are 0, 1, 2, ... in the order of collection. */
  lemma {:induction false} IdsAreDense(cfg: Config, files: seq<File>, next: nat)
    ensures Dense(Instrument(cfg, files, next).mutants, next)
    decreases |files|
  {
    hide Visit;
    if files != [] {
      var v := Visit(cfg, Root, files[0].tree, next);
      VisitNumbers(cfg, Root, files[0].tree, next);
      IdsAreDense(cfg, files[1..], next + |v.mutants|);
    }
  }

  // ----- a mutant that is not covered has no effect

  lemma PlacedInert(k: nat, p: Pair, node: Node, applied: seq<Applied>, n: Node)
    requires p.avoid.Some? && p.w1.active == None && p.w2.active == p.avoid
    requires Simulates(k, p, node, node) && SameCategory(node, applied, n) && CategoryOf(n.kind) != Root
    ensures Simulates(k, p, Placed(node, applied), Placed(node, applied))
  {
    var placed := Placed(node, applied);
    ChosenIsApplied(applied, None);
    ChosenIsApplied(applied, p.avoid);
    forall fuel: nat, env: Env | fuel < k
      ensures Agree(Eval(p.w1, placed, fuel, env), Eval(p.w2, placed, fuel, env), p.avoid)
    {
      PlacedRuns(p.w1, node, applied, n, fuel, env);
      PlacedRuns(p.w2, node, applied, n, fuel, env);
      var o := Eval(p.w1, placed, fuel, env);
      if i :| 0 <= i < |applied| && applied[i].id == p.avoid.value {
        assert o.log[i] == Covered(p.avoid.value);
      } else {
        assert Agree(Eval(p.w1, node, fuel, env), Eval(p.w2, node, fuel, env), p.avoid);
      }
    }
  }

  ghost predicate InertHypotheses(k: nat, p: Pair, cfg: Config, n: Node) {
    && Clean(n) && WellFormed(n) && ProperMutators(cfg) && FunctionsAlike(k, p)
    && p.avoid.Some? && p.w1.active == None && p.w2.active == p.avoid
  }

  lemma {:induction false} VisitInert(k: nat, p: Pair, cfg: Config, parent: Category, n: Node, next: nat)
    requires InertHypotheses(k, p, cfg, n)
    ensures Simulates(k, p, Visit(cfg, parent, n, next).node, Visit(cfg, parent, n, next).node)
    decreases n, 1
  {
    hide Clean, WellFormed, Simulates, Alike, ProperReplacement, ProperMutators, FunctionsAlike, OwnApplied,
         SameCategory, Placed, ShouldSkip, Minted;
    if ShouldSkip(cfg, n) {
      CleanSimulatesItself(k, p, n);
      SkippedIsKept(cfg, parent, n, next);
    } else {
      var own := Minted(cfg, n, next);
      var below := VisitKids(cfg, n, [], n.kids, next + |own|);
      VisitKidsInert(k, p, cfg, n, [], n.kids, next + |own|);
      KidsShape(cfg, n, [], n.kids, next + |own|);
      RewrittenInert(k, p, cfg, n, below.kids, OwnApplied(own), below.applied, next);
      if CanPlace(cfg, parent, n) && OwnApplied(own) + below.applied != [] {
        PlacedInert(k, p, n.(kids := below.kids), OwnApplied(own) + below.applied, n);
      }
    }
  }

  lemma {:induction false} SkippedIsKept(cfg: Config, parent: Category, n: Node, next: nat)
    requires ShouldSkip(cfg, n)
    ensures Visit(cfg, parent, n, next).node == n
  {
  }

  lemma RewrittenInert(k: nat, p: Pair, cfg: Config, n: Node, kids: seq<Node>, own: seq<Applied>, below: seq<Applied>,
                       next: nat)
    requires InertHypotheses(k, p, cfg, n) && SimulateAll(k, p, kids, kids)
    requires own == OwnApplied(Minted(cfg, n, next)) && SameShape(below, n) && |kids| == |n.kids|
    ensures Simulates(k, p, n.(kids := kids), n.(kids := kids))
    ensures SameCategory(n.(kids := kids), own + below, n)
  {
    assert SameCategory(n.(kids := kids), own + below, n) by {
      MintedProper(cfg, n, next);
      OwnProper(cfg, n, Minted(cfg, n, next));
      RewrittenFits(n, kids, own, below);
    }
    Congruence(k, p, n.(kids := kids), n.(kids := kids));
  }

  lemma {:induction false} NoKids(cfg: Config, n: Node, done: seq<Node>, next: nat)
    ensures VisitKids(cfg, n, done, [], next) == KidsWalk(done, [], [])
  {
  }

  lemma {:induction false} KidsShape(cfg: Config, n: Node, done: seq<Node>, todo: seq<Node>, next: nat)
    requires |done| + |todo| == |n.kids|
    ensures |VisitKids(cfg, n, done, todo, next).kids| == |n.kids|
    ensures SameShape(VisitKids(cfg, n, done, todo, next).applied, n)
    decreases |todo|
  {
    hide Visit, Lifted, CategoryOf, VisitKids;
    if todo == [] {
      NoKids(cfg, n, done, next);
    } else {
      VisitKidsUnfolded(cfg, n, done, todo, next);
      var kid := Visit(cfg, CategoryOf(n.kind), todo[0], next);
      var rest := VisitKids(cfg, n, done + [kid.node], todo[1..], next + |kid.mutants|);
      KidsShape(cfg, n, done + [kid.node], todo[1..], next + |kid.mutants|);
      LiftedShape(n, done, todo[1..], kid.applied, rest.applied);
    }
  }

  lemma InertKid(k: nat, p: Pair, cfg: Config, n: Node, kid: Node)
    requires InertHypotheses(k, p, cfg, n) && kid in n.kids
    ensures InertHypotheses(k, p, cfg, kid)
  {
  }

  lemma {:induction false} VisitKidsInert(k: nat, p: Pair, cfg: Config, n: Node, done: seq<Node>, todo: seq<Node>,
                                          next: nat)
    requires InertHypotheses(k, p, cfg, n) && SimulateAll(k, p, done, done) && forall t <- todo :: t in n.kids
    ensures var kids := VisitKids(cfg, n, done, todo, next).kids; SimulateAll(k, p, kids, kids)
    decreases todo, 0
  {
    hide Visit, Lifted, CategoryOf, Clean, WellFormed, Simulates, ProperMutators, FunctionsAlike;
    if todo != [] {
      var kid := Visit(cfg, CategoryOf(n.kind), todo[0], next);
      InertKid(k, p, cfg, n, todo[0]);
      VisitInert(k, p, cfg, CategoryOf(n.kind), todo[0], next);
      VisitKidsInert(k, p, cfg, n, done + [kid.node], todo[1..], next + |kid.mutants|);
    }
  }

  lemma {:induction false} FilesInert(k: nat, p: Pair, cfg: Config, files: seq<File>, next: nat)
    requires ProperProgram(cfg, files) && FunctionsAlike(k, p)
    requires p.avoid.Some? && p.w1.active == None && p.w2.active == p.avoid
    ensures var xs := Instrument(cfg, files, next).files; FilesAlike(k, p, xs, xs)
    decreases |files|
  {
    hide Visit, Clean, WellFormed, Alike, ProperMutators, FunctionsAlike;
    if files != [] {
      var v := Visit(cfg, Root, files[0].tree, next);
      assert ProperFile(files[0]);
      VisitInert(k, p, cfg, Root, files[0].tree, next);
      FilesInert(k, p, cfg, files[1..], next + |v.mutants|);
    }
  }

  ghost function InertComparison(cfg: Config, files: seq<File>, host: (string, seq<Value>, Env) -> (Completion, Env),
                                 m: nat): Pair {
    var table := Functions(Instrument(cfg, files, 0).files);
    Pair(World(host, table, None), World(host, table, Some(m)), Some(m))
  }

  lemma {:induction false} ProgramInert(k: nat, cfg: Config, files: seq<File>, host: (string, seq<Value>,
                                        Env) -> (Completion, Env), m: nat)
    requires ProperProgram(cfg, files)
    ensures FunctionsAlike(k, InertComparison(cfg, files, host, m))
    decreases k
  {
    var p := InertComparison(cfg, files, host, m);
    var xs := Instrument(cfg, files, 0).files;
    if k == 0 {
      AlikeBelowZero(p, xs, xs);
      TablesAlike(0, p, xs, xs);
    } else {
      ProgramInert(k - 1, cfg, files, host, m);
      FilesInert(k - 1, p, cfg, files, 0);
      TablesAlike(k - 1, p, xs, xs);
    }
  }

  /** A run that does not count mutant m never reaches a switch of m: activating m changes nothing. */
  lemma {:induction false} UncoveredMutantHasNoEffect(cfg: Config, files: seq<File>, m: nat, driver: Node,
                                   host: (string, seq<Value>, Env) -> (Completion, Env), fuel: nat, env: Env)
    requires ProperProgram(cfg, files) && Clean(driver) && WellFormed(driver)
    requires var table := Functions(Instrument(cfg, files, 0).files);
             Covered(m) !in Eval(World(host, table, None), driver, fuel, env).log
    ensures var table := Functions(Instrument(cfg, files, 0).files);
            SameEffect(Eval(World(host, table, Some(m)), driver, fuel, env),
                       Eval(World(host, table, None), driver, fuel, env))
  {
    var p := InertComparison(cfg, files, host, m);
    ProgramInert(fuel + 1, cfg, files, host, m);
    CleanSimulatesItself(fuel + 1, p, driver);
    assert Agree(Eval(p.w1, driver, fuel, env), Eval(p.w2, driver, fuel, env), Some(m));
  }

  /** In terms of the program itself: a mutant that a run does not cover cannot change the run. */
  lemma {:induction false} UncoveredMutantSurvives(cfg: Config, files: seq<File>, m: nat, driver: Node,
                                host: (string, seq<Value>, Env) -> (Completion, Env), fuel: nat, env: Env)
    requires ProperProgram(cfg, files) && Clean(driver) && WellFormed(driver)
    requires var table := Functions(Instrument(cfg, files, 0).files);
             Covered(m) !in Eval(World(host, table, None), driver, fuel, env).log
    ensures SameEffect(Eval(World(host, Functions(MutatedProgram(cfg, files, 0, Some(m))), None), driver, fuel, env),
                       Eval(World(host, Functions(files), None), driver, fuel, env))
  {
    UncoveredMutantHasNoEffect(cfg, files, m, driver, host, fuel, env);
    InstrumentedBehavesLikeMutant(cfg, files, Some(m), driver, host, fuel, env);
    InstrumentedBehavesLikeOriginal(cfg, files, driver, host, fuel, env);
  }
}
