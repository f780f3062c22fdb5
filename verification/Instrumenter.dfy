/** The traversal that instruments a tree, as a function of the tree: on the way down it collects
    mutants and hands each to the nearest ancestor that can carry a switch; on the way up it places
    the switches.  The copy that a mutant captures contains the switches that are already placed in
    everything left of the mutated node. */
module Instrumenter {
  import opened Ast
  import opened Locations
  import opened Options
  import opened Placers

  datatype Mutable = Mutable(replacement: Node, ignored: bool)

  datatype Mutant = Mutant(id: nat, original: Node, replacement: Node, ignored: bool)

  datatype MutateDescription = Everything | Nothing | Ranges(ranges: seq<Location>)

  /** `mutate` is what all mutators together yield for a node, `isTypeNode` recognises type
      annotations, imports and decorators, and `isValid` tells whether an expression inside another
      expression can carry a switch (it cannot as part of a call chain, for example).  With `prune`
      the walk skips subtrees outside the ranges, which is what the instrumenter does. */
  datatype Config = Config(
    mutate: Node -> seq<Mutable>,
    isTypeNode: Node -> bool,
    isValid: Node -> bool,
    description: MutateDescription,
    prune: bool)

  predicate Overlaps(d: MutateDescription, n: Node) {
    match d
    case Everything => true
    case Nothing => false
    case Ranges(ranges) => n.loc.Some? && exists r <- ranges :: LocationOverlaps(r, n.loc.value)
  }

  predicate ShouldSkip(cfg: Config, n: Node) {
    cfg.isTypeNode(n) || (cfg.prune && !Overlaps(cfg.description, n))
  }

  predicate ShouldMutate(cfg: Config, n: Node) {
    match cfg.description
    case Everything => true
    case Nothing => false
    case Ranges(ranges) => n.loc.Some? && exists r <- ranges :: LocationIncluded(r, n.loc.value)
  }

  predicate CanPlace(cfg: Config, parent: Category, n: Node) {
    match CategoryOf(n.kind)
    case Expression => parent != Expression || cfg.isValid(n)
    case Statement => true
    case SwitchCase => true
    case Root => false
  }

  /** The mutants of one node, numbered from `next`. */
  function Minted(cfg: Config, n: Node, next: nat): (ms: seq<Mutant>) {
    if ShouldMutate(cfg, n) then
      var mutables := cfg.mutate(n);
      seq(|mutables|, i requires 0 <= i < |mutables| => Mutant(next + i, n, mutables[i].replacement, mutables[i].ignored))
    else []
  }

  /** The entries of the mutants that are not ignored, when the mutated node is itself placed on. */
  function OwnApplied(ms: seq<Mutant>): seq<Applied> {
    if ms == [] then []
    else (if ms[0].ignored then [] else [Applied(ms[0].id, ms[0].replacement)]) + OwnApplied(ms[1..])
  }

  /** `applied` are the mutants that still have to be placed on an ancestor, each with a copy of
      this subtree in which it is applied; `mutants` are all mutants collected in the subtree. */
  datatype Walk = Walk(node: Node, applied: seq<Applied>, mutants: seq<Mutant>)

  datatype KidsWalk = KidsWalk(kids: seq<Node>, applied: seq<Applied>, mutants: seq<Mutant>)

  function Lifted(n: Node, done: seq<Node>, todo: seq<Node>, applied: seq<Applied>): seq<Applied> {
    seq(|applied|, i requires 0 <= i < |applied| =>
      Applied(applied[i].id, n.(kids := done + [applied[i].copy] + todo)))
  }

  function Visit(cfg: Config, parent: Category, n: Node, next: nat): Walk
    decreases n, 1
  {
    if ShouldSkip(cfg, n) then Walk(n, [], [])
    else
      var own := Minted(cfg, n, next);
      var below := VisitKids(cfg, n, [], n.kids, next + |own|);
      var node := n.(kids := below.kids);
      var applied := OwnApplied(own) + below.applied;
      if !CanPlace(cfg, parent, n) then Walk(node, applied, own + below.mutants)
      else Walk(if applied == [] then node else Placed(node, applied), [], own + below.mutants)
  }

  /** Visits the children from left to right; `done` are the children that are rewritten already. */
  function VisitKids(cfg: Config, n: Node, done: seq<Node>, todo: seq<Node>, next: nat): KidsWalk
    decreases todo, 0
  {
    if todo == [] then KidsWalk(done, [], [])
    else
      var kid := Visit(cfg, CategoryOf(n.kind), todo[0], next);
      var rest := VisitKids(cfg, n, done + [kid.node], todo[1..], next + |kid.mutants|);
      KidsWalk(rest.kids, Lifted(n, done, todo[1..], kid.applied) + rest.applied, kid.mutants + rest.mutants)
  }

  // One step of the visit, for proofs that hide the recursive definition.

  lemma {:induction false} SkippedVisit(cfg: Config, parent: Category, n: Node, next: nat)
    requires ShouldSkip(cfg, n)
    ensures Visit(cfg, parent, n, next) == Walk(n, [], [])
  {
  }

  lemma {:induction false} VisitUnfolded(cfg: Config, parent: Category, node: Node, next: nat)
    requires !ShouldSkip(cfg, node)
    ensures var own := Minted(cfg, node, next);
            var below := VisitKids(cfg, node, [], node.kids, next + |own|);
            var applied := OwnApplied(own) + below.applied;
            Visit(cfg, parent, node, next) ==
              if !CanPlace(cfg, parent, node) then Walk(node.(kids := below.kids), applied, own + below.mutants)
              else Walk(if applied == [] then node.(kids := below.kids) else Placed(node.(kids := below.kids), applied),
                        [], own + below.mutants)
  {
  }

  lemma VisitKidsUnfolded(cfg: Config, n: Node, done: seq<Node>, todo: seq<Node>, next: nat)
    requires todo != []
    ensures var kid := Visit(cfg, CategoryOf(n.kind), todo[0], next);
            var rest := VisitKids(cfg, n, done + [kid.node], todo[1..], next + |kid.mutants|);
            VisitKids(cfg, n, done, todo, next) ==
              KidsWalk(rest.kids, Lifted(n, done, todo[1..], kid.applied) + rest.applied, kid.mutants + rest.mutants)
  {
  }

  /** The tree in which nothing but the node of the active mutant is replaced; the tree itself when
      no mutant is active, or the active one is ignored or not a mutant of this tree. */
  function Mutated(cfg: Config, parent: Category, n: Node, next: nat, active: Option<nat>): Node
    decreases n, 1
  {
    if ShouldSkip(cfg, n) then n
    else
      var own := Minted(cfg, n, next);
      if active.Some? && next <= active.value < next + |own| then
        var m := own[active.value - next];
        if m.ignored then n else m.replacement
      else n.(kids := MutatedKids(cfg, CategoryOf(n.kind), n.kids, next + |own|, active))
  }

  function MutatedKids(cfg: Config, parent: Category, todo: seq<Node>, next: nat,
                       active: Option<nat>): (kids: seq<Node>)
    ensures |kids| == |todo|
    decreases todo, 0
  {
    if todo == [] then []
    else
      [Mutated(cfg, parent, todo[0], next, active)] +
      MutatedKids(cfg, parent, todo[1..], next + |Visit(cfg, parent, todo[0], next).mutants|, active)
  }

  // ----- numbering

  /** Mutants are numbered densely, in the order in which they are collected. */
  ghost predicate Dense(ms: seq<Mutant>, next: nat) {
    forall i :: 0 <= i < |ms| ==> ms[i].id == next + i
  }

  /** Entries stand in the order of their ids, within [lo, hi). */
  ghost predicate Ascending(applied: seq<Applied>, lo: nat, hi: nat) {
    && (forall i :: 0 <= i < |applied| ==> lo <= applied[i].id < hi)
    && (forall i, j :: 0 <= i < j < |applied| ==> applied[i].id < applied[j].id)
  }

  lemma AscendingAppend(a: seq<Applied>, b: seq<Applied>, lo: nat, mid: nat, hi: nat)
    requires lo <= mid <= hi && Ascending(a, lo, mid) && Ascending(b, mid, hi)
    ensures Ascending(a + b, lo, hi)
  {
  }

  lemma AscendingNone(lo: nat, hi: nat)
    ensures Ascending([], lo, hi)
  {
  }

  lemma LiftedAscending(n: Node, done: seq<Node>, todo: seq<Node>, applied: seq<Applied>, lo: nat, hi: nat)
    requires Ascending(applied, lo, hi)
    ensures Ascending(Lifted(n, done, todo, applied), lo, hi)
  {
  }

  lemma {:induction false} OwnAscending(ms: seq<Mutant>, next: nat)
    requires Dense(ms, next)
    ensures Ascending(OwnApplied(ms), next, next + |ms|)
    decreases |ms|
  {
    if ms != [] {
      OwnAscending(ms[1..], next + 1);
      var first := if ms[0].ignored then [] else [Applied(ms[0].id, ms[0].replacement)];
      assert Ascending(first, next, next + 1);
      AscendingAppend(first, OwnApplied(ms[1..]), next, next + 1, next + |ms|);
    }
  }

  lemma {:induction false} VisitNumbers(cfg: Config, parent: Category, n: Node, next: nat)
    ensures Dense(Visit(cfg, parent, n, next).mutants, next)
    ensures Ascending(Visit(cfg, parent, n, next).applied, next, next + |Visit(cfg, parent, n, next).mutants|)
    decreases n, 1
  {
    hide Visit, VisitKids, OwnApplied, ShouldSkip, CanPlace, Placed, Ascending;
    if ShouldSkip(cfg, n) {
      SkippedVisit(cfg, parent, n, next);
      AscendingNone(next, next);
    } else {
      var own := Minted(cfg, n, next);
      var below := VisitKids(cfg, n, [], n.kids, next + |own|);
      VisitUnfolded(cfg, parent, n, next);
      OwnAscending(own, next);
      VisitKidsNumbers(cfg, n, [], n.kids, next + |own|);
      AscendingAppend(OwnApplied(own), below.applied, next, next + |own|, next + |own| + |below.mutants|);
      AscendingNone(next, next + |own + below.mutants|);
    }
  }

  lemma {:induction false} VisitKidsNumbers(cfg: Config, n: Node, done: seq<Node>, todo: seq<Node>, next: nat)
    ensures Dense(VisitKids(cfg, n, done, todo, next).mutants, next)
    ensures Ascending(VisitKids(cfg, n, done, todo, next).applied,
                      next, next + |VisitKids(cfg, n, done, todo, next).mutants|)
    ensures |VisitKids(cfg, n, done, todo, next).kids| == |done| + |todo|
    decreases todo, 0
  {
    hide Visit, Ascending, Lifted, CategoryOf;
    if todo == [] {
      AscendingNone(next, next);
    } else {
      var kid := Visit(cfg, CategoryOf(n.kind), todo[0], next);
      var mid := next + |kid.mutants|;
      VisitNumbers(cfg, CategoryOf(n.kind), todo[0], next);
      VisitKidsNumbers(cfg, n, done + [kid.node], todo[1..], mid);
      var rest := VisitKids(cfg, n, done + [kid.node], todo[1..], mid);
      LiftedAscending(n, done, todo[1..], kid.applied, next, mid);
      AscendingAppend(Lifted(n, done, todo[1..], kid.applied), rest.applied, next, mid, mid + |rest.mutants|);
      VisitKidsUnfolded(cfg, n, done, todo, next);
    }
  }

  // ----- skipping subtrees outside the ranges

  ghost predicate Nested(n: Node) {
    && n.loc.Some? && Gte(n.loc.value.end, n.loc.value.start)
    && forall k <- n.kids :: Nested(k) && LocationIncluded(n.loc.value, k.loc.value)
  }

  lemma {:induction false} NothingToMutate(cfg: Config, n: Node, inner: Node)
    requires Nested(n) && Nested(inner) && LocationIncluded(n.loc.value, inner.loc.value)
    requires !Overlaps(cfg.description, n)
    ensures !ShouldMutate(cfg, inner) && !Overlaps(cfg.description, inner)
  {
  }

  /** In a tree that overlaps no range, the unpruned walk finds nothing either. */
  lemma {:induction false} OutsideRanges(cfg: Config, parent: Category, n: Node, next: nat)
    requires Nested(n) && !Overlaps(cfg.description, n)
    ensures Visit(cfg.(prune := false), parent, n, next) == Walk(n, [], [])
    decreases n, 1
  {
    NothingToMutate(cfg, n, n);
    OutsideRangesKids(cfg, n, [], n.kids, next);
    assert n.(kids := n.kids) == n;
  }

  lemma {:induction false} OutsideRangesKids(cfg: Config, n: Node, done: seq<Node>, todo: seq<Node>, next: nat)
    requires n.kids == done + todo && Nested(n) && !Overlaps(cfg.description, n)
    ensures VisitKids(cfg.(prune := false), n, done, todo, next) == KidsWalk(n.kids, [], [])
    decreases todo, 0
  {
    if todo != [] {
      assert todo[0] in n.kids;
      NothingToMutate(cfg, n, todo[0]);
      OutsideRanges(cfg, CategoryOf(n.kind), todo[0], next);
      OutsideRangesKids(cfg, n, done + [todo[0]], todo[1..], next);
    }
  }

  /** Pruning refines the full traversal: same tree, same mutants with the same numbers, and the
      same placements. */
  lemma {:induction false} PruningRefinesFullTraversal(cfg: Config, parent: Category, n: Node, next: nat)
    requires Nested(n)
    ensures Visit(cfg.(prune := true), parent, n, next) == Visit(cfg.(prune := false), parent, n, next)
    decreases n, 1
  {
    var pruned, full := cfg.(prune := true), cfg.(prune := false);
    if !Overlaps(cfg.description, n) {
      OutsideRanges(cfg, parent, n, next);
    } else if !cfg.isTypeNode(n) {
      var own := Minted(full, n, next);
      assert Minted(pruned, n, next) == own;
      PruningRefinesKids(cfg, n, [], n.kids, next + |own|);
      assert !ShouldSkip(pruned, n) && !ShouldSkip(full, n);
      SameVisit(pruned, full, parent, n, next);
    }
  }

  lemma {:induction false} SameVisit(c: Config, d: Config, parent: Category, n: Node, next: nat)
    requires !ShouldSkip(c, n) && !ShouldSkip(d, n) && c.isValid == d.isValid
    requires Minted(c, n, next) == Minted(d, n, next)
    requires var from := next + |Minted(c, n, next)|;
             VisitKids(c, n, [], n.kids, from) == VisitKids(d, n, [], n.kids, from)
    ensures Visit(c, parent, n, next) == Visit(d, parent, n, next)
  {
  }

  lemma {:induction false} PruningRefinesKids(cfg: Config, n: Node, done: seq<Node>, todo: seq<Node>, next: nat)
    requires forall k <- todo :: Nested(k)
    ensures VisitKids(cfg.(prune := true), n, done, todo, next) == VisitKids(cfg.(prune := false), n, done, todo, next)
    decreases todo, 0
  {
    if todo != [] {
      PruningRefinesFullTraversal(cfg, CategoryOf(n.kind), todo[0], next);
      var kid := Visit(cfg.(prune := false), CategoryOf(n.kind), todo[0], next);
      PruningRefinesKids(cfg, n, done + [kid.node], todo[1..], next + |kid.mutants|);
    }
  }
}
