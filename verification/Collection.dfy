/** Which mutants are collected: what the mutators yield for every selected node that the walk reaches, in the
    order of the nodes, and nothing else. */
module Collection {
  import opened Ast
  import opened Locations
  import opened Paths
  import opened Instrumenter

  // ----- the nodes of a tree, in the order of the source text

  function PathsOf(n: Node): seq<Path>
    decreases n, 1
  {
    [[]] + PathsOfKids(n, 0)
  }

  function PathsOfKids(n: Node, from: nat): seq<Path>
    requires from <= |n.kids|
    decreases n, 0, |n.kids| - from
  {
    if from == |n.kids| then [] else Below(from, PathsOf(n.kids[from])) + PathsOfKids(n, from + 1)
  }

  function Below(i: nat, paths: seq<Path>): seq<Path> {
    if paths == [] then [] else [[i] + paths[0]] + Below(i, paths[1..])
  }

  /** Every node is listed exactly once, and no other path is listed. */
  lemma {:induction false} PathsOnce(n: Node, path: Path)
    ensures multiset(PathsOf(n))[path] == if ValidPath(n, path) then 1 else 0
    decreases n, 1
  {
    KidPathsOnce(n, 0, path);
    assert multiset([[]] + PathsOfKids(n, 0)) == multiset{[]} + multiset(PathsOfKids(n, 0));
  }

  lemma {:induction false} KidPathsOnce(n: Node, from: nat, path: Path)
    requires from <= |n.kids|
    ensures multiset(PathsOfKids(n, from))[path] ==
            if path != [] && path[0] >= from && ValidPath(n, path) then 1 else 0
    decreases n, 0, |n.kids| - from
  {
    hide PathsOf, PathsOfKids, Below;
    if from == |n.kids| {
      NoKidPaths(n);
    } else {
      KidPathsOnce(n, from + 1, path);
      BelowOnce(from, PathsOf(n.kids[from]), path);
      KidPathsAdd(n, from, path);
      if path != [] && path[0] == from {
        PathsOnce(n.kids[from], path[1..]);
      }
    }
  }

  lemma {:induction false} NoKidPaths(n: Node)
    ensures PathsOfKids(n, |n.kids|) == []
  {
  }

  lemma KidPathsAdd(n: Node, from: nat, path: Path)
    requires from < |n.kids|
    ensures multiset(PathsOfKids(n, from))[path] ==
            multiset(Below(from, PathsOf(n.kids[from])))[path] + multiset(PathsOfKids(n, from + 1))[path]
  {
    hide PathsOf, Below;
  }

  lemma {:induction false} BelowOnce(i: nat, paths: seq<Path>, path: Path)
    ensures multiset(Below(i, paths))[path] == if path != [] && path[0] == i then multiset(paths)[path[1..]] else 0
    decreases |paths|
  {
    hide Below;
    BelowUnfolded(i, paths);
    if paths != [] {
      BelowOnce(i, paths[1..], path);
      assert paths == [paths[0]] + paths[1..];
      CountFirst([i] + paths[0], Below(i, paths[1..]), path);
      SamePath(i, paths[0], path);
      if path != [] {
        CountFirst(paths[0], paths[1..], path[1..]);
      }
    }
  }

  lemma {:induction false} BelowUnfolded(i: nat, paths: seq<Path>)
    ensures Below(i, paths) == if paths == [] then [] else [[i] + paths[0]] + Below(i, paths[1..])
  {
  }

  lemma CountFirst<T>(x: T, s: seq<T>, y: T)
    ensures multiset([x] + s)[y] == (if y == x then 1 else 0) + multiset(s)[y]
  {
    assert multiset([x] + s) == multiset{x} + multiset(s);
  }

  lemma SamePath(i: nat, p: Path, path: Path)
    ensures path == [i] + p <==> path != [] && path[0] == i && path[1..] == p
  {
    if path != [] {
      assert path == [path[0]] + path[1..];
    }
  }

  // ----- what should be collected

  /** What a collected mutant is, apart from its id. */
  datatype Site = Site(original: Node, replacement: Node, ignored: bool)

  function SitesOf(ms: seq<Mutant>): (sites: seq<Site>)
    ensures |sites| == |ms|
    ensures forall i :: 0 <= i < |ms| ==> sites[i] == Site(ms[i].original, ms[i].replacement, ms[i].ignored)
  {
    if ms == [] then []
    else [Site(ms[0].original, ms[0].replacement, ms[0].ignored)] + SitesOf(ms[1..])
  }

  /** The walk enters a node that is no type node and, when it skips what lies outside the ranges, overlaps one
      of them. */
  ghost predicate Entered(cfg: Config, n: Node) {
    && !cfg.isTypeNode(n)
    && (cfg.prune ==>
          match cfg.description
          case Everything => true
          case Nothing => false
          case Ranges(ranges) => n.loc.Some? && exists r <- ranges :: LocationOverlaps(r, n.loc.value))
  }

  /** A node is mutated if it lies within one of the ranges. */
  ghost predicate Selected(cfg: Config, n: Node) {
    match cfg.description
    case Everything => true
    case Nothing => false
    case Ranges(ranges) => n.loc.Some? && exists r <- ranges :: LocationIncluded(r, n.loc.value)
  }

  /** Every node on the way to the path is entered. */
  ghost predicate Reached(cfg: Config, n: Node, path: Path) {
    ValidPath(n, path) && forall len | 0 <= len <= |path| :: ValidPath(n, path[..len]) && Entered(cfg, At(n, path[..len]))
  }

  /** All that the mutators yield for the node at the path, if it is reached and selected. */
  ghost function SitesAt(cfg: Config, n: Node, path: Path): (sites: seq<Site>)
    ensures if Reached(cfg, n, path) && Selected(cfg, At(n, path)) then
              var node := At(n, path);
              && |sites| == |cfg.mutate(node)|
              && forall k :: 0 <= k < |sites| ==>
                   sites[k] == Site(node, cfg.mutate(node)[k].replacement, cfg.mutate(node)[k].ignored)
            else sites == []
  {
    if Reached(cfg, n, path) && Selected(cfg, At(n, path)) then
      var node := At(n, path);
      seq(|cfg.mutate(node)|, k requires 0 <= k < |cfg.mutate(node)| =>
        Site(node, cfg.mutate(node)[k].replacement, cfg.mutate(node)[k].ignored))
    else []
  }

  ghost function SitesOn(cfg: Config, n: Node, paths: seq<Path>): seq<Site> {
    if paths == [] then [] else SitesAt(cfg, n, paths[0]) + SitesOn(cfg, n, paths[1..])
  }

  ghost function AllSites(cfg: Config, n: Node): seq<Site> {
    SitesOn(cfg, n, PathsOf(n))
  }

  // ----- the visit collects that

  lemma {:induction false} SitesOnAppend(cfg: Config, n: Node, xs: seq<Path>, ys: seq<Path>)
    ensures SitesOn(cfg, n, xs + ys) == SitesOn(cfg, n, xs) + SitesOn(cfg, n, ys)
    decreases |xs|
  {
    hide SitesAt;
    if xs == [] {
      assert xs + ys == ys;
    } else {
      assert (xs + ys)[1..] == xs[1..] + ys;
      SitesOnAppend(cfg, n, xs[1..], ys);
    }
  }

  lemma {:induction false} SitesOfAppend(xs: seq<Mutant>, ys: seq<Mutant>)
    ensures SitesOf(xs + ys) == SitesOf(xs) + SitesOf(ys)
  {
  }

  lemma {:induction false} NotEntered(cfg: Config, n: Node, paths: seq<Path>)
    requires !Entered(cfg, n)
    ensures SitesOn(cfg, n, paths) == []
    decreases |paths|
  {
    if paths != [] {
      assert paths[0][..0] == [];
      NotEntered(cfg, n, paths[1..]);
    }
  }

  lemma {:induction false} ReachedBelow(cfg: Config, n: Node, i: nat, path: Path)
    requires i < |n.kids| && Entered(cfg, n)
    ensures ValidPath(n, [i] + path) <==> ValidPath(n.kids[i], path)
    ensures ValidPath(n, [i] + path) ==> At(n, [i] + path) == At(n.kids[i], path)
    ensures Reached(cfg, n, [i] + path) <==> Reached(cfg, n.kids[i], path)
  {
    hide Entered;
    var whole := [i] + path;
    assert whole[1..] == path && whole[..0] == [];
    forall len | 0 <= len <= |path|
      ensures ValidPath(n, whole[..len + 1]) <==> ValidPath(n.kids[i], path[..len])
      ensures ValidPath(n, whole[..len + 1]) ==> At(n, whole[..len + 1]) == At(n.kids[i], path[..len])
    {
      assert whole[..len + 1][1..] == path[..len];
    }
    if Reached(cfg, n, whole) {
      forall len | 0 <= len <= |path|
        ensures ValidPath(n.kids[i], path[..len]) && Entered(cfg, At(n.kids[i], path[..len]))
      {
        assert ValidPath(n, whole[..len + 1]) && Entered(cfg, At(n, whole[..len + 1]));
      }
    }
    if Reached(cfg, n.kids[i], path) {
      forall len | 0 <= len <= |whole|
        ensures ValidPath(n, whole[..len]) && Entered(cfg, At(n, whole[..len]))
      {
        if len > 0 {
          assert ValidPath(n.kids[i], path[..len - 1]) && Entered(cfg, At(n.kids[i], path[..len - 1]));
        }
      }
    }
  }

  lemma {:induction false} SitesBelow(cfg: Config, n: Node, i: nat, paths: seq<Path>)
    requires i < |n.kids| && Entered(cfg, n)
    ensures SitesOn(cfg, n, Below(i, paths)) == SitesOn(cfg, n.kids[i], paths)
    decreases |paths|
  {
    hide SitesAt, Entered, Below;
    BelowUnfolded(i, paths);
    if paths != [] {
      SiteBelow(cfg, n, i, paths[0]);
      SitesBelow(cfg, n, i, paths[1..]);
      assert Below(i, paths)[1..] == Below(i, paths[1..]);
    }
  }

  lemma {:induction false} SiteBelow(cfg: Config, n: Node, i: nat, path: Path)
    requires i < |n.kids| && Entered(cfg, n)
    ensures SitesAt(cfg, n, [i] + path) == SitesAt(cfg, n.kids[i], path)
  {
    hide Entered, Selected;
    ReachedBelow(cfg, n, i, path);
  }

  lemma {:induction false} OwnSites(cfg: Config, n: Node, next: nat)
    requires Entered(cfg, n)
    ensures SitesOf(Minted(cfg, n, next)) == SitesAt(cfg, n, [])
  {
    assert forall len | 0 <= len <= 0 :: var none: Path := []; none[..len] == [];
  }

  /** The mutants that the visit collects, in order, are all that the mutators yield for the nodes that are
      reached and selected, in the order of these nodes. */
  lemma {:induction false} CollectionIsComplete(cfg: Config, parent: Category, n: Node, next: nat)
    ensures SitesOf(Visit(cfg, parent, n, next).mutants) == AllSites(cfg, n)
    decreases n, 1
  {
    hide Visit, VisitKids, Minted, OwnApplied, SitesOn, SitesOf, SitesAt, Reached, Selected;
    if ShouldSkip(cfg, n) {
      SkippedVisit(cfg, parent, n, next);
      NotEntered(cfg, n, PathsOf(n));
      NoSites();
    } else {
      hide ShouldSkip, Entered, CanPlace;
      var own := Minted(cfg, n, next);
      var below := VisitKids(cfg, n, [], n.kids, next + |own|);
      VisitUnfolded(cfg, parent, n, next);
      EnteredIff(cfg, n);
      OwnSites(cfg, n, next);
      assert n.kids[0..] == n.kids;
      KidsAreComplete(cfg, n, [], 0, next + |own|);
      SitesOfAppend(own, below.mutants);
      SitesOnAppend(cfg, n, [[]], PathsOfKids(n, 0));
      OnePath(cfg, n);
    }
  }

  lemma NoSites()
    ensures SitesOf([]) == []
  {
  }

  lemma EnteredIff(cfg: Config, n: Node)
    ensures Entered(cfg, n) <==> !ShouldSkip(cfg, n)
  {
  }

  lemma {:induction false} OnePath(cfg: Config, n: Node)
    ensures SitesOn(cfg, n, [[]]) == SitesAt(cfg, n, [])
  {
    var paths: seq<Path> := [[]];
    assert paths[1..] == [];
  }

  lemma {:induction false} KidsAreComplete(cfg: Config, n: Node, done: seq<Node>, from: nat, next: nat)
    requires from <= |n.kids| && Entered(cfg, n)
    ensures SitesOf(VisitKids(cfg, n, done, n.kids[from..], next).mutants) == SitesOn(cfg, n, PathsOfKids(n, from))
    decreases n, 0, |n.kids| - from
  {
    hide Visit, VisitKids, SitesOf, SitesOn, Entered, Lifted;
    if from == |n.kids| {
      assert n.kids[from..] == [];
      NoKidSites(cfg, n, done, next);
    } else {
      var todo := n.kids[from..];
      assert todo[0] == n.kids[from] && todo[1..] == n.kids[from + 1..];
      var kid := Visit(cfg, CategoryOf(n.kind), todo[0], next);
      VisitKidsUnfolded(cfg, n, done, todo, next);
      CollectionIsComplete(cfg, CategoryOf(n.kind), todo[0], next);
      KidsAreComplete(cfg, n, done + [kid.node], from + 1, next + |kid.mutants|);
      var rest := VisitKids(cfg, n, done + [kid.node], todo[1..], next + |kid.mutants|);
      SitesOfAppend(kid.mutants, rest.mutants);
      SitesBelow(cfg, n, from, PathsOf(n.kids[from]));
      SitesOnAppend(cfg, n, Below(from, PathsOf(n.kids[from])), PathsOfKids(n, from + 1));
    }
  }

  lemma {:induction false} NoKidSites(cfg: Config, n: Node, done: seq<Node>, next: nat)
    ensures SitesOf(VisitKids(cfg, n, done, [], next).mutants) == [] && SitesOn(cfg, n, []) == []
  {
  }

  // ----- in terms of single nodes

  lemma {:induction false} SitesOnHas(cfg: Config, n: Node, paths: seq<Path>, path: Path, site: Site)
    requires path in paths && site in SitesAt(cfg, n, path)
    ensures site in SitesOn(cfg, n, paths)
    decreases |paths|
  {
    if paths[0] != path {
      SitesOnHas(cfg, n, paths[1..], path, site);
    }
  }

  lemma {:induction false} SitesOnFrom(cfg: Config, n: Node, paths: seq<Path>, site: Site)
    requires site in SitesOn(cfg, n, paths)
    ensures exists path <- paths :: site in SitesAt(cfg, n, path)
    decreases |paths|
  {
    if site in SitesAt(cfg, n, paths[0]) {
      assert paths[0] in paths;
    } else {
      SitesOnFrom(cfg, n, paths[1..], site);
      var path :| path in paths[1..] && site in SitesAt(cfg, n, path);
      assert path in paths;
    }
  }

  /** Everything that the mutators yield for a reached and selected node is collected. */
  lemma {:induction false} EveryMutableIsCollected(cfg: Config, parent: Category, n: Node, next: nat, path: Path, k: nat)
    requires Reached(cfg, n, path) && Selected(cfg, At(n, path)) && k < |cfg.mutate(At(n, path))|
    ensures exists m <- Visit(cfg, parent, n, next).mutants ::
              && m.original == At(n, path)
              && m.replacement == cfg.mutate(At(n, path))[k].replacement
              && m.ignored == cfg.mutate(At(n, path))[k].ignored
  {
    hide Visit, Selected, SitesOn;
    var node := At(n, path);
    var site := Site(node, cfg.mutate(node)[k].replacement, cfg.mutate(node)[k].ignored);
    assert SitesAt(cfg, n, path)[k] == site;
    PathsOnce(n, path);
    assert path in multiset(PathsOf(n));
    SitesOnHas(cfg, n, PathsOf(n), path, site);
    CollectionIsComplete(cfg, parent, n, next);
    var ms := Visit(cfg, parent, n, next).mutants;
    var i :| 0 <= i < |ms| && SitesOf(ms)[i] == site;
    assert ms[i] in ms;
  }

  /** Nothing else is collected. */
  lemma {:induction false} OnlyMutablesAreCollected(cfg: Config, parent: Category, n: Node, next: nat, m: Mutant)
    requires m in Visit(cfg, parent, n, next).mutants
    ensures exists path, k: nat ::
              && Reached(cfg, n, path) && At(n, path) == m.original && Selected(cfg, m.original)
              && k < |cfg.mutate(m.original)|
              && m.replacement == cfg.mutate(m.original)[k].replacement && m.ignored == cfg.mutate(m.original)[k].ignored
  {
    hide Visit, Reached, Selected, SitesOn;
    CollectionIsComplete(cfg, parent, n, next);
    var ms := Visit(cfg, parent, n, next).mutants;
    var i :| 0 <= i < |ms| && ms[i] == m;
    var site := SitesOf(ms)[i];
    assert site in AllSites(cfg, n);
    SitesOnFrom(cfg, n, PathsOf(n), site);
    var path :| path in PathsOf(n) && site in SitesAt(cfg, n, path);
    var k :| 0 <= k < |SitesAt(cfg, n, path)| && SitesAt(cfg, n, path)[k] == site;
  }
}
