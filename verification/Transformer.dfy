/** The traversal as the source runs it: the tree is rewritten in place, a placement map is filled on
    the way down and consumed on the way up, and the copy of a mutant is made by searching its node in
    the current, partly instrumented version of the placed node.  It computes what
    `Instrumenter.Visit` describes. */
module Transformer {
  import opened Ast
  import opened Options
  import opened Paths
  import opened Placers
  import opened Instrumenter
  import opened Collection

  // ----- replacements and instrumented trees contain no foreign keys

  ghost predicate ProperKeys(cfg: Config) {
    forall n: Node {:trigger cfg.mutate(n)} :: forall m <- cfg.mutate(n) :: Keys(m.replacement) <= Keys(n)
  }

  ghost predicate CopiesWithin(applied: seq<Applied>, bound: set<Key>) {
    forall a <- applied :: Keys(a.copy) <= bound
  }

  lemma {:induction false} WrapExpressionKeys(ms: seq<Applied>, base: Node, bound: set<Key>)
    requires CopiesWithin(ms, bound) && Keys(base) <= bound
    ensures Keys(WrapExpression(ms, base)) <= bound
  {
    if ms != [] {
      var m := ms[|ms| - 1];
      WrapExpressionKeys(ms[..|ms| - 1], base, bound);
      KeysWithin([TestCall(m.id), m.copy, WrapExpression(ms[..|ms| - 1], base)], bound);
    }
  }

  lemma {:induction false} WrapStatementKeys(ms: seq<Applied>, base: Node, bound: set<Key>)
    requires CopiesWithin(ms, bound) && Keys(base) <= bound
    ensures Keys(WrapStatement(ms, base)) <= bound
  {
    if ms != [] {
      var m := ms[|ms| - 1];
      WrapStatementKeys(ms[..|ms| - 1], base, bound);
      KeysWithin([m.copy], bound);
      KeysWithin([TestCall(m.id), Fresh(Block, [m.copy]), WrapStatement(ms[..|ms| - 1], base)], bound);
    }
  }

  lemma {:induction false} ConsequentKeys(n: Node, bound: set<Key>)
    requires Keys(n) <= bound
    ensures KeysOf(Consequents(n)) <= bound
  {
  }

  lemma {:induction false} WrapConsequentsKeys(ms: seq<Applied>, base: Node, bound: set<Key>)
    requires CopiesWithin(ms, bound) && Keys(base) <= bound
    ensures Keys(WrapConsequents(ms, base)) <= bound
  {
    if ms != [] {
      var m := ms[|ms| - 1];
      WrapConsequentsKeys(ms[..|ms| - 1], base, bound);
      ConsequentKeys(m.copy, bound);
      KeysWithin([TestCall(m.id), Fresh(Block, Consequents(m.copy)), WrapConsequents(ms[..|ms| - 1], base)], bound);
    }
  }

  lemma {:induction false} CoverStatementKeys(ms: seq<Applied>, rest: seq<Node>, bound: set<Key>)
    requires KeysOf(rest) <= bound
    ensures Keys(Fresh(Block, [CoverStatement(ms)] + rest)) <= bound
  {
    KeysWithin([CoverCall(ms)], bound);
    KeysWithin([Fresh(Sequence, [CoverCall(ms)])], bound);
    KeysWithin([CoverStatement(ms)], bound);
    KeysAppend([CoverStatement(ms)], rest);
  }

  lemma {:induction false} PlacedKeys(n: Node, ms: seq<Applied>, bound: set<Key>)
    requires CopiesWithin(ms, bound) && Keys(n) <= bound
    ensures Keys(Placed(n, ms)) <= bound
  {
    match CategoryOf(n.kind)
    case Expression =>
      KeysWithin([CoverCall(ms), n], bound);
      WrapExpressionKeys(ms, Fresh(Sequence, [CoverCall(ms), n]), bound);
    case Statement =>
      KeysWithin([n], bound);
      var base := Fresh(Block, [CoverStatement(ms)] + if n.kind.Block? then n.kids else [n]);
      CoverStatementKeys(ms, if n.kind.Block? then n.kids else [n], bound);
      WrapStatementKeys(ms, base, bound);
      KeysWithin([WrapStatement(ms, base)], bound);
    case SwitchCase =>
      ConsequentKeys(n, bound);
      var base := Fresh(Block, [CoverStatement(ms)] + Consequents(n));
      CoverStatementKeys(ms, Consequents(n), bound);
      WrapConsequentsKeys(ms, base, bound);
      KeysWithin([WrapConsequents(ms, base)], bound);
      if |n.kids| > 0 {
        KidKeys(n.kids, 0);
        KeysWithin([n.kids[0], WrapConsequents(ms, base)], bound);
      }
    case Root =>
  }

  lemma {:induction false} OwnKeys(cfg: Config, n: Node, ms: seq<Mutant>)
    requires forall m <- ms :: Keys(m.replacement) <= Keys(n)
    ensures CopiesWithin(OwnApplied(ms), Keys(n))
    decreases |ms|
  {
    if ms != [] {
      OwnKeys(cfg, n, ms[1..]);
    }
  }

  lemma {:induction false} MintedKeys(cfg: Config, n: Node, next: nat)
    requires ProperKeys(cfg)
    ensures forall m <- Minted(cfg, n, next) :: Keys(m.replacement) <= Keys(n)
  {
    if ShouldMutate(cfg, n) {
      var mutables := cfg.mutate(n);
      forall i | 0 <= i < |mutables|
        ensures Keys(mutables[i].replacement) <= Keys(n)
      {
        assert mutables[i] in mutables;
      }
    }
  }

  lemma {:induction false} VisitKeys(cfg: Config, parent: Category, n: Node, next: nat)
    requires ProperKeys(cfg)
    ensures Keys(Visit(cfg, parent, n, next).node) <= Keys(n)
    ensures CopiesWithin(Visit(cfg, parent, n, next).applied, Keys(n))
    decreases n, 1
  {
    hide Visit, VisitKids, ShouldSkip, Minted, OwnApplied, Placed, ProperKeys, KeysOf;
    if ShouldSkip(cfg, n) {
      SkippedVisit(cfg, parent, n, next);
    } else {
      var own := Minted(cfg, n, next);
      var below := VisitKids(cfg, n, [], n.kids, next + |own|);
      VisitUnfolded(cfg, parent, n, next);
      MintedKeys(cfg, n, next);
      OwnKeys(cfg, n, own);
      assert [] + n.kids == n.kids;
      VisitKidsKeys(cfg, n, [], n.kids, next + |own|);
      assert CopiesWithin(OwnApplied(own) + below.applied, Keys(n));
      if CanPlace(cfg, parent, n) && OwnApplied(own) + below.applied != [] {
        PlacedKeys(n.(kids := below.kids), OwnApplied(own) + below.applied, Keys(n));
      }
    }
  }

  lemma {:induction false} SingleKeys(n: Node)
    ensures KeysOf([n]) == Keys(n)
  {
    assert [n][1..] == [];
  }

  lemma {:induction false} VisitKidsKeys(cfg: Config, n: Node, done: seq<Node>, todo: seq<Node>, next: nat)
    requires ProperKeys(cfg) && KeysOf(done + todo) <= KeysOf(n.kids)
    ensures KeysOf(VisitKids(cfg, n, done, todo, next).kids) <= KeysOf(n.kids)
    ensures CopiesWithin(VisitKids(cfg, n, done, todo, next).applied, Keys(n))
    decreases todo, 0
  {
    hide Visit, Lifted, CategoryOf, KeysOf;
    KeysAppend(done, todo);
    if todo == [] {
      assert done + todo == done;
    } else {
      var kid := Visit(cfg, CategoryOf(n.kind), todo[0], next);
      VisitKeys(cfg, CategoryOf(n.kind), todo[0], next);
      KeysAppend(done, [kid.node]);
      SingleKeys(kid.node);
      SingleKeys(todo[0]);
      KeysAppend(done + [kid.node], todo[1..]);
      assert [todo[0]] + todo[1..] == todo;
      KeysAppend([todo[0]], todo[1..]);
      VisitKidsKeys(cfg, n, done + [kid.node], todo[1..], next + |kid.mutants|);
      LiftedKeys(n, done, todo[0], todo[1..], kid.applied);
    }
  }

  lemma {:induction false} LiftedKeys(n: Node, done: seq<Node>, first: Node, rest: seq<Node>, applied: seq<Applied>)
    requires CopiesWithin(applied, Keys(first)) && KeysOf(done) + Keys(first) + KeysOf(rest) <= KeysOf(n.kids)
    ensures CopiesWithin(Lifted(n, done, rest, applied), Keys(n))
  {
    forall i | 0 <= i < |applied|
      ensures Keys(Lifted(n, done, rest, applied)[i].copy) <= Keys(n)
    {
      var copy := applied[i].copy;
      assert applied[i] in applied;
      KeysAppend(done, [copy]);
      KeysWithin([copy], Keys(first));
      KeysAppend(done + [copy], rest);
    }
  }

  // ----- how far the traversal has come

  /** `a` is tree `o` during the traversal, when the node at the path is about to be visited: what
      lies on the path is not rewritten yet, what lies left of it is, what lies right of it is not. */
  ghost predicate Progress(a: Node, o: Node, path: Path)
    decreases |path|
  {
    if path == [] then a == o
    else
      && path[0] < |o.kids| && |a.kids| == |o.kids| && a.kind == o.kind && a.loc == o.loc
      && (forall j :: 0 <= j < path[0] ==> Keys(a.kids[j]) <= Keys(o.kids[j]))
      && (forall j :: path[0] < j < |o.kids| ==> a.kids[j] == o.kids[j])
      && Progress(a.kids[path[0]], o.kids[path[0]], path[1..])
  }

  lemma {:induction false} ProgressValid(a: Node, o: Node, path: Path)
    requires Progress(a, o, path)
    ensures ValidPath(a, path) && ValidPath(o, path) && At(a, path) == At(o, path)
    decreases |path|
  {
    if path != [] {
      ProgressValid(a.kids[path[0]], o.kids[path[0]], path[1..]);
    }
  }

  lemma {:induction false} ProgressKid(a: Node, o: Node, path: Path, done: seq<Node>, i: nat)
    requires Progress(a, o, path) && ValidPath(a, path) && i < |At(a, path).kids| && |done| == i
    requires forall j :: 0 <= j < i ==> Keys(done[j]) <= Keys(At(a, path).kids[j])
    ensures var node := At(a, path);
            Progress(Replace(a, path, node.(kids := done + node.kids[i..])), o, path + [i])
    decreases |path|
  {
    var node := At(a, path);
    if path == [] {
      assert path + [i] == [i];
      assert [i][1..] == [];
    } else {
      assert (path + [i])[1..] == path[1..] + [i];
      ProgressKid(a.kids[path[0]], o.kids[path[0]], path[1..], done, i);
    }
  }

  lemma {:induction false} ProgressFrom(a: Node, o: Node, q: Path, rel: Path)
    requires Progress(a, o, q + rel) && UniqueKeys(o)
    ensures ValidPath(a, q) && ValidPath(o, q) && Progress(At(a, q), At(o, q), rel) && UniqueKeys(At(o, q))
    decreases |q|
  {
    if q == [] {
      assert q + rel == rel;
    } else {
      assert (q + rel)[1..] == q[1..] + rel;
      assert o.kids[q[0]] in o.kids;
      ProgressFrom(a.kids[q[0]], o.kids[q[0]], q[1..], rel);
    }
  }

  lemma {:induction false} KeyInside(o: Node, path: Path)
    requires ValidPath(o, path) && UniqueKeys(o)
    ensures KeyOf(At(o, path)).Some? && KeyOf(At(o, path)).value in Keys(o)
    ensures path != [] ==> KeyOf(At(o, path)) != KeyOf(o)
    decreases |path|
  {
    if path != [] {
      assert o.kids[path[0]] in o.kids;
      KeyInside(o.kids[path[0]], path[1..]);
      KidKeys(o.kids, path[0]);
    }
  }

  /** With unique keys, the search in the partly instrumented tree meets the right node first. */
  lemma {:induction false} ProgressFirst(a: Node, o: Node, rel: Path)
    requires Progress(a, o, rel) && UniqueKeys(o)
    ensures ValidPath(a, rel) && ValidPath(o, rel) && KeyOf(At(o, rel)).Some?
    ensures FirstAt(a, rel, KeyOf(At(o, rel)).value)
    decreases |rel|
  {
    ProgressValid(a, o, rel);
    KeyInside(o, rel);
    if rel != [] {
      var i := rel[0];
      var kid := o.kids[i];
      assert kid in o.kids;
      ProgressFirst(a.kids[i], kid, rel[1..]);
      KeyInside(kid, rel[1..]);
      if |rel| > 1 {
        assert a.kids[i].kind == kid.kind && a.kids[i].loc == kid.loc;
      }
    }
  }

  // ----- the placement map

  /** The longest prefix of the path that is in the map: the nearest ancestor-or-self with a placer. */
  function Nearest(placements: set<Path>, path: Path): Option<Path>
    decreases |path|
  {
    if path in placements then Some(path)
    else if path == [] then None
    else Nearest(placements, path[..|path| - 1])
  }

  lemma {:induction false} NearestIsPrefix(placements: set<Path>, path: Path)
    ensures Nearest(placements, path).Some? ==>
              var q := Nearest(placements, path).value;
              q in placements && q <= path && forall r :: q < r <= path ==> r !in placements
    ensures Nearest(placements, path).None? ==> forall r :: r <= path ==> r !in placements
    decreases |path|
  {
    if path !in placements && path != [] {
      var up := path[..|path| - 1];
      NearestIsPrefix(placements, up);
      forall r | r <= path && r in placements
        ensures r <= up
      {
        assert path[..|path|] == path;
        assert r == path[..|r|] && |r| != |path|;
        assert r == up[..|r|];
      }
    }
  }

  lemma {:induction false} NearestSame(a: set<Path>, b: set<Path>, path: Path)
    requires forall r :: r <= path ==> (r in a <==> r in b)
    ensures Nearest(a, path) == Nearest(b, path)
    decreases |path|
  {
    if path != [] && path !in a {
      NearestSame(a, b, path[..|path| - 1]);
    }
  }

  /** What is registered on the node at `q` for mutants below `path`, given their copies of the node
      at `path`. */
  function Registered(tree: Node, q: Path, path: Path, applied: seq<Applied>): seq<Applied>
    requires q <= path && ValidPath(tree, q) && ValidPath(At(tree, q), path[|q|..])
  {
    seq(|applied|, i requires 0 <= i < |applied| =>
      Applied(applied[i].id, Replace(At(tree, q), path[|q|..], applied[i].copy)))
  }

  lemma {:induction false} RegisteredAppend(tree: Node, q: Path, path: Path, xs: seq<Applied>, ys: seq<Applied>)
    requires q <= path && ValidPath(tree, q) && ValidPath(At(tree, q), path[|q|..])
    ensures Registered(tree, q, path, xs + ys) == Registered(tree, q, path, xs) + Registered(tree, q, path, ys)
  {
  }

  lemma {:induction false} RegisteredHere(tree: Node, path: Path, applied: seq<Applied>)
    requires ValidPath(tree, path)
    ensures path[|path|..] == []
    ensures Registered(tree, path, path, applied) == applied
  {
  }

  lemma {:induction false} PrefixValid(tree: Node, q: Path, path: Path)
    requires q <= path && ValidPath(tree, path)
    ensures ValidPath(tree, q) && ValidPath(At(tree, q), path[|q|..]) && path == q + path[|q|..]
    ensures At(At(tree, q), path[|q|..]) == At(tree, path)
  {
    assert path == q + path[|q|..];
    PrefixIsValid(tree, q, path[|q|..]);
    PathAppend(tree, q, path[|q|..]);
  }

  lemma {:induction false} PrefixIsValid(tree: Node, q: Path, rel: Path)
    requires ValidPath(tree, q + rel)
    ensures ValidPath(tree, q)
    decreases |q|
  {
    if q != [] {
      assert (q + rel)[1..] == q[1..] + rel;
      PrefixIsValid(tree.kids[q[0]], q[1..], rel);
    }
  }

  /** The tree while child i of the node at the path is visited, seen from a prefix of the path. */
  lemma {:induction false} NowAt(tree: Node, q: Path, path: Path, here: Node, i: nat)
    requires q <= path && ValidPath(tree, path) && i < |here.kids|
    ensures var now := Replace(tree, path, here);
            && ValidPath(tree, q) && ValidPath(At(tree, q), path[|q|..]) && q <= path + [i]
            && ValidPath(now, q) && At(now, q) == Replace(At(tree, q), path[|q|..], here)
            && (path + [i])[|q|..] == path[|q|..] + [i]
            && ValidPath(At(now, q), path[|q|..]) && At(At(now, q), path[|q|..]) == here
            && ValidPath(At(now, q), path[|q|..] + [i])
  {
    var now := Replace(tree, path, here);
    var rel := path[|q|..];
    PrefixValid(tree, q, path);
    ReplaceBelow(tree, q, rel, here);
    ReplaceAt(tree, q, Replace(At(tree, q), rel, here));
    ReplaceAt(At(tree, q), rel, here);
    PathAppend(At(now, q), rel, [i]);
  }

  lemma {:induction false} ReplaceChild(tree: Node, rel: Path, here: Node, i: nat, x: Node)
    requires ValidPath(tree, rel) && i < |here.kids|
    ensures var now := Replace(tree, rel, here);
            ValidPath(now, rel + [i]) && Replace(now, rel + [i], x) == Replace(tree, rel, here.(kids := here.kids[i := x]))
  {
    var now := Replace(tree, rel, here);
    ReplaceAt(tree, rel, here);
    ReplaceBelow(now, rel, [i], x);
    assert [i][1..] == [];
    assert Replace(here, [i], x) == here.(kids := here.kids[i := x]);
    ReplaceTwice(tree, rel, here, here.(kids := here.kids[i := x]));
  }

  /** Registering from a child, while the children left of it are rewritten already, is registering
      the lifted copies from the parent. */
  lemma {:induction false} RegisteredLifted(tree: Node, q: Path, path: Path, done: seq<Node>, i: nat,
                                            applied: seq<Applied>)
    requires q <= path && ValidPath(tree, path) && i < |At(tree, path).kids| && |done| == i
    ensures var node := At(tree, path);
            var now := Replace(tree, path, node.(kids := done + node.kids[i..]));
            && ValidPath(tree, q) && ValidPath(At(tree, q), path[|q|..]) && q <= path + [i]
            && ValidPath(now, q) && ValidPath(At(now, q), (path + [i])[|q|..])
            && Registered(now, q, path + [i], applied)
               == Registered(tree, q, path, Lifted(node, done, node.kids[i + 1..], applied))
  {
    var node := At(tree, path);
    var here := node.(kids := done + node.kids[i..]);
    NowAt(tree, q, path, here, i);
    forall j | 0 <= j < |applied|
      ensures Replace(At(Replace(tree, path, here), q), path[|q|..] + [i], applied[j].copy)
           == Replace(At(tree, q), path[|q|..], node.(kids := done + [applied[j].copy] + node.kids[i + 1..]))
    {
      ReplaceChild(At(tree, q), path[|q|..], here, i, applied[j].copy);
      assert here.kids[i := applied[j].copy] == done + [applied[j].copy] + node.kids[i + 1..];
    }
  }

  /** The entries of mutants as the placed node itself registers them. */
  function Entries(ms: seq<Mutant>): seq<Applied> {
    seq(|ms|, i requires 0 <= i < |ms| => Applied(ms[i].id, ms[i].replacement))
  }

  lemma {:induction false} OwnAppliedSnoc(ms: seq<Mutant>, m: Mutant)
    ensures OwnApplied(ms + [m]) == OwnApplied(ms) + (if m.ignored then [] else [Applied(m.id, m.replacement)])
    decreases |ms|
  {
    hide OwnApplied;
    OwnAppliedStep(ms + [m]);
    if ms == [] {
      assert [] + [m] == [m] && [m][1..] == [];
      OwnAppliedNone();
    } else {
      assert (ms + [m])[1..] == ms[1..] + [m];
      OwnAppliedStep(ms);
      OwnAppliedSnoc(ms[1..], m);
    }
  }

  lemma OwnAppliedNone()
    ensures OwnApplied([]) == []
  {
  }

  lemma {:induction false} OwnAppliedStep(ms: seq<Mutant>)
    requires ms != []
    ensures OwnApplied(ms) == (if ms[0].ignored then [] else [Applied(ms[0].id, ms[0].replacement)]) + OwnApplied(ms[1..])
  {
  }

  /** The map after registering `applied`, which were collected below `path`, on the node at `anchor`. */
  ghost predicate RegisteredOn(before: map<Path, seq<Applied>>, after: map<Path, seq<Applied>>,
                               tree: Node, anchor: Option<Path>, path: Path, applied: seq<Applied>)
  {
    && (forall q :: q in before ==> q in after)
    && (forall q :: q in before && anchor != Some(q) ==> after[q] == before[q])
    && (anchor.Some? ==>
          var q := anchor.value;
          && q in before && q <= path && ValidPath(tree, q) && ValidPath(At(tree, q), path[|q|..])
          && after[q] == before[q] + Registered(tree, q, path, applied))
    && (anchor.None? ==> applied == [])
    && (forall q :: q in after && q !in before ==> path <= q)
  }

  lemma {:induction false} NothingRegistered(before: map<Path, seq<Applied>>, tree: Node, path: Path)
    requires ValidPath(tree, path)
    ensures RegisteredOn(before, before, tree, Nearest(before.Keys, path), path, [])
  {
    NearestIsPrefix(before.Keys, path);
    if Nearest(before.Keys, path).Some? {
      PrefixValid(tree, Nearest(before.Keys, path).value, path);
    }
  }

  /** New entries lie below the path, so the nearest placed ancestor of the path stays the same. */
  lemma {:induction false} NearestKept(before: set<Path>, after: set<Path>, path: Path, i: nat)
    requires before <= after && forall q :: q in after && q !in before ==> path < q
    requires path + [i] !in after
    ensures Nearest(after, path + [i]) == Nearest(before, path)
  {
    assert (path + [i])[..|path + [i]| - 1] == path;
    NearestSame(before, after, path);
  }

  lemma RegisteredKeys(before: map<Path, seq<Applied>>, after: map<Path, seq<Applied>>, tree: Node,
                       anchor: Option<Path>, path: Path, applied: seq<Applied>)
    requires RegisteredOn(before, after, tree, anchor, path, applied)
    ensures before.Keys <= after.Keys
    ensures forall q :: q in after.Keys && q !in before.Keys ==> path <= q
  {
  }

  /** Registrations of the node and of its first children, followed by those of the next child. */
  lemma {:induction false} RegisteredMore(start: map<Path, seq<Applied>>, m1: map<Path, seq<Applied>>, m2: map<Path,
                                          seq<Applied>>,
                       tree: Node, anchor: Option<Path>, path: Path, acc: seq<Applied>,
                       done: seq<Node>, i: nat, kid: seq<Applied>)
    requires ValidPath(tree, path) && i < |At(tree, path).kids| && |done| == i
    requires RegisteredOn(start, m1, tree, anchor, path, acc)
    requires var node := At(tree, path);
             RegisteredOn(m1, m2, Replace(tree, path, node.(kids := done + node.kids[i..])), anchor, path + [i], kid)
    ensures var node := At(tree, path);
            RegisteredOn(start, m2, tree, anchor, path, acc + Lifted(node, done, node.kids[i + 1..], kid))
  {
    var node := At(tree, path);
    if anchor.Some? {
      var q := anchor.value;
      RegisteredLifted(tree, q, path, done, i, kid);
      RegisteredAppend(tree, q, path, acc, Lifted(node, done, node.kids[i + 1..], kid));
    }
    forall q | q in m2 && q !in start
      ensures path <= q
    {
      if q !in m1 {
        assert path + [i] <= q;
        assert path <= path + [i];
      }
    }
  }

  /** Registrations of the node itself, followed by those from its children. */
  lemma RegisteredTwice(start: map<Path, seq<Applied>>, m1: map<Path, seq<Applied>>, m2: map<Path, seq<Applied>>,
                        tree: Node, anchor: Option<Path>, path: Path, xs: seq<Applied>, ys: seq<Applied>)
    requires RegisteredOn(start, m1, tree, anchor, path, xs) && RegisteredOn(m1, m2, tree, anchor, path, ys)
    ensures RegisteredOn(start, m2, tree, anchor, path, xs + ys)
  {
    if anchor.Some? {
      RegisteredAppend(tree, anchor.value, path, xs, ys);
    }
  }

  /** A placed node keeps everything registered below it, and hands nothing on. */
  lemma {:induction false} RegisteredOnSelf(before: map<Path, seq<Applied>>, after: map<Path, seq<Applied>>, tree: Node,
                         path: Path, applied: seq<Applied>)
    requires ValidPath(tree, path) && path !in before
    requires RegisteredOn(before[path := []], after, tree, Some(path), path, applied)
    ensures path in after && after[path] == applied
    ensures RegisteredOn(before, after, tree, Nearest(before.Keys, path), path, [])
  {
    RegisteredHere(tree, path, applied);
    NearestIsPrefix(before.Keys, path);
    if Nearest(before.Keys, path).Some? {
      PrefixValid(tree, Nearest(before.Keys, path).value, path);
    }
  }

  lemma EntriesLength(ms: seq<Mutant>)
    ensures |Entries(ms)| == |ms|
  {
  }

  /** Where the loop over the children stands: what is done and what remains make up the whole. */
  ghost predicate Underway(cfg: Config, node: Node, next: nat, done: seq<Node>, i: nat,
                           acc: seq<Applied>, found: seq<Mutant>) {
    var total := VisitKids(cfg, node, [], node.kids, next);
    && i <= |node.kids| && |done| == i
    && var rest := VisitKids(cfg, node, done, node.kids[i..], next + |found|);
    && total.kids == rest.kids
    && total.applied == acc + rest.applied
    && total.mutants == found + rest.mutants
  }

  lemma UnderwayStart(cfg: Config, node: Node, next: nat)
    ensures Underway(cfg, node, next, [], 0, [], [])
  {
    assert node.kids[0..] == node.kids;
  }

  lemma {:induction false} UnderwayStep(cfg: Config, node: Node, next: nat, done: seq<Node>, i: nat,
                                        acc: seq<Applied>, found: seq<Mutant>)
    requires Underway(cfg, node, next, done, i, acc, found) && i < |node.kids|
    ensures var kid := Visit(cfg, CategoryOf(node.kind), node.kids[i], next + |found|);
            && Underway(cfg, node, next, done + [kid.node], i + 1,
                        acc + Lifted(node, done, node.kids[i + 1..], kid.applied), found + kid.mutants)
            && (kid.applied != [] ==> VisitKids(cfg, node, [], node.kids, next).applied != [])
  {
    hide Visit;
    var kid := Visit(cfg, CategoryOf(node.kind), node.kids[i], next + |found|);
    assert node.kids[i..][0] == node.kids[i] && node.kids[i..][1..] == node.kids[i + 1..];
    var rest := VisitKids(cfg, node, done + [kid.node], node.kids[i + 1..], next + |found| + |kid.mutants|);
    var lifted := Lifted(node, done, node.kids[i + 1..], kid.applied);
    assert acc + (lifted + rest.applied) == acc + lifted + rest.applied;
    assert found + (kid.mutants + rest.mutants) == found + kid.mutants + rest.mutants;
  }

  lemma {:induction false} UnderwayEnd(cfg: Config, node: Node, next: nat, done: seq<Node>, acc: seq<Applied>,
                                       found: seq<Mutant>)
    requires Underway(cfg, node, next, done, |node.kids|, acc, found)
    ensures VisitKids(cfg, node, [], node.kids, next) == KidsWalk(done, acc, found)
  {
    assert node.kids[|node.kids|..] == [];
  }

  lemma {:induction false} ChildAt(tree: Node, path: Path, done: seq<Node>, i: nat)
    requires ValidPath(tree, path) && i < |At(tree, path).kids| && |done| == i
    ensures var node := At(tree, path);
            var now := Replace(tree, path, node.(kids := done + node.kids[i..]));
            ValidPath(now, path + [i]) && At(now, path + [i]) == node.kids[i]
  {
    var node := At(tree, path);
    var here := node.(kids := done + node.kids[i..]);
    ReplaceAt(tree, path, here);
    PathAppend(Replace(tree, path, here), path, [i]);
    assert [i][1..] == [];
    assert here.kids[i] == node.kids[i];
  }

  lemma {:induction false} ChildReplaced(tree: Node, path: Path, done: seq<Node>, i: nat, x: Node)
    requires ValidPath(tree, path) && i < |At(tree, path).kids| && |done| == i
    ensures var node := At(tree, path);
            var now := Replace(tree, path, node.(kids := done + node.kids[i..]));
            && ValidPath(now, path + [i])
            && Replace(now, path + [i], x) == Replace(tree, path, node.(kids := done + [x] + node.kids[i + 1..]))
  {
    var node := At(tree, path);
    var here := node.(kids := done + node.kids[i..]);
    ReplaceChild(tree, path, here, i, x);
    assert here.kids[i := x] == done + [x] + node.kids[i + 1..];
  }

  /** What a visit of child i adds to the map lies below that child and below no other. */
  lemma BelowChild(before: set<Path>, after: set<Path>, path: Path, i: nat)
    requires forall q :: q in after && q !in before ==> path + [i] <= q
    ensures forall q :: q in after && q !in before ==> path < q
    ensures forall q, j: nat :: q in after && q !in before && j != i ==> !(path + [j] <= q)
  {
    forall q | q in after && q !in before
      ensures path < q && forall j: nat :: path + [j] <= q ==> j == i
    {
      assert q[|path|] == (path + [i])[|path|] == i;
      assert q[..|path|] == (path + [i])[..|path|] == path;
      forall j: nat | path + [j] <= q
        ensures j == i
      {
        assert q[|path|] == (path + [j])[|path|] == j;
      }
    }
  }

  lemma {:induction false} RegisteredNone(tree: Node, q: Path, path: Path)
    requires q <= path && ValidPath(tree, q) && ValidPath(At(tree, q), path[|q|..])
    ensures Registered(tree, q, path, Entries([])) == []
  {
  }

  lemma {:induction false} RegisteredNext(tree: Node, q: Path, path: Path, ms: seq<Mutant>, i: nat)
    requires q <= path && ValidPath(tree, q) && ValidPath(At(tree, q), path[|q|..]) && i < |ms|
    ensures Registered(tree, q, path, Entries(ms[..i + 1])) ==
            Registered(tree, q, path, Entries(ms[..i])) +
            [Applied(ms[i].id, Replace(At(tree, q), path[|q|..], ms[i].replacement))]
  {
    assert Entries(ms[..i + 1]) == Entries(ms[..i]) + [Applied(ms[i].id, ms[i].replacement)];
    RegisteredAppend(tree, q, path, Entries(ms[..i]), [Applied(ms[i].id, ms[i].replacement)]);
  }

  function NotIgnored(ms: seq<Mutant>): seq<Mutant> {
    if ms == [] then []
    else NotIgnored(ms[..|ms| - 1]) + if ms[|ms| - 1].ignored then [] else [ms[|ms| - 1]]
  }

  lemma {:induction false} NotIgnoredMeans(ms: seq<Mutant>)
    ensures forall m :: m in NotIgnored(ms) <==> m in ms && !m.ignored
    ensures Entries(NotIgnored(ms)) == OwnApplied(ms)
    decreases |ms|
  {
    if ms != [] {
      var init, last := ms[..|ms| - 1], ms[|ms| - 1];
      assert ms == init + [last];
      NotIgnoredMeans(init);
      OwnAppliedSnoc(init, last);
    }
  }

  lemma MintedMeans(cfg: Config, node: Node, next: nat)
    ensures |Minted(cfg, node, next)| == if Selected(cfg, node) then |cfg.mutate(node)| else 0
    ensures forall k | 0 <= k < |Minted(cfg, node, next)| ::
              var mutable := cfg.mutate(node)[k];
              Minted(cfg, node, next)[k] == Mutant(next + k, node, mutable.replacement, mutable.ignored)
  {
  }

  class Traversal {
    const cfg: Config
    ghost const original: Node
    /** The syntax tree; rewritten in place. */
    var ast: Node
    /** For every node that can carry a switch: the mutants to place on it, with their copies. */
    var placementMap: map<Path, seq<Applied>>
    /** The mutants that the collector holds. */
    var mutants: seq<Mutant>

    constructor (cfg: Config, root: Node, collected: seq<Mutant>)
      ensures this.cfg == cfg && original == root && ast == root && placementMap == map[] && mutants == collected
    {
      this.cfg := cfg;
      original := root;
      ast := root;
      placementMap := map[];
      mutants := collected;
    }

    /** The traversal has come to the path. */
    ghost predicate Reached(path: Path)
      reads this
    {
      ProperKeys(cfg) && UniqueKeys(original) && Progress(ast, original, path) && ValidPath(ast, path)
    }

    /** `collectMutants`: the collector gets everything the mutators yield; the mutants that are not
        ignored are returned. */
    method CollectMutants(node: Node) returns (toPlace: seq<Mutant>)
      modifies this`mutants
      ensures var before := |old(mutants)|;
              && |mutants| == before + (if Selected(cfg, node) then |cfg.mutate(node)| else 0)
              && mutants[..before] == old(mutants)
              && forall i | before <= i < |mutants| ::
                   var mutable := cfg.mutate(node)[i - before];
                   mutants[i] == Mutant(i, node, mutable.replacement, mutable.ignored)
      ensures forall m :: m in toPlace <==> m in mutants[|old(mutants)|..] && !m.ignored
      ensures mutants == old(mutants) + Minted(cfg, node, |old(mutants)|)
      ensures Entries(toPlace) == OwnApplied(Minted(cfg, node, |old(mutants)|))
      ensures forall m <- toPlace :: m.original == node
    {
      hide OwnApplied;
      toPlace := [];
      ghost var minted := Minted(cfg, node, |mutants|);
      if ShouldMutate(cfg, node) {
        var mutables := cfg.mutate(node);
        for i := 0 to |mutables|
          invariant mutants == old(mutants) + minted[..i]
          invariant toPlace == NotIgnored(minted[..i])
        {
          var mutant := Mutant(|mutants|, node, mutables[i].replacement, mutables[i].ignored);
          assert minted[..i + 1] == minted[..i] + [mutant];
          mutants := mutants + [mutant];
          toPlace := if mutant.ignored then toPlace else toPlace + [mutant];
        }
        assert minted[..|mutables|] == minted;
      }
      assert mutants[|old(mutants)|..] == minted;
      MintedMeans(cfg, node, |old(mutants)|);
      NotIgnoredMeans(minted);
    }

    /** `path.find(ancestor => placementMap.has(ancestor.node))` */
    method FindPlacement(path: Path) returns (q: Option<Path>)
      ensures q == Nearest(placementMap.Keys, path)
    {
      var up := path;
      while up !in placementMap && up != []
        invariant Nearest(placementMap.Keys, path) == Nearest(placementMap.Keys, up)
        decreases |up|
      {
        up := up[..|up| - 1];
      }
      q := if up in placementMap then Some(up) else None;
    }

    /** `mutant.applied(placementPath.node)`: the search always finds the mutated node. */
    method ApplyMutant(q: Path, path: Path, m: Mutant) returns (copy: Node)
      requires Reached(path) && q <= path && m.original == At(ast, path)
      ensures ValidPath(ast, q) && ValidPath(At(ast, q), path[|q|..])
      ensures copy == Replace(At(ast, q), path[|q|..], m.replacement)
    {
      PrefixValid(ast, q, path);
      if q == path {
        copy := m.replacement;
      } else {
        ProgressFrom(ast, original, q, path[|q|..]);
        ProgressFirst(At(ast, q), At(original, q), path[|q|..]);
        ProgressValid(At(ast, q), At(original, q), path[|q|..]);
        SearchFindsPath(At(ast, q), path[|q|..], KeyOf(m.original).value, m.replacement);
        var applied;
        copy, applied := ApplyTo(At(ast, q), KeyOf(m.original).value, m.replacement);
      }
    }

    /** `registerInPlacementMap` */
    method RegisterInPlacementMap(path: Path, toPlace: seq<Mutant>)
      requires Reached(path) && forall m <- toPlace :: m.original == At(ast, path)
      requires toPlace != [] ==> Nearest(placementMap.Keys, path).Some?
      modifies this`placementMap
      ensures RegisteredOn(old(placementMap), placementMap, ast, Nearest(old(placementMap).Keys, path), path, Entries(toPlace))
      ensures placementMap.Keys == old(placementMap).Keys
    {
      hide At, Replace, Keys, KeysOf, Progress, UniqueKeys, ProperKeys, Nearest, Registered;
      NearestIsPrefix(placementMap.Keys, path);
      var placement := FindPlacement(path);
      if placement.Some? {
        AddToPlacement(placement.value, path, toPlace);
      }
    }

    method AddToPlacement(q: Path, path: Path, toPlace: seq<Mutant>)
      requires Reached(path) && (forall m <- toPlace :: m.original == At(ast, path))
      requires q in placementMap && q <= path
      modifies this`placementMap
      ensures ValidPath(ast, q) && ValidPath(At(ast, q), path[|q|..])
      ensures placementMap == old(placementMap)[q := old(placementMap)[q] + Registered(ast, q, path, Entries(toPlace))]
    {
      hide At, Replace, Keys, KeysOf, Progress, UniqueKeys, ProperKeys, Nearest, Registered, Entries;
      PrefixValid(ast, q, path);
      RegisteredNone(ast, q, path);
      for i := 0 to |toPlace|
        invariant q in placementMap && placementMap == old(placementMap)[q := placementMap[q]]
        invariant placementMap[q] == old(placementMap)[q] + Registered(ast, q, path, Entries(toPlace[..i]))
      {
        var copy := ApplyMutant(q, path, toPlace[i]);
        placementMap := placementMap[q := placementMap[q] + [Applied(toPlace[i].id, copy)]];
        RegisteredNext(ast, q, path, toPlace, i);
      }
      assert toPlace[..|toPlace|] == toPlace;
    }

    /** The mutants of the node at the path go to the collector and, unless ignored, to the nearest place. */
    method Collect(path: Path)
      requires Reached(path)
      requires OwnApplied(Minted(cfg, At(ast, path), |mutants|)) != [] ==> Nearest(placementMap.Keys, path).Some?
      modifies this`mutants, this`placementMap
      ensures mutants == old(mutants) + Minted(cfg, At(ast, path), |old(mutants)|)
      ensures RegisteredOn(old(placementMap), placementMap, ast, Nearest(old(placementMap).Keys, path), path,
                           OwnApplied(Minted(cfg, At(ast, path), |old(mutants)|)))
      ensures placementMap.Keys == old(placementMap).Keys
    {
      hide At, Replace, Keys, KeysOf, Progress, UniqueKeys, ProperKeys, Nearest, Registered, RegisteredOn, OwnApplied,
           Minted, Entries;
      var toPlace := CollectMutants(At(ast, path));
      EntriesLength(toPlace);
      if |toPlace| > 0 {
        RegisterInPlacementMap(path, toPlace);
      } else {
        NothingRegistered(placementMap, ast, path);
      }
    }

    /** Visits the children of the node at the path from left to right. */
    method TraverseKids(path: Path)
      requires Reached(path) && forall q <- placementMap :: !(path < q)
      requires VisitKids(cfg, At(ast, path), [], At(ast, path).kids, |mutants|).applied != [] ==>
                 Nearest(placementMap.Keys, path).Some?
      modifies this
      ensures ValidPath(old(ast), path)
      ensures var node := old(At(ast, path));
              var total := VisitKids(cfg, node, [], node.kids, |old(mutants)|);
              && ast == Replace(old(ast), path, node.(kids := total.kids))
              && mutants == old(mutants) + total.mutants
              && RegisteredOn(old(placementMap), placementMap, old(ast), Nearest(old(placementMap).Keys, path), path, total.applied)
              && (forall q :: q in placementMap && q !in old(placementMap) ==> path < q)
      decreases At(ast, path), 0
    {
      hide Visit, VisitKids, Lifted, Registered, RegisteredOn, Keys, KeysOf, UniqueKeys, ProperKeys, Progress,
           Nearest, Replace, At, Underway, CategoryOf, ValidPath;
      var node := At(ast, path);
      ghost var tree, start, next := ast, placementMap, |mutants|;
      ghost var anchor := Nearest(start.Keys, path);
      ghost var done: seq<Node>, acc: seq<Applied>, found: seq<Mutant> := [], [], [];
      UnderwayStart(cfg, node, next);
      NothingRegistered(start, tree, path);
      ReplaceSame(tree, path);
      assert node.(kids := [] + node.kids[0..]) == node;
      var i := 0;
      while i < |node.kids|
        invariant i <= |node.kids| && |done| == i
        invariant Underway(cfg, node, next, done, i, acc, found)
        invariant ast == Replace(tree, path, node.(kids := done + node.kids[i..]))
        invariant mutants == old(mutants) + found
        invariant RegisteredOn(start, placementMap, tree, anchor, path, acc)
        invariant start.Keys <= placementMap.Keys
        invariant forall q :: q in placementMap && q !in start ==> path < q
        invariant forall q, j: nat :: q in placementMap && j >= i ==> !(path + [j] <= q)
        invariant forall j :: 0 <= j < i ==> Keys(done[j]) <= Keys(node.kids[j])
      {
        ghost var now, m1 := ast, placementMap;
        ghost var kid := Visit(cfg, CategoryOf(node.kind), node.kids[i], next + |found|);
        ProgressKid(tree, original, path, done, i);
        ChildAt(tree, path, done, i);
        NearestKept(start.Keys, m1.Keys, path, i);
        UnderwayStep(cfg, node, next, done, i, acc, found);
        VisitKeys(cfg, CategoryOf(node.kind), node.kids[i], next + |found|);
        Traverse(path + [i], CategoryOf(node.kind));
        RegisteredMore(start, m1, placementMap, tree, anchor, path, acc, done, i, kid.applied);
        ChildReplaced(tree, path, done, i, kid.node);
        RegisteredKeys(m1, placementMap, now, anchor, path + [i], kid.applied);
        BelowChild(m1.Keys, placementMap.Keys, path, i);
        acc, found := acc + Lifted(node, done, node.kids[i + 1..], kid.applied), found + kid.mutants;
        done := done + [kid.node];
        i := i + 1;
      }
      assert done + node.kids[|node.kids|..] == done;
      UnderwayEnd(cfg, node, next, done, acc, found);
    }

    /** Enter a node, visit its children, leave it. */
    method Traverse(path: Path, parent: Category)
      requires Reached(path) && forall q <- placementMap :: !(path <= q)
      requires Visit(cfg, parent, At(ast, path), |mutants|).applied != [] ==> Nearest(placementMap.Keys, path).Some?
      modifies this
      ensures ValidPath(old(ast), path)
      ensures var v := Visit(cfg, parent, old(At(ast, path)), |old(mutants)|);
              && ast == Replace(old(ast), path, v.node)
              && mutants == old(mutants) + v.mutants
              && RegisteredOn(old(placementMap), placementMap, old(ast), Nearest(old(placementMap).Keys, path), path, v.applied)
      decreases At(ast, path), 1
    {
      hide Visit, VisitKids, Registered, RegisteredOn, Keys, KeysOf, UniqueKeys, ProperKeys, Progress, Replace, At,
           Placed, OwnApplied, Minted, ShouldSkip, CanPlace, ValidPath;
      var node := At(ast, path);
      ghost var tree, before, next := ast, placementMap, |mutants|;
      ProgressValid(ast, original, path);
      if ShouldSkip(cfg, node) {
        SkippedVisit(cfg, parent, node, next);
        ReplaceSame(tree, path);
        NothingRegistered(before, tree, path);
        return;
      }
      VisitUnfolded(cfg, parent, node, next);
      var canPlace := CanPlace(cfg, parent, node);
      if canPlace {
        placementMap := placementMap[path := []];
      }
      ghost var start, anchor := placementMap, Nearest(placementMap.Keys, path);
      ghost var own := Minted(cfg, node, next);
      ghost var below := VisitKids(cfg, node, [], node.kids, next + |own|);
      Collect(path);
      ghost var registered := placementMap;
      TraverseKids(path);
      RegisteredTwice(start, registered, placementMap, tree, anchor, path, OwnApplied(own), below.applied);
      ReplaceAt(tree, path, node.(kids := below.kids));
      if canPlace {
        RegisteredOnSelf(before, placementMap, tree, path, OwnApplied(own) + below.applied);
      }
      Leave(path);
      ReplaceTwice(tree, path, node.(kids := below.kids), At(ast, path));
    }

    /** Placing what is registered for the node. */
    method Leave(path: Path)
      requires ValidPath(ast, path)
      modifies this`ast
      ensures ValidPath(ast, path)
      ensures var placed := path in placementMap && placementMap[path] != [];
              && At(ast, path) == (if placed then Placed(At(old(ast), path), placementMap[path]) else At(old(ast), path))
              && ast == Replace(old(ast), path, At(ast, path))
    {
      hide At, Replace, Placed;
      ReplaceSame(ast, path);
      if path in placementMap && |placementMap[path]| > 0 {
        var placed := Place(At(ast, path), placementMap[path]);
        ReplaceAt(ast, path, placed);
        ast := Replace(ast, path, placed);
      }
    }

    /** The first placer that accepts the node. */
    method Place(node: Node, applied: seq<Applied>) returns (placed: Node)
      ensures placed == Placed(node, applied)
    {
      match CategoryOf(node.kind)
      case Expression => placed := PlaceExpression(node, applied);
      case Statement => placed := PlaceStatement(node, applied);
      case SwitchCase => placed := PlaceCase(node, applied);
      case Root => placed := node;
    }
  }
}
