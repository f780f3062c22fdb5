/** On which node each switch stands: the instrumented tree is the original with some entries placed on
    every node, and a mutant is among the entries of a node exactly if that node is the nearest one, from
    the mutated node upwards, that can carry a switch. */
module NearestPlaces {
  import opened Ast
  import opened Options
  import opened Paths
  import opened Placers
  import opened Instrumenter
  import opened Meaning
  import opened Schemata
  import opened Placement

  // ----- the tree as the original with entries placed on its nodes

  /** The entries that the visit places on the node at the path. */
  function EntriesOn(cfg: Config, parent: Category, n: Node, next: nat, path: Path): seq<Applied>
    decreases |path|
  {
    if ShouldSkip(cfg, n) then []
    else
      var own := Minted(cfg, n, next);
      var cat := CategoryOf(n.kind);
      if path == [] then
        if CanPlace(cfg, parent, n) then OwnApplied(own) + VisitKids(cfg, n, [], n.kids, next + |own|).applied else []
      else if path[0] < |n.kids| then
        EntriesOn(cfg, cat, n.kids[path[0]], NumberOf(cfg, cat, n.kids, next + |own|, path[0]), path[1..])
      else []
  }

  /** The tree with the given entries placed on each of its nodes, children first. */
  ghost function Built(n: Node, entries: Path -> seq<Applied>): Node {
    var kids := seq(|n.kids|, i requires 0 <= i < |n.kids| => Built(n.kids[i], path => entries([i] + path)));
    if entries([]) == [] then n.(kids := kids) else Placed(n.(kids := kids), entries([]))
  }

  lemma {:induction false} NothingBuilt(n: Node, entries: Path -> seq<Applied>)
    requires forall path :: entries(path) == []
    ensures Built(n, entries) == n
    decreases n
  {
    forall i | 0 <= i < |n.kids|
      ensures Built(n.kids[i], path => entries([i] + path)) == n.kids[i]
    {
      NothingBuilt(n.kids[i], path => entries([i] + path));
    }
    assert seq(|n.kids|, i requires 0 <= i < |n.kids| => Built(n.kids[i], path => entries([i] + path))) == n.kids;
  }

  /** The i-th rewritten child is the visit of the i-th child, with the number it starts with. */
  lemma {:induction false} RewrittenKid(cfg: Config, n: Node, done: seq<Node>, todo: seq<Node>, next: nat, i: nat)
    requires i < |todo|
    ensures var cat, kids := CategoryOf(n.kind), VisitKids(cfg, n, done, todo, next).kids;
            && |kids| == |done| + |todo|
            && kids[..|done|] == done
            && kids[|done| + i] == Visit(cfg, cat, todo[i], NumberOf(cfg, cat, todo, next, i)).node
    decreases todo, 0
  {
    hide Visit, VisitKids, NumberOf, CategoryOf;
    var cat := CategoryOf(n.kind);
    var kid := Visit(cfg, cat, todo[0], next);
    VisitKidsNumbers(cfg, n, done, todo, next);
    VisitKidsUnfolded(cfg, n, done, todo, next);
    NumberStep(cfg, cat, todo, next, i);
    var mid := next + |kid.mutants|;
    var kids := VisitKids(cfg, n, done + [kid.node], todo[1..], mid).kids;
    if |todo| == 1 {
      NoMoreKids(cfg, n, done + [kid.node], todo[1..], mid);
    } else {
      RewrittenKid(cfg, n, done + [kid.node], todo[1..], mid, if i == 0 then 0 else i - 1);
    }
    assert kids[..|done| + 1] == done + [kid.node];
    assert kids[..|done|] == kids[..|done| + 1][..|done|];
  }

  lemma {:induction false} NoMoreKids(cfg: Config, n: Node, done: seq<Node>, todo: seq<Node>, next: nat)
    requires todo == []
    ensures VisitKids(cfg, n, done, todo, next).kids == done
  {
  }

  /** The instrumented tree is the original with exactly these entries placed. */
  lemma {:induction false} VisitBuilds(cfg: Config, parent: Category, n: Node, next: nat, entries: Path -> seq<Applied>)
    requires forall path :: entries(path) == EntriesOn(cfg, parent, n, next, path)
    ensures Visit(cfg, parent, n, next).node
         == Built(n, entries)
    decreases n
  {
    hide Visit, VisitKids, Minted, ShouldSkip, OwnApplied, Placed, NumberOf, CanPlace, CategoryOf;
    if ShouldSkip(cfg, n) {
      SkippedVisit(cfg, parent, n, next);
      NothingBuilt(n, entries);
    } else {
      var own := Minted(cfg, n, next);
      var from := next + |own|;
      var cat := CategoryOf(n.kind);
      var below := VisitKids(cfg, n, [], n.kids, from);
      VisitUnfolded(cfg, parent, n, next);
      VisitKidsNumbers(cfg, n, [], n.kids, from);
      forall i | 0 <= i < |n.kids|
        ensures Built(n.kids[i], path => entries([i] + path)) == below.kids[i]
      {
        var start := NumberOf(cfg, cat, n.kids, from, i);
        var inner := path => entries([i] + path);
        forall path: Path
          ensures inner(path) == EntriesOn(cfg, cat, n.kids[i], start, path)
        {
          assert ([i] + path)[1..] == path;
        }
        VisitBuilds(cfg, cat, n.kids[i], start, inner);
        RewrittenKid(cfg, n, [], n.kids, from, i);
      }
      assert seq(|n.kids|, i requires 0 <= i < |n.kids| => Built(n.kids[i], path => entries([i] + path))) == below.kids;
    }
  }

  // ----- the nearest place

  /** The node at the path can carry a switch: it is a statement or a switch case, or an expression that is
      valid for that or whose parent is no expression.  `parent` is the category of what the tree is in. */
  predicate CanPlaceAt(cfg: Config, parent: Category, n: Node, path: Path) {
    && ValidPath(n, path)
    && var node := At(n, path);
       match CategoryOf(node.kind)
       case Statement => true
       case SwitchCase => true
       case Expression => cfg.isValid(node) || ParentAt(parent, n, path) != Expression
       case Root => false
  }

  function ParentAt(parent: Category, n: Node, path: Path): Category
    requires ValidPath(n, path)
  {
    if path == [] then parent
    else
      ValidPrefix(n, path, |path| - 1);
      CategoryOf(At(n, path[..|path| - 1]).kind)
  }

  lemma {:induction false} ValidPrefix(n: Node, path: Path, len: nat)
    requires ValidPath(n, path) && len <= |path|
    ensures ValidPath(n, path[..len])
    decreases len
  {
    if len > 0 {
      ValidPrefix(n.kids[path[0]], path[1..], len - 1);
      assert path[..len][1..] == path[1..][..len - 1];
    }
  }

  /** What `canPlace` says of a node is that. */
  lemma {:induction false} CanPlaceMeans(cfg: Config, parent: Category, n: Node, path: Path)
    ensures path == [] ==> (CanPlaceAt(cfg, parent, n, path) <==> CanPlace(cfg, parent, n))
    ensures path != [] ==>
              (CanPlaceAt(cfg, parent, n, path) <==>
                path[0] < |n.kids| && CanPlaceAt(cfg, CategoryOf(n.kind), n.kids[path[0]], path[1..]))
  {
    hide CategoryOf;
    if path != [] && path[0] < |n.kids| && ValidPath(n, path) {
      assert path[..|path| - 1] == if |path| == 1 then [] else [path[0]] + path[1..][..|path| - 2];
      if |path| > 1 {
        ValidPrefix(n, path, |path| - 1);
        assert path[..|path| - 1][1..] == path[1..][..|path[1..]| - 1];
      }
    }
  }

  /** `place` is on the way to the node at the path, or is that path; a switch can stand there and
      nowhere further down on the way. */
  ghost predicate Nearest(cfg: Config, parent: Category, n: Node, path: Path, place: Path) {
    && place <= path
    && CanPlaceAt(cfg, parent, n, place)
    && forall len | |place| < len <= |path| :: !CanPlaceAt(cfg, parent, n, path[..len])
  }

  ghost predicate NoPlace(cfg: Config, parent: Category, n: Node, path: Path) {
    forall len | 0 <= len <= |path| :: !CanPlaceAt(cfg, parent, n, path[..len])
  }

  lemma {:induction false} CanPlaceBelow(cfg: Config, parent: Category, n: Node, path: Path, len: nat)
    requires path != [] && path[0] < |n.kids| && 0 < len <= |path|
    ensures CanPlaceAt(cfg, parent, n, path[..len]) <==>
            CanPlaceAt(cfg, CategoryOf(n.kind), n.kids[path[0]], path[1..][..len - 1])
  {
    CanPlaceMeans(cfg, parent, n, path[..len]);
    assert path[..len][1..] == path[1..][..len - 1];
  }

  lemma {:induction false} NoPlaceBelow(cfg: Config, parent: Category, n: Node, path: Path)
    requires path != [] && path[0] < |n.kids|
    ensures NoPlace(cfg, CategoryOf(n.kind), n.kids[path[0]], path[1..]) <==>
            forall len | 0 < len <= |path| :: !CanPlaceAt(cfg, parent, n, path[..len])
  {
    forall len | 0 < len <= |path|
      ensures CanPlaceAt(cfg, parent, n, path[..len]) <==>
              CanPlaceAt(cfg, CategoryOf(n.kind), n.kids[path[0]], path[1..][..len - 1])
    {
      CanPlaceBelow(cfg, parent, n, path, len);
    }
    if exists len :: 0 < len <= |path| && CanPlaceAt(cfg, parent, n, path[..len]) {
      var len :| 0 < len <= |path| && CanPlaceAt(cfg, parent, n, path[..len]);
      assert CanPlaceAt(cfg, CategoryOf(n.kind), n.kids[path[0]], path[1..][..len - 1]);
    }
    forall len | 0 <= len <= |path[1..]| && CanPlaceAt(cfg, CategoryOf(n.kind), n.kids[path[0]], path[1..][..len])
      ensures CanPlaceAt(cfg, parent, n, path[..len + 1])
    {
      assert path[1..][..len + 1 - 1] == path[1..][..len];
    }
  }

  lemma {:induction false} NearestHere(cfg: Config, parent: Category, n: Node, path: Path)
    requires path != [] ==> path[0] < |n.kids|
    ensures var below := path == [] || NoPlace(cfg, CategoryOf(n.kind), n.kids[path[0]], path[1..]);
            && (Nearest(cfg, parent, n, path, []) <==> CanPlace(cfg, parent, n) && below)
            && (NoPlace(cfg, parent, n, path) <==> !CanPlace(cfg, parent, n) && below)
  {
    hide CanPlace, CanPlaceAt;
    if path != [] {
      NoPlaceBelow(cfg, parent, n, path);
    }
    CanPlaceMeans(cfg, parent, n, []);
    assert path[..0] == [];
    assert CanPlaceAt(cfg, parent, n, path[..0]) <==> CanPlace(cfg, parent, n);
  }

  lemma {:induction false} NearestBelow(cfg: Config, parent: Category, n: Node, path: Path, place: Path)
    requires path != [] && path[0] < |n.kids| && place != []
    ensures Nearest(cfg, parent, n, path, place) <==>
            place[0] == path[0] && Nearest(cfg, CategoryOf(n.kind), n.kids[path[0]], path[1..], place[1..])
  {
    hide CanPlaceAt;
    CanPlaceMeans(cfg, parent, n, place);
    if place[0] == path[0] {
      assert place == [place[0]] + place[1..] && path == [path[0]] + path[1..];
      forall len | 0 < len <= |path|
        ensures CanPlaceAt(cfg, parent, n, path[..len]) <==>
                CanPlaceAt(cfg, CategoryOf(n.kind), n.kids[path[0]], path[1..][..len - 1])
      {
        CanPlaceBelow(cfg, parent, n, path, len);
      }
      forall len | |place[1..]| < len <= |path[1..]|
        ensures CanPlaceAt(cfg, parent, n, path[..len + 1]) <==>
                CanPlaceAt(cfg, CategoryOf(n.kind), n.kids[path[0]], path[1..][..len])
      {
        assert path[1..][..len + 1 - 1] == path[1..][..len];
      }
    }
  }

  // ----- numbers of subtrees

  lemma {:induction false} NumbersAscend(cfg: Config, n: Node, done: seq<Node>, kids: seq<Node>, next: nat, i: nat)
    requires i < |kids|
    ensures var cat, start := CategoryOf(n.kind), NumberOf(cfg, CategoryOf(n.kind), kids, next, i);
            && next <= start
            && start + |Visit(cfg, cat, kids[i], start).mutants| <= next + |VisitKids(cfg, n, done, kids, next).mutants|
            && forall j | i < j < |kids| ::
                 start + |Visit(cfg, cat, kids[i], start).mutants| <= NumberOf(cfg, cat, kids, next, j)
    decreases kids, 0
  {
    hide Visit, VisitKids, NumberOf, CategoryOf;
    var cat := CategoryOf(n.kind);
    var kid := Visit(cfg, cat, kids[0], next);
    var mid := next + |kid.mutants|;
    VisitKidsUnfolded(cfg, n, done, kids, next);
    NumberStep(cfg, cat, kids, next, i);
    if i > 0 {
      NumbersAscend(cfg, n, done + [kid.node], kids[1..], mid, i - 1);
    }
    forall j | i < j < |kids|
      ensures NumberOf(cfg, cat, kids, next, j) == NumberOf(cfg, cat, kids[1..], mid, j - 1) >= mid
    {
      NumberStep(cfg, cat, kids, next, j);
      NumbersAscend(cfg, n, done + [kid.node], kids[1..], mid, j - 1);
    }
  }

  /** Entries placed within a subtree have numbers of that subtree. */
  lemma {:induction false} EntriesWithin(cfg: Config, parent: Category, n: Node, next: nat, path: Path, id: nat)
    requires Pending(EntriesOn(cfg, parent, n, next, path), Some(id))
    ensures next <= id < next + |Visit(cfg, parent, n, next).mutants|
    decreases |path|
  {
    hide Visit, VisitKids, Minted, ShouldSkip, OwnApplied, Placed, NumberOf, CanPlace, CategoryOf;
    var own := Minted(cfg, n, next);
    var from := next + |own|;
    VisitUnfolded(cfg, parent, n, next);
    VisitKidsNumbers(cfg, n, [], n.kids, from);
    if path == [] {
      VisitNumbers(cfg, parent, n, next);
      PendingAppend(OwnApplied(own), VisitKids(cfg, n, [], n.kids, from).applied, Some(id));
      MintedDense(cfg, n, next);
      OwnAscending(own, next);
    } else {
      var cat := CategoryOf(n.kind);
      NumbersAscend(cfg, n, [], n.kids, from, path[0]);
      EntriesWithin(cfg, cat, n.kids[path[0]], NumberOf(cfg, cat, n.kids, from, path[0]), path[1..], id);
    }
  }

  lemma MintedDense(cfg: Config, n: Node, next: nat)
    ensures Dense(Minted(cfg, n, next), next)
  {
  }

  /** What waits above the children is what waits above the child with that number. */
  lemma {:induction false} WaitingKid(cfg: Config, n: Node, done: seq<Node>, todo: seq<Node>, next: nat, i: nat,
                                      id: nat)
    requires i < |todo|
    requires var cat, start := CategoryOf(n.kind), NumberOf(cfg, CategoryOf(n.kind), todo, next, i);
             start <= id < start + |Visit(cfg, cat, todo[i], start).mutants|
    ensures var cat, start := CategoryOf(n.kind), NumberOf(cfg, CategoryOf(n.kind), todo, next, i);
            Pending(VisitKids(cfg, n, done, todo, next).applied, Some(id)) <==>
            Pending(Visit(cfg, cat, todo[i], start).applied, Some(id))
    decreases todo, 0
  {
    hide Visit, VisitKids, NumberOf, CategoryOf, Lifted;
    var cat := CategoryOf(n.kind);
    var kid := Visit(cfg, cat, todo[0], next);
    var mid := next + |kid.mutants|;
    var rest := VisitKids(cfg, n, done + [kid.node], todo[1..], mid);
    VisitKidsUnfolded(cfg, n, done, todo, next);
    NumberStep(cfg, cat, todo, next, i);
    VisitNumbers(cfg, cat, todo[0], next);
    VisitKidsNumbers(cfg, n, done + [kid.node], todo[1..], mid);
    LiftedPending(n, done, todo[1..], kid.applied, Some(id));
    PendingAppend(Lifted(n, done, todo[1..], kid.applied), rest.applied, Some(id));
    if i > 0 {
      NumbersAscend(cfg, n, done + [kid.node], todo[1..], mid, i - 1);
      WaitingKid(cfg, n, done + [kid.node], todo[1..], mid, i - 1, id);
    }
  }

  // ----- every switch stands on the nearest place

  /** The mutant waits above the tree if it has no place on the way, and is among the entries of a node
      exactly if that is the nearest place. */
  ghost predicate OnNearest(cfg: Config, parent: Category, n: Node, next: nat, path: Path, id: nat) {
    && next <= id < next + |Visit(cfg, parent, n, next).mutants|
    && (Pending(Visit(cfg, parent, n, next).applied, Some(id)) <==> NoPlace(cfg, parent, n, path))
    && forall place: Path ::
         Pending(EntriesOn(cfg, parent, n, next, place), Some(id)) <==> Nearest(cfg, parent, n, path, place)
  }

  lemma {:induction false} OwnOnNearest(cfg: Config, parent: Category, n: Node, next: nat, m: Mutant)
    requires !ShouldSkip(cfg, n) && m in Minted(cfg, n, next) && !m.ignored
    ensures OnNearest(cfg, parent, n, next, [], m.id)
  {
    hide Visit, VisitKids, OwnApplied, Placed, NumberOf, CanPlace, CategoryOf, Minted, CanPlaceAt;
    var own := Minted(cfg, n, next);
    var from := next + |own|;
    var below := VisitKids(cfg, n, [], n.kids, from);
    VisitUnfolded(cfg, parent, n, next);
    MintedDense(cfg, n, next);
    OwnHolds(own, next, m.id);
    PendingAppend(OwnApplied(own), below.applied, Some(m.id));
    NearestHere(cfg, parent, n, []);
    forall place: Path
      ensures Pending(EntriesOn(cfg, parent, n, next, place), Some(m.id)) <==> Nearest(cfg, parent, n, [], place)
    {
      if place != [] && place[0] < |n.kids| && Pending(EntriesOn(cfg, parent, n, next, place), Some(m.id)) {
        var cat := CategoryOf(n.kind);
        NumbersAscend(cfg, n, [], n.kids, from, place[0]);
        EntriesWithin(cfg, cat, n.kids[place[0]], NumberOf(cfg, cat, n.kids, from, place[0]), place[1..], m.id);
      }
    }
  }

  lemma {:induction false} KidOnNearest(cfg: Config, parent: Category, n: Node, next: nat, path: Path, id: nat)
    requires !ShouldSkip(cfg, n) && path != [] && path[0] < |n.kids|
    requires var cat, from := CategoryOf(n.kind), next + |Minted(cfg, n, next)|;
             OnNearest(cfg, cat, n.kids[path[0]], NumberOf(cfg, cat, n.kids, from, path[0]), path[1..], id)
    ensures OnNearest(cfg, parent, n, next, path, id)
  {
    hide Visit, VisitKids, OwnApplied, Placed, NumberOf, CanPlace, CategoryOf, Minted, CanPlaceAt, Nearest, NoPlace;
    var own := Minted(cfg, n, next);
    var cat, from, i := CategoryOf(n.kind), next + |own|, path[0];
    var below := VisitKids(cfg, n, [], n.kids, from);
    VisitUnfolded(cfg, parent, n, next);
    MintedDense(cfg, n, next);
    NumbersAscend(cfg, n, [], n.kids, from, i);
    NotOwn(own, next, Some(id));
    WaitingKid(cfg, n, [], n.kids, from, i, id);
    PendingAppend(OwnApplied(own), below.applied, Some(id));
    NearestHere(cfg, parent, n, path);
    forall place: Path
      ensures Pending(EntriesOn(cfg, parent, n, next, place), Some(id)) <==> Nearest(cfg, parent, n, path, place)
    {
      if place != [] {
        NearestBelow(cfg, parent, n, path, place);
        if place[0] < |n.kids| && place[0] != i && Pending(EntriesOn(cfg, parent, n, next, place), Some(id)) {
          NumbersAscend(cfg, n, [], n.kids, from, place[0]);
          EntriesWithin(cfg, cat, n.kids[place[0]], NumberOf(cfg, cat, n.kids, from, place[0]), place[1..], id);
        }
      }
    }
  }

  lemma {:induction false} MutantIsOnNearest(cfg: Config, parent: Category, n: Node, next: nat, path: Path, m: Mutant)
    requires CollectedAt(cfg, n, next, path, m) && !m.ignored
    ensures OnNearest(cfg, parent, n, next, path, m.id)
    decreases |path|
  {
    if path == [] {
      OwnOnNearest(cfg, parent, n, next, m);
    } else {
      var cat, from := CategoryOf(n.kind), next + |Minted(cfg, n, next)|;
      MutantIsOnNearest(cfg, cat, n.kids[path[0]], NumberOf(cfg, cat, n.kids, from, path[0]), path[1..], m);
      KidOnNearest(cfg, parent, n, next, path, m.id);
    }
  }

  lemma PendingIds(applied: seq<Applied>, id: nat)
    ensures Pending(applied, Some(id)) <==> id in Ids(applied)
  {
    if id in Ids(applied) {
      var i :| 0 <= i < |applied| && Ids(applied)[i] == id;
      assert applied[i] in applied;
    }
    if Pending(applied, Some(id)) {
      var i :| 0 <= i < |applied| && applied[i].id == id;
      assert Ids(applied)[i] == id;
    }
  }

  /** Every mutant that is not ignored is mutated at some path, and its switch is placed on the nearest
      node on the way up from there that can carry one, and on no other node; it waits to be placed
      above the tree exactly if there is no such node. */
  lemma {:induction false} SwitchIsOnNearestPlace(cfg: Config, parent: Category, n: Node, next: nat, m: Mutant)
    returns (path: Path)
    requires m in Visit(cfg, parent, n, next).mutants && !m.ignored
    ensures ValidPath(n, path) && At(n, path) == m.original
    ensures m.id in Ids(Visit(cfg, parent, n, next).applied) <==> NoPlace(cfg, parent, n, path)
    ensures forall place: Path ::
      m.id in Ids(EntriesOn(cfg, parent, n, next, place)) <==> Nearest(cfg, parent, n, path, place)
  {
    path := FindMutant(cfg, parent, n, next, m);
    MutantIsOnNearest(cfg, parent, n, next, path, m);
    PendingIds(Visit(cfg, parent, n, next).applied, m.id);
    forall place: Path
      ensures m.id in Ids(EntriesOn(cfg, parent, n, next, place)) <==> Nearest(cfg, parent, n, path, place)
    {
      PendingIds(EntriesOn(cfg, parent, n, next, place), m.id);
    }
  }

  /** In a whole file there is always such a node. */
  lemma {:induction false} EveryMutantHasAPlace(cfg: Config, root: Node, next: nat, m: Mutant)
    returns (path: Path, place: Path)
    requires root.kind == Program && WellFormed(root) && ProperMutators(cfg)
    requires m in Visit(cfg, Root, root, next).mutants && !m.ignored
    ensures ValidPath(root, path) && At(root, path) == m.original && Nearest(cfg, Root, root, path, place)
    ensures forall other: Path :: m.id in Ids(EntriesOn(cfg, Root, root, next, other)) <==> other == place
  {
    path := SwitchIsOnNearestPlace(cfg, Root, root, next, m);
    EveryMutantIsPlaced(cfg, root, next);
    assert !NoPlace(cfg, Root, root, path);
    var len := LongestPlace(cfg, Root, root, path, |path|);
    place := path[..len];
    forall other | Nearest(cfg, Root, root, path, other)
      ensures other == place
    {
      assert other == path[..|other|];
    }
  }

  lemma {:induction false} LongestPlace(cfg: Config, parent: Category, n: Node, path: Path, bound: nat)
    returns (len: nat)
    requires bound <= |path| && !NoPlace(cfg, parent, n, path)
    requires forall k | bound < k <= |path| :: !CanPlaceAt(cfg, parent, n, path[..k])
    ensures len <= |path| && Nearest(cfg, parent, n, path, path[..len])
    decreases bound
  {
    if CanPlaceAt(cfg, parent, n, path[..bound]) {
      len := bound;
    } else {
      assert bound > 0;
      len := LongestPlace(cfg, parent, n, path, bound - 1);
    }
  }
}
