/** Positions in a tree, and the keys (node type and location) by which a node is found again in a
    copy of the tree. */
module Paths {
  import opened Ast
  import opened Locations
  import opened Options

  /** The index of the child to follow at every level. */
  type Path = seq<nat>

  predicate ValidPath(n: Node, path: Path)
    decreases |path|
  {
    path == [] || (path[0] < |n.kids| && ValidPath(n.kids[path[0]], path[1..]))
  }

  function At(n: Node, path: Path): Node
    requires ValidPath(n, path)
    decreases |path|
  {
    if path == [] then n else At(n.kids[path[0]], path[1..])
  }

  function Replace(n: Node, path: Path, x: Node): Node
    requires ValidPath(n, path)
    decreases |path|
  {
    if path == [] then x
    else n.(kids := n.kids[path[0] := Replace(n.kids[path[0]], path[1..], x)])
  }

  lemma {:induction false} PathAppend(n: Node, p: Path, q: Path)
    requires ValidPath(n, p)
    ensures ValidPath(n, p + q) <==> ValidPath(At(n, p), q)
    ensures ValidPath(n, p + q) ==> At(n, p + q) == At(At(n, p), q)
    decreases |p|
  {
    if p == [] {
      assert p + q == q;
    } else {
      assert (p + q)[1..] == p[1..] + q;
      PathAppend(n.kids[p[0]], p[1..], q);
    }
  }

  lemma {:induction false} ReplaceAt(n: Node, p: Path, x: Node)
    requires ValidPath(n, p)
    ensures ValidPath(Replace(n, p, x), p) && At(Replace(n, p, x), p) == x
    decreases |p|
  {
    if p != [] {
      ReplaceAt(n.kids[p[0]], p[1..], x);
    }
  }

  lemma {:induction false} ReplaceTwice(n: Node, p: Path, x: Node, y: Node)
    requires ValidPath(n, p)
    ensures ValidPath(Replace(n, p, x), p) && Replace(Replace(n, p, x), p, y) == Replace(n, p, y)
    decreases |p|
  {
    if p != [] {
      var i := p[0];
      ReplaceTwice(n.kids[i], p[1..], x, y);
      assert n.kids[i := Replace(n.kids[i], p[1..], x)][i := Replace(n.kids[i], p[1..], y)]
          == n.kids[i := Replace(n.kids[i], p[1..], y)];
    }
  }

  lemma {:induction false} ReplaceSame(n: Node, p: Path)
    requires ValidPath(n, p)
    ensures Replace(n, p, At(n, p)) == n
    decreases |p|
  {
    if p != [] {
      ReplaceSame(n.kids[p[0]], p[1..]);
      assert n.kids[p[0] := n.kids[p[0]]] == n.kids;
    }
  }

  /** Replacing below a path is replacing at the path. */
  lemma {:induction false} ReplaceBelow(n: Node, p: Path, q: Path, x: Node)
    requires ValidPath(n, p) && ValidPath(At(n, p), q)
    ensures ValidPath(n, p + q) && Replace(n, p + q, x) == Replace(n, p, Replace(At(n, p), q, x))
    decreases |p|
  {
    PathAppend(n, p, q);
    if p == [] {
      assert p + q == q;
    } else {
      assert (p + q)[1..] == p[1..] + q;
      ReplaceBelow(n.kids[p[0]], p[1..], q, x);
    }
  }

  // ----- keys

  datatype Key = Key(nodeType: string, loc: Location)

  function KeyOf(n: Node): Option<Key> {
    if n.loc.Some? then Some(Key(TypeOf(n.kind), n.loc.value)) else None
  }

  ghost function Keys(n: Node): set<Key> {
    (if n.loc.Some? then {Key(TypeOf(n.kind), n.loc.value)} else {}) + KeysOf(n.kids)
  }

  ghost function KeysOf(ns: seq<Node>): set<Key> {
    if ns == [] then {} else Keys(ns[0]) + KeysOf(ns[1..])
  }

  lemma {:induction false} KidKeys(ns: seq<Node>, i: nat)
    requires i < |ns|
    ensures Keys(ns[i]) <= KeysOf(ns)
  {
    if i > 0 {
      assert ns[i] == ns[1..][i - 1];
      KidKeys(ns[1..], i - 1);
    }
  }

  lemma {:induction false} KeysWithin(ns: seq<Node>, bound: set<Key>)
    requires forall n <- ns :: Keys(n) <= bound
    ensures KeysOf(ns) <= bound
  {
    if ns != [] {
      assert ns[0] in ns;
      KeysWithin(ns[1..], bound);
    }
  }

  lemma {:induction false} KeysAppend(xs: seq<Node>, ys: seq<Node>)
    ensures KeysOf(xs + ys) == KeysOf(xs) + KeysOf(ys)
  {
    if xs == [] {
      assert xs + ys == ys;
    } else {
      assert (xs + ys)[1..] == xs[1..] + ys;
      KeysAppend(xs[1..], ys);
    }
  }

  /** What `eqNode` relies on: every node has a location, and no two nodes share type and location. */
  ghost predicate UniqueKeys(n: Node) {
    && n.loc.Some?
    && (forall k <- n.kids :: UniqueKeys(k) && KeyOf(n).value !in Keys(k))
    && (forall i, j :: 0 <= i < j < |n.kids| ==> Keys(n.kids[i]) !! Keys(n.kids[j]))
  }

  // ----- `Mutant.applied`: replace the first proper descendant with the given key

  function SearchReplace(n: Node, key: Key, x: Node): Option<Node>
    decreases n, 1
  {
    match SearchReplaceKids(n.kids, key, x)
    case None => None
    case Some(kids) => Some(n.(kids := kids))
  }

  function SearchReplaceKids(ns: seq<Node>, key: Key, x: Node): Option<seq<Node>>
    decreases ns, 0
  {
    if ns == [] then None
    else if KeyOf(ns[0]) == Some(key) then Some([x] + ns[1..])
    else match SearchReplace(ns[0], key, x)
         case Some(k) => Some([k] + ns[1..])
         case None =>
           match SearchReplaceKids(ns[1..], key, x)
           case Some(rest) => Some([ns[0]] + rest)
           case None => None
  }

  /** The walk over a copy of the tree, which stops at the first node with the key. */
  method ApplyTo(n: Node, key: Key, x: Node) returns (copy: Node, applied: bool)
    ensures SearchReplace(n, key, x) == if applied then Some(copy) else None
    decreases n
  {
    hide Keys, KeysOf;
    copy, applied := n, false;
    var i := 0;
    PrependNothing(n.kids, SearchReplaceKids(n.kids, key, x));
    while i < |n.kids| && !applied
      invariant i <= |n.kids|
      invariant !applied ==> SearchReplaceKids(n.kids, key, x) == Prepend(n.kids[..i], SearchReplaceKids(n.kids[i..], key, x))
      invariant applied ==> SearchReplace(n, key, x) == Some(copy)
      decreases |n.kids| - i, !applied
    {
      SplitAt(n.kids, i);
      if KeyOf(n.kids[i]) == Some(key) {
        copy, applied := n.(kids := n.kids[i := x]), true;
        UpdateSplit(n.kids, i, x);
      } else {
        var kid, found := ApplyTo(n.kids[i], key, x);
        if found {
          copy, applied := n.(kids := n.kids[i := kid]), true;
          UpdateSplit(n.kids, i, kid);
        } else {
          PrependMore(n.kids, i, SearchReplaceKids(n.kids[i + 1..], key, x));
          i := i + 1;
        }
      }
    }
  }

  function Prepend(ns: seq<Node>, rest: Option<seq<Node>>): Option<seq<Node>> {
    if rest.None? then None else Some(ns + rest.value)
  }

  lemma UpdateSplit(ns: seq<Node>, i: nat, x: Node)
    requires i < |ns|
    ensures ns[i := x] == ns[..i] + ([x] + ns[i + 1..])
  {
  }

  lemma PrependNothing(ns: seq<Node>, rest: Option<seq<Node>>)
    ensures Prepend(ns[..0], rest) == rest && ns[0..] == ns
  {
    if rest.Some? {
      assert ns[..0] + rest.value == rest.value;
    }
  }

  lemma PrependMore(ns: seq<Node>, i: nat, rest: Option<seq<Node>>)
    requires i < |ns|
    ensures Prepend(ns[..i + 1], rest) == Prepend(ns[..i], Prepend([ns[i]], rest))
  {
    if rest.Some? {
      assert ns[..i + 1] + rest.value == ns[..i] + ([ns[i]] + rest.value);
    }
  }

  lemma SplitAt(ns: seq<Node>, i: nat)
    requires i < |ns|
    ensures ns[i..][0] == ns[i] && ns[i..][1..] == ns[i + 1..]
  {
  }

  /** No node that the search meets before the one at the path has the key. */
  ghost predicate FirstAt(n: Node, path: Path, key: Key)
    requires ValidPath(n, path)
    decreases |path|
  {
    path == [] ||
    (&& (forall j :: 0 <= j < path[0] ==> key !in Keys(n.kids[j]))
     && (|path| > 1 ==> KeyOf(n.kids[path[0]]) != Some(key))
     && FirstAt(n.kids[path[0]], path[1..], key))
  }

  lemma {:induction false} NotFound(n: Node, key: Key, x: Node)
    requires key !in Keys(n)
    ensures SearchReplace(n, key, x) == None && KeyOf(n) != Some(key)
    decreases n, 1
  {
    NotFoundKids(n.kids, key, x);
  }

  lemma {:induction false} NotFoundKids(ns: seq<Node>, key: Key, x: Node)
    requires key !in KeysOf(ns)
    ensures SearchReplaceKids(ns, key, x) == None
    decreases ns, 0
  {
    if ns != [] {
      NotFound(ns[0], key, x);
      NotFoundKids(ns[1..], key, x);
    }
  }

  lemma {:induction false} SkipKids(ns: seq<Node>, i: nat, key: Key, x: Node)
    requires i < |ns| && forall j :: 0 <= j < i ==> key !in Keys(ns[j])
    ensures SearchReplaceKids(ns, key, x) == Prepend(ns[..i], SearchReplaceKids(ns[i..], key, x))
    decreases i
  {
    hide Keys, KeysOf, SearchReplace;
    if i == 0 {
      PrependNothing(ns, SearchReplaceKids(ns, key, x));
    } else {
      SkipKids(ns, i - 1, key, x);
      NotFound(ns[i - 1], key, x);
      SplitAt(ns, i - 1);
      PrependMore(ns, i - 1, SearchReplaceKids(ns[i..], key, x));
    }
  }

  /** The search finds the node at the path. */
  lemma {:induction false} SearchFindsPath(n: Node, path: Path, key: Key, x: Node)
    requires path != [] && ValidPath(n, path) && FirstAt(n, path, key) && KeyOf(At(n, path)) == Some(key)
    ensures SearchReplace(n, key, x) == Some(Replace(n, path, x))
    decreases |path|
  {
    var i := path[0];
    SkipKids(n.kids, i, key, x);
    SplitAt(n.kids, i);
    if |path| == 1 {
      assert path[1..] == [];
      UpdateSplit(n.kids, i, x);
    } else {
      SearchFindsPath(n.kids[i], path[1..], key, x);
      var kid := Replace(n.kids[i], path[1..], x);
      UpdateSplit(n.kids, i, kid);
    }
  }
}
