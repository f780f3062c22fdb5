/** The graph of imports between the files of a TypeScript project, which may contain cycles, and the
    recursive walks over it that share a set of visited nodes. */
module ImportGraph {

  // ----- reachability

  type Graph = map<string, set<string>>

  ghost predicate IsPath(g: Graph, p: seq<string>) {
    && |p| > 0 && p[0] in g
    && forall i :: 0 <= i < |p| - 1 ==> p[i] in g && p[i + 1] in g[p[i]]
  }

  /** The reflexive-transitive closure. */
  ghost predicate Reaches(g: Graph, a: string, b: string) {
    exists p :: IsPath(g, p) && p[0] == a && p[|p| - 1] == b
  }

  lemma ReachesSelf(g: Graph, a: string)
    requires a in g
    ensures Reaches(g, a, a)
  {
    assert IsPath(g, [a]);
  }

  lemma ReachesVia(g: Graph, a: string, b: string, c: string)
    requires a in g && b in g[a] && Reaches(g, b, c)
    ensures Reaches(g, a, c)
  {
    var p :| IsPath(g, p) && p[0] == b && p[|p| - 1] == c;
    var q := [a] + p;
    assert IsPath(g, q) && q[|q| - 1] == c;
  }

  /** A set that is closed under the edges holds everything that its members reach. */
  lemma {:induction false} ClosedHolds(g: Graph, s: set<string>, p: seq<string>)
    requires IsPath(g, p) && p[0] in s
    requires forall a, b :: a in s && a in g && b in g[a] ==> b in s
    ensures p[|p| - 1] in s
    decreases |p|
  {
    if |p| > 1 {
      var q := p[..|p| - 1];
      assert IsPath(g, q);
      ClosedHolds(g, s, q);
    }
  }

  ghost predicate Inverse(up: Graph, down: Graph) {
    && up.Keys == down.Keys
    && (forall a, b :: a in up && b in up[a] ==> b in down)
    && (forall a, b :: a in down && b in down[a] ==> b in up)
    && forall a, b :: a in up && b in down ==> (b in up[a] <==> a in down[b])
  }

  lemma {:induction false} InversePath(up: Graph, down: Graph, p: seq<string>) returns (q: seq<string>)
    requires Inverse(up, down) && IsPath(up, p)
    ensures IsPath(down, q) && q[0] == p[|p| - 1] && q[|q| - 1] == p[0]
    decreases |p|
  {
    if |p| == 1 {
      q := p;
    } else {
      var init := p[..|p| - 1];
      assert IsPath(up, init);
      var r := InversePath(up, down, init);
      q := [p[|p| - 1]] + r;
    }
  }

  /** Who reaches a file upwards is reached by it downwards. */
  lemma InverseReaches(up: Graph, down: Graph, a: string, b: string)
    requires Inverse(up, down)
    ensures Reaches(up, a, b) <==> Reaches(down, b, a)
  {
    if Reaches(up, a, b) {
      var p :| IsPath(up, p) && p[0] == a && p[|p| - 1] == b;
      var q := InversePath(up, down, p);
    }
    if Reaches(down, b, a) {
      var p :| IsPath(down, p) && p[0] == b && p[|p| - 1] == a;
      var q := InversePath(down, up, p);
    }
  }

  // ----- the nodes

  datatype Mutant = Mutant(id: string, fileName: string, start: nat, end: nat, replacement: string)

  type Nodes = map<string, TSFileNode>

  /** All nodes refer to nodes of the same graph, under their own names. */
  ghost predicate Linked(nodes: Nodes)
    reads nodes.Values
  {
    forall f <- nodes ::
      && nodes[f].fileName == f
      && (forall n <- nodes[f].parents :: n.fileName in nodes && nodes[n.fileName] == n)
      && (forall n <- nodes[f].children :: n.fileName in nodes && nodes[n.fileName] == n)
  }

  ghost function Names(ns: seq<TSFileNode>): set<string> {
    set n <- ns :: n.fileName
  }

  ghost function Up(nodes: Nodes): Graph
    reads nodes.Values
  {
    map f <- nodes :: Names(nodes[f].parents)
  }

  ghost function Down(nodes: Nodes): Graph
    reads nodes.Values
  {
    map f <- nodes :: Names(nodes[f].children)
  }

  function OfFile(ms: seq<Mutant>, f: string): seq<Mutant> {
    if ms == [] then []
    else OfFile(ms[..|ms| - 1], f) + (if ms[|ms| - 1].fileName == f then [ms[|ms| - 1]] else [])
  }

  lemma {:induction false} OfFileCount(ms: seq<Mutant>, f: string, m: Mutant)
    ensures multiset(OfFile(ms, f))[m] == if m.fileName == f then multiset(ms)[m] else 0
    decreases |ms|
  {
    if ms != [] {
      OfFileCount(ms[..|ms| - 1], f, m);
      assert ms == ms[..|ms| - 1] + [ms[|ms| - 1]];
    }
  }

  /** `related` holds every mutant of the files that are in `after` and not in `before`, as often as it
      is given, and no other mutant. */
  ghost predicate MutantsOfNew(related: seq<Mutant>, mutants: seq<Mutant>, before: seq<string>, after: seq<string>) {
    forall m :: multiset(related)[m] == if m.fileName in after && m.fileName !in before then multiset(mutants)[m] else 0
  }

  lemma NoMutants(mutants: seq<Mutant>, checked: seq<string>)
    ensures MutantsOfNew([], mutants, checked, checked)
  {
  }

  lemma {:induction false} MutantsOfOne(mutants: seq<Mutant>, before: seq<string>, f: string)
    requires f !in before
    ensures MutantsOfNew(OfFile(mutants, f), mutants, before, before + [f])
  {
    forall m {
      OfFileCount(mutants, f, m);
    }
  }

  lemma MutantsOfMore(xs: seq<Mutant>, ys: seq<Mutant>, mutants: seq<Mutant>, a: seq<string>, b: seq<string>,
                      c: seq<string>)
    requires a <= b <= c && MutantsOfNew(xs, mutants, a, b) && MutantsOfNew(ys, mutants, b, c)
    ensures MutantsOfNew(xs + ys, mutants, a, c)
  {
    forall m: Mutant
      ensures multiset(xs + ys)[m] == if m.fileName in c && m.fileName !in a then multiset(mutants)[m] else 0
    {
      assert m.fileName in a ==> m.fileName in b;
      assert m.fileName in b ==> m.fileName in c;
    }
  }

  lemma Shrinks(all: set<string>, xs: seq<string>, ys: seq<string>, f: string)
    requires xs <= ys && f in ys && f !in xs && f in all
    ensures all - (set g <- ys) < all - (set g <- xs)
  {
    assert forall g <- xs :: g in ys;
    assert f in all - (set g <- xs) && f !in all - (set g <- ys);
  }

  class TSFileNode {
    const fileName: string
    var parents: seq<TSFileNode>
    var children: seq<TSFileNode>

    constructor (fileName: string)
      ensures this.fileName == fileName && parents == [] && children == []
    {
      this.fileName := fileName;
      parents, children := [], [];
    }

    ghost predicate In(nodes: Nodes)
      reads nodes.Values
    {
      Linked(nodes) && fileName in nodes && nodes[fileName] == this
    }

    /** `getAllParentReferencesIncludingSelf`, with the shared set passed in and out. */
    method CollectParents(visited: set<TSFileNode>, ghost nodes: Nodes) returns (all: set<TSFileNode>)
      requires In(nodes) && visited <= nodes.Values && this !in visited
      ensures visited + {this} <= all <= nodes.Values
      ensures forall n <- all - visited :: Reaches(Up(nodes), fileName, n.fileName)
      ensures forall n <- all - visited :: forall p <- n.parents :: p in all
      decreases nodes.Values - visited
    {
      all := visited + {this};
      ReachesSelf(Up(nodes), fileName);
      for i := 0 to |parents|
        invariant visited + {this} <= all <= nodes.Values
        invariant forall n <- all - visited :: Reaches(Up(nodes), fileName, n.fileName)
        invariant forall n <- all - visited - {this} :: forall p <- n.parents :: p in all
        invariant forall p <- parents[..i] :: p in all
      {
        assert parents[..i + 1] == parents[..i] + [parents[i]];
        if parents[i] !in all {
          ghost var before := all;
          all := parents[i].CollectParents(all, nodes);
          forall n | n in all - before
            ensures Reaches(Up(nodes), fileName, n.fileName)
          {
            ReachesVia(Up(nodes), fileName, parents[i].fileName, n.fileName);
          }
        }
      }
    }

    /** All files that import this one, directly or not, and the file itself. */
    method GetAllParentReferencesIncludingSelf(ghost nodes: Nodes) returns (all: set<TSFileNode>)
      requires In(nodes)
      ensures all <= nodes.Values
      ensures forall f <- nodes :: nodes[f] in all <==> Reaches(Up(nodes), fileName, f)
    {
      all := CollectParents({}, nodes);
      ghost var names := set n <- all :: n.fileName;
      forall f | f in nodes && Reaches(Up(nodes), fileName, f)
        ensures nodes[f] in all
      {
        var p :| IsPath(Up(nodes), p) && p[0] == fileName && p[|p| - 1] == f;
        ClosedHolds(Up(nodes), names, p);
      }
    }

    /** `getMutantsWithReferenceToChildrenOrSelf`, with the shared list passed in and out. */
    method CollectMutants(mutants: seq<Mutant>, nodesChecked: seq<string>, ghost nodes: Nodes)
      returns (related: seq<Mutant>, checked: seq<string>)
      requires In(nodes) && forall f <- nodesChecked :: f in nodes
      ensures nodesChecked <= checked && fileName in checked && forall f <- checked :: f in nodes
      ensures forall f <- checked :: f in nodesChecked || Reaches(Down(nodes), fileName, f)
      ensures forall f <- checked :: f in nodesChecked || forall c <- nodes[f].children :: c.fileName in checked
      ensures MutantsOfNew(related, mutants, nodesChecked, checked)
      decreases nodes.Keys - (set f <- nodesChecked)
    {
      hide Reaches, OfFile, MutantsOfNew, IsPath;
      if fileName in nodesChecked {
        assert MutantsOfNew([], mutants, nodesChecked, nodesChecked) by {
          NoMutants(mutants, nodesChecked);
        }
        return [], nodesChecked;
      }
      checked := nodesChecked + [fileName];
      related := OfFile(mutants, fileName);
      MutantsOfOne(mutants, nodesChecked, fileName);
      ReachesSelf(Down(nodes), fileName);
      for i := 0 to |children|
        invariant nodesChecked + [fileName] <= checked && fileName in checked && forall f <- checked :: f in nodes
        invariant forall f <- checked :: f in nodesChecked || Reaches(Down(nodes), fileName, f)
        invariant forall f <- checked :: f in nodesChecked || f == fileName || forall c <- nodes[f].children :: c.fileName in checked
        invariant forall c <- children[..i] :: c.fileName in checked
        invariant MutantsOfNew(related, mutants, nodesChecked, checked)
      {
        assert children[..i + 1] == children[..i] + [children[i]];
        ghost var before := checked;
        Shrinks(nodes.Keys, nodesChecked, checked, fileName);
        var more;
        more, checked := children[i].CollectMutants(mutants, checked, nodes);
        MutantsOfMore(related, more, mutants, nodesChecked, before, checked);
        related := related + more;
        forall f | f in checked && f !in before
          ensures Reaches(Down(nodes), fileName, f)
        {
          ReachesVia(Down(nodes), fileName, children[i].fileName, f);
        }
      }
    }

    /** The mutants in this file and in all files it imports, directly or not, each exactly as often as
        it is given. */
    method GetMutantsWithReferenceToChildrenOrSelf(mutants: seq<Mutant>,
                                                   ghost nodes: Nodes) returns (related: seq<Mutant>)
      requires In(nodes)
      ensures forall m :: multiset(related)[m] ==
                if m.fileName in nodes && Reaches(Down(nodes), fileName, m.fileName) then multiset(mutants)[m] else 0
    {
      var checked;
      related, checked := CollectMutants(mutants, [], nodes);
      forall f | f in nodes && Reaches(Down(nodes), fileName, f)
        ensures f in checked
      {
        var p :| IsPath(Down(nodes), p) && p[0] == fileName && p[|p| - 1] == f;
        ClosedHolds(Down(nodes), (set g <- checked), p);
      }
    }
  }
}
