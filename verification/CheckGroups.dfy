/** Building the graph from the imports of the source files, and grouping mutants that can be type
    checked at the same time. */
module CheckGroups {
  import opened Options
  import opened ImportGraph

  // ----- `TypescriptCompiler.nodes`

  ghost predicate NoDuplicates<T>(s: seq<T>) {
    forall i, j :: 0 <= i < j < |s| ==> s[i] != s[j]
  }

  /** One node per source file; its children are the imported source files, its parents the files that
      import it. */
  ghost predicate Represents(nodes: Nodes, sourceFiles: map<string, set<string>>)
    reads nodes.Values
  {
    && nodes.Keys == sourceFiles.Keys && Linked(nodes)
    && (forall f <- nodes :: Names(nodes[f].children) == sourceFiles[f] * sourceFiles.Keys)
    && (forall f, g :: f in nodes && g in nodes ==> (nodes[g] in nodes[f].parents <==> nodes[f] in nodes[g].children))
    && (forall f <- nodes :: NoDuplicates(nodes[f].parents))
  }

  /** Parents are the exact inverse of children. */
  lemma ParentsInvertChildren(nodes: Nodes, sourceFiles: map<string, set<string>>)
    requires Represents(nodes, sourceFiles)
    ensures Inverse(Up(nodes), Down(nodes))
  {
    forall f, g | f in nodes && g in nodes
      ensures g in Up(nodes)[f] <==> f in Down(nodes)[g]
    {
      assert g in Names(nodes[f].parents) <==> nodes[g] in nodes[f].parents;
      assert f in Names(nodes[g].children) <==> nodes[f] in nodes[g].children;
    }
  }

  method CreateNodes(sourceFiles: map<string, set<string>>) returns (nodes: Nodes)
    ensures nodes.Keys == sourceFiles.Keys && fresh(nodes.Values)
    ensures forall f <- nodes :: nodes[f].fileName == f
    ensures forall f <- nodes :: nodes[f].parents == [] && nodes[f].children == []
  {
    nodes := map[];
    var todo := sourceFiles.Keys;
    while todo != {}
      invariant todo <= sourceFiles.Keys && nodes.Keys == sourceFiles.Keys - todo
      invariant forall f <- nodes :: fresh(nodes[f]) && nodes[f].fileName == f && nodes[f].parents == [] && nodes[f].children == []
      decreases |todo|
    {
      var f :| f in todo;
      todo := todo - {f};
      var node := new TSFileNode(f);
      nodes := nodes[f := node];
    }
  }

  /** The known ones of the imported files. */
  method ResolveImports(nodes: Nodes, imports: set<string>) returns (children: seq<TSFileNode>)
    requires forall f <- nodes :: nodes[f].fileName == f
    ensures forall n <- children :: n.fileName in nodes && nodes[n.fileName] == n
    ensures Names(children) == imports * nodes.Keys
  {
    children := [];
    var todo := imports;
    while todo != {}
      invariant todo <= imports
      invariant forall n <- children :: n.fileName in nodes && nodes[n.fileName] == n
      invariant Names(children) == (imports - todo) * nodes.Keys
      decreases |todo|
    {
      var f :| f in todo;
      todo := todo - {f};
      if f in nodes {
        NamesSnoc(children, nodes[f]);
        children := children + [nodes[f]];
      }
    }
  }

  lemma NamesSnoc(ns: seq<TSFileNode>, n: TSFileNode)
    ensures Names(ns + [n]) == Names(ns) + {n.fileName}
  {
    assert forall x :: x in ns + [n] <==> x in ns || x == n;
    assert n in ns + [n];
  }

  /** The nodes that have the given node among their children. */
  method Importers(nodes: Nodes, node: TSFileNode) returns (parents: seq<TSFileNode>)
    requires forall f <- nodes :: nodes[f].fileName == f
    ensures forall n <- parents :: n.fileName in nodes && nodes[n.fileName] == n
    ensures forall f <- nodes :: nodes[f] in parents <==> node in nodes[f].children
    ensures NoDuplicates(parents)
  {
    parents := [];
    var todo := nodes.Keys;
    while todo != {}
      invariant todo <= nodes.Keys
      invariant forall n <- parents :: n.fileName in nodes.Keys - todo && nodes[n.fileName] == n
      invariant forall f <- nodes.Keys - todo :: nodes[f] in parents <==> node in nodes[f].children
      invariant NoDuplicates(parents)
      decreases |todo|
    {
      var f :| f in todo;
      todo := todo - {f};
      if node in nodes[f].children {
        parents := parents + [nodes[f]];
      }
    }
  }

  method BuildNodes(sourceFiles: map<string, set<string>>) returns (nodes: Nodes)
    ensures fresh(nodes.Values) && Represents(nodes, sourceFiles)
  {
    nodes := CreateNodes(sourceFiles);
    SetChildren(nodes, sourceFiles);
    SetParents(nodes);
  }

  method SetChildren(nodes: Nodes, sourceFiles: map<string, set<string>>)
    requires nodes.Keys == sourceFiles.Keys && forall f <- nodes :: nodes[f].fileName == f && nodes[f].parents == []
    modifies nodes.Values
    ensures forall f <- nodes :: nodes[f].parents == []
    ensures forall f <- nodes :: forall n <- nodes[f].children :: n.fileName in nodes && nodes[n.fileName] == n
    ensures forall f <- nodes :: Names(nodes[f].children) == sourceFiles[f] * sourceFiles.Keys
  {
    var todo := nodes.Keys;
    while todo != {}
      invariant todo <= nodes.Keys
      invariant forall f <- nodes :: nodes[f].parents == []
      invariant forall f <- nodes.Keys - todo ::
                  && (forall n <- nodes[f].children :: n.fileName in nodes && nodes[n.fileName] == n)
                  && Names(nodes[f].children) == sourceFiles[f] * sourceFiles.Keys
      decreases |todo|
    {
      var f :| f in todo;
      todo := todo - {f};
      var children := ResolveImports(nodes, sourceFiles[f]);
      nodes[f].children := children;
    }
  }

  method SetParents(nodes: Nodes)
    requires forall f <- nodes :: nodes[f].fileName == f
    modifies nodes.Values
    ensures forall f <- nodes :: nodes[f].children == old(nodes[f].children)
    ensures forall f <- nodes :: forall n <- nodes[f].parents :: n.fileName in nodes && nodes[n.fileName] == n
    ensures forall f, g :: f in nodes && g in nodes ==> (nodes[g] in nodes[f].parents <==> nodes[f] in nodes[g].children)
    ensures forall f <- nodes :: NoDuplicates(nodes[f].parents)
  {
    var todo := nodes.Keys;
    while todo != {}
      invariant todo <= nodes.Keys
      invariant forall f <- nodes :: nodes[f].children == old(nodes[f].children)
      invariant forall f <- nodes.Keys - todo ::
                  && (forall n <- nodes[f].parents :: n.fileName in nodes && nodes[n.fileName] == n)
                  && (forall g <- nodes :: nodes[g] in nodes[f].parents <==> nodes[f] in nodes[g].children)
                  && NoDuplicates(nodes[f].parents)
      decreases |todo|
    {
      var f :| f in todo;
      todo := todo - {f};
      var parents := Importers(nodes, nodes[f]);
      nodes[f].parents := parents;
    }
  }

  // ----- `createGroups`

  /** No file of the group is imported, directly or not, by another one, and no two are the same. */
  ghost predicate Independent(down: Graph, group: seq<Mutant>) {
    forall i, j :: 0 <= i < |group| && 0 <= j < |group| && i != j ==>
      !Reaches(down, group[i].fileName, group[j].fileName)
  }

  function Flatten(groups: seq<seq<Mutant>>): seq<Mutant> {
    if groups == [] then [] else Flatten(groups[..|groups| - 1]) + groups[|groups| - 1]
  }

  ghost predicate Known(ms: seq<Mutant>, nodes: Nodes) {
    forall m <- ms :: m.fileName in nodes
  }

  /** `parentsHaveOverlapWith` */
  method ParentsHaveOverlapWith(node: TSFileNode, groupNodes: set<TSFileNode>,
                                ghost nodes: Nodes) returns (overlap: bool)
    requires node.In(nodes) && groupNodes <= nodes.Values
    ensures overlap <==> exists n <- groupNodes :: Reaches(Up(nodes), node.fileName, n.fileName)
  {
    var todo := node.GetAllParentReferencesIncludingSelf(nodes);
    ghost var all := todo;
    overlap := false;
    while todo != {}
      invariant todo <= all
      invariant forall n <- all - todo :: n !in groupNodes
      decreases |todo|
    {
      var parent :| parent in todo;
      if parent in groupNodes {
        assert Reaches(Up(nodes), node.fileName, parent.fileName);
        return true;
      }
      todo := todo - {parent};
    }
  }

  /** What is kept of the mutants in a group: their nodes, and all nodes that import them. */
  ghost predicate Tracks(nodes: Nodes, group: seq<Mutant>, groupNodes: set<TSFileNode>, ignored: set<TSFileNode>)
    requires Known(group, nodes)
    reads nodes.Values
  {
    && groupNodes == (set m <- group :: nodes[m.fileName])
    && ignored <= nodes.Values
    && forall f <- nodes :: nodes[f] in ignored <==> exists m <- group :: Reaches(Up(nodes), m.fileName, f)
  }

  lemma TracksMore(nodes: Nodes, group: seq<Mutant>, groupNodes: set<TSFileNode>, ignored: set<TSFileNode>, m: Mutant,
                   parents: set<TSFileNode>)
    requires Linked(nodes) && Known(group + [m], nodes) && Known(group, nodes) && m.fileName in nodes
    requires Tracks(nodes, group, groupNodes, ignored) && parents <= nodes.Values
    requires forall f <- nodes :: nodes[f] in parents <==> Reaches(Up(nodes), m.fileName, f)
    ensures Tracks(nodes, group + [m], groupNodes + {nodes[m.fileName]}, ignored + parents)
  {
    hide Reaches;
    assert forall x :: x in group + [m] <==> x in group || x == m;
    assert (set x <- group + [m] :: nodes[x.fileName]) == groupNodes + {nodes[m.fileName]};
    assert forall f <- nodes :: (exists x <- group + [m] :: Reaches(Up(nodes), x.fileName, f)) <==>
                                (exists x <- group :: Reaches(Up(nodes), x.fileName, f)) || Reaches(Up(nodes), m.fileName, f);
  }

  /** What the two tests of the loop mean. */
  lemma Joins(nodes: Nodes, group: seq<Mutant>, groupNodes: set<TSFileNode>, ignored: set<TSFileNode>, m: Mutant)
    requires Linked(nodes) && Inverse(Up(nodes), Down(nodes)) && Known(group, nodes) && m.fileName in nodes
    requires Tracks(nodes, group, groupNodes, ignored) && Independent(Down(nodes), group)
    requires nodes[m.fileName] !in ignored
    requires forall n <- groupNodes :: !Reaches(Up(nodes), m.fileName, n.fileName)
    ensures Independent(Down(nodes), group + [m])
  {
    hide Reaches;
    forall g | g in group
      ensures !Reaches(Up(nodes), m.fileName, g.fileName)
    {
      assert nodes[g.fileName] in groupNodes;
    }
    StillIndependent(nodes, group, m);
  }

  /** The file of the mutant imports, directly or not, a file of the group, or is imported by one. */
  ghost predicate Conflicts(down: Graph, group: seq<Mutant>, m: Mutant) {
    exists g <- group :: Reaches(down, g.fileName, m.fileName) || Reaches(down, m.fileName, g.fileName)
  }

  ghost predicate AllConflict(down: Graph, group: seq<Mutant>, ms: seq<Mutant>) {
    forall m <- ms :: Conflicts(down, group, m)
  }

  /** Why a mutant does not join the group. */
  lemma LeftOver(nodes: Nodes, group: seq<Mutant>, groupNodes: set<TSFileNode>, ignored: set<TSFileNode>, m: Mutant)
    requires Linked(nodes) && Inverse(Up(nodes), Down(nodes)) && Known(group, nodes) && m.fileName in nodes
    requires Tracks(nodes, group, groupNodes, ignored)
    requires nodes[m.fileName] in ignored || exists n <- groupNodes :: Reaches(Up(nodes), m.fileName, n.fileName)
    ensures Conflicts(Down(nodes), group, m)
  {
    hide Reaches, Inverse;
    if nodes[m.fileName] in ignored {
      var g :| g in group && Reaches(Up(nodes), g.fileName, m.fileName);
      InverseReaches(Up(nodes), Down(nodes), g.fileName, m.fileName);
    } else {
      var n :| n in groupNodes && Reaches(Up(nodes), m.fileName, n.fileName);
      var g :| g in group && nodes[g.fileName] == n;
      InverseReaches(Up(nodes), Down(nodes), m.fileName, g.fileName);
    }
  }

  lemma StillConflict(down: Graph, group: seq<Mutant>, ms: seq<Mutant>, m: Mutant)
    requires AllConflict(down, group, ms)
    ensures AllConflict(down, group + [m], ms)
    ensures Conflicts(down, group, m) ==> AllConflict(down, group, ms + [m])
  {
    hide Reaches;
    forall x | x in ms
      ensures Conflicts(down, group + [m], x)
    {
      assert Conflicts(down, group, x);
      var g :| g in group && (Reaches(down, g.fileName, x.fileName) || Reaches(down, x.fileName, g.fileName));
      assert g in group + [m];
    }
  }

  /** One group: walk over the mutants in order, and take every one whose file neither imports nor is
      imported by a file of the group; for every mutant that is left, its file does.  The first mutant is
      always taken.  None when the file of a mutant
      is not in the graph. */
  method CreateGroup(mutants: seq<Mutant>, nodes: Nodes) returns (group: Option<seq<Mutant>>, rest: seq<Mutant>)
    requires Linked(nodes) && Inverse(Up(nodes), Down(nodes)) && |mutants| > 0
    ensures group.Some? <==> Known(mutants, nodes)
    ensures group.Some? ==> |group.value| > 0 && |rest| < |mutants| && Known(group.value, nodes) && Known(rest, nodes)
    ensures group.Some? ==> multiset(group.value) + multiset(rest) == multiset(mutants)
    ensures group.Some? ==> Independent(Down(nodes), group.value) && AllConflict(Down(nodes), group.value, rest)
    ensures group.Some? ==> group.value[0] == mutants[0]
  {
    hide Reaches, Independent, Tracks, Inverse, IsPath, AllConflict, Conflicts;
    var members: seq<Mutant> := [];
    rest := [];
    var groupNodes: set<TSFileNode> := {};
    var nodesToIgnore: set<TSFileNode> := {};
    NothingYet(nodes);
    for i := 0 to |mutants|
      invariant |members| + |rest| == i && (i > 0 ==> |members| > 0 && members[0] == mutants[0]) && Known(members, nodes) && Known(rest, nodes)
      invariant Known(mutants[..i], nodes)
      invariant multiset(members) + multiset(rest) == multiset(mutants[..i])
      invariant Tracks(nodes, members, groupNodes, nodesToIgnore) && Independent(Down(nodes), members)
      invariant AllConflict(Down(nodes), members, rest)
      invariant groupNodes <= nodes.Values && (members == [] ==> groupNodes == {} && nodesToIgnore == {})
    {
      var mutant := mutants[i];
      assert mutants[..i + 1] == mutants[..i] + [mutant];
      if mutant.fileName !in nodes {
        return None, rest;
      }
      var node := nodes[mutant.fileName];
      var overlap := ParentsHaveOverlapWith(node, groupNodes, nodes);
      if node !in nodesToIgnore && !overlap {
        var parents := Join(members, groupNodes, nodesToIgnore, mutant, nodes);
        StillConflict(Down(nodes), members, rest, mutant);
        members := members + [mutant];
        groupNodes := groupNodes + {node};
        nodesToIgnore := nodesToIgnore + parents;
      } else {
        LeftOver(nodes, members, groupNodes, nodesToIgnore, mutant);
        StillConflict(Down(nodes), members, rest, mutant);
        rest := rest + [mutant];
      }
    }
    assert mutants[..|mutants|] == mutants;
    group := Some(members);
  }

  /** The mutant joins the group; the result are the nodes that import its file. */
  method Join(ghost group: seq<Mutant>, ghost groupNodes: set<TSFileNode>, ghost ignored: set<TSFileNode>,
              mutant: Mutant, nodes: Nodes)
    returns (parents: set<TSFileNode>)
    requires Linked(nodes) && Inverse(Up(nodes), Down(nodes)) && Known(group, nodes) && mutant.fileName in nodes
    requires Tracks(nodes, group, groupNodes, ignored) && Independent(Down(nodes), group)
    requires nodes[mutant.fileName] !in ignored
    requires forall n <- groupNodes :: !Reaches(Up(nodes), mutant.fileName, n.fileName)
    ensures parents <= nodes.Values && Known(group + [mutant], nodes)
    ensures Tracks(nodes, group + [mutant], groupNodes + {nodes[mutant.fileName]}, ignored + parents)
    ensures Independent(Down(nodes), group + [mutant])
  {
    hide Reaches, Independent, Tracks, Inverse, IsPath;
    Joins(nodes, group, groupNodes, ignored, mutant);
    parents := nodes[mutant.fileName].GetAllParentReferencesIncludingSelf(nodes);
    TracksMore(nodes, group, groupNodes, ignored, mutant, parents);
  }

  lemma NothingYet(nodes: Nodes)
    ensures Tracks(nodes, [], {}, {}) && Independent(Down(nodes), []) && AllConflict(Down(nodes), [], [])
  {
  }

  lemma StillIndependent(nodes: Nodes, group: seq<Mutant>, m: Mutant)
    requires Linked(nodes) && Inverse(Up(nodes), Down(nodes)) && Known(group, nodes) && m.fileName in nodes
    requires Independent(Down(nodes), group)
    requires forall g <- group :: !Reaches(Up(nodes), g.fileName, m.fileName)
    requires forall g <- group :: !Reaches(Up(nodes), m.fileName, nodes[g.fileName].fileName)
    ensures Independent(Down(nodes), group + [m])
  {
    forall g | g in group
      ensures !Reaches(Down(nodes), m.fileName, g.fileName) && !Reaches(Down(nodes), g.fileName, m.fileName)
    {
      InverseReaches(Up(nodes), Down(nodes), g.fileName, m.fileName);
      InverseReaches(Up(nodes), Down(nodes), m.fileName, g.fileName);
    }
  }

  /** A group only starts when no earlier group can take its mutants. */
  ghost predicate Filled(down: Graph, groups: seq<seq<Mutant>>) {
    forall i, j :: 0 <= i < j < |groups| ==> AllConflict(down, groups[i], groups[j])
  }

  /** The mutants of the next group, and those that are left, come from the same list. */
  lemma FilledMore(down: Graph, groups: seq<seq<Mutant>>, ms: seq<Mutant>, group: seq<Mutant>, rest: seq<Mutant>)
    requires Filled(down, groups) && multiset(group) + multiset(rest) == multiset(ms)
    requires (forall g <- groups :: AllConflict(down, g, ms)) && AllConflict(down, group, rest)
    ensures Filled(down, groups + [group]) && forall g <- groups + [group] :: AllConflict(down, g, rest)
  {
    hide Conflicts;
    forall m | m in group || m in rest
      ensures m in ms
    {
      assert m in multiset(group) + multiset(rest);
    }
    assert forall g <- groups :: AllConflict(down, g, group) && AllConflict(down, g, rest);
  }

  /** The groups hold every mutant exactly as often as it is given, are independent, and every mutant is in
      the first group that can take it.  None when the file of a mutant is not in the graph. */
  method CreateGroups(mutants: seq<Mutant>, nodes: Nodes) returns (result: Option<seq<seq<Mutant>>>)
    requires Linked(nodes) && Inverse(Up(nodes), Down(nodes))
    ensures result.Some? <==> Known(mutants, nodes)
    ensures result.Some? ==> multiset(Flatten(result.value)) == multiset(mutants)
    ensures result.Some? ==> forall g <- result.value :: g != [] && Known(g, nodes) && Independent(Down(nodes), g)
    ensures result.Some? ==> Filled(Down(nodes), result.value)
  {
    hide Reaches, Independent, Inverse, Flatten, AllConflict, Conflicts, Filled;
    var groups: seq<seq<Mutant>> := [];
    FlattenNone();
    var mutantsToGroup := mutants;
    while |mutantsToGroup| > 0
      invariant groups != [] ==> Known(mutants, nodes)
      invariant Known(mutantsToGroup, nodes) <==> Known(mutants, nodes)
      invariant groups == [] ==> mutantsToGroup == mutants
      invariant multiset(Flatten(groups)) + multiset(mutantsToGroup) == multiset(mutants)
      invariant forall g <- groups :: g != [] && Known(g, nodes) && Independent(Down(nodes), g)
      invariant Filled(Down(nodes), groups) && forall g <- groups :: AllConflict(Down(nodes), g, mutantsToGroup)
      decreases |mutantsToGroup|
    {
      ghost var before := mutantsToGroup;
      var group;
      group, mutantsToGroup := CreateGroup(mutantsToGroup, nodes);
      if group.None? {
        return None;
      }
      FlattenSnoc(groups, group.value);
      FilledMore(Down(nodes), groups, before, group.value, mutantsToGroup);
      groups := groups + [group.value];
    }
    result := Some(groups);
  }

  lemma FlattenNone()
    ensures Flatten([]) == [] && forall down :: Filled(down, [])
  {
  }

  lemma {:induction false} FlattenSnoc(groups: seq<seq<Mutant>>, g: seq<Mutant>)
    ensures Flatten(groups + [g]) == Flatten(groups) + g
  {
    assert (groups + [g])[..|groups|] == groups;
  }

  /** All files of a group are different. */
  lemma GroupHasDistinctFiles(nodes: Nodes, group: seq<Mutant>)
    requires Linked(nodes) && Known(group, nodes) && Independent(Down(nodes), group)
    ensures forall i, j :: 0 <= i < j < |group| ==> group[i].fileName != group[j].fileName
  {
    forall i | 0 <= i < |group|
      ensures Reaches(Down(nodes), group[i].fileName, group[i].fileName)
    {
      ReachesSelf(Down(nodes), group[i].fileName);
    }
  }
}
