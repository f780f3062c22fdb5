/** Checking a group of mutants with one compilation, and blaming the errors on single mutants. */
module TypeChecker {
  import opened Options
  import opened ImportGraph
  import opened CheckGroups

  datatype Diagnostic = Diagnostic(fileName: Option<string>, messageText: string)

  // ----- the contents of the files while mutants are active

  /** `content.substr(0, n)` and `content.substr(n)` */
  function Before(content: string, n: nat): string {
    if n <= |content| then content[..n] else content
  }

  function After(content: string, n: nat): string {
    if n <= |content| then content[n..] else ""
  }

  function MutatedContent(original: string, m: Mutant): string {
    Before(original, m.start) + m.replacement + After(original, m.end)
  }

  /** The code that the mutant covers is replaced, and the text around it stays. */
  lemma MutationSplices(before: string, covered: string, after: string, m: Mutant)
    requires m.start == |before| && m.end == |before + covered|
    ensures MutatedContent(before + covered + after, m) == before + m.replacement + after
  {
    var original := before + covered + after;
    assert original[..m.start] == before && original[m.end..] == after;
  }

  /** The content of a file in which the mutants are placed one after the other: every one replaces the
      effect of the one before it. */
  function ContentWith(original: string, f: string, ms: seq<Mutant>): string {
    if ms == [] then original
    else if ms[|ms| - 1].fileName == f then MutatedContent(original, ms[|ms| - 1])
    else ContentWith(original, f, ms[..|ms| - 1])
  }

  lemma {:induction false} ContentWithout(original: string, f: string, ms: seq<Mutant>)
    requires forall m <- ms :: m.fileName != f
    ensures ContentWith(original, f, ms) == original
    decreases |ms|
  {
    if ms != [] {
      ContentWithout(original, f, ms[..|ms| - 1]);
    }
  }

  ghost predicate DistinctFiles(ms: seq<Mutant>) {
    forall i, j :: 0 <= i < j < |ms| ==> ms[i].fileName != ms[j].fileName
  }

  ghost predicate DistinctIds(ms: seq<Mutant>) {
    forall i, j :: 0 <= i < j < |ms| ==> ms[i].id != ms[j].id
  }

  lemma {:induction false} ContentOfOnly(original: string, ms: seq<Mutant>, m: Mutant)
    requires DistinctFiles(ms) && m in ms
    ensures ContentWith(original, m.fileName, ms) == MutatedContent(original, m)
    decreases |ms|
  {
    if ms[|ms| - 1] != m {
      ContentOfOnly(original, ms[..|ms| - 1], m);
    }
  }

  /** The source files, and the compiler as a function of their contents. */
  datatype Project = Project(originals: map<string, string>, diagnose: map<string, string> -> seq<Diagnostic>)

  function Contents(p: Project, ms: seq<Mutant>): map<string, string> {
    map f <- p.originals :: ContentWith(p.originals[f], f, ms)
  }

  function Errors(p: Project, ms: seq<Mutant>): seq<Diagnostic> {
    p.diagnose(Contents(p, ms))
  }

  class ScriptFile {
    const originalContent: string
    var content: string

    constructor (content: string)
      ensures originalContent == content && this.content == content
    {
      originalContent := content;
      this.content := content;
    }

    method Mutate(m: Mutant)
      modifies this
      ensures content == MutatedContent(originalContent, m)
      ensures m.start <= |originalContent| && m.end <= |originalContent| ==>
                content == originalContent[..m.start] + m.replacement + originalContent[m.end..]
    {
      content := Before(originalContent, m.start) + m.replacement + After(originalContent, m.end);
    }

    method ResetMutant()
      modifies this
      ensures content == originalContent
    {
      content := originalContent;
    }
  }

  class TypescriptCompiler {
    const files: map<string, ScriptFile>
    const diagnose: map<string, string> -> seq<Diagnostic>
    var lastMutants: seq<Mutant>

    constructor (files: map<string, ScriptFile>, diagnose: map<string, string> -> seq<Diagnostic>)
      requires forall f, g :: f in files && g in files && files[f] == files[g] ==> f == g
      requires forall f <- files :: files[f].content == files[f].originalContent
      ensures this.files == files && this.diagnose == diagnose && lastMutants == [] && Valid()
    {
      this.files := files;
      this.diagnose := diagnose;
      lastMutants := [];
    }

    ghost function AsProject(): Project {
      Project(map f <- files :: files[f].originalContent, diagnose)
    }

    ghost predicate AllFiles(ms: seq<Mutant>) {
      forall m <- ms :: m.fileName in files
    }

    /** The files hold the mutants of the last check, and nothing else. */
    ghost predicate Valid()
      reads this, files.Values
    {
      && (forall f, g :: f in files && g in files && files[f] == files[g] ==> f == g)
      && AllFiles(lastMutants)
      && Holds(lastMutants)
    }

    ghost predicate Holds(ms: seq<Mutant>)
      reads files.Values
    {
      forall f <- files :: files[f].content == ContentWith(files[f].originalContent, f, ms)
    }

    /** The diagnostics of the project with exactly these mutants, whichever were checked before; None
        when the file of a mutant is not watched. */
    method Check(mutants: seq<Mutant>) returns (errors: Option<seq<Diagnostic>>)
      requires Valid()
      modifies this, files.Values
      ensures errors.Some? <==> AllFiles(mutants)
      ensures errors.Some? ==> Valid() && lastMutants == mutants && errors.value == Errors(AsProject(), mutants)
    {
      ResetMutants();
      var watched := MutateAll(mutants);
      if !watched {
        return None;
      }
      lastMutants := mutants;
      ghost var p := AsProject();
      assert (map f <- files :: files[f].content) == Contents(p, mutants);
      errors := Some(diagnose(map f <- files :: files[f].content));
    }

    method MutateAll(mutants: seq<Mutant>) returns (watched: bool)
      requires Holds([]) && forall f, g :: f in files && g in files && files[f] == files[g] ==> f == g
      modifies files.Values
      ensures watched <==> AllFiles(mutants)
      ensures watched ==> Holds(mutants)
    {
      for i := 0 to |mutants|
        invariant AllFiles(mutants[..i]) && Holds(mutants[..i])
      {
        var mutant := mutants[i];
        assert mutants[..i + 1] == mutants[..i] + [mutant];
        if mutant.fileName !in files {
          return false;
        }
        files[mutant.fileName].Mutate(mutant);
      }
      assert mutants[..|mutants|] == mutants;
      watched := true;
    }

    method ResetMutants()
      requires Valid()
      modifies files.Values
      ensures Holds([])
    {
      for i := 0 to |lastMutants|
        invariant forall f <- files ::
                    || files[f].content == files[f].originalContent
                    || files[f].content == ContentWith(files[f].originalContent, f, lastMutants)
        invariant forall m <- lastMutants[..i] :: files[m.fileName].content == files[m.fileName].originalContent
      {
        assert lastMutants[..i + 1] == lastMutants[..i] + [lastMutants[i]];
        files[lastMutants[i].fileName].ResetMutant();
      }
      assert lastMutants[..|lastMutants|] == lastMutants;
      forall f | f in files && forall m <- lastMutants :: m.fileName != f
        ensures files[f].content == files[f].originalContent
      {
        ContentWithout(files[f].originalContent, f, lastMutants);
      }
    }
  }

  // ----- blaming errors on mutants

  /** The file with the error imports the file of the mutant, directly or not, or is that file. */
  ghost predicate Related(down: Graph, e: Diagnostic, m: Mutant) {
    e.fileName.Some? && m.fileName in down && Reaches(down, e.fileName.value, m.fileName)
  }

  /** The mutant is the only one related to the error. */
  ghost predicate Singled(down: Graph, ms: seq<Mutant>, e: Diagnostic, m: Mutant) {
    m in ms && Related(down, e, m) && forall other <- ms :: Related(down, e, other) ==> other == m
  }

  /** The error cannot be blamed on one mutant, and this mutant is one of those that may have caused it. */
  ghost predicate Suspect(down: Graph, ms: seq<Mutant>, e: Diagnostic, m: Mutant) {
    && m in ms
    && !(exists other <- ms :: Singled(down, ms, e, other))
    && (Related(down, e, m) || forall other <- ms :: !Related(down, e, other))
  }

  ghost function Blamed(down: Graph, ms: seq<Mutant>, errors: seq<Diagnostic>, m: Mutant): seq<Diagnostic> {
    if errors == [] then []
    else
      var e := errors[|errors| - 1];
      Blamed(down, ms, errors[..|errors| - 1], m) + (if Singled(down, ms, e, m) then [e] else [])
  }

  lemma {:induction false} BlamedSome(down: Graph, ms: seq<Mutant>, errors: seq<Diagnostic>, m: Mutant)
    ensures Blamed(down, ms, errors, m) != [] <==> exists e <- errors :: Singled(down, ms, e, m)
    decreases |errors|
  {
    if errors != [] {
      BlamedSome(down, ms, errors[..|errors| - 1], m);
      assert errors == errors[..|errors| - 1] + [errors[|errors| - 1]];
    }
  }

  ghost predicate Suspected(down: Graph, ms: seq<Mutant>, errors: seq<Diagnostic>, m: Mutant) {
    exists e <- errors :: Suspect(down, ms, e, m)
  }

  /** Why a mutant is reported as a compile error when it is checked in a group; empty when it passes. */
  ghost function Reasons(p: Project, down: Graph, ms: seq<Mutant>, m: Mutant): seq<Diagnostic> {
    if |ms| == 1 then Errors(p, ms)
    else if Blamed(down, ms, Errors(p, ms), m) != [] then Blamed(down, ms, Errors(p, ms), m)
    else if Suspected(down, ms, Errors(p, ms), m) then Errors(p, [m])
    else []
  }

  /** Every error is reported in a file of the project. */
  ghost predicate InProject(down: Graph, errors: seq<Diagnostic>) {
    forall e <- errors :: e.fileName.Some? && e.fileName.value in down
  }

  // ----- what is assumed of the compiler

  ghost predicate HasErrorIn(errors: seq<Diagnostic>, f: Option<string>) {
    exists e <- errors :: e.fileName == f
  }

  /** Both have the same content for every file that the given one imports, directly or not. */
  ghost predicate Agree(down: Graph, f: string, a: map<string, string>, b: map<string, string>) {
    && a.Keys == b.Keys
    && forall g <- a :: g in down && Reaches(down, f, g) ==> a[g] == b[g]
  }

  /** Whether there are errors in a file depends only on the files it imports, directly or not. */
  ghost predicate Local(p: Project, down: Graph) {
    forall f, a, b :: f in down && Agree(down, f, a, b) ==>
      (HasErrorIn(p.diagnose(a), Some(f)) <==> HasErrorIn(p.diagnose(b), Some(f)))
  }

  /** Without mutants there are no errors: the dry run of `init` has passed. */
  ghost predicate Clean(p: Project) {
    p.diagnose(p.originals) == []
  }

  /** Where a mutant has an error on its own, the group has one too. */
  ghost predicate Unmasked(p: Project, ms: seq<Mutant>) {
    forall m <- ms :: forall e <- Errors(p, [m]) :: HasErrorIn(Errors(p, ms), e.fileName)
  }

  // ----- group checking equals individual checking

  lemma OnlyOneMatters(p: Project, down: Graph, ms: seq<Mutant>, m: Mutant, f: string)
    requires DistinctFiles(ms) && m in ms && forall x <- ms :: x.fileName in down
    requires forall x <- ms :: Reaches(down, f, x.fileName) ==> x == m
    ensures Agree(down, f, Contents(p, ms), Contents(p, [m]))
  {
    hide Reaches;
    forall g | g in p.originals && g in down && Reaches(down, f, g)
      ensures ContentWith(p.originals[g], g, ms) == ContentWith(p.originals[g], g, [m])
    {
      if g == m.fileName {
        ContentOfOnly(p.originals[g], ms, m);
        ContentOfOnly(p.originals[g], [m], m);
      } else {
        ContentWithout(p.originals[g], g, ms);
        ContentWithout(p.originals[g], g, [m]);
      }
    }
  }

  /** Alone, a mutant has errors only in files that depend on its own. */
  lemma ErrorsAreRelated(p: Project, down: Graph, m: Mutant, e: Diagnostic)
    requires Clean(p) && Local(p, down) && m.fileName in down
    requires e in Errors(p, [m]) && e.fileName.Some? && e.fileName.value in down
    ensures Related(down, e, m)
  {
    hide Reaches;
    var f := e.fileName.value;
    assert HasErrorIn(p.diagnose(Contents(p, [m])), Some(f));
    if !Reaches(down, f, m.fileName) {
      Unaffected(p, down, m, f);
    }
  }

  lemma Unaffected(p: Project, down: Graph, m: Mutant, f: string)
    requires !Reaches(down, f, m.fileName)
    ensures Agree(down, f, Contents(p, [m]), p.originals)
  {
    hide Reaches;
    forall g | g in p.originals && g in down && Reaches(down, f, g)
      ensures ContentWith(p.originals[g], g, [m]) == p.originals[g]
    {
      ContentWithout(p.originals[g], g, [m]);
    }
  }

  /** Checked in a group, a mutant is a compile error exactly when it is one on its own. */
  lemma GroupCheckIsExact(p: Project, down: Graph, ms: seq<Mutant>, m: Mutant)
    requires Clean(p) && Local(p, down) && Unmasked(p, ms)
    requires DistinctFiles(ms) && m in ms && forall x <- ms :: x.fileName in down
    requires |ms| == 1 || InProject(down, Errors(p, ms))
    ensures Reasons(p, down, ms, m) != [] <==> Errors(p, [m]) != []
  {
    hide Reaches, Local, Contents, Blamed;
    var errors := Errors(p, ms);
    if |ms| == 1 {
      assert ms == [m];
    } else {
      BlamedSome(down, ms, errors, m);
      if e :| e in errors && Singled(down, ms, e, m) {
        BlameIsRight(p, down, ms, m, e);
      } else if Errors(p, [m]) != [] {
        var alone := Errors(p, [m])[0];
        var e :| e in errors && e.fileName == alone.fileName;
        ErrorsAreRelated(p, down, m, alone);
        assert Related(down, e, m);
        assert Suspect(down, ms, e, m);
      }
    }
  }

  /** The only mutant related to an error of the group has an error on its own. */
  lemma BlameIsRight(p: Project, down: Graph, ms: seq<Mutant>, m: Mutant, e: Diagnostic)
    requires Local(p, down) && DistinctFiles(ms) && forall x <- ms :: x.fileName in down
    requires e in Errors(p, ms) && e.fileName.Some? && e.fileName.value in down && Singled(down, ms, e, m)
    ensures Errors(p, [m]) != []
  {
    hide Reaches, Contents;
    OnlyOneMatters(p, down, ms, m, e.fileName.value);
    assert HasErrorIn(p.diagnose(Contents(p, ms)), e.fileName);
    assert HasErrorIn(p.diagnose(Contents(p, [m])), e.fileName);
  }

  // ----- `TypescriptChecker`

  type ErrorsMap = map<string, seq<Diagnostic>>

  datatype CheckResult = Passed | CompileError(reason: seq<Diagnostic>)

  /** The related mutants that the walk over the graph returns, as a list. */
  lemma RelatedList(down: Graph, ms: seq<Mutant>, e: Diagnostic, related: seq<Mutant>)
    requires DistinctIds(ms)
    requires forall m :: multiset(related)[m] == if Related(down, e, m) then multiset(ms)[m] else 0
    ensures forall m :: m in related <==> m in ms && Related(down, e, m)
    ensures |related| == 1 ==> forall m :: Singled(down, ms, e, m) <==> m == related[0]
    ensures |related| != 1 ==> forall m :: !Singled(down, ms, e, m)
  {
    hide Reaches, Related;
    forall m: Mutant
      ensures multiset(related)[m] <= 1 && (m in related <==> m in ms && Related(down, e, m))
    {
      assert m in multiset(related) <==> m in related;
      assert m in multiset(ms) <==> m in ms;
      AtMostOnce(ms, m);
    }
    if |related| > 1 {
      assert related[0] != related[1] by {
        assert related == [related[0], related[1]] + related[2..];
        assert multiset(related)[related[0]] <= 1;
      }
      assert related[0] in related && related[1] in related;
    }
  }

  lemma {:induction false} AtMostOnce(ms: seq<Mutant>, m: Mutant)
    requires DistinctIds(ms)
    ensures multiset(ms)[m] <= 1
    decreases |ms|
  {
    if ms != [] {
      var init := ms[..|ms| - 1];
      AtMostOnce(init, m);
      assert ms == init + [ms[|ms| - 1]];
      assert m in init <==> m in multiset(init);
    }
  }

  class TypescriptChecker {
    const tsCompiler: TypescriptCompiler
    const nodes: Nodes
    const prioritizePerformanceOverAccuracy: bool

    /** The graph is the one that is built from the imports of the source files. */
    constructor (tsCompiler: TypescriptCompiler, sourceFiles: map<string, set<string>>,
                 prioritizePerformanceOverAccuracy: bool)
      requires tsCompiler.Valid()
      ensures this.tsCompiler == tsCompiler
      ensures this.prioritizePerformanceOverAccuracy == prioritizePerformanceOverAccuracy
      ensures fresh(nodes.Values) && Represents(nodes, sourceFiles) && Valid()
    {
      var built := BuildNodes(sourceFiles);
      ParentsInvertChildren(built, sourceFiles);
      this.tsCompiler := tsCompiler;
      this.nodes := built;
      this.prioritizePerformanceOverAccuracy := prioritizePerformanceOverAccuracy;
    }

    ghost predicate Valid()
      reads this, tsCompiler, tsCompiler.files.Values, nodes.Values
    {
      && tsCompiler.Valid()
      && Linked(nodes) && Inverse(Up(nodes), Down(nodes))
    }

    method RelatedMutants(error: Diagnostic, mutants: seq<Mutant>) returns (related: seq<Mutant>)
      requires Linked(nodes) && error.fileName.Some? && error.fileName.value in nodes
      ensures forall m :: multiset(related)[m] == if Related(Down(nodes), error, m) then multiset(mutants)[m] else 0
    {
      related := nodes[error.fileName.value].GetMutantsWithReferenceToChildrenOrSelf(mutants, nodes);
      DownKeys(nodes);
      AsRelated(Down(nodes), mutants, error, related);
    }

    /** The first loop: which errors belong to one mutant, and which mutants must be checked again. */
    method BlameErrors(mutants: seq<Mutant>, errors: seq<Diagnostic>, errorsMap: ErrorsMap)
      returns (result: Option<(ErrorsMap, seq<Mutant>)>)
      requires Linked(nodes) && DistinctIds(mutants) && forall m <- mutants :: m.id !in errorsMap
      ensures result.Some? <==> InProject(Down(nodes), errors)
      ensures result.Some? ==>
        var (blamed, retest) := result.value;
        && Tally(Down(nodes), mutants, errors, errorsMap, blamed)
        && (forall m :: m in retest <==> Suspected(Down(nodes), mutants, errors, m))
        && (forall m <- retest :: m in mutants)
    {
      hide Reaches, Singled, Suspect, Suspected, Blamed, Inverse, Tally, DistinctIds, Up, Related, Down;
      ghost var down := Down(nodes);
      DownKeys(nodes);
      var blamed := errorsMap;
      var retest: seq<Mutant> := [];
      NothingFound(down, mutants, errorsMap);
      for i := 0 to |errors|
        invariant InProject(down, errors[..i])
        invariant Tally(down, mutants, errors[..i], errorsMap, blamed)
        invariant forall m :: m in retest <==> Suspected(down, mutants, errors[..i], m)
        invariant forall m <- retest :: m in mutants
      {
        var error := errors[i];
        assert errors[..i + 1] == errors[..i] + [error];
        if error.fileName.None? || error.fileName.value !in nodes {
          return None;
        }
        var related := RelatedMutants(error, mutants);
        BlameStep(down, mutants, errors[..i], error, related, errorsMap, blamed);
        if |related| == 0 {
          retest := AddAll(retest, mutants);
        } else if |related| == 1 {
          var id := related[0].id;
          blamed := blamed[id := if id in blamed then blamed[id] + [error] else [error]];
        } else {
          retest := AddAll(retest, related);
        }
      }
      assert errors[..|errors|] == errors;
      result := Some((blamed, retest));
    }

    /** `checkErrors`: the errors of all mutants together are blamed on the only mutant related to them;
        mutants that share an error are checked one by one.  None stands for the exceptions: a file
        that is not watched, or an error of a group that is not reported in a file of the project. */
    method CheckErrors(mutants: seq<Mutant>, errorsMap: ErrorsMap) returns (result: Option<ErrorsMap>)
      requires Valid() && DistinctIds(mutants) && forall m <- mutants :: m.id !in errorsMap
      modifies tsCompiler, tsCompiler.files.Values
      ensures Down(nodes) == old(Down(nodes))
      ensures result.Some? <==> tsCompiler.AllFiles(mutants)
                                && (|mutants| == 1 || InProject(Down(nodes), Errors(tsCompiler.AsProject(), mutants)))
      ensures result.Some? ==> Valid() && Reports(tsCompiler.AsProject(), Down(nodes), mutants, errorsMap, result.value)
      decreases |mutants|, 1
    {
      hide Reaches, Singled, Suspect, Suspected, Blamed, Contents, Inverse, Tally, Reports, DistinctIds, Errors, Up,
           Related, Down;
      ghost var p := tsCompiler.AsProject();
      ghost var down := Down(nodes);
      DownKeys(nodes);
      var checked := tsCompiler.Check(mutants);
      if checked.None? {
        return None;
      }
      var errors := checked.value;
      if errors != [] && |mutants| == 1 {
        SingleReports(p, down, mutants, errorsMap);
        return Some(errorsMap[mutants[0].id := errors]);
      }
      var outcome := BlameErrors(mutants, errors, errorsMap);
      if outcome.None? {
        return None;
      }
      result := CheckAlone(mutants, errors, errorsMap, outcome.value.0, outcome.value.1);
    }

    /** A check without mutants, after which the files hold their original contents. */
    method Reset()
      requires Valid()
      modifies tsCompiler, tsCompiler.files.Values
      ensures Valid() && Down(nodes) == old(Down(nodes))
    {
      hide Inverse, Up, Down, Linked, Errors, ContentWith;
      var reset := tsCompiler.Check([]);
    }

    method CheckAlone(mutants: seq<Mutant>, ghost errors: seq<Diagnostic>, ghost before: ErrorsMap, blamed: ErrorsMap,
                      retest: seq<Mutant>)
      returns (result: Option<ErrorsMap>)
      requires Valid() && DistinctIds(mutants) && tsCompiler.AllFiles(mutants) && (|mutants| == 1 ==> errors == [])
      requires errors == Errors(tsCompiler.AsProject(), mutants)
      requires Tally(Down(nodes), mutants, errors, before, blamed)
      requires forall m :: m in retest <==> Suspected(Down(nodes), mutants, errors, m)
      requires forall m <- retest :: m in mutants
      requires forall m <- mutants :: m.id !in before
      modifies tsCompiler, tsCompiler.files.Values
      ensures Down(nodes) == old(Down(nodes))
      ensures result.Some? && Valid() && Reports(tsCompiler.AsProject(), Down(nodes), mutants, before, result.value)
      decreases |mutants|, 0
    {
      hide Reaches, Retested, Reports, Errors, Tally, Suspected, DistinctIds, Inverse, Contents, Up, Down, Linked;
      ghost var p := tsCompiler.AsProject();
      ghost var down := Down(nodes);
      if retest != [] {
        Reset();
      }
      var found := blamed;
      assert Retested(p, down, mutants, errors, [], before, found) by {
        NothingRetested(p, down, mutants, errors, before, found);
      }
      for j := 0 to |retest|
        invariant Valid() && Down(nodes) == down
        invariant Retested(p, down, mutants, errors, retest[..j], before, found)
      {
        ghost var previous := found;
        var mutant := retest[j];
        assert retest[..j + 1] == retest[..j] + [mutant];
        if mutant.id !in found {
          SuspectedHasErrors(down, mutants, errors, mutant);
          assert DistinctIds([mutant]) by {
            OneIsDistinct(mutant);
          }
          var alone := CheckErrors([mutant], found);
          found := alone.value;
        }
        RetestStep(p, down, mutants, errors, retest[..j], mutant, before, previous, found);
      }
      assert retest[..|retest|] == retest;
      RetestedReports(p, down, mutants, errors, retest, before, found);
      result := Some(found);
    }

    /** `check`: the verdict of every mutant of a group.  A group whose first mutant is outside the
        project passes without being compiled. */
    method Check(mutants: seq<Mutant>) returns (result: Option<map<string, CheckResult>>)
      requires Valid() && DistinctIds(mutants)
      modifies tsCompiler, tsCompiler.files.Values
      ensures Down(nodes) == old(Down(nodes))
      ensures result.Some? ==> Valid() && result.value.Keys == set m <- mutants :: m.id
      ensures result.Some? <==>
        && |mutants| > 0
        && (mutants[0].fileName in nodes ==>
              && tsCompiler.AllFiles(mutants)
              && (|mutants| == 1 || InProject(Down(nodes), Errors(tsCompiler.AsProject(), mutants))))
      ensures result.Some? && mutants[0].fileName !in nodes ==> forall m <- mutants :: result.value[m.id] == Passed
      ensures result.Some? && mutants[0].fileName in nodes ==>
        forall m <- mutants ::
          && m.id in result.value
          && result.value[m.id] == VerdictOf(Reasons(tsCompiler.AsProject(), Down(nodes), mutants, m))
          && (result.value[m.id].Passed? <==> Reasons(tsCompiler.AsProject(), Down(nodes), mutants, m) == [])
    {
      hide Reaches, Reasons, Errors, Inverse, Up, Down, InProject, DistinctIds;
      if |mutants| == 0 {
        return None;
      }
      var ids := set m <- mutants :: m.id;
      if mutants[0].fileName !in nodes {
        return Some(map id <- ids :: Passed);
      }
      var errorsMap := CheckErrors(mutants, map[]);
      if errorsMap.None? {
        return None;
      }
      result := Some(map id <- ids :: if id in errorsMap.value then CompileError(errorsMap.value[id]) else Passed);
      assert forall m <- mutants :: m.id in ids;
    }

    /** `group`: without `prioritizePerformanceOverAccuracy` every mutant is checked on its own; with it,
        the mutants outside the project come first, as one group, and every other one is in the first group
        that can take it. */
    method Group(mutants: seq<Mutant>) returns (groups: seq<seq<Mutant>>)
      requires Valid()
      ensures multiset(Flatten(groups)) == multiset(mutants)
      ensures forall g <- groups :: Groupable(Down(nodes), g)
      ensures !prioritizePerformanceOverAccuracy ==> groups == Singletons(mutants)
      ensures prioritizePerformanceOverAccuracy ==> Batched(Down(nodes), groups)
    {
      hide Reaches, Inverse, Up, Independent, Flatten, Singletons, Filled, Batched;
      if !prioritizePerformanceOverAccuracy {
        groups := OneByOne(mutants);
        return;
      }
      var outside, inside := Split(mutants, nodes);
      var created := CreateGroups(inside, nodes);
      groups := created.value;
      DownKeys(nodes);
      IsBatched(Down(nodes), outside, groups);
      if outside != [] {
        FlattenCons(outside, groups);
        groups := [outside] + groups;
      }
    }
  }

  function Singletons(ms: seq<Mutant>): seq<seq<Mutant>> {
    seq(|ms|, i requires 0 <= i < |ms| => [ms[i]])
  }

  method OneByOne(mutants: seq<Mutant>) returns (groups: seq<seq<Mutant>>)
    ensures groups == Singletons(mutants) && multiset(Flatten(groups)) == multiset(mutants)
    ensures forall g <- groups :: |g| == 1
  {
    hide Flatten;
    groups := [];
    FlattenNone();
    for i := 0 to |mutants|
      invariant groups == Singletons(mutants[..i]) && multiset(Flatten(groups)) == multiset(mutants[..i])
    {
      assert mutants[..i + 1] == mutants[..i] + [mutants[i]];
      FlattenSnoc(groups, [mutants[i]]);
      groups := groups + [[mutants[i]]];
    }
    assert mutants[..|mutants|] == mutants;
  }

  /** The mutants outside the project, and those in it. */
  method Split(mutants: seq<Mutant>, nodes: Nodes) returns (outside: seq<Mutant>, inside: seq<Mutant>)
    ensures (forall m <- outside :: m.fileName !in nodes) && Known(inside, nodes)
    ensures multiset(outside) + multiset(inside) == multiset(mutants)
  {
    outside, inside := [], [];
    for i := 0 to |mutants|
      invariant (forall m <- outside :: m.fileName !in nodes) && Known(inside, nodes)
      invariant multiset(outside) + multiset(inside) == multiset(mutants[..i])
    {
      assert mutants[..i + 1] == mutants[..i] + [mutants[i]];
      if mutants[i].fileName !in nodes {
        outside := outside + [mutants[i]];
      } else {
        inside := inside + [mutants[i]];
      }
    }
    assert mutants[..|mutants|] == mutants;
  }

  function VerdictOf(reasons: seq<Diagnostic>): CheckResult {
    if reasons == [] then Passed else CompileError(reasons)
  }

  /** What holds of every group: one mutant, or only mutants outside the project, or independent ones. */
  ghost predicate Groupable(down: Graph, g: seq<Mutant>) {
    && g != []
    && (|g| == 1
        || (forall m <- g :: m.fileName !in down)
        || ((forall m <- g :: m.fileName in down) && Independent(down, g)))
  }

  /** Only the first group can hold mutants outside the project, and all of them are in it; the groups within
      the project are filled one after the other. */
  ghost predicate Batched(down: Graph, groups: seq<seq<Mutant>>) {
    && (forall i, m :: 0 < i < |groups| && m in groups[i] ==> m.fileName in down)
    && (groups != [] ==>
          Filled(down, if forall m <- groups[0] :: m.fileName !in down then groups[1..] else groups))
  }

  lemma IsBatched(down: Graph, outside: seq<Mutant>, groups: seq<seq<Mutant>>)
    requires Filled(down, groups) && forall m <- outside :: m.fileName !in down
    requires forall g <- groups :: g != [] && forall m <- g :: m.fileName in down
    ensures Batched(down, groups) && (outside != [] ==> Batched(down, [outside] + groups))
  {
    hide Filled;
    if groups != [] {
      assert groups[0] in groups && groups[0][0] in groups[0];
    }
    var all := [outside] + groups;
    assert all[1..] == groups;
    forall i, m: Mutant | 0 < i < |all| && m in all[i]
      ensures m.fileName in down
    {
      assert all[i] in groups;
    }
  }

  lemma {:induction false} FlattenCons(g: seq<Mutant>, groups: seq<seq<Mutant>>)
    ensures Flatten([g] + groups) == g + Flatten(groups)
    decreases |groups|
  {
    if groups == [] {
      assert ([g] + groups)[..0] == [];
    } else {
      var init := groups[..|groups| - 1];
      FlattenCons(g, init);
      assert ([g] + groups)[..|groups|] == [g] + init;
    }
  }

  /** For every group: checking it together gives every mutant the verdict it gets alone. */
  lemma EveryGroupIsExact(p: Project, down: Graph, g: seq<Mutant>, m: Mutant)
    requires Clean(p) && Local(p, down) && Unmasked(p, g) && Groupable(down, g) && m in g && g[0].fileName in down
    requires |g| == 1 || InProject(down, Errors(p, g))
    ensures VerdictOf(Reasons(p, down, g, m)) == Passed <==> VerdictOf(Reasons(p, down, [m], m)) == Passed
    ensures VerdictOf(Reasons(p, down, g, m)) == Passed <==> Errors(p, [m]) == []
  {
    hide Reaches, Local, Errors, Blamed, Suspected;
    assert DistinctFiles(g) by {
      IndependentDistinct(down, g);
    }
    GroupCheckIsExact(p, down, g, m);
  }

  lemma IndependentDistinct(down: Graph, g: seq<Mutant>)
    requires Groupable(down, g) && g[0].fileName in down
    ensures DistinctFiles(g) && forall m <- g :: m.fileName in down
  {
    hide Reaches;
    forall i | 0 <= i < |g|
      ensures g[i].fileName in down
      ensures Reaches(down, g[i].fileName, g[i].fileName)
    {
      assert g[0] in g && g[i] in g;
      ReachesSelf(down, g[i].fileName);
    }
  }

  /** The errors that are blamed on a mutant, and those it has alone if it is one of the mutants retested. */
  ghost function Found(p: Project, down: Graph, ms: seq<Mutant>, errors: seq<Diagnostic>, retested: seq<Mutant>,
                       m: Mutant): seq<Diagnostic> {
    if Blamed(down, ms, errors, m) != [] then Blamed(down, ms, errors, m)
    else if m in retested then Errors(p, [m])
    else []
  }

  ghost predicate Retested(p: Project, down: Graph, ms: seq<Mutant>, errors: seq<Diagnostic>, retested: seq<Mutant>,
                           before: ErrorsMap, after: ErrorsMap) {
    && (forall m <- ms :: m.id in after <==> Found(p, down, ms, errors, retested, m) != [])
    && (forall m <- ms :: m.id in after ==> after[m.id] == Found(p, down, ms, errors, retested, m))
    && Keeps(ms, before, after)
  }

  lemma NothingRetested(p: Project, down: Graph, ms: seq<Mutant>, errors: seq<Diagnostic>, before: ErrorsMap,
                        after: ErrorsMap)
    requires Tally(down, ms, errors, before, after)
    ensures Retested(p, down, ms, errors, [], before, after)
  {
    hide Blamed, Errors;
  }

  lemma RetestStep(p: Project, down: Graph, ms: seq<Mutant>, errors: seq<Diagnostic>, retested: seq<Mutant>, m: Mutant,
                   before: ErrorsMap, previous: ErrorsMap, after: ErrorsMap)
    requires DistinctIds(ms) && m in ms && Retested(p, down, ms, errors, retested, before, previous)
    requires m.id in previous ==> after == previous
    requires m.id !in previous ==> Reports(p, down, [m], previous, after)
    ensures Retested(p, down, ms, errors, retested + [m], before, after)
  {
    hide Blamed, Errors;
    forall x | x in ms
      ensures x.id in after <==> Found(p, down, ms, errors, retested + [m], x) != []
      ensures x.id in after ==> after[x.id] == Found(p, down, ms, errors, retested + [m], x)
    {
      assert x in retested + [m] <==> x in retested || x == m;
      if x != m {
        SameId(ms, x, m);
      } else if m.id !in previous {
        assert Reasons(p, down, [m], m) == Errors(p, [m]);
        assert m in [m];
      }
    }
  }

  lemma RetestedReports(p: Project, down: Graph, ms: seq<Mutant>, errors: seq<Diagnostic>, retest: seq<Mutant>,
                        before: ErrorsMap, after: ErrorsMap)
    requires Retested(p, down, ms, errors, retest, before, after) && errors == Errors(p, ms)
    requires |ms| == 1 ==> errors == []
    requires forall m :: m in retest <==> Suspected(down, ms, errors, m)
    ensures Reports(p, down, ms, before, after)
  {
    hide Suspected, Blamed, Errors;
    forall m | m in ms
      ensures Reasons(p, down, ms, m) == Found(p, down, ms, errors, retest, m)
    {
      if |ms| == 1 && errors == [] {
        NoneBlamed(p, down, ms, errors, retest, m);
      }
    }
  }

  lemma NoneBlamed(p: Project, down: Graph, ms: seq<Mutant>, errors: seq<Diagnostic>, retest: seq<Mutant>, m: Mutant)
    requires errors == [] && forall m :: m in retest <==> Suspected(down, ms, errors, m)
    ensures Found(p, down, ms, errors, retest, m) == []
  {
    if m in retest {
      SuspectedHasErrors(down, ms, errors, m);
    }
  }

  lemma DownKeys(nodes: Nodes)
    ensures Down(nodes).Keys == nodes.Keys
  {
  }

  lemma AsRelated(down: Graph, ms: seq<Mutant>, e: Diagnostic, related: seq<Mutant>)
    requires e.fileName.Some?
    requires forall m :: multiset(related)[m] ==
               if m.fileName in down && Reaches(down, e.fileName.value, m.fileName) then multiset(ms)[m] else 0
    ensures forall m :: multiset(related)[m] == if Related(down, e, m) then multiset(ms)[m] else 0
  {
    hide Reaches;
  }

  lemma OneIsDistinct(m: Mutant)
    ensures DistinctIds([m])
  {
  }

  lemma SuspectedHasErrors(down: Graph, ms: seq<Mutant>, errors: seq<Diagnostic>, m: Mutant)
    requires Suspected(down, ms, errors, m)
    ensures errors != [] && m in ms
  {
    hide Reaches, Singled;
  }

  lemma SingleReports(p: Project, down: Graph, ms: seq<Mutant>, before: ErrorsMap)
    requires |ms| == 1 && Errors(p, ms) != [] && ms[0].id !in before
    ensures Reports(p, down, ms, before, before[ms[0].id := Errors(p, ms)])
  {
  }

  method AddAll(retest: seq<Mutant>, ms: seq<Mutant>) returns (all: seq<Mutant>)
    ensures forall m :: m in all <==> m in retest || m in ms
    ensures NoDuplicates(retest) ==> NoDuplicates(all)
  {
    all := retest;
    for i := 0 to |ms|
      invariant forall m :: m in all <==> m in retest || m in ms[..i]
      invariant NoDuplicates(retest) ==> NoDuplicates(all)
    {
      if ms[i] !in all {
        all := all + [ms[i]];
      }
    }
  }

  lemma NothingFound(down: Graph, ms: seq<Mutant>, before: ErrorsMap)
    requires forall m <- ms :: m.id !in before
    ensures Tally(down, ms, [], before, before)
    ensures forall m :: !Suspected(down, ms, [], m)
  {
  }

  lemma RelatedMeans(down: Graph, ms: seq<Mutant>, e: Diagnostic, related: seq<Mutant>)
    requires DistinctIds(ms)
    requires forall m :: multiset(related)[m] == if Related(down, e, m) then multiset(ms)[m] else 0
    ensures forall m <- related :: m in ms
    ensures |related| == 1 ==> forall m :: Singled(down, ms, e, m) <==> m == related[0]
    ensures |related| != 1 ==> forall m :: !Singled(down, ms, e, m)
    ensures forall m :: Suspect(down, ms, e, m) <==>
                          if |related| == 0 then m in ms else if |related| == 1 then false else m in related
  {
    hide Reaches, Related, Singled;
    RelatedList(down, ms, e, related);
    forall m: Mutant
      ensures Suspect(down, ms, e, m) <==>
                if |related| == 0 then m in ms else if |related| == 1 then false else m in related
    {
      if |related| == 0 {
        assert forall x <- ms :: x !in related;
      } else if |related| == 1 {
        assert related[0] in related && Singled(down, ms, e, related[0]);
      } else {
        assert related[0] in related;
      }
    }
  }

  lemma SuspectedSnoc(down: Graph, ms: seq<Mutant>, errors: seq<Diagnostic>, e: Diagnostic)
    ensures forall m :: Suspected(down, ms, errors + [e], m) <==> Suspected(down, ms, errors, m) || Suspect(down, ms, e, m)
  {
    hide Suspect;
    assert forall x :: x in errors + [e] <==> x in errors || x == e;
  }

  /** What one error adds, depending on the number of mutants related to it. */
  lemma BlameStep(down: Graph, ms: seq<Mutant>, errors: seq<Diagnostic>, e: Diagnostic, related: seq<Mutant>,
                  before: ErrorsMap, after: ErrorsMap)
    requires DistinctIds(ms) && Tally(down, ms, errors, before, after) && forall m <- ms :: m.id !in before
    requires forall m :: multiset(related)[m] == if Related(down, e, m) then multiset(ms)[m] else 0
    ensures forall m <- related :: m in ms
    ensures forall m :: Suspected(down, ms, errors + [e], m) <==>
                          Suspected(down, ms, errors, m)
                          || if |related| == 0 then m in ms else if |related| == 1 then false else m in related
    ensures |related| != 1 ==> Tally(down, ms, errors + [e], before, after)
    ensures |related| == 1 ==>
      var id := related[0].id;
      Tally(down, ms, errors + [e], before, after[id := if id in after then after[id] + [e] else [e]])
  {
    hide Related, Singled, Suspect, Suspected, Tally, DistinctIds;
    RelatedMeans(down, ms, e, related);
    SuspectedSnoc(down, ms, errors, e);
    TallySnoc(down, ms, errors, e, related, before, after);
  }

  lemma TallySnoc(down: Graph, ms: seq<Mutant>, errors: seq<Diagnostic>, e: Diagnostic, related: seq<Mutant>,
                  before: ErrorsMap, after: ErrorsMap)
    requires DistinctIds(ms) && Tally(down, ms, errors, before, after)
    requires forall m <- related :: m in ms && m.id !in before
    requires |related| == 1 ==> forall m :: Singled(down, ms, e, m) <==> m == related[0]
    requires |related| != 1 ==> forall m :: !Singled(down, ms, e, m)
    ensures |related| != 1 ==> Tally(down, ms, errors + [e], before, after)
    ensures |related| == 1 ==>
      var id := related[0].id;
      Tally(down, ms, errors + [e], before, after[id := if id in after then after[id] + [e] else [e]])
  {
    hide Singled, Blamed;
    if |related| == 1 {
      var id, one := related[0].id, related[0];
      var next := after[id := if id in after then after[id] + [e] else [e]];
      assert one in ms;
      forall m | m in ms
        ensures m.id in next <==> Blamed(down, ms, errors + [e], m) != []
        ensures m.id in next ==> next[m.id] == Blamed(down, ms, errors + [e], m)
      {
        BlamedSnoc(down, ms, errors, e, m);
        if m != one {
          SameId(ms, m, one);
        }
      }
    } else {
      forall m | m in ms
        ensures Blamed(down, ms, errors + [e], m) == Blamed(down, ms, errors, m)
      {
        BlamedSnoc(down, ms, errors, e, m);
      }
    }
  }

  lemma SameId(ms: seq<Mutant>, a: Mutant, b: Mutant)
    requires DistinctIds(ms) && a in ms && b in ms && a != b
    ensures a.id != b.id
  {
  }

  lemma {:induction false} BlamedSnoc(down: Graph, ms: seq<Mutant>, errors: seq<Diagnostic>, e: Diagnostic, m: Mutant)
    ensures Blamed(down, ms, errors + [e], m) == Blamed(down, ms, errors, m) + (if Singled(down, ms, e, m) then [e] else [])
  {
    hide Singled;
    assert (errors + [e])[..|errors|] == errors;
  }

  /** The errors found so far, by the mutant that they are blamed on. */
  ghost predicate Tally(down: Graph, ms: seq<Mutant>, errors: seq<Diagnostic>, before: ErrorsMap, after: ErrorsMap) {
    && (forall m <- ms :: m.id in after <==> Blamed(down, ms, errors, m) != [])
    && (forall m <- ms :: m.id in after ==> after[m.id] == Blamed(down, ms, errors, m))
    && Keeps(ms, before, after)
  }

  /** Only entries of these mutants are added. */
  ghost predicate Keeps(ms: seq<Mutant>, before: ErrorsMap, after: ErrorsMap) {
    && (forall id <- after :: id in before || exists m <- ms :: m.id == id)
    && (forall id <- before :: id in after && after[id] == before[id])
  }

  /** Exactly the mutants with a reason are added. */
  ghost predicate Reports(p: Project, down: Graph, ms: seq<Mutant>, before: ErrorsMap, after: ErrorsMap) {
    && (forall m <- ms :: m.id in after <==> Reasons(p, down, ms, m) != [])
    && (forall m <- ms :: m.id in after ==> after[m.id] == Reasons(p, down, ms, m))
    && Keeps(ms, before, after)
  }
}
