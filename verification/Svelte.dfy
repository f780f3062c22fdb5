/** The ranges of scripts and template expressions in a Svelte file: found in a copy in which every script
    is replaced by a placeholder, mapped back to the file, shifted, and finally spliced. */
module Svelte {
  import opened Options

  datatype Format = JS | TS

  /** What the parser of the replaced code finds. */
  datatype TemplateRange = TemplateRange(start: int, end: int, isExpression: bool, isModule: bool)

  datatype ScriptTag = ScriptTag(content: string, isTypeScript: bool)

  datatype ScriptRange = ScriptRange(start: int, end: int, isExpression: bool, isModule: bool, format: Format)

  /** `substring`: out of range indices are moved into range, and indices in the wrong order are swapped. */
  function Substring(s: string, a: int, b: int): string {
    var x := if a < 0 then 0 else if a > |s| then |s| else a;
    var y := if b < 0 then 0 else if b > |s| then |s| else b;
    if x <= y then s[x..y] else s[y..x]
  }

  // ----- the file as a list of pieces

  /** A script with the placeholder that replaces it, a template expression, and everything else. */
  datatype Piece =
    | Plain(text: string)
    | Script(placeholder: string, content: string, isModule: bool)
    | Expression(text: string)

  function OriginalOf(p: Piece): string {
    if p.Script? then p.content else p.text
  }

  function ReplacedOf(p: Piece): string {
    if p.Script? then p.placeholder else p.text
  }

  function Original(ps: seq<Piece>): string {
    if ps == [] then "" else OriginalOf(ps[0]) + Original(ps[1..])
  }

  function Replaced(ps: seq<Piece>): string {
    if ps == [] then "" else ReplacedOf(ps[0]) + Replaced(ps[1..])
  }

  /** The ranges of all scripts and expressions in the replaced code. */
  function ReplacedRanges(ps: seq<Piece>, at: nat): seq<TemplateRange> {
    if ps == [] then []
    else
      var next := at + |ReplacedOf(ps[0])|;
      if ps[0].Plain? then ReplacedRanges(ps[1..], next)
      else [TemplateRange(at, next, ps[0].Expression?, ps[0].Script? && ps[0].isModule)] + ReplacedRanges(ps[1..], next)
  }

  datatype Range = Range(start: int, end: int)

  /** Their ranges in the file itself. */
  function OriginalRanges(ps: seq<Piece>, at: nat): seq<Range> {
    if ps == [] then []
    else
      var next := at + |OriginalOf(ps[0])|;
      if ps[0].Plain? then OriginalRanges(ps[1..], next)
      else [Range(at, next)] + OriginalRanges(ps[1..], next)
  }

  // ----- `remapScriptLocations`

  /** A range that is not a placeholder is a template expression, and is always JavaScript. */
  function RemapOne(code: string, scripts: map<string, ScriptTag>, r: TemplateRange, offset: int): (ScriptRange, int) {
    var script := Substring(code, r.start, r.end);
    var start := r.start + offset;
    if script in scripts then
      (ScriptRange(start, start + |scripts[script].content|, r.isExpression, r.isModule, if scripts[script].isTypeScript then TS else JS),
       offset + |scripts[script].content| - |script|)
    else (ScriptRange(start, start + |script|, r.isExpression, false, JS), offset)
  }

  function Remap(code: string, scripts: map<string, ScriptTag>, ranges: seq<TemplateRange>,
                 offset: int): seq<ScriptRange>
    decreases |ranges|
  {
    if ranges == [] then []
    else
      var (first, next) := RemapOne(code, scripts, ranges[0], offset);
      [first] + Remap(code, scripts, ranges[1..], next)
  }

  function RangesOf(rs: seq<ScriptRange>): (ranges: seq<Range>)
    ensures |ranges| == |rs| && forall i :: 0 <= i < |rs| ==> ranges[i] == Range(rs[i].start, rs[i].end)
  {
    if rs == [] then [] else [Range(rs[0].start, rs[0].end)] + RangesOf(rs[1..])
  }

  /** Every script was replaced by its placeholder. */
  ghost predicate Replaces(ps: seq<Piece>, scripts: map<string, ScriptTag>) {
    && (forall p <- ps :: p.Script? ==> p.placeholder != "" && p.placeholder in scripts && scripts[p.placeholder].content == p.content)
    && (forall p <- ps :: p.Expression? ==> p.text != "")
  }

  /** No template expression reads like a placeholder, or the script behind it has the same length. */
  ghost predicate NoHarmfulCollision(ps: seq<Piece>, scripts: map<string, ScriptTag>) {
    forall p <- ps :: p.Expression? && p.text in scripts ==> |scripts[p.text].content| == |p.text|
  }

  /** What should be found in the file: every script with its own format, every expression as JavaScript. */
  function ExpectedScripts(ps: seq<Piece>, scripts: map<string, ScriptTag>, at: nat): seq<ScriptRange> {
    if ps == [] then []
    else
      var next := at + |OriginalOf(ps[0])|;
      if ps[0].Plain? then ExpectedScripts(ps[1..], scripts, next)
      else [ExpectedScript(ps[0], scripts, at, next)] + ExpectedScripts(ps[1..], scripts, next)
  }

  function ExpectedScript(p: Piece, scripts: map<string, ScriptTag>, start: int, end: int): ScriptRange {
    if p.Script? then
      ScriptRange(start, end, false, p.isModule,
                  if p.placeholder in scripts && scripts[p.placeholder].isTypeScript then TS else JS)
    else ScriptRange(start, end, true, false, JS)
  }

  /** No template expression reads like a placeholder, or the script behind it has the same length and is
      JavaScript as well. */
  ghost predicate NoCollision(ps: seq<Piece>, scripts: map<string, ScriptTag>) {
    forall p <- ps :: p.Expression? && p.text in scripts ==>
      |scripts[p.text].content| == |p.text| && !scripts[p.text].isTypeScript
  }

  lemma {:induction false} SubstringOfPiece(code: string, ps: seq<Piece>, at: nat)
    requires ps != [] && at <= |code| && code[at..] == Replaced(ps)
    ensures at + |ReplacedOf(ps[0])| <= |code|
    ensures Substring(code, at, at + |ReplacedOf(ps[0])|) == ReplacedOf(ps[0])
    ensures code[at + |ReplacedOf(ps[0])|..] == Replaced(ps[1..])
  {
    var n := |ReplacedOf(ps[0])|;
    assert code[at..][..n] == ReplacedOf(ps[0]);
    assert code[at..][..n] == code[at..at + n];
    assert code[at..][n..] == code[at + n..];
  }

  lemma FirstPiece(ps: seq<Piece>, scripts: map<string, ScriptTag>)
    requires ps != [] && Replaces(ps, scripts)
    ensures Replaces(ps[1..], scripts)
    ensures ps[0].Script? ==> ps[0].placeholder in scripts && scripts[ps[0].placeholder].content == ps[0].content
    ensures NoHarmfulCollision(ps, scripts) <==> NoHarmfulCollision(ps[..1], scripts) && NoHarmfulCollision(ps[1..], scripts)
    ensures NoHarmfulCollision(ps[..1], scripts) <==>
            (ps[0].Expression? && ps[0].text in scripts ==> |scripts[ps[0].text].content| == |ps[0].text|)
  {
    assert ps == ps[..1] + ps[1..];
    assert ps[0] in ps && ps[0] in ps[..1];
  }

  /** A ranged piece is put at its place, and the offset stays right, unless it collides harmfully. */
  lemma {:induction false} RemapPiece(code: string, scripts: map<string, ScriptTag>, ps: seq<Piece>, at: nat,
                                      offset: int)
    requires ps != [] && !ps[0].Plain? && Replaces(ps, scripts) && at <= |code| && code[at..] == Replaced(ps)
    ensures var p := ps[0];
            var next := at + |ReplacedOf(p)|;
            var (first, after) := RemapOne(code, scripts, TemplateRange(at, next, p.Expression?, p.Script? && p.isModule), offset);
            && first.start == at + offset && first.end == next + after
            && (NoHarmfulCollision(ps[..1], scripts) <==> first.end == at + offset + |OriginalOf(p)|)
  {
    hide Replaces, NoHarmfulCollision;
    SubstringOfPiece(code, ps, at);
    FirstPiece(ps, scripts);
  }

  /** The running offset puts every range at its place in the file if and only if no expression collides
      harmfully with a placeholder. */
  lemma {:induction false} RemapIsExactIff(code: string, scripts: map<string, ScriptTag>, ps: seq<Piece>, at: nat,
                                           offset: int)
    requires Replaces(ps, scripts) && at <= |code| && code[at..] == Replaced(ps) && at + offset >= 0
    ensures RangesOf(Remap(code, scripts, ReplacedRanges(ps, at), offset)) == OriginalRanges(ps, at + offset) <==>
            NoHarmfulCollision(ps, scripts)
    decreases |ps|
  {
    hide Replaces, NoHarmfulCollision, Substring, Remap, RemapOne, RangesOf;
    if ps == [] {
      NothingToRemap(code, scripts, offset);
    } else {
      FirstPiece(ps, scripts);
      SubstringOfPiece(code, ps, at);
      var p, rest := ps[0], ps[1..];
      var next := at + |ReplacedOf(p)|;
      if p.Plain? {
        RemapIsExactIff(code, scripts, rest, next, offset);
      } else {
        RemapPiece(code, scripts, ps, at, offset);
        var r := TemplateRange(at, next, p.Expression?, p.Script? && p.isModule);
        var after := RemapOne(code, scripts, r, offset).1;
        RemapFirst(code, scripts, r, ReplacedRanges(rest, next), offset);
        assert OriginalRanges(ps, at + offset)[0] == Range(at + offset, at + offset + |OriginalOf(p)|);
        if next + after == at + offset + |OriginalOf(p)| {
          RemapIsExactIff(code, scripts, rest, next, after);
          assert OriginalRanges(ps, at + offset)[1..] == OriginalRanges(rest, next + after);
        }
      }
    }
  }

  lemma {:induction false} NothingToRemap(code: string, scripts: map<string, ScriptTag>, offset: int)
    ensures RangesOf(Remap(code, scripts, [], offset)) == [] && NoHarmfulCollision([], scripts)
  {
  }

  lemma {:induction false} RemapFirst(code: string, scripts: map<string, ScriptTag>, r: TemplateRange,
                                      rest: seq<TemplateRange>, offset: int)
    ensures var (first, after) := RemapOne(code, scripts, r, offset);
            RangesOf(Remap(code, scripts, [r] + rest, offset)) == [Range(first.start, first.end)] + RangesOf(Remap(code, scripts, rest, after))
  {
    assert ([r] + rest)[1..] == rest;
  }

  lemma ExpectedCons(ps: seq<Piece>, scripts: map<string, ScriptTag>, at: nat)
    requires ps != [] && !ps[0].Plain?
    ensures var next := at + |OriginalOf(ps[0])|;
            ExpectedScripts(ps, scripts, at) ==
            [ExpectedScript(ps[0], scripts, at, next)] + ExpectedScripts(ps[1..], scripts, next)
  {
  }

  lemma FirstCollision(ps: seq<Piece>, scripts: map<string, ScriptTag>)
    requires ps != []
    ensures var (p, rest) := (ps[0], NoCollision(ps[1..], scripts));
            NoCollision(ps, scripts) <==>
            (rest && (p.Expression? && p.text in scripts ==>
                        |scripts[p.text].content| == |p.text| && !scripts[p.text].isTypeScript))
  {
    assert ps == [ps[0]] + ps[1..];
  }

  /** The first script or expression is found as it is, unless it collides, and then the offset stays right. */
  lemma {:induction false} PieceFoundIff(code: string, scripts: map<string, ScriptTag>, ps: seq<Piece>, at: nat,
                                         offset: int)
    requires ps != [] && !ps[0].Plain? && Replaces(ps, scripts) && at <= |code| && code[at..] == Replaced(ps)
    ensures var p := ps[0];
            var next, end := at + |ReplacedOf(p)|, at + offset + |OriginalOf(p)|;
            var (first, after) := RemapOne(code, scripts, RangeOf(p, at), offset);
            && (NoCollision(ps, scripts) <==>
                  NoCollision(ps[1..], scripts) && first == ExpectedScript(p, scripts, at + offset, end))
            && (first == ExpectedScript(p, scripts, at + offset, end) ==> next + after == end)
  {
    hide Replaces, NoCollision, Substring;
    FirstPiece(ps, scripts);
    FirstCollision(ps, scripts);
    SubstringOfPiece(code, ps, at);
  }

  /** Not only the ranges: scripts and expressions are found in the file as they are, with their formats, if
      and only if no expression reads like a placeholder of another length or of a TypeScript script. */
  lemma {:induction false} RemapIsFaithfulIff(code: string, scripts: map<string, ScriptTag>, ps: seq<Piece>, at: nat,
                                              offset: int)
    requires Replaces(ps, scripts) && at <= |code| && code[at..] == Replaced(ps) && at + offset >= 0
    ensures Remap(code, scripts, ReplacedRanges(ps, at), offset) == ExpectedScripts(ps, scripts, at + offset) <==>
            NoCollision(ps, scripts)
    decreases |ps|
  {
    hide Replaces, NoCollision, Substring, Remap, ExpectedScripts, RemapOne, ExpectedScript, ReplacedRanges;
    if ps == [] {
      NothingExpected(code, scripts, at, offset);
    } else {
      FirstPiece(ps, scripts);
      SubstringOfPiece(code, ps, at);
      var p, rest := ps[0], ps[1..];
      var next, end := at + |ReplacedOf(p)|, at + offset + |OriginalOf(p)|;
      if p.Plain? {
        FirstCollision(ps, scripts);
        ReplacedCons(ps, at);
        assert [] + ReplacedRanges(rest, next) == ReplacedRanges(rest, next);
        ExpectedPlain(ps, scripts, at + offset);
        RemapIsFaithfulIff(code, scripts, rest, next, offset);
      } else {
        var (first, after) := RemapOne(code, scripts, RangeOf(p, at), offset);
        PieceFoundIff(code, scripts, ps, at, offset);
        RemapIsFaithfulCons(code, scripts, ps, at, offset);
        if first == ExpectedScript(p, scripts, at + offset, end) {
          RemapIsFaithfulIff(code, scripts, rest, next, after);
        }
      }
    }
  }

  function RangeOf(p: Piece, at: nat): TemplateRange {
    TemplateRange(at, at + |ReplacedOf(p)|, p.Expression?, p.Script? && p.isModule)
  }

  lemma {:induction false} RemapIsFaithfulCons(code: string, scripts: map<string, ScriptTag>, ps: seq<Piece>, at: nat,
                                               offset: int)
    requires ps != [] && !ps[0].Plain? && at + offset >= 0
    ensures var next, end := at + |ReplacedOf(ps[0])|, at + offset + |OriginalOf(ps[0])|;
            var (first, after) := RemapOne(code, scripts, RangeOf(ps[0], at), offset);
            Remap(code, scripts, ReplacedRanges(ps, at), offset) == ExpectedScripts(ps, scripts, at + offset) <==>
            && first == ExpectedScript(ps[0], scripts, at + offset, end)
            && Remap(code, scripts, ReplacedRanges(ps[1..], next), after) == ExpectedScripts(ps[1..], scripts, end)
  {
    hide Remap, ExpectedScripts, RemapOne, ExpectedScript, ReplacedRanges;
    var p, rest := ps[0], ps[1..];
    var next, end := at + |ReplacedOf(p)|, at + offset + |OriginalOf(p)|;
    var (first, after) := RemapOne(code, scripts, RangeOf(p, at), offset);
    ReplacedCons(ps, at);
    RemapCons(code, scripts, RangeOf(p, at), ReplacedRanges(rest, next), offset);
    ExpectedCons(ps, scripts, at + offset);
    SameConsIff(first, Remap(code, scripts, ReplacedRanges(rest, next), after),
                ExpectedScript(p, scripts, at + offset, end), ExpectedScripts(rest, scripts, end));
  }

  lemma SameConsIff<T>(x: T, a: seq<T>, y: T, b: seq<T>)
    ensures [x] + a == [y] + b <==> x == y && a == b
  {
    assert ([x] + a)[0] == x && ([y] + b)[0] == y;
    assert ([x] + a)[1..] == a && ([y] + b)[1..] == b;
  }

  lemma ReplacedCons(ps: seq<Piece>, at: nat)
    requires ps != []
    ensures var next := at + |ReplacedOf(ps[0])|;
            ReplacedRanges(ps, at) ==
            (if ps[0].Plain? then [] else [RangeOf(ps[0], at)]) + ReplacedRanges(ps[1..], next)
  {
  }

  lemma {:induction false} NothingExpected(code: string, scripts: map<string, ScriptTag>, at: nat, offset: int)
    requires at + offset >= 0
    ensures Remap(code, scripts, ReplacedRanges([], at), offset) == ExpectedScripts([], scripts, at + offset)
    ensures NoCollision([], scripts)
  {
  }

  lemma ExpectedPlain(ps: seq<Piece>, scripts: map<string, ScriptTag>, at: nat)
    requires ps != [] && ps[0].Plain?
    ensures ExpectedScripts(ps, scripts, at) == ExpectedScripts(ps[1..], scripts, at + |OriginalOf(ps[0])|)
  {
  }

  lemma {:induction false} RemapCons(code: string, scripts: map<string, ScriptTag>, r: TemplateRange,
                                     rest: seq<TemplateRange>, offset: int)
    ensures var (first, after) := RemapOne(code, scripts, r, offset);
            Remap(code, scripts, [r] + rest, offset) == [first] + Remap(code, scripts, rest, after)
  {
    assert ([r] + rest)[1..] == rest;
  }

  /** A file with one script, and an expression that is named like its placeholder. */
  function CollidingFile(content: string): seq<Piece> {
    [Plain("<script>"), Script("script0", content, false), Plain("</script>{"), Expression("script0"), Plain("}")]
  }

  lemma CollidingFileCollides(tag: ScriptTag)
    ensures var ps, scripts := CollidingFile(tag.content), map["script0" := tag];
            && Replaces(ps, scripts)
            && (NoHarmfulCollision(ps, scripts) <==> |tag.content| == 7)
            && (NoCollision(ps, scripts) <==> |tag.content| == 7 && !tag.isTypeScript)
  {
    var ps := CollidingFile(tag.content);
    assert ps[3] in ps && |ps[3].text| == 7;
  }

  /** The expression in such a file is misplaced, unless the script is as long as the placeholder. */
  lemma CollidingExpressionIsMisplaced(tag: ScriptTag)
    requires |tag.content| != 7
    ensures var ps, scripts := CollidingFile(tag.content), map["script0" := tag];
            Replaces(ps, scripts) && RangesOf(Remap(Replaced(ps), scripts, ReplacedRanges(ps, 0), 0)) != OriginalRanges(ps, 0)
  {
    hide Remap, Replaced, ReplacedRanges, OriginalRanges, RangesOf, Replaces, NoHarmfulCollision;
    var ps, scripts := CollidingFile(tag.content), map["script0" := tag];
    CollidingFileCollides(tag);
    assert Replaced(ps)[0..] == Replaced(ps);
    RemapIsExactIff(Replaced(ps), scripts, ps, 0, 0);
  }

  /** If it is that long and TypeScript, the expression is found at its place, but as TypeScript. */
  lemma CollidingExpressionIsTypeScript(tag: ScriptTag)
    requires |tag.content| == 7 && tag.isTypeScript
    ensures var ps, scripts := CollidingFile(tag.content), map["script0" := tag];
            var found := Remap(Replaced(ps), scripts, ReplacedRanges(ps, 0), 0);
            && Replaces(ps, scripts)
            && RangesOf(found) == OriginalRanges(ps, 0) && found != ExpectedScripts(ps, scripts, 0)
  {
    hide Remap, Replaced, ReplacedRanges, OriginalRanges, RangesOf, Replaces, NoHarmfulCollision, NoCollision,
         ExpectedScripts;
    var ps, scripts := CollidingFile(tag.content), map["script0" := tag];
    CollidingFileCollides(tag);
    assert Replaced(ps)[0..] == Replaced(ps);
    RemapIsExactIff(Replaced(ps), scripts, ps, 0, 0);
    RemapIsFaithfulIff(Replaced(ps), scripts, ps, 0, 0);
  }

  /** The texts of the ranged pieces. */
  function Contents(ps: seq<Piece>): seq<string> {
    if ps == [] then []
    else if ps[0].Plain? then Contents(ps[1..])
    else [OriginalOf(ps[0])] + Contents(ps[1..])
  }

  /** Every range in the file slices exactly the text of its own script or expression. */
  lemma {:induction false} SlicesAreContents(text: string, ps: seq<Piece>, at: nat, k: nat)
    requires at <= |text| && text[at..] == Original(ps)
    requires k < |OriginalRanges(ps, at)|
    ensures k < |Contents(ps)|
    ensures var r := OriginalRanges(ps, at)[k];
            0 <= r.start <= r.end <= |text| && text[r.start..r.end] == Contents(ps)[k]
    decreases |ps|
  {
    hide Original;
    TextCons(text, ps, at);
    var n := |OriginalOf(ps[0])|;
    if ps[0].Plain? {
      SlicesAreContents(text, ps[1..], at + n, k);
    } else if k > 0 {
      SlicesAreContents(text, ps[1..], at + n, k - 1);
    }
  }

  // ----- sorting the ranges, and the loop

  ghost predicate Ordered(rs: seq<TemplateRange>) {
    forall i, j :: 0 <= i < j < |rs| ==> rs[i].start <= rs[j].start
  }

  ghost predicate StrictlyOrdered(rs: seq<TemplateRange>) {
    forall i, j :: 0 <= i < j < |rs| ==> rs[i].start < rs[j].start
  }

  /** The stable sort on the start of the ranges. */
  method SortByStart(ranges: seq<TemplateRange>) returns (sorted: seq<TemplateRange>)
    ensures Ordered(sorted) && multiset(sorted) == multiset(ranges)
  {
    sorted := [];
    for i := 0 to |ranges|
      invariant Ordered(sorted) && multiset(sorted) == multiset(ranges[..i])
    {
      assert ranges[..i + 1] == ranges[..i] + [ranges[i]];
      sorted := InsertByStart(sorted, ranges[i]);
    }
    assert ranges[..|ranges|] == ranges;
  }

  method InsertByStart(sorted: seq<TemplateRange>, r: TemplateRange) returns (inserted: seq<TemplateRange>)
    requires Ordered(sorted)
    ensures Ordered(inserted) && multiset(inserted) == multiset(sorted) + multiset{r}
  {
    var j := |sorted|;
    while j > 0 && sorted[j - 1].start > r.start
      invariant 0 <= j <= |sorted| && forall k :: j <= k < |sorted| ==> sorted[k].start > r.start
    {
      j := j - 1;
    }
    inserted := sorted[..j] + [r] + sorted[j..];
    InsertMultiset(sorted, j, r);
    InsertOrder(sorted, j, r);
  }

  lemma InsertMultiset(s: seq<TemplateRange>, j: nat, r: TemplateRange)
    requires j <= |s|
    ensures multiset(s[..j] + [r] + s[j..]) == multiset(s) + multiset{r}
  {
    assert s == s[..j] + s[j..];
  }

  lemma InsertOrder(s: seq<TemplateRange>, j: nat, r: TemplateRange)
    requires j <= |s| && Ordered(s)
    requires (j > 0 ==> s[j - 1].start <= r.start) && forall k :: j <= k < |s| ==> s[k].start > r.start
    ensures Ordered(s[..j] + [r] + s[j..])
  {
    var t := s[..j] + [r] + s[j..];
    forall k | 0 <= k < |t|
      ensures t[k] == if k < j then s[k] else if k == j then r else s[k - 1]
    {
    }
  }

  /** Sorting any arrangement of strictly ordered ranges restores their order. */
  lemma {:induction false} OrderIsUnique(a: seq<TemplateRange>, b: seq<TemplateRange>)
    requires Ordered(a) && StrictlyOrdered(b) && multiset(a) == multiset(b)
    ensures a == b
    decreases |b|
  {
    hide Ordered, StrictlyOrdered;
    assert |a| == |multiset(a)| == |b|;
    if b != [] {
      FirstIsSame(a, b);
      assert a == [a[0]] + a[1..] && b == [b[0]] + b[1..];
      assert multiset(a[1..]) == multiset(a) - multiset{a[0]};
      assert multiset(b[1..]) == multiset(b) - multiset{b[0]};
      TailsOrdered(a, b);
      OrderIsUnique(a[1..], b[1..]);
    }
  }

  lemma TailsOrdered(a: seq<TemplateRange>, b: seq<TemplateRange>)
    requires Ordered(a) && StrictlyOrdered(b) && a != [] && b != []
    ensures Ordered(a[1..]) && StrictlyOrdered(b[1..])
  {
  }

  lemma FirstIsSame(a: seq<TemplateRange>, b: seq<TemplateRange>)
    requires Ordered(a) && StrictlyOrdered(b) && multiset(a) == multiset(b) && a != [] && b != []
    ensures a[0] == b[0]
  {
    assert a[0] in multiset(a) && b[0] in multiset(b);
    var i :| 0 <= i < |b| && b[i] == a[0];
    var j :| 0 <= j < |a| && a[j] == b[0];
    assert a[0].start <= a[j].start;
  }

  lemma {:induction false} RangesAreOrdered(ps: seq<Piece>, at: nat)
    requires forall p <- ps :: !p.Plain? ==> ReplacedOf(p) != ""
    ensures StrictlyOrdered(ReplacedRanges(ps, at))
    ensures forall r <- ReplacedRanges(ps, at) :: r.start >= at
    decreases |ps|
  {
    if ps != [] {
      assert ps[0] in ps;
      RangesAreOrdered(ps[1..], at + |ReplacedOf(ps[0])|);
    }
  }

  function WithoutModule(rs: seq<ScriptRange>): seq<ScriptRange> {
    if rs == [] then []
    else WithoutModule(rs[..|rs| - 1]) + (if rs[|rs| - 1].isModule then [] else [rs[|rs| - 1]])
  }

  function ModuleOf(rs: seq<ScriptRange>): Option<ScriptRange> {
    if rs == [] then None
    else if rs[|rs| - 1].isModule then Some(rs[|rs| - 1])
    else ModuleOf(rs[..|rs| - 1])
  }

  lemma {:induction false} RemapSnoc(code: string, scripts: map<string, ScriptTag>, rs: seq<TemplateRange>,
                                     r: TemplateRange, offset: int, last: int)
    requires last == OffsetAfter(code, scripts, rs, offset)
    ensures Remap(code, scripts, rs + [r], offset) == Remap(code, scripts, rs, offset) + [RemapOne(code, scripts, r, last).0]
    ensures OffsetAfter(code, scripts, rs + [r], offset) == RemapOne(code, scripts, r, last).1
    decreases |rs|
  {
    if rs == [] {
      assert [] + [r] == [r] && [r][1..] == [];
    } else {
      assert (rs + [r])[1..] == rs[1..] + [r];
      RemapSnoc(code, scripts, rs[1..], r, RemapOne(code, scripts, rs[0], offset).1, last);
    }
  }

  function OffsetAfter(code: string, scripts: map<string, ScriptTag>, rs: seq<TemplateRange>, offset: int): int
    decreases |rs|
  {
    if rs == [] then offset else OffsetAfter(code, scripts, rs[1..], RemapOne(code, scripts, rs[0], offset).1)
  }

  method RemapScriptLocations(code: string, scripts: map<string, ScriptTag>, moduleRange: Option<TemplateRange>,
                              templateRanges: seq<TemplateRange>, ghost ps: seq<Piece>)
    returns (newModule: Option<ScriptRange>, others: seq<ScriptRange>)
    requires Replaces(ps, scripts) && code == Replaced(ps)
    requires multiset((if moduleRange.Some? then [moduleRange.value] else []) + templateRanges) == multiset(ReplacedRanges(ps, 0))
    ensures var all := Remap(code, scripts, ReplacedRanges(ps, 0), 0);
            && newModule == ModuleOf(all) && others == WithoutModule(all)
            && (RangesOf(all) == OriginalRanges(ps, 0) <==> NoHarmfulCollision(ps, scripts))
            && (all == ExpectedScripts(ps, scripts, 0) <==> NoCollision(ps, scripts))
  {
    hide Substring, RemapOne, Remap, OffsetAfter, Replaces, NoHarmfulCollision, RangesOf, NoCollision, ExpectedScripts,
         Replaced, ReplacedRanges, OriginalRanges, Ordered, StrictlyOrdered, ModuleOf, WithoutModule;
    var sorted := SortByStart((if moduleRange.Some? then [moduleRange.value] else []) + templateRanges);
    assert sorted == ReplacedRanges(ps, 0) by {
      PlaceholdersNotEmpty(ps, scripts);
      RangesAreOrdered(ps, 0);
      OrderIsUnique(sorted, ReplacedRanges(ps, 0));
    }
    newModule, others := RemapSorted(code, scripts, sorted);
    assert code[0..] == code;
    RemapIsExactIff(code, scripts, ps, 0, 0);
    RemapIsFaithfulIff(code, scripts, ps, 0, 0);
  }

  /** The running offset. */
  method RemapSorted(code: string, scripts: map<string, ScriptTag>, sorted: seq<TemplateRange>)
    returns (newModule: Option<ScriptRange>, others: seq<ScriptRange>)
    ensures newModule == ModuleOf(Remap(code, scripts, sorted, 0))
            && others == WithoutModule(Remap(code, scripts, sorted, 0))
  {
    hide RemapOne, Remap, OffsetAfter;
    var offset := 0;
    newModule, others := None, [];
    NothingRemapped(code, scripts);
    for i := 0 to |sorted|
      invariant offset == OffsetAfter(code, scripts, sorted[..i], 0)
      invariant newModule == ModuleOf(Remap(code, scripts, sorted[..i], 0))
      invariant others == WithoutModule(Remap(code, scripts, sorted[..i], 0))
    {
      assert sorted[..i + 1] == sorted[..i] + [sorted[i]];
      RemapSnoc(code, scripts, sorted[..i], sorted[i], 0, offset);
      var range;
      range, offset := RemapRange(code, scripts, sorted[i], offset);
      assert (Remap(code, scripts, sorted[..i], 0) + [range])[..|Remap(code, scripts, sorted[..i], 0)|] == Remap(code, scripts, sorted[..i], 0);
      if range.isModule {
        newModule := Some(range);
      } else {
        others := others + [range];
      }
    }
    assert sorted[..|sorted|] == sorted;
  }

  method RemapRange(code: string, scripts: map<string, ScriptTag>, r: TemplateRange,
                    offset: int) returns (range: ScriptRange, next: int)
    ensures (range, next) == RemapOne(code, scripts, r, offset)
  {
    var script := Substring(code, r.start, r.end);
    var start := r.start + offset;
    if script in scripts {
      var actual := scripts[script];
      range := ScriptRange(start, start + |actual.content|, r.isExpression, r.isModule, if actual.isTypeScript then TS else JS);
      next := offset + |actual.content| - |script|;
    } else {
      range := ScriptRange(start, start + |script|, r.isExpression, false, JS);
      next := offset;
    }
  }

  lemma PlaceholdersNotEmpty(ps: seq<Piece>, scripts: map<string, ScriptTag>)
    requires Replaces(ps, scripts)
    ensures forall p <- ps :: !p.Plain? ==> ReplacedOf(p) != ""
  {
  }

  lemma {:induction false} NothingRemapped(code: string, scripts: map<string, ScriptTag>)
    ensures Remap(code, scripts, [], 0) == [] && OffsetAfter(code, scripts, [], 0) == 0
  {
  }

  // ----- inserting a module script, and printing

  const MODULE_SCRIPT_START := "<script context=\"module\">\n"
  const MODULE_SCRIPT_END := "\n</script>\n"
  const MODULE_SCRIPT := MODULE_SCRIPT_START + MODULE_SCRIPT_END

  /** A script or expression of the template, with the code that its syntax tree prints as. */
  class TemplateScript {
    var range: Range
    const isExpression: bool
    var code: string

    constructor (range: Range, isExpression: bool, code: string)
      ensures this.range == range && this.isExpression == isExpression && this.code == code
    {
      this.range, this.isExpression, this.code := range, isExpression, code;
    }
  }

  class SvelteAst {
    var rawContent: string
    var moduleScript: TemplateScript?
    const additionalScripts: seq<TemplateScript>

    constructor (rawContent: string, moduleScript: TemplateScript?, additionalScripts: seq<TemplateScript>)
      ensures this.rawContent == rawContent && this.moduleScript == moduleScript
              && this.additionalScripts == additionalScripts
    {
      this.rawContent, this.moduleScript, this.additionalScripts := rawContent, moduleScript, additionalScripts;
    }

    ghost predicate Valid()
      reads this
    {
      forall i, j :: 0 <= i < j < |additionalScripts| ==> additionalScripts[i] != additionalScripts[j]
    }

    /** The header needs a module script; one is put before everything else if there is none. */
    method PlaceHeader(header: string)
      requires Valid() && moduleScript !in additionalScripts
      modifies this, moduleScript, additionalScripts
      ensures Valid() && moduleScript != null && moduleScript !in additionalScripts
      ensures old(moduleScript) != null ==>
                && moduleScript == old(moduleScript) && rawContent == old(rawContent)
                && moduleScript.range == old(moduleScript.range) && moduleScript.code == header + old(moduleScript.code)
      ensures old(moduleScript) == null ==>
                && fresh(moduleScript) && rawContent == MODULE_SCRIPT + old(rawContent)
                && moduleScript.range == Range(|MODULE_SCRIPT_START|, |MODULE_SCRIPT_START|) && !moduleScript.isExpression
                && moduleScript.code == header
      ensures forall script <- additionalScripts :: script.code == old(script.code)
                && script.range == Shifted(old(script.range), if old(moduleScript) == null then |MODULE_SCRIPT| else 0)
    {
      if moduleScript == null {
        moduleScript := new TemplateScript(Range(|MODULE_SCRIPT_START|, |MODULE_SCRIPT_START|), false, "");
        rawContent := MODULE_SCRIPT + rawContent;
        for i := 0 to |additionalScripts|
          modifies additionalScripts
          invariant forall k :: 0 <= k < |additionalScripts| ==> additionalScripts[k].code == old(additionalScripts[k].code)
          invariant forall k :: 0 <= k < i ==> additionalScripts[k].range == Shifted(old(additionalScripts[k].range), |MODULE_SCRIPT|)
          invariant forall k :: i <= k < |additionalScripts| ==> additionalScripts[k].range == old(additionalScripts[k].range)
        {
          var script := additionalScripts[i];
          script.range := Range(script.range.start + |MODULE_SCRIPT|, script.range.end + |MODULE_SCRIPT|);
        }
      }
      moduleScript.code := header + moduleScript.code;
    }
  }

  function Shifted(r: Range, length: int): Range {
    Range(r.start + length, r.end + length)
  }

  function ShiftedAll(rs: seq<Range>, length: int): seq<Range> {
    seq(|rs|, i requires 0 <= i < |rs| => Shifted(rs[i], length))
  }

  /** After the insertion every range still slices the same text. */
  lemma ShiftKeepsSlices(raw: string, inserted: string, r: Range)
    requires 0 <= r.start <= r.end <= |raw|
    ensures var s := Shifted(r, |inserted|);
            0 <= s.start <= s.end <= |inserted + raw| && (inserted + raw)[s.start..s.end] == raw[r.start..r.end]
  {
  }

  lemma {:induction false} RangesCons(p: Piece, rest: seq<Piece>, at: nat)
    ensures Original([p] + rest) == OriginalOf(p) + Original(rest)
    ensures OriginalRanges([p] + rest, at) ==
            (if p.Plain? then [] else [Range(at, at + |OriginalOf(p)|)]) + OriginalRanges(rest, at + |OriginalOf(p)|)
  {
    assert ([p] + rest)[1..] == rest;
  }

  /** The pieces with a new module script in front. */
  function WithModuleScript(before: string, after: string, ps: seq<Piece>): seq<Piece> {
    [Plain(before)] + ([Script("", "", true)] + ([Plain(after)] + ps))
  }

  /** Ranges computed from a later start are the ranges, shifted. */
  lemma {:induction false} RangesShift(ps: seq<Piece>, at: nat, length: nat)
    ensures OriginalRanges(ps, at + length) == ShiftedAll(OriginalRanges(ps, at), length)
    decreases |ps|
  {
    hide OriginalRanges;
    if ps == [] {
      NoRanges(at);
      NoRanges(at + length);
    } else {
      var p, rest := ps[0], ps[1..];
      assert ps == [p] + rest;
      RangesCons(p, rest, at);
      RangesCons(p, rest, at + length);
      RangesShift(rest, at + |OriginalOf(p)|, length);
    }
  }

  /** The ranges after the insertion of a module script behind a part of the leading text: the empty range
      of the new script, and all other ranges moved behind it, by its length, are the ranges of the pieces
      with that script. */
  lemma {:induction false} InsertionIsExact(before: string, after: string, ps: seq<Piece>)
    ensures Original(WithModuleScript(before, after, ps)) == before + after + Original(ps)
    ensures OriginalRanges(WithModuleScript(before, after, ps), 0) ==
            [Range(|before|, |before|)] + ShiftedAll(OriginalRanges(ps, 0), |before + after|)
  {
    hide Original, OriginalRanges;
    var last := [Plain(after)] + ps;
    var middle := [Script("", "", true)] + last;
    RangesCons(Plain(before), middle, 0);
    RangesCons(Script("", "", true), last, |before|);
    RangesCons(Plain(after), ps, |before|);
    RangesShift(ps, 0, |before + after|);
    assert before + ("" + (after + Original(ps))) == before + after + Original(ps);
  }

  lemma {:induction false} NoRanges(at: nat)
    ensures OriginalRanges([], at) == []
  {
  }

  datatype Printable = Printable(range: Range, isExpression: bool, code: string)

  /** `slice(0, -1)` */
  function WithoutLast(s: string): string {
    if s == "" then "" else s[..|s| - 1]
  }

  function Rendered(p: Printable): string {
    if p.isExpression then WithoutLast(p.code) else "\n" + p.code + "\n"
  }

  function PrintFrom(raw: string, scripts: seq<Printable>, index: int): string
    decreases |scripts|
  {
    if scripts == [] then Substring(raw, index, |raw|)
    else
      Substring(raw, index, scripts[0].range.start) + Rendered(scripts[0]) + PrintFrom(raw, scripts[1..], scripts[0].range.end)
  }

  /** What should be printed of a script: an expression without the semicolon behind it, which is the last
      character of its code, and any other script on lines of its own. */
  function Shown(isExpression: bool, code: string): (text: string)
    ensures isExpression && code != "" ==> text + [code[|code| - 1]] == code
    ensures !isExpression ==> text == "\n" + code + "\n"
  {
    if !isExpression then "\n" + code + "\n" else if |code| > 0 then code[..|code| - 1] else code
  }

  /** What should be printed: all other text verbatim, once and in order, around the scripts. */
  function Spliced(ps: seq<Piece>, codes: seq<string>): string
    requires |codes| == |Contents(ps)|
  {
    if ps == [] then ""
    else if ps[0].Plain? then ps[0].text + Spliced(ps[1..], codes)
    else Shown(ps[0].Expression?, codes[0]) + Spliced(ps[1..], codes[1..])
  }

  function Printables(ps: seq<Piece>, codes: seq<string>, at: nat): seq<Printable>
    requires |codes| == |Contents(ps)|
  {
    if ps == [] then []
    else
      var next := at + |OriginalOf(ps[0])|;
      if ps[0].Plain? then Printables(ps[1..], codes, next)
      else [Printable(Range(at, next), ps[0].Expression?, codes[0])] + Printables(ps[1..], codes[1..], next)
  }

  /** The first piece of a text. */
  lemma {:induction false} TextCons(raw: string, ps: seq<Piece>, at: nat)
    requires ps != [] && at <= |raw| && raw[at..] == Original(ps)
    ensures at + |OriginalOf(ps[0])| <= |raw| && raw[at..at + |OriginalOf(ps[0])|] == OriginalOf(ps[0])
    ensures raw[at + |OriginalOf(ps[0])|..] == Original(ps[1..])
  {
    var n := |OriginalOf(ps[0])|;
    assert raw[at..][..n] == OriginalOf(ps[0]) && raw[at..][..n] == raw[at..at + n];
    assert raw[at..][n..] == raw[at + n..];
  }

  lemma PlainStep(raw: string, ps: seq<Piece>, codes: seq<string>, index: nat, at: nat)
    requires ps != [] && ps[0].Plain? && |codes| == |Contents(ps)| && index <= at && at + |ps[0].text| <= |raw|
    requires raw[at..at + |ps[0].text|] == ps[0].text && |codes| == |Contents(ps[1..])|
    requires PrintFrom(raw, Printables(ps[1..], codes, at + |ps[0].text|), index) == raw[index..at + |ps[0].text|] + Spliced(ps[1..], codes)
    ensures PrintFrom(raw, Printables(ps, codes, at), index) == raw[index..at] + Spliced(ps, codes)
  {
    hide PrintFrom, Contents, Printables, Spliced;
    PlainUnfolded(ps, codes, at);
    var text, rest := ps[0].text, Spliced(ps[1..], codes);
    assert raw[index..at + |text|] == raw[index..at] + text;
    Associative(raw[index..at], text, rest);
  }

  lemma PlainUnfolded(ps: seq<Piece>, codes: seq<string>, at: nat)
    requires ps != [] && ps[0].Plain? && |codes| == |Contents(ps)| && |codes| == |Contents(ps[1..])|
    ensures Printables(ps, codes, at) == Printables(ps[1..], codes, at + |ps[0].text|)
    ensures Spliced(ps, codes) == ps[0].text + Spliced(ps[1..], codes)
  {
  }

  lemma Associative(a: string, b: string, c: string)
    ensures (a + b) + c == a + (b + c)
  {
  }

  lemma ScriptStep(raw: string, ps: seq<Piece>, codes: seq<string>, index: nat, at: nat)
    requires ps != [] && !ps[0].Plain? && |codes| == |Contents(ps)| && index <= at && at + |OriginalOf(ps[0])| <= |raw|
    requires codes != [] && |codes[1..]| == |Contents(ps[1..])|
    requires var next := at + |OriginalOf(ps[0])|;
             PrintFrom(raw, Printables(ps[1..], codes[1..], next), next) == raw[next..next] + Spliced(ps[1..], codes[1..])
    ensures PrintFrom(raw, Printables(ps, codes, at), index) == raw[index..at] + Spliced(ps, codes)
  {
    hide PrintFrom, Contents, Rendered, Shown, Printables, Spliced;
    var next := at + |OriginalOf(ps[0])|;
    assert raw[next..next] == "";
    var first := Printable(Range(at, next), ps[0].Expression?, codes[0]);
    ScriptUnfolded(ps, codes, at);
    RenderedIsShown(first);
    PrintFirst(raw, first, Printables(ps[1..], codes[1..], next), index);
  }

  lemma {:induction false} ScriptUnfolded(ps: seq<Piece>, codes: seq<string>, at: nat)
    requires ps != [] && !ps[0].Plain? && |codes| == |Contents(ps)| && codes != []
             && |codes[1..]| == |Contents(ps[1..])|
    ensures var next := at + |OriginalOf(ps[0])|;
            && Printables(ps, codes, at) == [Printable(Range(at, next), ps[0].Expression?, codes[0])] + Printables(ps[1..], codes[1..], next)
            && Spliced(ps, codes) == Shown(ps[0].Expression?, codes[0]) + Spliced(ps[1..], codes[1..])
  {
    hide Shown;
  }

  lemma {:induction false} PrintIsSplice(raw: string, ps: seq<Piece>, codes: seq<string>, index: nat, at: nat)
    requires index <= at <= |raw| && raw[at..] == Original(ps) && |codes| == |Contents(ps)|
    ensures PrintFrom(raw, Printables(ps, codes, at), index) == raw[index..at] + Spliced(ps, codes)
    decreases |ps|
  {
    hide PrintFrom, Printables, Spliced, Original;
    if ps == [] {
      assert Printables(ps, codes, at) == [] && Spliced(ps, codes) == "" && Original(ps) == "" by {
        NothingSpliced(codes, at);
      }
      assert raw[index..] == raw[index..at] + raw[at..];
      PrintRest(raw, index);
    } else {
      TextCons(raw, ps, at);
      var next := at + |OriginalOf(ps[0])|;
      if ps[0].Plain? {
        PrintIsSplice(raw, ps[1..], codes, index, next);
        PlainStep(raw, ps, codes, index, at);
      } else {
        PrintIsSplice(raw, ps[1..], codes[1..], next, next);
        ScriptStep(raw, ps, codes, index, at);
      }
    }
  }

  lemma {:induction false} NothingSpliced(codes: seq<string>, at: nat)
    requires codes == []
    ensures Printables([], codes, at) == [] && Spliced([], codes) == "" && Original([]) == ""
  {
  }

  lemma {:induction false} PrintRest(raw: string, index: nat)
    requires index <= |raw|
    ensures PrintFrom(raw, [], index) == raw[index..]
  {
  }

  lemma {:induction false} PrintFirst(raw: string, first: Printable, rest: seq<Printable>, index: nat)
    requires index <= first.range.start <= |raw|
    ensures PrintFrom(raw, [first] + rest, index) ==
            raw[index..first.range.start] + (Rendered(first) + PrintFrom(raw, rest, first.range.end))
  {
    assert ([first] + rest)[1..] == rest;
  }

  lemma RenderedIsShown(p: Printable)
    ensures Rendered(p) == Shown(p.isExpression, p.code)
  {
  }

  /** The printer on scripts that are sorted by the start of their range. */
  method Print(raw: string, sortedScripts: seq<Printable>) returns (outputText: string)
    ensures outputText == PrintFrom(raw, sortedScripts, 0)
  {
    hide PrintFrom, Substring, Rendered, WithoutLast;
    var currentIndex := 0;
    outputText := "";
    for i := 0 to |sortedScripts|
      invariant outputText + PrintFrom(raw, sortedScripts[i..], currentIndex) == PrintFrom(raw, sortedScripts, 0)
    {
      var script := sortedScripts[i];
      assert sortedScripts[i..] == [script] + sortedScripts[i + 1..];
      var code := PrintOne(script);
      ghost var before, rest := outputText, PrintFrom(raw, sortedScripts[i + 1..], script.range.end);
      var text := Substring(raw, currentIndex, script.range.start);
      PrintUnfolded(raw, script, sortedScripts[i + 1..], currentIndex);
      Associative(before, text, code);
      Associative(before, text + code, rest);
      outputText := outputText + text + code;
      currentIndex := script.range.end;
    }
    PrintUnfoldedLast(raw, currentIndex);
    assert sortedScripts[|sortedScripts|..] == [];
    outputText := outputText + Substring(raw, currentIndex, |raw|);
  }

  method PrintOne(script: Printable) returns (code: string)
    ensures code == Rendered(script) && code == Shown(script.isExpression, script.code)
  {
    if script.isExpression {
      code := WithoutLast(script.code);
    } else {
      code := "\n";
      code := code + script.code;
      code := code + "\n";
    }
  }

  lemma {:induction false} PrintUnfolded(raw: string, first: Printable, rest: seq<Printable>, index: int)
    ensures PrintFrom(raw, [first] + rest, index) ==
            Substring(raw, index, first.range.start) + Rendered(first) + PrintFrom(raw, rest, first.range.end)
  {
    assert ([first] + rest)[1..] == rest;
  }

  lemma {:induction false} PrintUnfoldedLast(raw: string, index: int)
    ensures PrintFrom(raw, [], index) == Substring(raw, index, |raw|)
  {
  }

  /** Printing a file with its ranges copies all text outside them verbatim, once and in order. */
  lemma {:induction false} PrintingSplices(ps: seq<Piece>, codes: seq<string>)
    requires |codes| == |Contents(ps)|
    ensures PrintFrom(Original(ps), Printables(ps, codes, 0), 0) == Spliced(ps, codes)
  {
    assert Original(ps)[0..] == Original(ps);
    PrintIsSplice(Original(ps), ps, codes, 0, 0);
  }

  /** Printing a file with an inserted module script: the script with its header, and then the file as it
      would be printed without it. */
  lemma {:induction false} InsertedScriptIsPrinted(before: string, after: string, ps: seq<Piece>, header: string, codes: seq<string>)
    requires |codes| == |Contents(ps)|
    ensures var all := WithModuleScript(before, after, ps);
            && |Contents(all)| == |codes| + 1
            && PrintFrom(Original(all), Printables(all, [header] + codes, 0), 0)
               == before + ("\n" + header + "\n") + after + Spliced(ps, codes)
  {
    hide PrintFrom, Printables, Spliced, Original, Contents;
    var last := [Plain(after)] + ps;
    var middle := [Script("", "", true)] + last;
    var all := WithModuleScript(before, after, ps);
    ContentsCons(Plain(after), ps);
    ContentsCons(Script("", "", true), last);
    ContentsCons(Plain(before), middle);
    assert ([header] + codes)[1..] == codes;
    SplicedCons(Plain(after), ps, codes);
    SplicedCons(Script("", "", true), last, [header] + codes);
    SplicedCons(Plain(before), middle, [header] + codes);
    PrintingSplices(all, [header] + codes);
    var tail := Spliced(ps, codes);
    assert before + (("\n" + header + "\n") + (after + tail)) == before + ("\n" + header + "\n") + after + tail by {
      Associative(before, "\n" + header + "\n", after + tail);
      Associative(before + ("\n" + header + "\n"), after, tail);
    }
  }

  lemma {:induction false} ContentsCons(p: Piece, rest: seq<Piece>)
    ensures Contents([p] + rest) == (if p.Plain? then [] else [OriginalOf(p)]) + Contents(rest)
  {
    assert ([p] + rest)[1..] == rest;
  }

  lemma {:induction false} SplicedCons(p: Piece, rest: seq<Piece>, codes: seq<string>)
    requires |codes| == |Contents([p] + rest)| && |codes| == |Contents(rest)| + (if p.Plain? then 0 else 1)
    ensures Spliced([p] + rest, codes) ==
            if p.Plain? then p.text + Spliced(rest, codes)
            else Shown(p.Expression?, codes[0]) + Spliced(rest, codes[1..])
  {
    hide Shown;
    assert ([p] + rest)[1..] == rest;
  }
}
