/** From the plans of all mutants to their results: early results, one checker after the other, mutants
    without coverage, and the test runners. */
module Pipeline {
  import opened Options

  datatype CheckResult = Passed | CompileError(reason: string)

  datatype Plan =
    | EarlyResult(id: string, status: string)
    | RunPlan(id: string, testFilter: Option<seq<string>>, reloadEnvironment: bool)

  // ----- lists without duplicates

  ghost predicate Distinct<T>(s: seq<T>) {
    forall i, j :: 0 <= i < j < |s| ==> s[i] != s[j]
  }

  lemma {:induction false} AtMostOnce<T>(s: seq<T>, x: T)
    requires Distinct(s)
    ensures multiset(s)[x] == if x in s then 1 else 0
    decreases |s|
  {
    if s != [] {
      var init := s[..|s| - 1];
      AtMostOnce(init, x);
      assert s == init + [s[|s| - 1]];
    }
  }

  lemma SameElements<T>(a: seq<T>, b: seq<T>)
    requires Distinct(a) && Distinct(b) && forall x :: x in a <==> x in b
    ensures multiset(a) == multiset(b)
  {
    forall x
      ensures multiset(a)[x] == multiset(b)[x]
    {
      AtMostOnce(a, x);
      AtMostOnce(b, x);
    }
  }

  lemma {:induction false} Cardinality<T>(s: seq<T>, all: set<T>)
    requires forall x :: x in all <==> x in s
    ensures |all| <= |s|
    ensures |all| == |s| <==> Distinct(s)
    decreases |s|
  {
    if s == [] {
      assert all == {};
    } else {
      var init, last := s[..|s| - 1], s[|s| - 1];
      assert s == init + [last];
      if last in init {
        Cardinality(init, all);
      } else {
        assert forall x :: x in all - {last} <==> x in init;
        Cardinality(init, all - {last});
        assert |all| == |all - {last}| + 1;
      }
    }
  }

  function Ids(plans: seq<Plan>): (ids: seq<string>)
    ensures |ids| == |plans| && forall i :: 0 <= i < |ids| ==> ids[i] == plans[i].id
  {
    if plans == [] then [] else Ids(plans[..|plans| - 1]) + [plans[|plans| - 1].id]
  }

  function Elements<T(==)>(s: seq<T>): set<T> {
    set x <- s
  }

  function Flatten<T>(groups: seq<seq<T>>): seq<T> {
    if groups == [] then [] else Flatten(groups[..|groups| - 1]) + groups[|groups| - 1]
  }

  lemma {:induction false} FlattenSnoc<T>(groups: seq<seq<T>>, g: seq<T>)
    ensures Flatten(groups + [g]) == Flatten(groups) + g
  {
    assert (groups + [g])[..|groups|] == groups;
  }

  // ----- `CheckerFacade`

  /** The plan with an id; the last one wins, as in a map that is filled in order. */
  function PlanOf(plans: seq<Plan>, id: string): Option<Plan> {
    if plans == [] then None
    else if plans[|plans| - 1].id == id then Some(plans[|plans| - 1])
    else PlanOf(plans[..|plans| - 1], id)
  }

  lemma {:induction false} PlanOfMeans(plans: seq<Plan>, id: string)
    ensures PlanOf(plans, id).Some? <==> id in Ids(plans)
    ensures PlanOf(plans, id).Some? ==> PlanOf(plans, id).value in plans && PlanOf(plans, id).value.id == id
    decreases |plans|
  {
    if plans != [] {
      PlanOfMeans(plans[..|plans| - 1], id);
    }
  }

  datatype Answer = Answer(id: string, result: CheckResult)

  datatype Checked = Checked(plan: Plan, result: CheckResult)

  function AnswerIds(answers: seq<Answer>): (ids: seq<string>)
    ensures |ids| == |answers| && forall i :: 0 <= i < |ids| ==> ids[i] == answers[i].id
  {
    if answers == [] then [] else AnswerIds(answers[..|answers| - 1]) + [answers[|answers| - 1].id]
  }

  function PlansOf(checked: seq<Checked>): (plans: seq<Plan>)
    ensures |plans| == |checked| && forall i :: 0 <= i < |plans| ==> plans[i] == checked[i].plan
  {
    if checked == [] then [] else PlansOf(checked[..|checked| - 1]) + [checked[|checked| - 1].plan]
  }

  /** Known ids and enough results force one result for every plan. */
  lemma {:induction false} EnoughIsAll(plans: seq<Plan>, ids: seq<string>)
    requires Distinct(ids) && |plans| <= |ids| && forall id <- ids :: id in Ids(plans)
    ensures Distinct(Ids(plans)) && |plans| == |ids| && forall id <- Ids(plans) :: id in ids
  {
    var asked := set id <- Ids(plans);
    var given := set id <- ids;
    Cardinality(Ids(plans), asked);
    Cardinality(ids, given);
    assert given <= asked;
    SubsetOfSameSize(given, asked);
  }

  lemma {:induction false} SubsetOfSameSize<T>(a: set<T>, b: set<T>)
    requires a <= b
    ensures |a| <= |b|
    ensures |a| == |b| ==> a == b
  {
    assert b == a + (b - a);
    if a != b {
      assert |b - a| > 0;
    }
  }

  /** Every answer is about one of the plans, and there are enough of them. */
  predicate Answered(plans: seq<Plan>, answers: seq<Answer>) {
    (forall id <- AnswerIds(answers) :: id in Ids(plans)) && |plans| <= |answers|
  }

  /** `check`: exactly one answer for every plan, or an exception. */
  method Check(plans: seq<Plan>, answers: seq<Answer>) returns (results: Option<seq<Checked>>)
    requires Distinct(AnswerIds(answers))
    ensures results.Some? <==> Answered(plans, answers)
    ensures results.Some? ==> Distinct(Ids(plans)) && multiset(PlansOf(results.value)) == multiset(plans)
    ensures results.Some? ==> forall c <- results.value :: Answer(c.plan.id, c.result) in answers
  {
    var checked: seq<Checked> := [];
    for i := 0 to |answers|
      invariant |checked| == i && forall k :: 0 <= k < i ==> answers[k].id in Ids(plans)
      invariant forall k :: 0 <= k < i ==>
        checked[k].plan in plans && checked[k].plan.id == answers[k].id && checked[k].result == answers[k].result
    {
      PlanOfMeans(plans, answers[i].id);
      var plan := PlanOf(plans, answers[i].id);
      if plan.None? {
        assert answers[i].id == AnswerIds(answers)[i];
        return None;
      }
      checked := checked + [Checked(plan.value, answers[i].result)];
    }
    if |plans| > |checked| {
      return None;
    }
    results := Some(checked);
    EveryPlanIsChecked(plans, answers, checked);
  }

  lemma {:induction false} EveryPlanIsChecked(plans: seq<Plan>, answers: seq<Answer>, checked: seq<Checked>)
    requires Distinct(AnswerIds(answers)) && |plans| <= |answers| == |checked|
    requires forall k :: 0 <= k < |answers| ==> checked[k].plan in plans && checked[k].plan.id == answers[k].id
    ensures Distinct(Ids(plans)) && multiset(PlansOf(checked)) == multiset(plans)
  {
    var ids := AnswerIds(answers);
    forall id | id in ids
      ensures id in Ids(plans)
    {
      var k :| 0 <= k < |ids| && ids[k] == id;
      var i :| 0 <= i < |plans| && plans[i] == checked[k].plan;
      assert Ids(plans)[i] == id;
    }
    EnoughIsAll(plans, ids);
    forall p | p in plans
      ensures p in PlansOf(checked)
    {
      var i :| 0 <= i < |plans| && plans[i] == p;
      assert Ids(plans)[i] in ids;
      var k :| 0 <= k < |answers| && ids[k] == p.id;
      SamePlan(plans, checked[k].plan, p);
      assert PlansOf(checked)[k] == p;
    }
    assert Distinct(PlansOf(checked)) by {
      CheckedDistinct(answers, checked);
    }
    DistinctPlans(plans);
    SameElements(PlansOf(checked), plans);
  }

  lemma {:induction false} CheckedDistinct(answers: seq<Answer>, checked: seq<Checked>)
    requires Distinct(AnswerIds(answers)) && |answers| == |checked|
    requires forall k :: 0 <= k < |answers| ==> checked[k].plan.id == answers[k].id
    ensures Distinct(PlansOf(checked))
  {
    forall i, j | 0 <= i < j < |checked|
      ensures PlansOf(checked)[i] != PlansOf(checked)[j]
    {
      assert AnswerIds(answers)[i] != AnswerIds(answers)[j];
    }
  }

  lemma {:induction false} SamePlan(plans: seq<Plan>, a: Plan, b: Plan)
    requires Distinct(Ids(plans)) && a in plans && b in plans && a.id == b.id
    ensures a == b
  {
    var i :| 0 <= i < |plans| && plans[i] == a;
    var j :| 0 <= j < |plans| && plans[j] == b;
    assert Ids(plans)[i] == Ids(plans)[j];
  }

  lemma {:induction false} DistinctPlans(plans: seq<Plan>)
    requires Distinct(Ids(plans))
    ensures Distinct(plans)
  {
    forall i, j | 0 <= i < j < |plans|
      ensures plans[i] != plans[j]
    {
      assert Ids(plans)[i] != Ids(plans)[j];
    }
  }

  /** Every id is that of a plan, and there are enough different ones. */
  predicate Groupable(plans: seq<Plan>, idGroups: seq<seq<string>>) {
    (forall id <- Flatten(idGroups) :: id in Ids(plans)) && |plans| <= |Elements(Flatten(idGroups))|
  }

  function PlansWith(plans: seq<Plan>, ids: seq<string>): seq<Plan> {
    if ids == [] then []
    else
      var plan := PlanOf(plans, ids[|ids| - 1]);
      PlansWith(plans, ids[..|ids| - 1]) + if plan.Some? then [plan.value] else []
  }

  /** The groups of plans that the groups of ids stand for. */
  function GroupedPlans(plans: seq<Plan>, idGroups: seq<seq<string>>): seq<seq<Plan>> {
    seq(|idGroups|, i requires 0 <= i < |idGroups| => PlansWith(plans, idGroups[i]))
  }

  /** `group`: every plan is in some group, or an exception.  The groups are a partition of the
      plans exactly if the checker repeats no id. */
  method Group(plans: seq<Plan>, idGroups: seq<seq<string>>) returns (groups: Option<seq<seq<Plan>>>)
    ensures groups.Some? <==> Groupable(plans, idGroups)
    ensures groups.Some? ==> groups.value == GroupedPlans(plans, idGroups)
    ensures groups.Some? ==> |groups.value| == |idGroups|
    ensures groups.Some? ==> forall i :: 0 <= i < |idGroups| ==> Ids(groups.value[i]) == idGroups[i]
    ensures groups.Some? ==> Distinct(Ids(plans)) && Ids(Flatten(groups.value)) == Flatten(idGroups)
    ensures groups.Some? ==> forall p :: p in Flatten(groups.value) <==> p in plans
    ensures groups.Some? ==> (multiset(Flatten(groups.value)) == multiset(plans) <==> Distinct(Flatten(idGroups)))
  {
    hide Flatten, Ids, Distinct, PlansWith;
    var all: seq<seq<Plan>> := [];
    var grouped: set<string> := {};
    NothingGrouped(idGroups);
    for i := 0 to |idGroups|
      invariant Ids(Flatten(all)) == Flatten(idGroups[..i]) && forall p <- Flatten(all) :: p in plans
      invariant |all| == i
      invariant forall k :: 0 <= k < i ==> all[k] == PlansWith(plans, idGroups[k]) && Ids(all[k]) == idGroups[k]
      invariant grouped == Elements(Flatten(idGroups[..i]))
      invariant forall id <- Flatten(idGroups[..i]) :: id in Ids(plans)
    {
      assert idGroups[..i + 1] == idGroups[..i] + [idGroups[i]];
      FlattenSnoc(idGroups[..i], idGroups[i]);
      var group := GroupOf(plans, idGroups[i]);
      if group.None? {
        UnknownId(idGroups, i, Ids(plans));
        return None;
      }
      FlattenSnoc(all, group.value);
      IdsAppend(Flatten(all), group.value);
      all := all + [group.value];
      grouped := grouped + Elements(idGroups[i]);
    }
    assert idGroups[..|idGroups|] == idGroups;
    if |plans| > |grouped| {
      return None;
    }
    groups := Some(all);
    EveryPlanIsGrouped(plans, Flatten(all), Flatten(idGroups), grouped);
  }

  lemma NothingGrouped(idGroups: seq<seq<string>>)
    ensures Flatten<Plan>([]) == [] && Flatten(idGroups[..0]) == [] && Ids([]) == []
  {
  }

  lemma {:induction false} UnknownId(idGroups: seq<seq<string>>, i: nat, known: seq<string>)
    requires i < |idGroups| && exists id <- idGroups[i] :: id !in known
    ensures exists id <- Flatten(idGroups) :: id !in known
  {
    var id :| id in idGroups[i] && id !in known;
    FlattenHas(idGroups, i, id);
  }

  method GroupOf(plans: seq<Plan>, ids: seq<string>) returns (group: Option<seq<Plan>>)
    ensures group.Some? <==> forall id <- ids :: id in Ids(plans)
    ensures group.Some? ==> group.value == PlansWith(plans, ids)
    ensures group.Some? ==> Ids(group.value) == ids && forall p <- group.value :: p in plans
  {
    var found: seq<Plan> := [];
    for j := 0 to |ids|
      invariant |found| == j && forall k :: 0 <= k < j ==> found[k].id == ids[k] && found[k] in plans
      invariant found == PlansWith(plans, ids[..j])
      invariant forall id <- ids[..j] :: id in Ids(plans)
    {
      PlanOfMeans(plans, ids[j]);
      assert ids[..j + 1][..j] == ids[..j];
      var plan := PlanOf(plans, ids[j]);
      if plan.None? {
        return None;
      }
      found := found + [plan.value];
    }
    assert ids[..|ids|] == ids;
    group := Some(found);
  }

  lemma {:induction false} FlattenHas<T>(groups: seq<seq<T>>, i: nat, x: T)
    requires i < |groups| && x in groups[i]
    ensures x in Flatten(groups)
    decreases |groups|
  {
    if i < |groups| - 1 {
      FlattenHas(groups[..|groups| - 1], i, x);
    }
  }

  lemma {:induction false} IdsAppend(a: seq<Plan>, b: seq<Plan>)
    ensures Ids(a + b) == Ids(a) + Ids(b)
  {
  }

  lemma {:induction false} EveryPlanIsGrouped(plans: seq<Plan>, grouped: seq<Plan>, ids: seq<string>,
                                              idSet: set<string>)
    requires Ids(grouped) == ids && (forall p <- grouped :: p in plans) && (forall id <- ids :: id in Ids(plans))
    requires idSet == Elements(ids) && |plans| <= |idSet|
    ensures Distinct(Ids(plans)) && forall p :: p in grouped <==> p in plans
    ensures multiset(grouped) == multiset(plans) <==> Distinct(ids)
  {
    var asked := set id <- Ids(plans);
    Cardinality(Ids(plans), asked);
    SubsetOfSameSize(idSet, asked);
    forall p | p in plans
      ensures p in grouped
    {
      var i :| 0 <= i < |plans| && plans[i] == p;
      assert Ids(plans)[i] in asked && p.id in ids;
      var k :| 0 <= k < |ids| && ids[k] == p.id;
      SamePlan(plans, grouped[k], p);
    }
    DistinctPlans(plans);
    if Distinct(ids) {
      DistinctPlans(grouped);
      SameElements(grouped, plans);
    } else if multiset(grouped) == multiset(plans) {
      assert |ids| == |grouped| == |multiset(grouped)| == |plans|;
      Cardinality(ids, idSet);
    }
  }

  /** The facade does not notice that a mutant is in two groups. */
  lemma RepeatedIdIsAccepted(plan: Plan)
    ensures var plans, idGroups := [plan], [[plan.id], [plan.id]];
            && Groupable(plans, idGroups)
            && !Distinct(Flatten(idGroups))
  {
    hide Flatten, Ids;
    var group := [plan.id];
    FlattenNone<string>();
    FlattenSnoc([], group);
    FlattenSnoc([] + [group], group);
    assert [] + [group] + [group] == [group, group];
    var ids := [plan.id, plan.id];
    assert Flatten([group, group]) == ids;
    assert ids[0] == ids[1] && Ids([plan])[0] == plan.id;
    assert Elements(ids) == {plan.id};
  }

  lemma FlattenNone<T>()
    ensures Flatten<T>([]) == []
  {
  }

  // ----- `MutationTestExecutor`

  /** A checker as an oracle; its check results are the entries of an object, so no id is repeated. */
  datatype Checker = Checker(group: seq<Plan> -> seq<seq<string>>, check: seq<Plan> -> seq<Answer>)

  ghost predicate ReturnsObjects(c: Checker) {
    forall plans :: Distinct(AnswerIds(c.check(plans)))
  }

  ghost predicate GroupsOnce(c: Checker) {
    forall plans :: Distinct(Flatten(c.group(plans)))
  }

  /** The checker groups exactly the plans that it is given, and answers for exactly those of a group. */
  ghost predicate Cooperative(c: Checker) {
    forall plans :: Distinct(Ids(plans)) ==>
      && Elements(Flatten(c.group(plans))) == Elements(Ids(plans))
      && Elements(AnswerIds(c.check(plans))) == Elements(Ids(plans))
  }

  /** The checker answers for every group that it makes of these plans. */
  predicate ChecksAll(c: Checker, plans: seq<Plan>) {
    && Groupable(plans, c.group(plans))
    && forall g <- GroupedPlans(plans, c.group(plans)) :: Answered(g, c.check(g))
  }

  /** A verdict comes from the answer of the checker about some group with the plan. */
  ghost predicate VerdictOf(c: Checker, v: Checked) {
    exists group: seq<Plan> :: v.plan in group && Answer(v.plan.id, v.result) in c.check(group)
  }

  /** How a stream is cut into buffers by time: any way that loses and repeats nothing. */
  type Buffering = (nat, seq<Plan>) -> seq<seq<Plan>>

  ghost predicate Lossless(b: Buffering) {
    forall n: nat, plans :: multiset(Flatten(b(n, plans))) == multiset(plans)
  }

  datatype Outcome = Early(status: string) | CheckFailed(reason: string) | NoCoverage | Ran(status: string)

  datatype Result = Result(plan: Plan, outcome: Outcome)

  function ResultPlans(rs: seq<Result>): (plans: seq<Plan>)
    ensures |plans| == |rs| && forall i :: 0 <= i < |plans| ==> plans[i] == rs[i].plan
  {
    if rs == [] then [] else ResultPlans(rs[..|rs| - 1]) + [rs[|rs| - 1].plan]
  }

  lemma {:induction false} ResultPlansAppend(a: seq<Result>, b: seq<Result>)
    ensures ResultPlans(a + b) == ResultPlans(a) + ResultPlans(b)
  {
  }

  lemma {:induction false} PlansOfAppend(a: seq<Checked>, b: seq<Checked>)
    ensures PlansOf(a + b) == PlansOf(a) + PlansOf(b)
  {
  }

  /** The outcome that a plan can have. */
  predicate Fits(r: Result) {
    match r.outcome
    case Early(status) => r.plan.EarlyResult? && r.plan.status == status
    case CheckFailed(_) => r.plan.RunPlan?
    case NoCoverage => r.plan.RunPlan? && r.plan.testFilter == Some([])
    case Ran(_) => r.plan.RunPlan? && r.plan.testFilter != Some([])
  }

  /** The plans of all groups that the checker makes of the buffers, as often as they are in a group. */
  function GroupedAll(c: Checker, buffers: seq<seq<Plan>>): multiset<Plan> {
    if buffers == [] then multiset{}
    else
      var b := buffers[|buffers| - 1];
      GroupedAll(c, buffers[..|buffers| - 1]) + multiset(Flatten(GroupedPlans(b, c.group(b))))
  }

  /** One checker: every buffer is grouped, and every group is checked.  There is one result for every plan
      exactly if no id is repeated in the groups of a buffer. */
  method ExecuteSingleChecker(c: Checker, buffers: seq<seq<Plan>>) returns (results: Option<seq<Checked>>)
    requires ReturnsObjects(c)
    ensures results.Some? <==> forall b <- buffers :: ChecksAll(c, b)
    ensures results.Some? ==> multiset(PlansOf(results.value)) == GroupedAll(c, buffers)
    ensures results.Some? ==>
              (multiset(PlansOf(results.value)) == multiset(Flatten(buffers)) <==>
                forall b <- buffers :: Distinct(Flatten(c.group(b))))
    ensures results.Some? ==> forall v <- results.value :: VerdictOf(c, v)
  {
    hide Flatten, Ids, AnswerIds, Distinct, PlansOf, Groupable, Answered, GroupedPlans, VerdictOf;
    var checked: seq<Checked> := [];
    assert multiset(PlansOf(checked)) == GroupedAll(c, buffers[..0]) by {
      NothingChecked(buffers);
    }
    for i := 0 to |buffers|
      invariant multiset(PlansOf(checked)) == GroupedAll(c, buffers[..i])
      invariant (forall b <- buffers[..i] :: ChecksAll(c, b)) && forall v <- checked :: VerdictOf(c, v)
    {
      assert buffers[..i + 1][..i] == buffers[..i];
      assert buffers[i] in buffers;
      var groups := Group(buffers[i], c.group(buffers[i]));
      if groups.None? {
        return None;
      }
      var more := CheckGroups(c, groups.value);
      assert more.Some? <==> ChecksAll(c, buffers[i]);
      if more.None? {
        return None;
      }
      PlansOfAppend(checked, more.value);
      checked := checked + more.value;
    }
    assert buffers[..|buffers|] == buffers;
    GroupedOnceIff(c, buffers);
    results := Some(checked);
  }

  lemma {:induction false} GroupedIds(plans: seq<Plan>, idGroups: seq<seq<string>>)
    requires forall id <- Flatten(idGroups) :: id in Ids(plans)
    ensures Ids(Flatten(GroupedPlans(plans, idGroups))) == Flatten(idGroups)
    decreases |idGroups|
  {
    hide Ids, PlansWith;
    if idGroups == [] {
      NothingGrouped(idGroups);
    } else {
      var n := |idGroups| - 1;
      var init, last := idGroups[..n], idGroups[n];
      assert forall id <- Flatten(init) + last :: id in Ids(plans);
      GroupedIds(plans, init);
      PlansWithIds(plans, last);
      assert GroupedPlans(plans, idGroups)[..n] == GroupedPlans(plans, init);
      IdsAppend(Flatten(GroupedPlans(plans, init)), PlansWith(plans, last));
    }
  }

  lemma {:induction false} KnownGrouped(plans: seq<Plan>, ids: seq<string>)
    requires forall id <- ids :: id in Ids(plans)
    ensures forall p <- PlansWith(plans, ids) :: p in plans
    decreases |ids|
  {
    if ids != [] {
      KnownGrouped(plans, ids[..|ids| - 1]);
      PlanOfMeans(plans, ids[|ids| - 1]);
    }
  }

  lemma {:induction false} FlattenFrom<T>(groups: seq<seq<T>>, x: T)
    requires x in Flatten(groups)
    ensures exists g <- groups :: x in g
    decreases |groups|
  {
    var init, last := groups[..|groups| - 1], groups[|groups| - 1];
    if x in last {
      assert last in groups;
    } else {
      FlattenFrom(init, x);
    }
  }

  /** The groups of one buffer hold each of its plans, and each once exactly if no id is repeated. */
  lemma {:induction false} BufferGrouped(plans: seq<Plan>, idGroups: seq<seq<string>>)
    requires Groupable(plans, idGroups)
    ensures var grouped := multiset(Flatten(GroupedPlans(plans, idGroups)));
            multiset(plans) <= grouped && (grouped == multiset(plans) <==> Distinct(Flatten(idGroups)))
  {
    hide Flatten, Ids, Distinct, PlansWith;
    var grouped := Flatten(GroupedPlans(plans, idGroups));
    GroupedIds(plans, idGroups);
    forall p | p in grouped
      ensures p in plans
    {
      FlattenFrom(GroupedPlans(plans, idGroups), p);
      var k :| 0 <= k < |idGroups| && p in PlansWith(plans, idGroups[k]);
      forall id | id in idGroups[k]
        ensures id in Ids(plans)
      {
        FlattenHas(idGroups, k, id);
      }
      KnownGrouped(plans, idGroups[k]);
    }
    EveryPlanIsGrouped(plans, grouped, Flatten(idGroups), Elements(Flatten(idGroups)));
    DistinctPlans(plans);
    forall p
      ensures multiset(plans)[p] <= multiset(grouped)[p]
    {
      AtMostOnce(plans, p);
      assert p in grouped <==> p in multiset(grouped);
    }
  }

  lemma {:induction false} GroupedOnceIff(c: Checker, buffers: seq<seq<Plan>>)
    requires forall b <- buffers :: ChecksAll(c, b)
    ensures multiset(Flatten(buffers)) <= GroupedAll(c, buffers)
    ensures GroupedAll(c, buffers) == multiset(Flatten(buffers)) <==>
            forall b <- buffers :: Distinct(Flatten(c.group(b)))
    decreases |buffers|
  {
    hide Distinct, Groupable, Answered, GroupedPlans;
    if buffers != [] {
      var init, last := buffers[..|buffers| - 1], buffers[|buffers| - 1];
      assert buffers == init + [last];
      GroupedOnceIff(c, init);
      assert last in buffers && ChecksAll(c, last);
      BufferGrouped(last, c.group(last));
      var here := multiset(Flatten(GroupedPlans(last, c.group(last))));
      SumsEqualIff(multiset(Flatten(init)), GroupedAll(c, init), multiset(last), here);
      assert multiset(Flatten(buffers)) == multiset(Flatten(init)) + multiset(last);
      assert GroupedAll(c, buffers) == GroupedAll(c, init) + here;
    }
  }

  lemma SumsEqualIff<T>(a: multiset<T>, a': multiset<T>, b: multiset<T>, b': multiset<T>)
    requires a <= a' && b <= b'
    ensures a + b <= a' + b'
    ensures a' + b' == a + b <==> a' == a && b' == b
  {
    if a' + b' == a + b {
      forall x
        ensures a'[x] == a[x] && b'[x] == b[x]
      {
        assert (a' + b')[x] == (a + b)[x];
      }
    }
  }

  /** A checker that puts a mutant in two groups gets through, and the mutant has two results. */
  lemma {:induction false} RepeatedIdIsReportedTwice(c: Checker, plan: Plan, result: CheckResult)
    requires c.group([plan]) == [[plan.id], [plan.id]] && c.check([plan]) == [Answer(plan.id, result)]
    ensures ChecksAll(c, [plan]) && GroupedAll(c, [[plan]])[plan] == 2
  {
    hide Groupable, Flatten;
    var idGroups := [[plan.id], [plan.id]];
    RepeatedIdIsAccepted(plan);
    assert PlanOf([plan], plan.id) == Some(plan);
    assert PlansWith([plan], [plan.id]) == [plan] by {
      assert [plan.id][..0] == [];
    }
    assert GroupedPlans([plan], idGroups) == [[plan], [plan]];
    assert Ids([plan])[0] == plan.id && AnswerIds([Answer(plan.id, result)])[0] == plan.id;
    FlattenNone<Plan>();
    FlattenSnoc([], [plan]);
    FlattenSnoc([] + [[plan]], [plan]);
    assert [] + [[plan]] + [[plan]] == [[plan], [plan]];
    assert Flatten([[plan], [plan]]) == [plan, plan];
    assert [[plan]][..0] == [];
  }

  lemma NothingChecked(buffers: seq<seq<Plan>>)
    ensures PlansOf([]) == [] && Flatten(buffers[..0]) == []
  {
  }

  method CheckGroups(c: Checker, groups: seq<seq<Plan>>) returns (results: Option<seq<Checked>>)
    requires ReturnsObjects(c)
    ensures results.Some? <==> forall g <- groups :: Answered(g, c.check(g))
    ensures results.Some? ==> multiset(PlansOf(results.value)) == multiset(Flatten(groups))
    ensures results.Some? ==> forall v <- results.value :: VerdictOf(c, v)
  {
    hide Answered, Distinct, PlansOf, Flatten, VerdictOf;
    assert PlansOf([]) == [] && Flatten(groups[..0]) == [] by {
      NothingChecked(groups);
    }
    var checked: seq<Checked> := [];
    for i := 0 to |groups|
      invariant multiset(PlansOf(checked)) == multiset(Flatten(groups[..i]))
      invariant (forall g <- groups[..i] :: Answered(g, c.check(g))) && forall v <- checked :: VerdictOf(c, v)
    {
      assert groups[..i + 1] == groups[..i] + [groups[i]];
      FlattenSnoc(groups[..i], groups[i]);
      var more := Check(groups[i], c.check(groups[i]));
      if more.None? {
        return None;
      }
      VerdictsOf(c, groups[i], more.value);
      PlansOfAppend(checked, more.value);
      checked := checked + more.value;
    }
    assert groups[..|groups|] == groups;
    results := Some(checked);
  }

  lemma {:induction false} VerdictsOf(c: Checker, group: seq<Plan>, checked: seq<Checked>)
    requires multiset(PlansOf(checked)) == multiset(group)
    requires forall v <- checked :: Answer(v.plan.id, v.result) in c.check(group)
    ensures forall v <- checked :: VerdictOf(c, v)
  {
    forall v | v in checked
      ensures v.plan in group
    {
      var i :| 0 <= i < |checked| && checked[i] == v;
      assert PlansOf(checked)[i] == v.plan;
      assert v.plan in multiset(PlansOf(checked)) && v.plan in multiset(group);
    }
  }

  // ----- when checkers succeed

  lemma {:induction false} DistinctPart(all: seq<Plan>, part: seq<Plan>)
    requires Distinct(Ids(all)) && multiset(part) <= multiset(all)
    ensures Distinct(Ids(part))
  {
    DistinctPlans(all);
    forall i, j | 0 <= i < j < |part|
      ensures Ids(part)[i] != Ids(part)[j]
    {
      assert part[i] in multiset(all) && part[j] in multiset(all);
      if part[i].id == part[j].id {
        SamePlan(all, part[i], part[j]);
        TwiceCounts(part, i, j);
        AtMostOnce(all, part[i]);
      }
    }
  }

  lemma {:induction false} FlattenPart<T>(groups: seq<seq<T>>, i: nat)
    requires i < |groups|
    ensures multiset(groups[i]) <= multiset(Flatten(groups))
    ensures Distinct(Flatten(groups)) ==> Distinct(groups[i])
    decreases |groups|
  {
    var init := groups[..|groups| - 1];
    assert Flatten(groups) == Flatten(init) + groups[|groups| - 1];
    if i < |groups| - 1 {
      FlattenPart(init, i);
      if Distinct(Flatten(groups)) {
        DistinctPrefix(Flatten(groups), |Flatten(init)|);
        assert Flatten(groups)[..|Flatten(init)|] == Flatten(init);
      }
    } else if Distinct(Flatten(groups)) {
      DistinctSuffix(Flatten(groups), |Flatten(init)|);
      assert Flatten(groups)[|Flatten(init)|..] == groups[i];
    }
  }

  lemma DistinctPrefix<T>(s: seq<T>, k: nat)
    requires Distinct(s) && k <= |s|
    ensures Distinct(s[..k])
  {
  }

  lemma DistinctSuffix<T>(s: seq<T>, k: nat)
    requires Distinct(s) && k <= |s|
    ensures Distinct(s[k..])
  {
  }

  lemma {:induction false} PlansWithIds(plans: seq<Plan>, ids: seq<string>)
    requires forall id <- ids :: id in Ids(plans)
    ensures Ids(PlansWith(plans, ids)) == ids
    decreases |ids|
  {
    if ids != [] {
      var init, last := ids[..|ids| - 1], ids[|ids| - 1];
      PlansWithIds(plans, init);
      PlanOfMeans(plans, last);
      assert last in ids && ids == init + [last];
      IdsAppend(PlansWith(plans, init), [PlanOf(plans, last).value]);
    }
  }

  /** With as many ids as plans and none of them unknown or repeated, the ids are those of the plans. */
  lemma {:induction false} SameIdsIff(plans: seq<Plan>, ids: seq<string>)
    requires Distinct(Ids(plans)) && Distinct(ids)
    ensures (forall id <- ids :: id in Ids(plans)) && |plans| <= |ids| <==> Elements(ids) == Elements(Ids(plans))
    ensures |Elements(ids)| == |ids|
  {
    Cardinality(Ids(plans), Elements(Ids(plans)));
    Cardinality(ids, Elements(ids));
    if forall id <- ids :: id in Ids(plans) {
      assert Elements(ids) <= Elements(Ids(plans));
      SubsetOfSameSize(Elements(ids), Elements(Ids(plans)));
    }
    if Elements(ids) == Elements(Ids(plans)) {
      forall id | id in ids
        ensures id in Ids(plans)
      {
        assert id in Elements(ids);
      }
    }
  }

  /** A checker gets through a buffer exactly if it groups the plans of the buffer and no others, and
      answers for the plans of each group and no others. */
  lemma {:induction false} ChecksAllIff(c: Checker, plans: seq<Plan>)
    requires ReturnsObjects(c) && GroupsOnce(c) && Distinct(Ids(plans))
    ensures ChecksAll(c, plans) <==>
            && Elements(Flatten(c.group(plans))) == Elements(Ids(plans))
            && forall g <- GroupedPlans(plans, c.group(plans)) :: Elements(AnswerIds(c.check(g))) == Elements(Ids(g))
  {
    hide Flatten, Ids, AnswerIds, Distinct, PlansWith;
    var ids := c.group(plans);
    SameIdsIff(plans, Flatten(ids));
    if Elements(Flatten(ids)) == Elements(Ids(plans)) {
      forall g | g in GroupedPlans(plans, ids)
        ensures Answered(g, c.check(g)) <==> Elements(AnswerIds(c.check(g))) == Elements(Ids(g))
      {
        var i :| 0 <= i < |ids| && g == PlansWith(plans, ids[i]);
        GroupDistinct(plans, ids, i);
        SameIdsIff(g, AnswerIds(c.check(g)));
      }
    }
  }

  lemma {:induction false} GroupDistinct(plans: seq<Plan>, ids: seq<seq<string>>, i: nat)
    requires i < |ids| && Distinct(Flatten(ids)) && Elements(Flatten(ids)) == Elements(Ids(plans))
    ensures Distinct(Ids(PlansWith(plans, ids[i])))
  {
    forall id | id in ids[i]
      ensures id in Ids(plans)
    {
      FlattenHas(ids, i, id);
      assert id in Elements(Flatten(ids));
    }
    PlansWithIds(plans, ids[i]);
    FlattenPart(ids, i);
  }

  /** A cooperative checker gets through all buffers of plans with different ids. */
  lemma {:induction false} CooperationSucceeds(c: Checker, buffers: seq<seq<Plan>>)
    requires ReturnsObjects(c) && GroupsOnce(c) && Cooperative(c) && Distinct(Ids(Flatten(buffers)))
    ensures forall b <- buffers :: ChecksAll(c, b)
  {
    hide Flatten, Ids, AnswerIds, Distinct, PlansWith, ChecksAll;
    forall b | b in buffers
      ensures ChecksAll(c, b)
    {
      var i :| 0 <= i < |buffers| && buffers[i] == b;
      FlattenPart(buffers, i);
      DistinctPart(Flatten(buffers), b);
      ChecksAllIff(c, b);
      forall g | g in GroupedPlans(b, c.group(b))
        ensures Distinct(Ids(g))
      {
        var k :| 0 <= k < |c.group(b)| && g == PlansWith(b, c.group(b)[k]);
        GroupDistinct(b, c.group(b), k);
      }
    }
  }

  ghost predicate PassedBy(c: Checker, plan: Plan) {
    VerdictOf(c, Checked(plan, Passed))
  }

  /** The mutant failed the check of one of the checkers, for the given reason. */
  ghost predicate FailedBy(checkers: seq<Checker>, r: Result) {
    r.outcome.CheckFailed? && exists c <- checkers :: VerdictOf(c, Checked(r.plan, CompileError(r.outcome.reason)))
  }

  /** The mutants that fail a check, and those that pass all of them. */
  method ExecuteCheck(checkers: seq<Checker>, input: seq<Plan>, buffering: Buffering)
    returns (failed: seq<Result>, passed: Option<seq<Plan>>)
    requires Lossless(buffering) && forall c <- checkers :: ReturnsObjects(c) && GroupsOnce(c)
    requires forall p <- input :: p.RunPlan?
    ensures checkers == [] ==> passed == Some(input)
    ensures Distinct(Ids(input)) && (forall c <- checkers :: Cooperative(c)) ==> passed.Some?
    ensures passed.Some? ==> multiset(ResultPlans(failed)) + multiset(passed.value) == multiset(input)
    ensures forall r <- failed :: Fits(r) && FailedBy(checkers, r)
    ensures passed.Some? ==> forall p <- passed.value :: p.RunPlan? && forall c <- checkers :: PassedBy(c, p)
  {
    hide Flatten, Ids, AnswerIds, Distinct, Cooperative, VerdictOf, ResultPlans;
    assert ResultPlans([]) == [] by {
      NoResults();
    }
    failed := [];
    var current := input;
    for i := 0 to |checkers|
      invariant i == 0 ==> current == input
      invariant multiset(ResultPlans(failed)) + multiset(current) == multiset(input)
      invariant forall r <- failed :: Fits(r) && FailedBy(checkers, r)
      invariant forall p <- current :: p.RunPlan? && forall c <- checkers[..i] :: PassedBy(c, p)
    {
      if Distinct(Ids(input)) {
        DistinctPart(input, current);
      }
      var stage := ExecuteStage(checkers, i, current, buffering(i, current));
      if stage.None? {
        return failed, None;
      }
      ResultPlansAppend(failed, stage.value.0);
      failed := failed + stage.value.0;
      current := stage.value.1;
    }
    passed := Some(current);
  }

  lemma NoResults()
    ensures ResultPlans([]) == []
  {
  }

  /** One checker on the mutants that have passed those before it: those that fail, and those that pass. */
  method ExecuteStage(checkers: seq<Checker>, i: nat, current: seq<Plan>, buffers: seq<seq<Plan>>)
    returns (stage: Option<(seq<Result>, seq<Plan>)>)
    requires i < |checkers| && ReturnsObjects(checkers[i]) && GroupsOnce(checkers[i])
    requires multiset(Flatten(buffers)) == multiset(current)
    requires forall p <- current :: p.RunPlan? && forall c <- checkers[..i] :: PassedBy(c, p)
    ensures Distinct(Ids(current)) && Cooperative(checkers[i]) ==> stage.Some?
    ensures stage.Some? ==> multiset(ResultPlans(stage.value.0)) + multiset(stage.value.1) == multiset(current)
    ensures stage.Some? ==> forall r <- stage.value.0 :: Fits(r) && FailedBy(checkers, r)
    ensures stage.Some? ==> forall p <- stage.value.1 :: p.RunPlan? && forall c <- checkers[..i + 1] :: PassedBy(c, p)
  {
    hide Flatten, Ids, AnswerIds, Distinct, Cooperative, ChecksAll, VerdictOf, GroupedAll, ResultPlans, PlansOf;
    if Distinct(Ids(current)) && Cooperative(checkers[i]) {
      DistinctPart(current, Flatten(buffers));
      CooperationSucceeds(checkers[i], buffers);
    }
    var checked := ExecuteSingleChecker(checkers[i], buffers);
    if checked.None? {
      return None;
    }
    AllRunPlans(checked.value, current);
    var failed, passed := SplitChecked(checked.value);
    VerdictsCarried(checkers, i, checked.value, current, failed, passed);
    stage := Some((failed, passed));
  }

  lemma {:induction false} VerdictsCarried(checkers: seq<Checker>, i: nat, checked: seq<Checked>, before: seq<Plan>,
                                           failed: seq<Result>, passed: seq<Plan>)
    requires i < |checkers| && forall v <- checked :: VerdictOf(checkers[i], v)
    requires multiset(PlansOf(checked)) == multiset(before)
    requires forall p <- before :: forall c <- checkers[..i] :: PassedBy(c, p)
    requires forall r <- failed :: r.outcome.CheckFailed? && Checked(r.plan, CompileError(r.outcome.reason)) in checked
    requires forall p <- passed :: Checked(p, Passed) in checked
    ensures forall r <- failed :: FailedBy(checkers, r)
    ensures forall p <- passed :: forall c <- checkers[..i + 1] :: PassedBy(c, p)
  {
    hide VerdictOf;
    forall p | p in passed
      ensures forall c <- checkers[..i + 1] :: PassedBy(c, p)
    {
      var k :| 0 <= k < |checked| && checked[k] == Checked(p, Passed);
      assert PlansOf(checked)[k] == p;
      assert p in multiset(PlansOf(checked)) && p in multiset(before);
      assert checkers[..i + 1] == checkers[..i] + [checkers[i]];
      assert VerdictOf(checkers[i], checked[k]);
      forall c | c in checkers[..i + 1]
        ensures PassedBy(c, p)
      {
        if c != checkers[i] {
          assert c in checkers[..i] && p in before;
        }
      }
    }
  }

  lemma {:induction false} AllRunPlans(checked: seq<Checked>, plans: seq<Plan>)
    requires multiset(PlansOf(checked)) == multiset(plans) && forall p <- plans :: p.RunPlan?
    ensures forall c <- checked :: c.plan.RunPlan?
  {
    forall c | c in checked
      ensures c.plan.RunPlan?
    {
      var i :| 0 <= i < |checked| && checked[i] == c;
      assert PlansOf(checked)[i] == c.plan;
      assert c.plan in multiset(PlansOf(checked)) && c.plan in multiset(plans);
    }
  }

  method SplitChecked(checked: seq<Checked>) returns (failed: seq<Result>, passed: seq<Plan>)
    requires forall c <- checked :: c.plan.RunPlan?
    ensures multiset(ResultPlans(failed)) + multiset(passed) == multiset(PlansOf(checked))
    ensures forall r <- failed :: r.outcome.CheckFailed? && Checked(r.plan, CompileError(r.outcome.reason)) in checked
    ensures forall p <- passed :: Checked(p, Passed) in checked
  {
    hide ResultPlans, PlansOf;
    failed, passed := [], [];
    assert ResultPlans([]) == [] && PlansOf(checked[..0]) == [];
    for i := 0 to |checked|
      invariant multiset(ResultPlans(failed)) + multiset(passed) == multiset(PlansOf(checked[..i]))
      invariant forall r <- failed :: r.outcome.CheckFailed? && Checked(r.plan, CompileError(r.outcome.reason)) in checked
      invariant forall p <- passed :: Checked(p, Passed) in checked
    {
      assert checked[..i + 1] == checked[..i] + [checked[i]];
      PlansOfAppend(checked[..i], [checked[i]]);
      assert PlansOf([checked[i]]) == [checked[i].plan];
      assert checked[i] == Checked(checked[i].plan, checked[i].result);
      if checked[i].result == Passed {
        passed := passed + [checked[i].plan];
      } else {
        var r := Result(checked[i].plan, CheckFailed(checked[i].result.reason));
        ResultPlansAppend(failed, [r]);
        assert ResultPlans([r]) == [checked[i].plan];
        failed := failed + [r];
      }
    }
    assert checked[..|checked|] == checked;
  }

  // ----- sorting and running

  /** `reloadEnvironmentLast` */
  function ReloadEnvironmentLast(a: Plan, b: Plan): int {
    if a.RunPlan? && b.RunPlan? then
      if a.reloadEnvironment && !b.reloadEnvironment then 1
      else if !a.reloadEnvironment && b.reloadEnvironment then -1
      else 0
    else 0
  }

  function Select(plans: seq<Plan>, reload: bool): seq<Plan> {
    if plans == [] then []
    else
      var p := plans[|plans| - 1];
      Select(plans[..|plans| - 1], reload) + (if (p.RunPlan? && p.reloadEnvironment) == reload then [p] else [])
  }

  lemma {:induction false} SelectKeeps(plans: seq<Plan>)
    ensures multiset(Select(plans, false)) + multiset(Select(plans, true)) == multiset(plans)
    decreases |plans|
  {
    if plans != [] {
      var init, last := plans[..|plans| - 1], plans[|plans| - 1];
      SelectKeeps(init);
      assert plans == init + [last];
      SelectLast(plans, true);
      SelectLast(plans, false);
    }
  }

  lemma {:induction false} SelectLast(plans: seq<Plan>, reload: bool)
    requires plans != []
    ensures var p := plans[|plans| - 1];
            multiset(Select(plans, reload)) ==
            multiset(Select(plans[..|plans| - 1], reload)) + (if (p.RunPlan? && p.reloadEnvironment) == reload then multiset{p} else multiset{})
  {
  }

  lemma {:induction false} SelectMeans(plans: seq<Plan>, reload: bool)
    ensures forall p <- Select(plans, reload) :: p in plans && (p.RunPlan? && p.reloadEnvironment) == reload
    decreases |plans|
  {
    if plans != [] {
      SelectMeans(plans[..|plans| - 1], reload);
    }
  }

  /** The stable sort with that comparison: the same plans, in order, and equal ones in their old order. */
  function Sorted(plans: seq<Plan>): seq<Plan> {
    Select(plans, false) + Select(plans, true)
  }

  /** No plan that reloads the environment comes before one that does not. */
  ghost predicate ReloadsLast(plans: seq<Plan>) {
    forall i, j :: 0 <= i < j < |plans| && plans[i].RunPlan? && plans[i].reloadEnvironment ==>
      plans[j].RunPlan? && plans[j].reloadEnvironment
  }

  /** The two plans are in the list, in this order. */
  ghost predicate InOrder(a: Plan, b: Plan, plans: seq<Plan>) {
    exists i, j :: 0 <= i < j < |plans| && plans[i] == a && plans[j] == b
  }

  lemma SortedMeans(plans: seq<Plan>)
    requires forall p <- plans :: p.RunPlan?
    ensures multiset(Sorted(plans)) == multiset(plans)
    ensures forall i, j :: 0 <= i < j < |Sorted(plans)| ==> ReloadEnvironmentLast(Sorted(plans)[i], Sorted(plans)[j]) <= 0
    ensures ReloadsLast(Sorted(plans))
    ensures forall i, j :: 0 <= i < j < |plans| && plans[i].reloadEnvironment == plans[j].reloadEnvironment ==>
              InOrder(plans[i], plans[j], Sorted(plans))
  {
    hide Select, InOrder;
    SelectKeeps(plans);
    SelectMeans(plans, true);
    SelectMeans(plans, false);
    var n := |Select(plans, false)|;
    forall i | 0 <= i < |Sorted(plans)|
      ensures Sorted(plans)[i].RunPlan? && (Sorted(plans)[i].reloadEnvironment <==> i >= n)
    {
      if i < n {
        assert Sorted(plans)[i] in Select(plans, false);
      } else {
        assert Sorted(plans)[i] in Select(plans, true);
      }
    }
    forall i, j | 0 <= i < j < |plans| && plans[i].reloadEnvironment == plans[j].reloadEnvironment
      ensures InOrder(plans[i], plans[j], Sorted(plans))
    {
      SelectIsStable(plans, plans[i].reloadEnvironment, i, j);
      OrderInPart(plans[i], plans[j], Select(plans, false), Select(plans, true));
    }
  }

  lemma OrderInPart(p: Plan, q: Plan, a: seq<Plan>, b: seq<Plan>)
    requires InOrder(p, q, a) || InOrder(p, q, b)
    ensures InOrder(p, q, a + b)
  {
    if InOrder(p, q, a) {
      var i, j :| 0 <= i < j < |a| && a[i] == p && a[j] == q;
      assert (a + b)[i] == p && (a + b)[j] == q;
    } else {
      var i, j :| 0 <= i < j < |b| && b[i] == p && b[j] == q;
      assert (a + b)[|a| + i] == p && (a + b)[|a| + j] == q;
    }
  }

  /** Plans on the same side of the sort keep their order. */
  lemma {:induction false} SelectIsStable(plans: seq<Plan>, reload: bool, i: nat, j: nat)
    requires i < j < |plans| && (forall p <- plans :: p.RunPlan?)
    requires plans[i].reloadEnvironment == reload && plans[j].reloadEnvironment == reload
    ensures InOrder(plans[i], plans[j], Select(plans, reload))
    decreases |plans|
  {
    var init, last := plans[..|plans| - 1], plans[|plans| - 1];
    if j < |plans| - 1 {
      SelectIsStable(init, reload, i, j);
      OrderInPart(plans[i], plans[j], Select(init, reload), if last.reloadEnvironment == reload then [last] else []);
    } else {
      SelectHas(init, reload, i);
      var k :| 0 <= k < |Select(init, reload)| && Select(init, reload)[k] == plans[i];
      var all := Select(plans, reload);
      assert all == Select(init, reload) + [last];
      assert all[k] == plans[i] && all[|all| - 1] == plans[j];
    }
  }

  lemma {:induction false} SelectHas(plans: seq<Plan>, reload: bool, i: nat)
    requires i < |plans| && plans[i].RunPlan? && plans[i].reloadEnvironment == reload
    ensures plans[i] in Select(plans, reload)
    decreases |plans|
  {
    if i < |plans| - 1 {
      SelectHas(plans[..|plans| - 1], reload, i);
    }
  }

  /** The early results, and the plans that must be run. */
  method ExecuteEarlyResult(plans: seq<Plan>) returns (results: seq<Result>, run: seq<Plan>)
    ensures multiset(ResultPlans(results)) + multiset(run) == multiset(plans)
    ensures (forall r <- results :: r.outcome.Early? && Fits(r)) && forall p <- run :: p.RunPlan?
  {
    hide ResultPlans;
    results, run := [], [];
    assert ResultPlans([]) == [];
    for i := 0 to |plans|
      invariant multiset(ResultPlans(results)) + multiset(run) == multiset(plans[..i])
      invariant (forall r <- results :: r.outcome.Early? && Fits(r)) && forall p <- run :: p.RunPlan?
    {
      assert plans[..i + 1] == plans[..i] + [plans[i]];
      if plans[i].EarlyResult? {
        var r := Result(plans[i], Early(plans[i].status));
        ResultPlansAppend(results, [r]);
        assert ResultPlans([r]) == [plans[i]];
        results := results + [r];
      } else {
        run := run + [plans[i]];
      }
    }
    assert plans[..|plans|] == plans;
  }

  /** The mutants that no test covers, and the others. */
  method ExecuteNoCoverage(plans: seq<Plan>) returns (results: seq<Result>, covered: seq<Plan>)
    requires forall p <- plans :: p.RunPlan?
    ensures multiset(ResultPlans(results)) + multiset(covered) == multiset(plans)
    ensures (forall r <- results :: r.outcome.NoCoverage? && Fits(r)) && forall p <- covered :: p.RunPlan? && p.testFilter != Some([])
  {
    hide ResultPlans;
    results, covered := [], [];
    assert ResultPlans([]) == [];
    for i := 0 to |plans|
      invariant multiset(ResultPlans(results)) + multiset(covered) == multiset(plans[..i])
      invariant (forall r <- results :: r.outcome.NoCoverage? && Fits(r)) && forall p <- covered :: p.RunPlan? && p.testFilter != Some([])
    {
      assert plans[..i + 1] == plans[..i] + [plans[i]];
      if plans[i].testFilter == Some([]) {
        var r := Result(plans[i], NoCoverage);
        ResultPlansAppend(results, [r]);
        assert ResultPlans([r]) == [plans[i]];
        results := results + [r];
      } else {
        covered := covered + [plans[i]];
      }
    }
    assert plans[..|plans|] == plans;
  }

  function AllSorted(buffers: seq<seq<Plan>>): seq<seq<Plan>> {
    seq(|buffers|, i requires 0 <= i < |buffers| => Sorted(buffers[i]))
  }

  /** Every buffer is sorted, and its plans are run in that order. */
  method ExecuteRunInTestRunner(buffers: seq<seq<Plan>>, mutantRun: Plan -> string) returns (results: seq<Result>)
    requires forall b <- buffers :: forall p <- b :: p.RunPlan? && p.testFilter != Some([])
    ensures multiset(ResultPlans(results)) == multiset(Flatten(buffers))
    ensures ResultPlans(results) == Flatten(AllSorted(buffers))
    ensures forall r <- results :: r.outcome == Ran(mutantRun(r.plan)) && Fits(r)
  {
    hide ResultPlans, Flatten, Sorted, Select, InOrder, ReloadsLast, ReloadEnvironmentLast;
    results := [];
    NothingRun(buffers);
    for i := 0 to |buffers|
      invariant ResultPlans(results) == Flatten(AllSorted(buffers[..i]))
      invariant multiset(ResultPlans(results)) == multiset(Flatten(buffers[..i]))
      invariant forall r <- results :: r.outcome == Ran(mutantRun(r.plan)) && Fits(r)
    {
      assert buffers[..i + 1] == buffers[..i] + [buffers[i]];
      FlattenSnoc(buffers[..i], buffers[i]);
      assert AllSorted(buffers[..i + 1]) == AllSorted(buffers[..i]) + [Sorted(buffers[i])];
      FlattenSnoc(AllSorted(buffers[..i]), Sorted(buffers[i]));
      assert buffers[i] in buffers;
      var more := RunAll(Sorted(buffers[i]), mutantRun);
      SortedMeans(buffers[i]);
      forall r | r in more
        ensures Fits(r)
      {
        var k :| 0 <= k < |more| && more[k] == r;
        assert r.plan == ResultPlans(more)[k];
        assert r.plan in multiset(Sorted(buffers[i])) && r.plan in multiset(buffers[i]);
      }
      ResultPlansAppend(results, more);
      results := results + more;
    }
    assert buffers[..|buffers|] == buffers;
  }

  lemma NothingRun(buffers: seq<seq<Plan>>)
    ensures ResultPlans([]) == [] && Flatten(buffers[..0]) == [] && Flatten(AllSorted(buffers[..0])) == []
  {
  }

  method RunAll(plans: seq<Plan>, mutantRun: Plan -> string) returns (results: seq<Result>)
    ensures ResultPlans(results) == plans
    ensures forall r <- results :: r.outcome == Ran(mutantRun(r.plan))
  {
    results := [];
    for i := 0 to |plans|
      invariant |results| == i && forall k :: 0 <= k < i ==> results[k] == Result(plans[k], Ran(mutantRun(plans[k])))
    {
      results := results + [Result(plans[i], Ran(mutantRun(plans[i])))];
    }
  }

  /** A failed check comes from one of the checkers; a mutant that was run, or would have been if some test
      covered it, has passed all of them. */
  ghost predicate ChecksExplain(checkers: seq<Checker>, r: Result) {
    match r.outcome
    case Early(_) => true
    case CheckFailed(_) => FailedBy(checkers, r)
    case NoCoverage => forall c <- checkers :: PassedBy(c, r.plan)
    case Ran(_) => forall c <- checkers :: PassedBy(c, r.plan)
  }

  /** `execute`: exactly one result for every plan, whose outcome fits the plan.  None stands for the
      exceptions of the checker facade. */
  method Execute(plans: seq<Plan>, checkers: seq<Checker>, buffering: Buffering, sortBuffering: Buffering,
                 mutantRun: Plan -> string,
                 dryRunOnly: bool, noTestsAllowed: bool) returns (results: Option<seq<Result>>)
    requires Lossless(buffering) && Lossless(sortBuffering)
    requires forall c <- checkers :: ReturnsObjects(c) && GroupsOnce(c)
    ensures dryRunOnly || noTestsAllowed ==> results == Some([])
    ensures results.Some? && !(dryRunOnly || noTestsAllowed) ==> multiset(ResultPlans(results.value)) == multiset(plans)
    ensures results.Some? ==> forall r <- results.value :: Fits(r)
    ensures results.Some? ==> forall r <- results.value :: r.outcome.Ran? ==> r.outcome.status == mutantRun(r.plan)
    ensures results.Some? ==> forall r <- results.value :: ChecksExplain(checkers, r)
    ensures checkers == [] ==> results.Some?
    ensures Distinct(Ids(plans)) && (forall c <- checkers :: Cooperative(c)) ==> results.Some?
  {
    hide ResultPlans, Flatten, Ids, AnswerIds, Distinct, Cooperative, PassedBy, FailedBy, Fits, ChecksExplain;
    if dryRunOnly || noTestsAllowed {
      return Some([]);
    }
    var early, run := ExecuteEarlyResult(plans);
    if Distinct(Ids(plans)) {
      DistinctPart(plans, run);
    }
    var failed, passed := ExecuteCheck(checkers, run, buffering);
    if passed.None? {
      return None;
    }
    var uncovered, covered := ExecuteNoCoverage(passed.value);
    var buffers := sortBuffering(0, covered);
    assert multiset(Flatten(buffers)) == multiset(covered);
    BuffersHold(buffers, covered);
    var ran := ExecuteRunInTestRunner(buffers, mutantRun);
    PartOf(uncovered, covered, passed.value);
    SameParts(ran, covered);
    StagesAddUp(checkers, mutantRun, ran, failed, uncovered, early);
    results := Some(ran + failed + uncovered + early);
  }

  /** What holds of the results of the four stages holds of all results. */
  lemma {:induction false} StagesAddUp(checkers: seq<Checker>, mutantRun: Plan -> string, ran: seq<Result>,
                                       failed: seq<Result>, uncovered: seq<Result>, early: seq<Result>)
    requires forall r <- ran + failed + uncovered + early :: Fits(r)
    requires forall r <- ran :: r.outcome == Ran(mutantRun(r.plan)) && forall c <- checkers :: PassedBy(c, r.plan)
    requires forall r <- failed :: FailedBy(checkers, r)
    requires forall r <- uncovered :: r.outcome.NoCoverage? && forall c <- checkers :: PassedBy(c, r.plan)
    requires forall r <- early :: r.outcome.Early?
    ensures forall r <- ran + failed + uncovered + early ::
      ChecksExplain(checkers, r) && (r.outcome.Ran? ==> r.outcome.status == mutantRun(r.plan))
    ensures multiset(ResultPlans(ran + failed + uncovered + early)) ==
            multiset(ResultPlans(ran)) + multiset(ResultPlans(failed)) + multiset(ResultPlans(uncovered))
            + multiset(ResultPlans(early))
  {
    hide ResultPlans, PassedBy;
    ResultPlansAppend(ran, failed);
    ResultPlansAppend(ran + failed, uncovered);
    ResultPlansAppend(ran + failed + uncovered, early);
    forall r | r in ran + failed + uncovered + early
      ensures ChecksExplain(checkers, r) && (r.outcome.Ran? ==> r.outcome.status == mutantRun(r.plan))
    {
      assert r in ran || r in failed || r in uncovered || r in early;
    }
  }

  lemma {:induction false} PartOf(results: seq<Result>, others: seq<Plan>, plans: seq<Plan>)
    requires multiset(ResultPlans(results)) + multiset(others) == multiset(plans)
    ensures (forall r <- results :: r.plan in plans) && forall p <- others :: p in plans
  {
    forall r | r in results
      ensures r.plan in plans
    {
      var i :| 0 <= i < |results| && results[i] == r;
      assert ResultPlans(results)[i] in multiset(ResultPlans(results));
      assert r.plan in multiset(plans);
    }
    forall p | p in others
      ensures p in plans
    {
      assert p in multiset(others) && p in multiset(plans);
    }
  }

  lemma {:induction false} SameParts(results: seq<Result>, plans: seq<Plan>)
    requires multiset(ResultPlans(results)) == multiset(plans)
    ensures forall r <- results :: r.plan in plans
  {
    PartOf(results, [], plans);
  }

  lemma {:induction false} BuffersHold(buffers: seq<seq<Plan>>, plans: seq<Plan>)
    requires multiset(Flatten(buffers)) == multiset(plans) && forall p <- plans :: p.RunPlan? && p.testFilter != Some([])
    ensures forall b <- buffers :: forall p <- b :: p.RunPlan? && p.testFilter != Some([])
  {
    forall b, p | b in buffers && p in b
      ensures p in plans
    {
      var i :| 0 <= i < |buffers| && buffers[i] == b;
      FlattenHas(buffers, i, p);
      assert p in multiset(Flatten(buffers)) && p in multiset(plans);
    }
  }

  /** With unique ids, every id has exactly one result. */
  lemma {:induction false} OneResultPerId(plans: seq<Plan>, results: seq<Result>, id: string)
    requires Distinct(Ids(plans)) && multiset(ResultPlans(results)) == multiset(plans) && id in Ids(plans)
    ensures exists i :: 0 <= i < |results| && results[i].plan.id == id
                        && forall j :: 0 <= j < |results| && results[j].plan.id == id ==> j == i
  {
    var k :| 0 <= k < |plans| && plans[k].id == id;
    var p := plans[k];
    var rp := ResultPlans(results);
    DistinctPlans(plans);
    AtMostOnce(plans, p);
    assert p in multiset(rp);
    var i :| 0 <= i < |rp| && rp[i] == p;
    forall j | 0 <= j < |results| && results[j].plan.id == id
      ensures j == i
    {
      assert rp[j] in multiset(rp) && rp[j] in multiset(plans);
      SamePlan(plans, rp[j], p);
      if j < i {
        TwiceCounts(rp, j, i);
      } else if i < j {
        TwiceCounts(rp, i, j);
      }
    }
  }

  lemma TwiceCounts<T>(s: seq<T>, i: nat, j: nat)
    requires i < j < |s| && s[i] == s[j]
    ensures multiset(s)[s[i]] >= 2
  {
    assert s == s[..i] + [s[i]] + s[i + 1..j] + [s[j]] + s[j + 1..];
  }
}
