/** A deterministic evaluator.  `fuel` bounds the number of nested loop iterations and calls only,
    so wrapping a node never changes how much of it is used. */
module Semantics {
  import opened Ast
  import opened Options

  type Env = map<string, Value>

  datatype Completion =
    | Normal(v: Value)
    | Broke
    | Continued
    | Returned(v: Value)
    | Threw(v: Value)
    | OutOfFuel
    | Malformed

  /** What the runtime header records: a coverage count, or a hit of the active mutant. */
  datatype Event = Covered(id: nat) | Hit(id: nat)

  datatype Outcome = Outcome(completion: Completion, env: Env, log: seq<Event>)

  datatype ListOutcome = ListOutcome(completion: Completion, values: seq<Value>, env: Env, log: seq<Event>)

  datatype CaseOutcome = CaseOutcome(completion: Completion, index: Option<nat>, env: Env, log: seq<Event>)

  datatype Function = Function(params: seq<string>, body: Node)

  /** `host` gives every operator its meaning, `active` is the active mutant. */
  datatype World = World(host: (string, seq<Value>, Env) -> (Completion, Env),
                         functions: map<string, Function>,
                         active: Option<nat>)

  function Truthy(v: Value): bool {
    match v
    case Undefined => false
    case Bool(b) => b
    case Num(n) => n != 0
    case Str(s) => s != ""
  }

  function Void(o: Outcome): Outcome {
    if o.completion.Normal? then o.(completion := Normal(Undefined)) else o
  }

  function CoveredEvents(ids: seq<nat>): seq<Event> {
    seq(|ids|, i requires 0 <= i < |ids| => Covered(ids[i]))
  }

  function Bind(env: Env, params: seq<string>, args: seq<Value>): Env
    decreases params
  {
    if params == [] then env
    else
      Bind(env[params[0] := if args == [] then Undefined else args[0]],
           params[1..], if args == [] then [] else args[1..])
  }

  /** The parameters are local to the call. */
  function Restore(env: Env, caller: Env, params: seq<string>): Env {
    var locals := set p <- params;
    (env - locals) + (map x <- caller | x in locals :: caller[x])
  }

  function CallResult(c: Completion): Completion {
    match c
    case Normal(_) => Normal(Undefined)
    case Returned(v) => Normal(v)
    case Broke | Continued => Malformed
    case _ => c
  }

  function DefaultCase(cases: seq<Node>): Option<nat> {
    if cases == [] then None
    else if cases[0].kind == Case(false) then Some(0)
    else match DefaultCase(cases[1..])
         case None => None
         case Some(i) => Some(i + 1)
  }

  function Eval(w: World, n: Node, fuel: nat, env: Env): Outcome
    decreases fuel, n, 1
  {
    match n.kind
    case Lit(v) => Outcome(Normal(v), env, [])
    case Ident(x) =>
      Outcome(if x in env then Normal(env[x]) else Threw(Str("ReferenceError")), env, [])
    case Assign(x) =>
      if |n.kids| != 1 then Outcome(Malformed, env, []) else
      var r := Eval(w, n.kids[0], fuel, env);
      if r.completion.Normal? then r.(env := r.env[x := r.completion.v]) else r
    case Op(_, f) =>
      var r := EvalList(w, n.kids, fuel, env);
      if !r.completion.Normal? then Outcome(r.completion, r.env, r.log) else
      var (c, env') := w.host(f, r.values, r.env);
      Outcome(c, env', r.log)
    case Call(f) =>
      var r := EvalList(w, n.kids, fuel, env);
      if !r.completion.Normal? then Outcome(r.completion, r.env, r.log)
      else if f !in w.functions then Outcome(Threw(Str("ReferenceError")), r.env, r.log)
      else if fuel == 0 then Outcome(OutOfFuel, r.env, r.log)
      else
        var fun := w.functions[f];
        var o := Eval(w, fun.body, fuel - 1, Bind(r.env, fun.params, r.values));
        Outcome(CallResult(o.completion), Restore(o.env, r.env, fun.params), r.log + o.log)
    case Conditional =>
      if |n.kids| != 3 then Outcome(Malformed, env, []) else
      var c := Eval(w, n.kids[0], fuel, env);
      if !c.completion.Normal? then c
      else Then(c.log, Eval(w, if Truthy(c.completion.v) then n.kids[1] else n.kids[2], fuel, c.env))
    case And =>
      if |n.kids| != 2 then Outcome(Malformed, env, []) else
      var c := Eval(w, n.kids[0], fuel, env);
      if !c.completion.Normal? || !Truthy(c.completion.v) then c
      else Then(c.log, Eval(w, n.kids[1], fuel, c.env))
    case Or =>
      if |n.kids| != 2 then Outcome(Malformed, env, []) else
      var c := Eval(w, n.kids[0], fuel, env);
      if !c.completion.Normal? || Truthy(c.completion.v) then c
      else Then(c.log, Eval(w, n.kids[1], fuel, c.env))
    case Sequence =>
      var r := EvalList(w, n.kids, fuel, env);
      Outcome(if r.completion.Normal? && r.values != [] then Normal(r.values[|r.values| - 1]) else r.completion,
              r.env, r.log)
    case IsActive(id) =>
      if w.active == Some(id) then Outcome(Normal(Bool(true)), env, [Hit(id)])
      else Outcome(Normal(Bool(false)), env, [])
    case Cover(ids) => Outcome(Normal(Undefined), env, CoveredEvents(ids))
    case ExprStmt =>
      if |n.kids| != 1 then Outcome(Malformed, env, []) else Void(Eval(w, n.kids[0], fuel, env))
    case Block | Program =>
      var r := EvalList(w, n.kids, fuel, env);
      Outcome(r.completion, r.env, r.log)
    case If =>
      if |n.kids| != 2 && |n.kids| != 3 then Outcome(Malformed, env, []) else
      var c := Eval(w, n.kids[0], fuel, env);
      if !c.completion.Normal? then c
      else if Truthy(c.completion.v) then Void(Then(c.log, Eval(w, n.kids[1], fuel, c.env)))
      else if |n.kids| == 3 then Void(Then(c.log, Eval(w, n.kids[2], fuel, c.env)))
      else Void(c)
    case While =>
      if |n.kids| != 2 then Outcome(Malformed, env, []) else EvalLoop(w, n, fuel, env)
    case Break => Outcome(Broke, env, [])
    case Continue => Outcome(Continued, env, [])
    case Return =>
      if |n.kids| > 1 then Outcome(Malformed, env, [])
      else if |n.kids| == 0 then Outcome(Returned(Undefined), env, [])
      else
        var r := Eval(w, n.kids[0], fuel, env);
        if r.completion.Normal? then r.(completion := Returned(r.completion.v)) else r
    case Throw =>
      if |n.kids| != 1 then Outcome(Malformed, env, []) else
      var r := Eval(w, n.kids[0], fuel, env);
      if r.completion.Normal? then r.(completion := Threw(r.completion.v)) else r
    case Try(x) =>
      if |n.kids| != 2 then Outcome(Malformed, env, []) else
      var r := Eval(w, n.kids[0], fuel, env);
      if r.completion.Threw?
      then Void(Then(r.log, Eval(w, n.kids[1], fuel, r.env[x := r.completion.v])))
      else Void(r)
    case Switch =>
      if |n.kids| == 0 then Outcome(Malformed, env, []) else
      var d := Eval(w, n.kids[0], fuel, env);
      if !d.completion.Normal? then d else
      Then(d.log, EvalCases(w, n.kids[1..], d.completion.v, fuel, d.env))
    case Case(hasTest) =>
      if hasTest && |n.kids| == 0 then Outcome(Malformed, env, []) else
      var r := if hasTest then EvalList(w, n.kids[1..], fuel, env) else EvalList(w, n.kids, fuel, env);
      Outcome(r.completion, r.env, r.log)
  }

  function Then(log: seq<Event>, o: Outcome): Outcome {
    o.(log := log + o.log)
  }

  /** Evaluates the nodes in order and stops at the first that does not complete normally. */
  function EvalList(w: World, ns: seq<Node>, fuel: nat, env: Env): ListOutcome
    decreases fuel, ns, 0
  {
    if ns == [] then ListOutcome(Normal(Undefined), [], env, [])
    else
      var r := Eval(w, ns[0], fuel, env);
      if !r.completion.Normal? then ListOutcome(r.completion, [], r.env, r.log)
      else
        var rest := EvalList(w, ns[1..], fuel, r.env);
        ListOutcome(rest.completion, [r.completion.v] + rest.values, rest.env, r.log + rest.log)
  }

  function EvalLoop(w: World, n: Node, fuel: nat, env: Env): Outcome
    requires |n.kids| == 2
    decreases fuel, n, 0
  {
    if fuel == 0 then Outcome(OutOfFuel, env, []) else
    var c := Eval(w, n.kids[0], fuel, env);
    if !c.completion.Normal? then c
    else if !Truthy(c.completion.v) then Void(c)
    else
      var b := Eval(w, n.kids[1], fuel, c.env);
      if b.completion.Broke? then Outcome(Normal(Undefined), b.env, c.log + b.log)
      else if !b.completion.Normal? && !b.completion.Continued? then Then(c.log, b)
      else Then(c.log + b.log, EvalLoop(w, n, fuel - 1, b.env))
  }

  function EvalCases(w: World, cases: seq<Node>, v: Value, fuel: nat, env: Env): Outcome
    decreases fuel, cases, 1
  {
    var found := FindCase(w, cases, v, fuel, env);
    var start := if found.index.Some? then found.index else DefaultCase(cases);
    if !found.completion.Normal? || start.None? || start.value >= |cases|
    then Outcome(found.completion, found.env, found.log)
    else
      assert start.value == 0 ==> cases[start.value..] == cases;
      var r := EvalList(w, cases[start.value..], fuel, found.env);
      Outcome(if r.completion.Broke? then Normal(Undefined) else r.completion, r.env, found.log + r.log)
  }

  /** The index of the first case whose test equals the value; the tests of later cases do not run. */
  function FindCase(w: World, cases: seq<Node>, v: Value, fuel: nat, env: Env): CaseOutcome
    decreases fuel, cases, 0
  {
    if cases == [] then CaseOutcome(Normal(Undefined), None, env, [])
    else
      var c := cases[0];
      if !c.kind.Case? || (c.kind.hasTest && |c.kids| == 0) then CaseOutcome(Malformed, None, env, [])
      else if c.kind.hasTest then
        var r := Eval(w, c.kids[0], fuel, env);
        if !r.completion.Normal? then CaseOutcome(r.completion, None, r.env, r.log)
        else if r.completion.v == v then CaseOutcome(Normal(Undefined), Some(0), r.env, r.log)
        else
          var rest := FindCase(w, cases[1..], v, fuel, r.env);
          CaseOutcome(rest.completion, Next(rest.index), rest.env, r.log + rest.log)
      else
        var rest := FindCase(w, cases[1..], v, fuel, env);
        rest.(index := Next(rest.index))
  }

  function Next(i: Option<nat>): Option<nat> {
    if i.None? then None else Some(i.value + 1)
  }
}
