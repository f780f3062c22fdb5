/** The syntax trees that are instrumented: a small expression, statement and switch language.
    Every node carries a kind, an optional source location and its children in evaluation order.
 */
module Ast {
  import opened Locations
  import opened Options

  datatype Value =
    | Undefined
    | Bool(b: bool)
    | Num(n: int)
    | Str(s: string)

  /** `Op` stands for every strict operator: operands are evaluated from left to right and an
      arbitrary function of their values and of the state gives the result.  `Call` calls a
      function of the program.  `IsActive` and `Cover` are the two calls into the runtime header
      that only instrumented code contains. */
  datatype Kind =
    | Lit(value: Value)
    | Ident(name: string)
    | Assign(name: string)
    | Op(nodeType: string, operator: string)
    | Call(callee: string)
    | Conditional
    | And
    | Or
    | Sequence
    | IsActive(id: nat)
    | Cover(ids: seq<nat>)
    | ExprStmt
    | Block
    | If
    | While
    | Break
    | Continue
    | Return
    | Throw
    | Try(name: string)
    | Switch
    | Case(hasTest: bool)
    | Program

  datatype Category = Expression | Statement | SwitchCase | Root

  datatype Node = Node(kind: Kind, loc: Option<Location>, kids: seq<Node>)

  function CategoryOf(k: Kind): Category {
    match k
    case Lit(_) | Ident(_) | Assign(_) | Op(_, _) | Call(_) | Conditional | And | Or | Sequence
       | IsActive(_) | Cover(_) => Expression
    case ExprStmt | Block | If | While | Break | Continue | Return | Throw | Try(_) | Switch => Statement
    case Case(_) => SwitchCase
    case Program => Root
  }

  /** The `type` field of a node: what `eqNode` compares beside the location. */
  function TypeOf(k: Kind): string {
    match k
    case Lit(v) =>
      (match v
       case Undefined => "Identifier"
       case Bool(_) => "BooleanLiteral"
       case Num(_) => "NumericLiteral"
       case Str(_) => "StringLiteral")
    case Ident(_) => "Identifier"
    case Assign(_) => "AssignmentExpression"
    case Op(nodeType, _) => nodeType
    case Call(_) | IsActive(_) | Cover(_) => "CallExpression"
    case Conditional => "ConditionalExpression"
    case And | Or => "LogicalExpression"
    case Sequence => "SequenceExpression"
    case ExprStmt => "ExpressionStatement"
    case Block => "BlockStatement"
    case If => "IfStatement"
    case While => "WhileStatement"
    case Break => "BreakStatement"
    case Continue => "ContinueStatement"
    case Return => "ReturnStatement"
    case Throw => "ThrowStatement"
    case Try(_) => "TryStatement"
    case Switch => "SwitchStatement"
    case Case(_) => "SwitchCase"
    case Program => "Program"
  }

  /** A node that the instrumenter creates has no location. */
  function Fresh(kind: Kind, kids: seq<Node>): Node {
    Node(kind, None, kids)
  }

  /** No call into the runtime header occurs: what holds of code that was not instrumented. */
  ghost predicate Clean(n: Node) {
    !n.kind.IsActive? && !n.kind.Cover? && forall k <- n.kids :: Clean(k)
  }

  /** Switch cases occur as the cases of a switch statement and nowhere else, the test of a case is
      an expression and its consequents are statements. */
  ghost predicate WellFormed(n: Node) {
    && (forall i :: 0 <= i < |n.kids| ==> KidFits(n.kind, i, CategoryOf(n.kids[i].kind)))
    && (n.kind == Case(true) ==> |n.kids| > 0)
    && (forall k <- n.kids :: WellFormed(k))
  }

  predicate KidFits(parent: Kind, i: nat, kid: Category) {
    match parent
    case Switch => if i == 0 then kid == Expression else kid == SwitchCase
    case Case(hasTest) => if hasTest && i == 0 then kid == Expression else kid == Statement
    case Program | Block => kid == Statement
    case _ => kid == Expression || kid == Statement
  }
}
