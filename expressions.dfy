/**
 * The predicate and selector lambdas the library inspects, as an explicit
 * syntax tree in place of `System.Linq.Expressions`. Only the node shapes the
 * library distinguishes are separate constructors; everything else is `Unknown`.
 */
module Expressions {
  import opened Descriptors

  /**
   * `ExpressionType` of a binary node other than `AndAlso` and `OrElse`, which
   * are the separate `Expr` constructors below; an `OtherNode` never carries
   * the name "AndAlso" or "OrElse".
   */
  datatype NodeType =
    | Equal
    | NotEqual
    | GreaterThan
    | GreaterThanOrEqual
    | LessThan
    | LessThanOrEqual
    | OtherNode(name: string)   // And, Or, ExclusiveOr, Coalesce, ...: the enum member's name

  /** `NodeType.ToString()`. */
  function NodeName(n: NodeType): string {
    match n
    case Equal => "Equal"
    case NotEqual => "NotEqual"
    case GreaterThan => "GreaterThan"
    case GreaterThanOrEqual => "GreaterThanOrEqual"
    case LessThan => "LessThan"
    case LessThanOrEqual => "LessThanOrEqual"
    case OtherNode(name) => name
  }

  /** An operand as the library tells them apart. */
  datatype Operand =
    | Member(name: string)      // MemberExpression: `x.Name`, or a captured variable
    | Const(value: Value)       // ConstantExpression
    | OtherOperand              // any other node, or no node at all

  /** The body of a `Func<T, bool>` predicate. */
  datatype Expr =
    | AndAlso(left: Expr, right: Expr)
    | OrElse(left: Expr, right: Expr)
    | Binary(node: NodeType, lhs: Operand, rhs: Operand)
    /** A call `receiver.methodName(arg, more...)`; `onString` when the method is declared by `string`. */
    | Call(onString: bool, methodName: string, receiver: Operand, arg: Operand, more: seq<Operand>)
    | BoolMember(name: string)  // a bare boolean MemberExpression used as a condition: `x.IsActive`
    | Unknown                   // any other node: a negation, a lambda invocation, ...

  /** The member a selector's `MemberExpression` refers to. */
  datatype MemberRef =
    | PropertyMember(property: Property)   // a `PropertyInfo`, with its attributes
    | FieldMember(name: string)            // a field: not a `PropertyInfo`

  /** The body of a `Func<T, object>` selector. */
  datatype SelectorBody =
    | MemberAccess(member: MemberRef)
    | Unary(operand: SelectorBody)          // Convert / Quote / ... around another node
    | OtherBody
}
