/** Expression trees and the precedence-aware printer
    (experimental/compiler/src/expression-ir.ts). */
module Expressions {

  /** The operators of the precedence table; anything else has no precedence. */
  datatype BinaryOp =
    | Assign | AssignWith(op: AssignOp)
    | Nullish | LogicalOr | LogicalAnd | BitOr | BitXor | BitAnd
    | LooseEq | LooseNeq | StrictEq | StrictNeq
    | Less | Greater | LessEq | GreaterEq | InstanceOf | In
    | ShiftLeft | ShiftRight | ShiftRightZero
    | Plus | Minus | Times | Over | Modulo | Power
    | Unlisted(text: string)

  datatype AssignOp = PlusAssign | MinusAssign | TimesAssign | OverAssign | ModuloAssign

  function OpText(op: BinaryOp): string {
    match op
    case Assign => "="
    case AssignWith(PlusAssign) => "+="
    case AssignWith(MinusAssign) => "-="
    case AssignWith(TimesAssign) => "*="
    case AssignWith(OverAssign) => "/="
    case AssignWith(ModuloAssign) => "%="
    case Nullish => "??"
    case LogicalOr => "||"
    case LogicalAnd => "&&"
    case BitOr => "|"
    case BitXor => "^"
    case BitAnd => "&"
    case LooseEq => "=="
    case LooseNeq => "!="
    case StrictEq => "==="
    case StrictNeq => "!=="
    case Less => "<"
    case Greater => ">"
    case LessEq => "<="
    case GreaterEq => ">="
    case InstanceOf => "instanceof"
    case In => "in"
    case ShiftLeft => "<<"
    case ShiftRight => ">>"
    case ShiftRightZero => ">>>"
    case Plus => "+"
    case Minus => "-"
    case Times => "*"
    case Over => "/"
    case Modulo => "%"
    case Power => "**"
    case Unlisted(text) => text
  }

  function Precedence(op: BinaryOp): nat {
    match op
    case Assign => 1
    case AssignWith(_) => 1
    case Nullish => 3
    case LogicalOr => 4
    case LogicalAnd => 5
    case BitOr => 6
    case BitXor => 7
    case BitAnd => 8
    case LooseEq => 9
    case LooseNeq => 9
    case StrictEq => 9
    case StrictNeq => 9
    case Less => 10
    case Greater => 10
    case LessEq => 10
    case GreaterEq => 10
    case InstanceOf => 10
    case In => 10
    case ShiftLeft => 11
    case ShiftRight => 11
    case ShiftRightZero => 11
    case Plus => 12
    case Minus => 12
    case Times => 13
    case Over => 13
    case Modulo => 13
    case Power => 14
    case Unlisted(_) => 0
  }

  const TERNARY_PRECEDENCE: nat := 2
  const UNARY_PRECEDENCE: nat := 15

  predicate RightAssociative(op: BinaryOp) {
    op.Assign? || op.AssignWith? || op.Power?
  }

  datatype ExpressionIR =
    | RefRead(ref: ExpressionIR, deltaKind: string)
    | Snapshot(ref: ExpressionIR, args: seq<ExpressionIR>, deltaKind: string)
    | BindingRef(name: string, expression: ExpressionIR)
    | MethodCall(receiver: ExpressionIR, method_: string, args: seq<ExpressionIR>)
    | PropertyAccess(object_: ExpressionIR, property: string)
    | Call(callee: ExpressionIR, args: seq<ExpressionIR>)
    | Binary(left: ExpressionIR, op: BinaryOp, right: ExpressionIR)
    | Unary(operator: string, operand: ExpressionIR, prefix: bool)
    | Template(parts: seq<ExpressionIR>)
    | Literal(value: string)
    | Identifier(name: string)
    | Raw(source: string)
    | Ternary(condition: ExpressionIR, whenTrue: ExpressionIR, whenFalse: ExpressionIR)
    | ElementAccess(object_: ExpressionIR, index: ExpressionIR)

  /** Every binding replaced by its expression. */
  function Expand(e: ExpressionIR): ExpressionIR
    decreases e
  {
    match e
    case BindingRef(_, expression) => Expand(expression)
    case RefRead(ref, kind) => RefRead(Expand(ref), kind)
    case Snapshot(ref, args, kind) => Snapshot(Expand(ref), seq(|args|, i requires 0 <= i < |args| => Expand(args[i])), kind)
    case MethodCall(receiver, method_, args) => MethodCall(Expand(receiver), method_, seq(|args|, i requires 0 <= i < |args| => Expand(args[i])))
    case PropertyAccess(object_, property) => PropertyAccess(Expand(object_), property)
    case Call(callee, args) => Call(Expand(callee), seq(|args|, i requires 0 <= i < |args| => Expand(args[i])))
    case Binary(left, op, right) => Binary(Expand(left), op, Expand(right))
    case Unary(op, operand, prefix) => Unary(op, Expand(operand), prefix)
    case Template(parts) => Template(seq(|parts|, i requires 0 <= i < |parts| => Expand(parts[i])))
    case Ternary(condition, whenTrue, whenFalse) => Ternary(Expand(condition), Expand(whenTrue), Expand(whenFalse))
    case ElementAccess(object_, index) => ElementAccess(Expand(object_), Expand(index))
    case _ => e
  }

  // ---------------------------------------------------------------------
  // Rendering
  // ---------------------------------------------------------------------

  datatype Side = Left | Right | Neither

  /** Safe as a receiver, a callee or a ref without parentheses. */
  predicate IsAtomic(e: ExpressionIR) {
    !(e.Binary? || e.Unary? || e.Ternary? || e.Raw? || e.BindingRef?)
  }

  predicate NeedsParens(thisPrec: nat, parentPrec: nat, op: BinaryOp, side: Side) {
    if thisPrec < parentPrec then true
    else if thisPrec == parentPrec && parentPrec > 0 then
      if RightAssociative(op) then side.Left? else side.Right?
    else false
  }

  predicate IsLetter(c: char) {
    'a' <= c <= 'z' || 'A' <= c <= 'Z'
  }

  /** A word operator is set off by a space. */
  predicate IsWordOperator(op: string) {
    op != [] && forall i :: 0 <= i < |op| ==> IsLetter(op[i])
  }

  /** The same one-character prefix operator twice in a row. */
  predicate WouldMerge(op: string, operand: ExpressionIR) {
    operand.Unary? && operand.prefix && op == operand.operator && |op| == 1
  }

  function Parens(s: string): string {
    "(" + s + ")"
  }

  function Render(e: ExpressionIR, expand: bool, parentPrec: nat, side: Side): string
    decreases e, 0
  {
    match e
    case RefRead(ref, _) => RenderAtomic(ref, expand) + "()"
    case Snapshot(ref, args, _) =>
      if |args| == 0 then RenderAtomic(ref, expand) + "()" else RenderAtomic(ref, expand) + Parens(RenderArgs(e, args, |args|, expand))
    case BindingRef(name, expression) => if expand then Render(expression, expand, parentPrec, side) else name
    case MethodCall(receiver, method_, args) => RenderAtomic(receiver, expand) + "." + method_ + Parens(RenderArgs(e, args, |args|, expand))
    case PropertyAccess(object_, property) => RenderAtomic(object_, expand) + "." + property
    case Call(callee, args) => RenderAtomic(callee, expand) + Parens(RenderArgs(e, args, |args|, expand))
    case Binary(left, op, right) =>
      var thisPrec := Precedence(op);
      var result := Render(left, expand, thisPrec, Side.Left) + " " + OpText(op) + " " + Render(right, expand, thisPrec, Side.Right);
      if NeedsParens(thisPrec, parentPrec, op, side) then Parens(result) else result
    case Unary(op, operand, prefix) =>
      if prefix then
        var space := if IsWordOperator(op) then " " else "";
        var rendered := Render(operand, expand, UNARY_PRECEDENCE, Neither);
        op + space + (if WouldMerge(op, operand) then Parens(rendered) else rendered)
      else RenderAtomic(operand, expand) + op
    case Template(parts) => "`" + RenderParts(e, parts, |parts|, expand) + "`"
    case Literal(value) => value
    case Identifier(name) => name
    case Ternary(condition, whenTrue, whenFalse) =>
      var result := Render(condition, expand, TERNARY_PRECEDENCE, Side.Left) + " ? " + Render(whenTrue, expand, 0, Neither)
        + " : " + Render(whenFalse, expand, 0, Neither);
      if parentPrec > TERNARY_PRECEDENCE then Parens(result) else result
    case ElementAccess(object_, index) => RenderAtomic(object_, expand) + "[" + Render(index, expand, 0, Neither) + "]"
    case Raw(source) => if parentPrec > 0 then Parens(source) else source
  }

  function RenderAtomic(e: ExpressionIR, expand: bool): string
    decreases e, 1
  {
    if e.BindingRef? && expand then RenderAtomic(e.expression, expand)
    else if IsAtomic(e) then Render(e, expand, 0, Neither)
    else Parens(Render(e, expand, 0, Neither))
  }

  /** The first `n` arguments of `parent`, separated by commas. */
  function RenderArgs(parent: ExpressionIR, args: seq<ExpressionIR>, n: nat, expand: bool): string
    requires n <= |args| && forall i :: 0 <= i < |args| ==> args[i] < parent
    decreases parent, 0, n
  {
    if n == 0 then ""
    else if n == 1 then Render(args[0], expand, 0, Neither)
    else RenderArgs(parent, args, n - 1, expand) + ", " + Render(args[n - 1], expand, 0, Neither)
  }

  /** Text parts stand as they are; the others go into holes. */
  function RenderParts(parent: ExpressionIR, parts: seq<ExpressionIR>, n: nat, expand: bool): string
    requires n <= |parts| && forall i :: 0 <= i < |parts| ==> parts[i] < parent
    decreases parent, 0, n
  {
    if n == 0 then ""
    else
      var part := parts[n - 1];
      RenderParts(parent, parts, n - 1, expand)
      + (if (n - 1) % 2 == 0 then (if part.Literal? then part.value else Render(part, expand, 0, Neither))
         else "${" + Render(part, expand, 0, Neither) + "}")
  }

  function RenderExpression(e: ExpressionIR, expand: bool): string {
    Render(e, expand, 0, Neither)
  }
}
