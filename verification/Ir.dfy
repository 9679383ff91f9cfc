/** The intermediate representation the analyses and transforms work on:
    storage locations, expressions, statements and block terminators. */
module Ir {
  import opened Options

  type BlockId = nat

  datatype Constant =
    | Undefined
    | Null
    | Boolean(bool)
    | Number(n: real)          // a finite double
    | NonFinite(text: string)  // NaN and the infinities
    | Integer(i: int)
    | Text(s: string)
    | BigInt(digits: string)

  datatype Binding =
    | Register(r: nat)
    | Variable(name: string)
    | ClosureVar(level: nat, slot: nat)

  datatype Value =
    | Read(binding: Binding)
    | Const(c: Constant)
    | This
    | Global
    | Parameter(index: nat)
    | Arguments
    | NewTarget
    | Super

  datatype PropertyKey =
    | Ident(name: string)
    | Computed(e: Expression)
    | Str(s: string)
    | Index(i: int)

  datatype ObjectProperty = ObjectProperty(key: PropertyKey, value: Expression)

  datatype Expression =
    | Val(v: Value)
    | Binary(op: string, left: Expression, right: Expression)
    | Unary(op: string, operand: Expression)
    | Conditional(condition: Expression, thenExpr: Expression, elseExpr: Expression)
    | Member(obj: Expression, property: PropertyKey, optional: bool)
    | Call(callee: Expression, arguments: seq<Expression>)
    | New(callee: Expression, arguments: seq<Expression>)
    | ArrayLit(elements: seq<Option<Expression>>)
    | ObjectLit(properties: seq<ObjectProperty>)
    | Function(id: nat)
    | Assignment(target: AssignTarget, value: Expression)
    | Spread(inner: Expression)
    | TemplateLiteral(quasis: seq<string>, expressions: seq<Expression>)
    | RegExp(pattern: string, flags: string)
    | Yield(value: Expression, isDelegate: bool)
    | Await(inner: Expression)
    | JsxElement(tag: string, children: seq<Expression>)
    | Unknown(opcode: string, operands: seq<string>)

  datatype AssignTarget =
    | ToBinding(binding: Binding)
    | ToMember(obj: Expression, name: string)
    | ToIndex(obj: Expression, key: Expression)
    | Destructuring(targets: seq<AssignTarget>)

  datatype Statement =
    | Expr(e: Expression)
    | Let(name: string, value: Expression)
    | Assign(target: AssignTarget, value: Expression)
    | Return(result: Option<Expression>)
    | Throw(e: Expression)
    | Comment(text: string)
    | If(condition: Expression, thenBody: seq<Statement>, elseBody: seq<Statement>)
    | While(condition: Expression, body: seq<Statement>)
    | Switch(discriminant: Expression, bodies: seq<seq<Statement>>)
    | Other(text: string)  // every other form: loops, try, delete, goto, class, ...

  datatype Terminator =
    | Jump(target: BlockId)
    | Branch(condition: Expression, trueTarget: BlockId, falseTarget: BlockId)
    | ReturnT(result: Option<Expression>)
    | ThrowT(e: Expression)
    | SwitchT(value: Expression, cases: seq<BlockId>, default: BlockId)
    | NoTerminator
  {
    function Successors(): seq<BlockId> {
      match this
      case Jump(t) => [t]
      case Branch(_, t, f) => [t, f]
      case SwitchT(_, cases, d) => cases + [d]
      case _ => []
    }
  }

  /** The register a statement writes directly, if it is an assignment to one. */
  function RegisterWritten(s: Statement): Option<nat> {
    match s
    case Assign(ToBinding(Register(r)), _) => Some(r)
    case _ => None
  }
}
