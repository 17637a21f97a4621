/** The AST node classes of interpreter.cpp, as values: each node owns its children. */
module Ast {
  import opened Wrappers

  datatype Expr =
    | Number(value: nat)
      /** `BinaryExprNode`: `op` is whatever int the builder passed in. */
    | Binary(left: Expr, right: Expr, op: int)
    | Variable(name: string)
      /** `CallNode`: an argument may be a null pointer. */
    | Call(callee: string, args: seq<Option<Expr>>)

  datatype Prototype = Prototype(name: string, params: seq<string>)

  datatype FunctionDef = FunctionDef(proto: Prototype, body: Expr)

  /** The operator field values the parser stores: the precedences of `+`, `-` and `*`. */
  predicate IsStoredPrecedence(op: int)
  {
    op == 10 || op == 20 || op == 30
  }

  /** Every binary node of `e`, inside call arguments too, stores a precedence. */
  predicate ParserShaped(e: Expr)
  {
    match e
    case Number(_) => true
    case Variable(_) => true
    case Binary(l, r, op) => IsStoredPrecedence(op) && ParserShaped(l) && ParserShaped(r)
    case Call(_, args) => forall a :: a in args && a.Some? ==> ParserShaped(a.value)
  }
}
