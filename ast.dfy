/** The syntax tree of kaleidoscope/native/ast.h (lines 17-79). Each node
    owns its children, so the tree is an ordinary datatype value. */
module Ast {

  /** ExprAST and its four subclasses. NumberAST holds the numeral's text in
      place of the double that strtod makes of it. */
  datatype Expr =
    | Number(lexeme: string)
    | Variable(name: string)
    | Binary(op: char, lhs: Expr, rhs: Expr)
    | Call(callee: string, args: seq<Expr>)

  /** ProtoTypeAST: a function name and its parameter names. The empty name
      marks the wrapper of a top-level expression. */
  datatype Prototype = Prototype(name: string, params: seq<string>)

  /** FunctionAST: a prototype and a body. */
  datatype Function = Function(proto: Prototype, body: Expr)
}
