/** Expression trees and the values they evaluate to. */
module Expressions {
  import opened Text

  datatype Option<+T> = None | Some(value: T)

  /** The result of an evaluation. A ClassAd value is the ad node together with the ads that
      lexically enclose it, innermost first: that list is the ad's chain of parent scopes. */
  datatype Value =
    | Undefined
    | Error
    | Bool(b: bool)
    | Int(i: int)
    | Real(r: real)
    | Str(s: string)
    | AdValue(scope: seq<Expr>)

  datatype UnaryOp = UnaryPlus | UnaryMinus | LogicalNot | BitwiseNot | Parentheses

  datatype BinaryOp =
    | Less | LessEq | NotEqual | Equal | GreaterEq | Greater | Is | Isnt
    | Add | Sub | Mul | Div | Mod
    | Or | And
    | BitOr | BitXor | BitAnd | ShiftLeft | ShiftRight | UShiftRight
    | Subscript

  datatype Expr =
    | Literal(value: Value)
    | Ref(name: string, absolute: bool)
    | Select(base: Expr, attr: string)
    | Unary(uop: UnaryOp, arg: Expr)
    | Binary(op: BinaryOp, left: Expr, right: Expr)
    | Ternary(cond: Expr, onTrue: Expr, onFalse: Expr)
    | Call(fn: string, args: seq<Expr>)
    | ExprList(elems: seq<Expr>)
    | Ad(attrs: seq<Attr>)

  datatype Attr = Attr(name: string, expr: Expr)

  /** The expression bound to `name` in an ad. Attribute names are case-insensitive. */
  function Lookup(attrs: seq<Attr>, name: string): (r: Option<Expr>)
  {
    if attrs == [] then None
    else if SameName(attrs[0].name, name) then Some(attrs[0].expr)
    else Lookup(attrs[1..], name)
  }
}
