/** The unparser's text. */
module Rendering {
  import opened Text
  import opened Expressions
  import opened Tokens
  import opened Escapes
  import opened Decimal
  import opened Lexing

  function OpSymbol(op: BinaryOp): (s: string)
    ensures s != ""
  {
    match op
    case Less => "<"
    case LessEq => "<="
    case NotEqual => "!="
    case Equal => "=="
    case GreaterEq => ">="
    case Greater => ">"
    case Is => "is"
    case Isnt => "isnt"
    case Add => "+"
    case Sub => "-"
    case Mul => "*"
    case Div => "/"
    case Mod => "%"
    case Or => "||"
    case And => "&&"
    case BitOr => "|"
    case BitXor => "^"
    case BitAnd => "&"
    case ShiftLeft => "<<"
    case ShiftRight => ">>"
    case UShiftRight => ">>>"
    case Subscript => "[]"
  }

  function UnarySymbol(op: UnaryOp): (s: string) {
    match op
    case UnaryPlus => "+"
    case UnaryMinus => "-"
    case LogicalNot => "!"
    case BitwiseNot => "~"
    case Parentheses => "()"
  }

  /** A name is quoted when it starts like an identifier but is not one. */
  predicate NeedsQuoting(s: string) {
    s != "" && (IsAlpha(s[0]) || s[0] == '_') && WordLength(s) < |s|
  }

  function NameText(name: string): (s: string)
    requires IsText(name)
  {
    var e := Escape(name, '\'');
    if NeedsQuoting(e) then "'" + e + "'" else e
  }

  /** Values without a text in this model (reals and ads) are rendered as the empty string. */
  function ValueText(v: Value): (s: string) {
    match v
    case Undefined => "undefined"
    case Error => "error"
    case Bool(b) => if b then "true" else "false"
    case Int(i) => if i < 0 then "-" + Numeral(-i) else Numeral(i)
    case Str(s) => if IsText(s) then "\"" + Escape(s, '"') + "\"" else ""
    case _ => ""
  }

  /** The text of an expression. Attribute names after a dot and function names are written as
      they are; other names go through `NameText`. */
  function TextOf(e: Expr): (s: string)
    decreases e, 1
  {
    match e
    case Literal(v) => ValueText(v)
    case Ref(name, absolute) => (if absolute then "." else "") + (if IsText(name) then NameText(name) else "")
    case Select(base, attr) => TextOf(base) + ("." + attr)
    case Unary(op, arg) =>
      if op.Parentheses? then "( " + (TextOf(arg) + " )") else (" " + UnarySymbol(op)) + TextOf(arg)
    case Binary(op, l, r) =>
      if op.Subscript? then TextOf(l) + ("[" + (TextOf(r) + "]"))
      else TextOf(l) + (" " + (OpSymbol(op) + (" " + TextOf(r))))
    case Ternary(c, t, f) => TextOf(c) + (" ? " + (TextOf(t) + (" : " + TextOf(f))))
    case Call(fn, args) => fn + ("(" + (ItemsText(args) + ")"))
    case ExprList(elems) => "{ " + (ItemsText(elems) + " }")
    case Ad(attrs) => "[ " + (AttributesText(attrs) + " ]")
  }

  function ItemsText(es: seq<Expr>): (s: string)
    decreases es, 0
  {
    if es == [] then ""
    else if |es| == 1 then TextOf(es[0])
    else TextOf(es[0]) + ("," + ItemsText(es[1..]))
  }

  function AttributesText(attrs: seq<Attr>): (s: string)
    decreases attrs, 0
  {
    if attrs == [] then ""
    else if |attrs| == 1 then AttributeText(attrs[0])
    else AttributeText(attrs[0]) + ("; " + AttributesText(attrs[1..]))
  }

  function AttributeText(a: Attr): (s: string)
    decreases a, 0
  {
    (if IsText(a.name) then NameText(a.name) else "") + (" = " + TextOf(a.expr))
  }

  // -------------------------------------------------- what can be spelled

  /** An identifier that needs no quotes and is not a reserved word. */
  predicate PlainName(s: string) {
    && s != "" && (IsAlpha(s[0]) || s[0] == '_')
    && WordLength(s) == |s| && WordToken(s).IdentTok?
  }

  /** The names that survive being printed and read: they start with a letter or underscore, and
      are not reserved words. */
  predicate GoodName(s: string) {
    && IsText(s) && s != "" && (IsAlpha(s[0]) || s[0] == '_')
    && (WordLength(s) == |s| ==> WordToken(s).IdentTok?)
  }

  predicate SpellableValue(v: Value) {
    match v
    case Int(i) => INT_MIN <= i <= INT_MAX
    case Str(s) => IsText(s)
    case Real(_) => false
    case AdValue(_) => false
    case _ => true
  }

  /** The trees whose text is read back token by token. Besides names and values, two shapes are
      excluded because the lexer would run their tokens together: a minus sign in front of a digit,
      and a selection from a number. */
  predicate Spellable(e: Expr) {
    match e
    case Literal(v) => SpellableValue(v)
    case Ref(name, _) => GoodName(name)
    case Select(base, attr) => Spellable(base) && PlainName(attr) && !(base.Literal? && base.value.Int?)
    case Unary(op, arg) => Spellable(arg) && (op.UnaryMinus? ==> TextOf(arg) != "" && !IsDigit(TextOf(arg)[0]))
    case Binary(_, l, r) => Spellable(l) && Spellable(r)
    case Ternary(c, t, f) => Spellable(c) && Spellable(t) && Spellable(f)
    case Call(fn, args) => PlainName(fn) && forall i :: 0 <= i < |args| ==> Spellable(args[i])
    case ExprList(elems) => forall i :: 0 <= i < |elems| ==> Spellable(elems[i])
    case Ad(attrs) => forall i :: 0 <= i < |attrs| ==> GoodName(attrs[i].name) && Spellable(attrs[i].expr)
  }
}
