/** The token alphabet shared by the parser and the unparser, and operator precedence. */
module Tokens {
  import opened Text
  import opened Expressions

  datatype Token =
    | IntTok(i: int) | RealTok(r: real) | BoolTok(b: bool) | StrTok(s: string) | UndefinedTok | ErrorTok
    | IdentTok(name: string)
    | OpTok(op: BinaryOp)
    | LogicalNotTok | BitwiseNotTok
    | Dot | Assign | QMark | Colon | Semicolon | Comma
    | OpenBox | CloseBox | OpenParen | CloseParen | OpenBrace | CloseBrace
    | EndOfInput
    | BadToken

  /** The next token; past the end there is always the end-of-input token. */
  function Peek(toks: seq<Token>): (t: Token) {
    if toks == [] then EndOfInput else toks[0]
  }

  /** Operator precedence, from 1 for `||` to 10 for `*`; the conditional is 0, unary operators 11
      and subscription 12. */
  function PrecedenceLevel(op: BinaryOp): (level: nat)
    ensures 1 <= level <= 12
  {
    match op
    case Or => 1
    case And => 2
    case BitOr => 3
    case BitXor => 4
    case BitAnd => 5
    case NotEqual | Equal | Is | Isnt => 6
    case Less | LessEq | GreaterEq | Greater => 7
    case ShiftLeft | ShiftRight | UShiftRight => 8
    case Add | Sub => 9
    case Mul | Div | Mod => 10
    case Subscript => 12
  }

  /** The unary operator a token stands for at the start of an operand. Plus and minus share their
      tokens with addition and subtraction. */
  function UnaryOf(t: Token): (r: Option<UnaryOp>) {
    match t
    case OpTok(Sub) => Some(UnaryMinus)
    case OpTok(Add) => Some(UnaryPlus)
    case BitwiseNotTok => Some(BitwiseNot)
    case LogicalNotTok => Some(LogicalNot)
    case _ => None
  }

  function UnaryToken(op: UnaryOp): (t: Token)
    requires !op.Parentheses?
    ensures UnaryOf(t) == Some(op)
  {
    match op
    case UnaryMinus => OpTok(Sub)
    case UnaryPlus => OpTok(Add)
    case BitwiseNot => BitwiseNotTok
    case LogicalNot => LogicalNotTok
  }

  /** The literal a token denotes. */
  function LiteralOf(t: Token): (r: Option<Value>) {
    match t
    case IntTok(i) => Some(Int(i))
    case RealTok(r) => Some(Real(r))
    case BoolTok(b) => Some(Bool(b))
    case StrTok(s) => Some(Str(s))
    case UndefinedTok => Some(Undefined)
    case ErrorTok => Some(Error)
    case _ => None
  }

  function LiteralToken(v: Value): (t: Token)
    requires !v.AdValue?
    ensures LiteralOf(t) == Some(v)
  {
    match v
    case Int(i) => IntTok(i)
    case Real(r) => RealTok(r)
    case Bool(b) => BoolTok(b)
    case Str(s) => StrTok(s)
    case Undefined => UndefinedTok
    case Error => ErrorTok
  }

  /** The precedence level at which a token could continue an expression that stands before it,
      or -1 for a token that cannot. */
  function Continues(t: Token): (level: int)
    ensures -1 <= level <= 13
  {
    match t
    case OpTok(op) => if op.Subscript? then -1 else PrecedenceLevel(op)
    case QMark => 0
    case OpenBox => 12
    case Dot => 12
    case OpenParen => 13
    case _ => -1
  }
}
