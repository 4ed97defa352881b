/** Tokens and what the parser asks of them. */
module Tokens {
  import opened Values
  import opened Arith
  import S = Syntax

  datatype Token =
    | Undefined
    | Ident(name: string) | Integer(value: nat) | KwTrue | KwFalse
    | Plus | Minus | Star | Slash
    | Equal | EqualEqual | Bang | BangEqual | Less | LessEqual | Greater | GreaterEqual
    | PlusEqual | MinusEqual | StarEqual | SlashEqual | AmpEqual | PipeEqual | CaretEqual
    | LeftShiftEqual | RightShiftEqual
    | PlusPlus | MinusMinus | AmpAmp | PipePipe | Amp | Pipe | Caret | Tilde | LeftShift | RightShift
    | Semicolon | LParen | RParen | LBrace | RBrace | Comma | Dot
    | KwType(t: ValueType)
    | KwAs | KwIf | KwElse | KwWhile | KwFn | KwReturn | KwMut | KwPub | KwExtern | KwImport
    | Eof

  predicate IsType(k: Token) {
    k.KwType? && k.t != Unresolved
  }

  predicate IsQualifier(k: Token) {
    k.KwMut? || k.KwPub? || k.KwExtern?
  }

  predicate IsAssign(k: Token) {
    k.Equal? || k.PlusEqual? || k.MinusEqual? || k.StarEqual? || k.SlashEqual? || k.AmpEqual? || k.PipeEqual? ||
    k.CaretEqual? || k.LeftShiftEqual? || k.RightShiftEqual?
  }

  /** The operator of a binary or compound-assignment token. */
  function BinaryOpOf(k: Token): Option<BinaryOp> {
    match k
    case Plus | PlusEqual => Some(Add)
    case Minus | MinusEqual => Some(Sub)
    case Star | StarEqual => Some(Mul)
    case Slash | SlashEqual => Some(Div)
    case Amp | AmpEqual => Some(BitAnd)
    case Pipe | PipeEqual => Some(BitOr)
    case Caret | CaretEqual => Some(BitXor)
    case LeftShift | LeftShiftEqual => Some(Shl)
    case RightShift | RightShiftEqual => Some(Shr)
    case EqualEqual => Some(Eq)
    case BangEqual => Some(Ne)
    case Less => Some(Lt)
    case LessEqual => Some(Le)
    case Greater => Some(Gt)
    case GreaterEqual => Some(Ge)
    case AmpAmp => Some(LogAnd)
    case PipePipe => Some(LogOr)
    case _ => None
  }

  function PrefixOf(k: Token): Option<S.UnaryKind> {
    match k
    case Minus => Some(S.Minus)
    case Tilde => Some(S.Tilde)
    case Bang => Some(S.Bang)
    case PlusPlus => Some(S.PreInc)
    case MinusMinus => Some(S.PreDec)
    case _ => None
  }

  function PostfixOf(k: Token): Option<S.UnaryKind> {
    match k
    case PlusPlus => Some(S.PostInc)
    case MinusMinus => Some(S.PostDec)
    case _ => None
  }

  // ---------------------------------------------------------------- precedence

  const LEVELS: nat := 9

  /** The level a binary operator token belongs to. */
  function LevelOf(k: Token): Option<nat> {
    match k
    case PipePipe => Some(0)
    case AmpAmp => Some(1)
    case EqualEqual | BangEqual | Less | LessEqual | Greater | GreaterEqual => Some(2)
    case Pipe => Some(3)
    case Caret => Some(4)
    case Amp => Some(5)
    case LeftShift | RightShift => Some(6)
    case Plus | Minus => Some(7)
    case Star | Slash => Some(8)
    case _ => None
  }

  predicate Chainable(level: nat) {
    level != 2
  }

  /** Starts a declaration or statement, or closes or opens a block: recovery of a statement stops. */
  predicate StopsStatement(k: Token) {
    (k.KwType? && !k.t.Void?) || k.KwIf? || k.KwWhile? || k.KwFn? || k.KwReturn? || k.Ident? || k.LBrace? || k.RBrace?
  }

  predicate StopsExpression(k: Token) {
    k.Semicolon? || k.RParen? || k.LBrace? || k.RBrace? || k.KwAs?
  }

  predicate StopsTopLevel(k: Token) {
    k.KwFn? || (k.KwType? && !k.t.Void?)
  }
}
