/** Options shared by the other modules. */
module Wrappers {
  datatype Option<+T> = None | Some(value: T)
}

/** The character tests of `<ctype.h>` for ASCII text, and those built from them. */
module Chars {
  predicate IsUpper(c: char) { 'A' <= c <= 'Z' }

  predicate IsLower(c: char) { 'a' <= c <= 'z' }

  predicate IsLetter(c: char) { IsLower(c) || IsUpper(c) }

  predicate IsDigit(c: char) { '0' <= c <= '9' }

  /** A letter, a digit or an underscore. */
  predicate IsWordChar(c: char) { IsLetter(c) || IsDigit(c) || c == '_' }
}

/** The token kinds of `src/lexer.h`, numbered as the enumeration there numbers them. */
module Tokens {
  newtype TokenKind = n: int | 0 <= n < 54

  const KwF: TokenKind := 0
  const KwT: TokenKind := 1
  const KwI: TokenKind := 2
  const KwM: TokenKind := 3
  const KwIf: TokenKind := 4
  const KwEl: TokenKind := 5
  const KwLp: TokenKind := 6
  const KwBr: TokenKind := 7
  const KwLet: TokenKind := 8
  const KwMut: TokenKind := 9
  const KwAs: TokenKind := 10
  const KwRt: TokenKind := 11
  const KwSc: TokenKind := 12
  const KwMt: TokenKind := 13
  const BoolLit: TokenKind := 14
  const IntLit: TokenKind := 15
  const FloatLit: TokenKind := 16
  const StrLit: TokenKind := 17
  const Ident: TokenKind := 18
  const TypeIdent: TokenKind := 19
  const LParen: TokenKind := 20
  const RParen: TokenKind := 21
  const LBrace: TokenKind := 22
  const RBrace: TokenKind := 23
  const LBracket: TokenKind := 24
  const RBracket: TokenKind := 25
  const Eq: TokenKind := 26
  const EqEq: TokenKind := 27
  const Colon: TokenKind := 28
  const Dot: TokenKind := 29
  const Semi: TokenKind := 30
  const Plus: TokenKind := 31
  const Minus: TokenKind := 32
  const Star: TokenKind := 33
  const Slash: TokenKind := 34
  const Lt: TokenKind := 35
  const Gt: TokenKind := 36
  const Bang: TokenKind := 37
  const Pipe: TokenKind := 38
  const Dollar: TokenKind := 39
  const At: TokenKind := 40
  const And: TokenKind := 41
  const Or: TokenKind := 42
  const Amp: TokenKind := 43
  const Caret: TokenKind := 44
  const Tilde: TokenKind := 45
  const Shr: TokenKind := 46
  const Shl: TokenKind := 47
  const Percent: TokenKind := 48
  const Le: TokenKind := 49
  const Ge: TokenKind := 50
  const Ne: TokenKind := 51
  const Eof: TokenKind := 52
  const Error: TokenKind := 53
}
