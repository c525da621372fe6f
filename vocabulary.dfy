/** Token types and lexical modes of the grammar lexer that the adaptor sits under,
    and the identifier classifier (the first-character case test of `emit`). */
module Vocabulary {

  /** The token types `emit` and the argument/action handlers look at or produce.
      The generated lexer defines many more; they all appear as `Other(code)`.
      `InvalidType` is the runtime's `Token.INVALID_TYPE`. */
  datatype TokenType =
    | Options | Tokens | Channels
    | RBrace | At | Semi | EndAction
    | Id | TokenRef | RuleRef
    | ArgumentContent | ActionContent
    | InvalidType
    | Other(code: int)

  /** The lexical modes of the generated lexer that the handlers push or test. */
  datatype Mode = Default | Argument | TargetLanguageAction | LexerCharSet

  /** A raw token as the scanner hands it to `emit`: its provisional type and
      the first character of its text. */
  datatype Lexeme = Lexeme(kind: TokenType, first: char)

  /** ASCII upper-casing: 'a'..'z' map to 'A'..'Z', every other character is unchanged. */
  function ToUpper(c: char): (u: char)
    ensures 'a' <= c <= 'z' ==> 'A' <= u <= 'Z' && u as int + 32 == c as int
    ensures !('a' <= c <= 'z') ==> u == c
  {
    if 'a' <= c <= 'z' then (c as int - 32) as char else c
  }

  /** The identifier classifier: an identifier whose first character equals its
      upper-case form names a token, any other names a rule. */
  function ClassifyId(first: char): (t: TokenType)
    ensures t == TokenRef || t == RuleRef
    ensures t == TokenRef <==> first == ToUpper(first)
    ensures t == RuleRef <==> 'a' <= first <= 'z'
  {
    if first == ToUpper(first) then TokenRef else RuleRef
  }
}
