/** What a lexer of quoted strings returns: the text read, and what stands behind it. */
module Lexing {
  import opened Wrappers

  datatype Token = Token(text: string, rest: string)

  function PrependToken(c: char, t: Option<Token>): Option<Token> {
    if t.None? then None else Some(Token([c] + t.value.text, t.value.rest))
  }
}
