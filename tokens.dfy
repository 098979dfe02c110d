/**
 * Tokens: the lexical units the tokenizer produces and the parser consumes.
 */
module Tokens {

  /** The category of a token (TokenType.cs). Whitespace and Comment are
      recognised by the tokenizer but never emitted. */
  datatype TokenType =
    | Keyword
    | FreeKeyword
    | Whitespace
    | Comment
    | Punctuation
    | Operator
    | Number
    | String
    | Identifier
    | EOF

  /** A token is an immutable type/value pair: both are fixed at construction. */
  datatype Token = Token(kind: TokenType, value: string) {

    /** How many characters the token's value takes up. */
    function Length(): nat {
      |value|
    }
  }

  /** The value the tokenizer gives the EOF token it appends. */
  const EofText: string := "end of file"

  /** Token.Equals: two tokens are equal exactly when their types and values are. */
  function Equals(t: Token, other: Token): (r: bool)
    ensures r <==> t == other
  {
    t.kind == other.kind && t.value == other.value
  }

  /** The position of a token type in the enumeration. */
  function Ordinal(kind: TokenType): (n: nat)
    ensures n < 10
  {
    match kind
    case Keyword => 0
    case FreeKeyword => 1
    case Whitespace => 2
    case Comment => 3
    case Punctuation => 4
    case Operator => 5
    case Number => 6
    case String => 7
    case Identifier => 8
    case EOF => 9
  }

  /** A deterministic string hash standing in for the runtime's string hash. */
  function StringHash(s: string): int
    decreases |s|
  {
    if s == [] then 0 else 31 * StringHash(s[..|s| - 1]) + (s[|s| - 1] as int)
  }

  /** Token.GetHashCode: a combination of the type and the value only. */
  function HashCode(t: Token): int {
    Ordinal(t.kind) + 17 * StringHash(t.value)
  }

  /** Equal tokens have equal hash codes. */
  lemma EqualTokensHashEqually(t: Token, other: Token)
    requires Equals(t, other)
    ensures HashCode(t) == HashCode(other)
  {
  }
}
