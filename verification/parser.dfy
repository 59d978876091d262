/** `parse_json`: tokenize the input, then turn the first token into a scalar
    value. Later tokens are never looked at. The scanner is not part of this
    model and is passed in as the function `tokenize`. */
module Parser {
  import opened Errors
  import opened Tokens
  import opened Values

  /** The token a scalar value is read from: the inverse of the conversion
      `parse_json` performs on a first token. */
  function ValueToken(v: JsonValue): (t: Token)
    ensures !IsStructural(t)
  {
    match v
    case String(s) => Token.String(s)
    case Number(n) => Token.Number(n)
    case Boolean(b) => Token.Boolean(b)
    case Null => Token.Null
  }

  /** The error for an empty token stream. */
  const NoValue: JsonError := UnexpectedEndOfInput("JSON value", 0)

  /** What `parse_json` does with the scanner's tokens: fail on an empty
      stream, reject a punctuation token, and convert a scalar
      token to the value with the same payload. */
  function ParseTokens(tokens: seq<Token>): (r: Result<JsonValue>)
    ensures |tokens| == 0 ==> r == Err(NoValue)
    ensures r.Ok? <==> |tokens| > 0 && !IsStructural(tokens[0])
    ensures r.Ok? ==> ValueToken(r.value) == tokens[0]
    ensures |tokens| > 0 && IsStructural(tokens[0]) ==>
              r == Err(UnexpectedToken("string", StructuralDebugName(tokens[0]), 0))
  {
    if |tokens| == 0 then Err(NoValue)
    else
      var token := tokens[0];
      match token
      case String(s) => Ok(JsonValue.String(s))
      case Number(n) => Ok(JsonValue.Number(n))
      case Boolean(b) => Ok(JsonValue.Boolean(b))
      case Null => Ok(JsonValue.Null)
      case _ => Err(UnexpectedToken("string", StructuralDebugName(token), 0))
  }

  /** `parse_json`: a scanner error is returned unchanged; otherwise the result
      is that of reading the first token. */
  function ParseJson(tokenize: string -> Result<seq<Token>>, input: string): (r: Result<JsonValue>)
    ensures tokenize(input).Err? ==> r == Err(tokenize(input).error)
    ensures r.Ok? <==> tokenize(input).Ok? && |tokenize(input).value| > 0
                       && !IsStructural(tokenize(input).value[0])
    ensures r.Ok? ==> ValueToken(r.value) == tokenize(input).value[0]
    ensures tokenize(input) == Ok([]) ==> r == Err(NoValue)
    ensures tokenize(input).Ok? ==> r == ParseTokens(tokenize(input).value)
  {
    match tokenize(input)
    case Err(e) => Err(e)
    case Ok(tokens) => ParseTokens(tokens)
  }

  /** Only the first token matters: streams with the same head parse alike,
      whatever follows. */
  lemma OnlyFirstTokenMatters(tokens: seq<Token>, tokens': seq<Token>)
    requires |tokens| > 0 && |tokens'| > 0 && tokens[0] == tokens'[0]
    ensures ParseTokens(tokens) == ParseTokens(tokens')
  {
  }

  /** A stream opening with the token of a scalar value parses to that value,
      and a successful parse always came from such a stream. */
  lemma ParseValueTokenRoundTrip(v: JsonValue, rest: seq<Token>, tokens: seq<Token>)
    ensures ParseTokens([ValueToken(v)] + rest) == Ok(v)
    ensures ParseTokens(tokens) == Ok(v) <==> |tokens| > 0 && tokens[0] == ValueToken(v)
  {
  }

  /** Every punctuation token is rejected with its own name in the error, so
      the error identifies which token was found. */
  lemma StructuralRejected(t: Token, t': Token, rest: seq<Token>, rest': seq<Token>)
    requires IsStructural(t) && IsStructural(t')
    ensures ParseTokens([t] + rest).Err?
    ensures ParseTokens([t] + rest) == ParseTokens([t'] + rest') <==> t == t'
  {
    StructuralDebugNameInjective(t, t');
  }
}
