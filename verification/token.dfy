/** The tokens the scanner produces (`Token` in the tokenizer). The scanner
    itself is not part of this model; the parser receives it as a parameter. */
module Tokens {
  import Float
  import opened Optional

  datatype Token =
    | LeftBrace
    | RightBrace
    | LeftBracket
    | RightBracket
    | Comma
    | Colon
    | String(text: string)
    | Number(number: Float.F64)
    | Boolean(flag: bool)
    | Null

  /** The six payload-free punctuation tokens. */
  predicate IsStructural(t: Token) {
    t.LeftBrace? || t.RightBrace? || t.LeftBracket? || t.RightBracket? || t.Comma? || t.Colon?
  }

  /** What `format!("{:?}", token)` prints for a punctuation token: the
      derived `Debug` of a payload-free variant is the variant's name. */
  function StructuralDebugName(t: Token): (name: string)
    requires IsStructural(t)
    ensures StructuralFromName(name) == Some(t)
  {
    match t
    case LeftBrace => "LeftBrace"
    case RightBrace => "RightBrace"
    case LeftBracket => "LeftBracket"
    case RightBracket => "RightBracket"
    case Comma => "Comma"
    case Colon => "Colon"
  }

  /** The punctuation token a `Debug` name stands for, if any. */
  function StructuralFromName(name: string): Option<Token> {
    if name == "LeftBrace" then Some(LeftBrace)
    else if name == "RightBrace" then Some(RightBrace)
    else if name == "LeftBracket" then Some(LeftBracket)
    else if name == "RightBracket" then Some(RightBracket)
    else if name == "Comma" then Some(Comma)
    else if name == "Colon" then Some(Colon)
    else None
  }

  /** Distinct punctuation tokens print distinct names, so the name identifies
      the token. */
  lemma StructuralDebugNameInjective(t: Token, t': Token)
    requires IsStructural(t) && IsStructural(t')
    ensures StructuralDebugName(t) == StructuralDebugName(t') <==> t == t'
  {
    if t != t' {
      var n, n' := StructuralDebugName(t), StructuralDebugName(t');
      assert |n| != |n'| || n[0] != n'[0] || n[4] != n'[4];
    }
  }
}
