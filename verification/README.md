# rust-json-parser core, modelled in Dafny

This project models the core of `rust-json-parser`, an early-stage Rust JSON
library. Four parts of it are pure and self-contained:

- **String escape helpers.** `resolve_escape_sequence` is the decode table for
  the one-letter escapes of section 7 of RFC 8259, without `\u`.
  `escape_json_string` is the per-character encoder used on output.
- **First-token parser.** `parse_json` runs the scanner. An empty token list is
  an error. Otherwise it turns the first token into a scalar `JsonValue`. A
  punctuation token is an error, and every later token is ignored.
- **Value accessors.** `JsonValue` has four variants (`String`, `Number`,
  `Boolean`, `Null`). Its accessors are total, and its `PartialEq` is derived.
- **Error model.** `JsonError` has three variants, a `Display` rendering, and a
  `From<ParseFloatError>` conversion that always returns the same error.

Files and modules:

| file | module | models |
|---|---|---|
| `optional.dfy` | `Optional` | Rust's `Option` |
| `float.dfy` | `Float` | the `f64` payload, as its binary64 bit pattern with IEEE `==` |
| `error.dfy` | `Errors` | `error.rs` and the `Result` alias of `lib.rs` |
| `token.dfy` | `Tokens` | the `Token` enum of `tokenizer.rs` and its derived `Debug` names |
| `value.dfy` | `Values` | `value.rs` |
| `utils.dfy` | `Utils` | `utils.rs` |
| `parser.dfy` | `Parser` | `parser.rs` |

The scanner (`Tokenizer::new(input).tokenize()`) is not part of this model.
`Parser.ParseJson` takes it as a function parameter
`tokenize: string -> Result<seq<Token>>`, so every property of `parse_json` is
stated for every possible scanner.

`Utils.Unescape` does not exist in the source. It is a reference decoder built
on `resolve_escape_sequence`: a backslash and the letter after it are replaced
by what that letter maps to, and every other character is copied. It is the
partner against which the encoder's round trip is proved.

## Model

| member | source | states |
|---|---|---|
| `Utils.ResolveEscapeSequence` | rust-json-parser/src/utils.rs:1-13 | Only the eight letters `n t r \ " / b f` are escapes. `n`, `t`, `r`, `b`, `f` decode to LF, TAB, CR, U+0008, U+000C respectively, and each of those controls comes from its letter only. The three punctuation marks decode to themselves. |
| `Utils.EscapeChar` | rust-json-parser/src/utils.rs:18-27 | A character outside the seven escaped ones is copied as is. Each escaped character becomes a backslash and a letter that `ResolveEscapeSequence` maps back to it. No character is ever written as `\/`. |
| `Utils.ResolveThenEscape` | rust-json-parser/src/utils.rs:1-27 | Reverse agreement: for every escape letter except `/`, the encoder writes the decoded character as exactly that backslash and letter. `/` decodes to a character the encoder copies unescaped. |
| `Utils.EscapeJsonString` | rust-json-parser/src/utils.rs:15-30 | The output is never shorter than the input. A string with nothing to escape is returned unchanged. |
| `Utils.EscapeJsonStringLoop` | rust-json-parser/src/utils.rs:16-29 | The buffer-pushing loop computes the same string as the per-character definition. |
| `Utils.EscapeDistributes` | rust-json-parser/src/utils.rs:17-28 | The encoder distributes over concatenation: escape(a + b) == escape(a) + escape(b). |
| `Utils.EscapeLength` | rust-json-parser/src/utils.rs:19-26 | The output length is the input length plus one for each escaped character. |
| `Utils.EscapeIdentityIff` | rust-json-parser/src/utils.rs:16-29 | The output has the input's length exactly when no character needs escaping, and it then equals the input. Both directions are proved. |
| `Utils.EscapeLeavesNoRawControls` | rust-json-parser/src/utils.rs:21-25 | The output never contains a raw LF, TAB, CR, U+0008 or U+000C. |
| `Utils.UnescapeEscape` | rust-json-parser/src/utils.rs:1-30 | Round trip: decoding the escaped form of any string with the escape table gives that string back. |
| `Utils.SolidusDecodesTwoWays` | rust-json-parser/src/utils.rs:8 | The decoder accepts both `\/` and `/` for a solidus. The encoder writes only `/`, so decoding is not injective. |
| `Parser.ValueToken` | rust-json-parser/src/parser.rs:17-21 | The scalar token a value is read from is never a punctuation token. |
| `Parser.ParseTokens` | rust-json-parser/src/parser.rs:11-27 | An empty stream fails with `UnexpectedEndOfInput("JSON value", 0)`. Success holds exactly when the first token is a scalar, and the value then carries the token's payload. A punctuation token fails with `UnexpectedToken("string", <its Debug name>, 0)`. |
| `Parser.ParseJson` | rust-json-parser/src/parser.rs:6-28 | A scanner error comes back unchanged. On the scanner's tokens the result is that of `Parser.ParseTokens`. Success holds exactly when the scanner succeeds with a scalar first token, and the value matches that token. An empty stream gives the end-of-input error. |
| `Parser.OnlyFirstTokenMatters` | rust-json-parser/src/parser.rs:11-21 | Two non-empty streams with the same first token parse to the same result. |
| `Parser.ParseValueTokenRoundTrip` | rust-json-parser/src/parser.rs:17-21 | A stream that starts with a value's token parses to that value. A parse yields `v` exactly when the stream starts with `v`'s token. |
| `Parser.StructuralRejected` | rust-json-parser/src/parser.rs:22-26 | Every punctuation token is rejected. Two such rejections are equal exactly when the tokens are equal, because the error names the token. |
| `Tokens.StructuralDebugName` | rust-json-parser/src/parser.rs:24 | The derived `Debug` name printed for a punctuation token reads back as that token, so it identifies the token. |
| `Tokens.StructuralDebugNameInjective` | rust-json-parser/src/tokenizer.rs:6-18 | The derived `Debug` names of the six punctuation tokens are pairwise distinct. |
| `Values.IsNull` | rust-json-parser/src/value.rs:14-16 | Holds of `Null` and of no other value. |
| `Values.AsStr` | rust-json-parser/src/value.rs:18-23 | Returns `Some(s)` exactly when the value is `String(s)`, and `None` otherwise. |
| `Values.AsF64` | rust-json-parser/src/value.rs:25-30 | Returns `Some(n)` exactly when the value is `Number(n)`, and `None` otherwise. |
| `Values.AsBool` | rust-json-parser/src/value.rs:32-37 | Returns `Some(b)` exactly when the value is `Boolean(b)`, and `None` otherwise. |
| `Values.ExactlyOneAccessor` | rust-json-parser/src/value.rs:5-38 | For every value exactly one of the four accessors answers. What it returns rebuilds the value. |
| `Values.ValueEq` | rust-json-parser/src/value.rs:5-11 | Derived `==` never relates values of different variants. Off numbers it is structural equality. Two numbers are equal exactly when their payloads are equal under binary64 `==`. |
| `Values.ValueEqStructural` | rust-json-parser/src/value.rs:5-11 | Derived `==` is symmetric. It is reflexive on every value except a NaN number. |
| `Values.ValueEqExamples` | rust-json-parser/src/value.rs:76-88 | The equalities the equality test asserts hold: `Null`, `Boolean(true)`, `Number(42.0)` and `String("test")` each equal themselves, `Null != Boolean(false)`, and `Number(1.0) != Number(2.0)`. |
| `Float.FloatEqReflexiveOffNaN` | rust-json-parser/src/value.rs:5-8 | Binary64 `==` on the payload is symmetric, and reflexive exactly on non-NaN numbers. |
| `Float.FloatEqExamples` | rust-json-parser/src/value.rs:5-8 | The two zeros compare equal, a NaN is not equal to itself, and 1.0 differs from 2.0. |
| `Errors.Decimal` | rust-json-parser/src/error.rs:31-32 | The rendered position is a non-empty run of digits. It begins with `0` only for position zero. |
| `Errors.DecimalRoundTrip` | rust-json-parser/src/error.rs:31-32 | Reading a rendered position back as a decimal number gives the position. |
| `Errors.DecimalInjective` | rust-json-parser/src/error.rs:31-32 | Distinct positions render differently. |
| `Errors.Message` | rust-json-parser/src/error.rs:21-51 | Every message starts with the variant's fixed prefix and then the position in decimal, and the next character is `:`. |
| `Errors.MessageLayout` | rust-json-parser/src/error.rs:24-48 | Every message is exactly the variant's prefix, then the decimal position, then the variant's field text: `: expected <e>, found <f>`, `: expected <e>` or `: value <v>`. |
| `Errors.MessageMentionsFields` | rust-json-parser/src/error.rs:81-93 | The message contains `position <n>`, the expected text, the found text and the number text, for each variant that has them. |
| `Errors.MessageKindReadBack` | rust-json-parser/src/error.rs:24-48 | The three prefixes exclude one another, so the variant can be read back from the message alone. |
| `Errors.MessagePositionReadBack` | rust-json-parser/src/error.rs:24-48 | The digits after the prefix read back as exactly the error's position. |
| `Errors.MessageFieldsReadBack` | rust-json-parser/src/error.rs:24-48 | What follows the position in a message reads back as exactly the variant's field text. |
| `Errors.MessageDeterminesError` | rust-json-parser/src/error.rs:35-48 | Two errors with the same message are equal when one of them is `UnexpectedEndOfInput` or `InvalidNumber`: the message fixes the variant, the position and the text field. |
| `Errors.MessageSeparatesKindAndPosition` | rust-json-parser/src/error.rs:21-51 | Errors that differ in variant or in position never render the same message. |
| `Errors.FromParseFloatError` | rust-json-parser/src/error.rs:55-63 | Any float-parse failure, whatever its kind, becomes `UnexpectedToken` with expected `number`, found `NaN`, at position 0. |

## Left out

- The scanner (`tokenize`, tokenizer.rs:20-24) is a stub that returns an empty vector. Its tests describe behaviour the code does not have, so none of them is a property here. Only the `Token` type is modelled.
- `Tokenizer`, which `parse_json` calls, is not part of this model. It is a function parameter of `Parser.ParseJson`.
- `lib.rs` only wires modules together and re-exports them. Its tests target a `JsonParser` API that does not exist in this code. Only the `Result` alias is kept, as `Errors.Result`.
- `python_bindings.rs` is foreign-function marshalling, and it names `Array`/`Object` variants that `JsonValue` does not have. `main.rs` and the Python package are I/O and benchmark plumbing.
- Floating point: the `f64` payload is only copied and compared. It is modelled as a bit pattern with binary64 `==`, and no decimal parsing or formatting is modelled.
- The derived `Debug` output of `JsonError` and of payload-carrying tokens is not modelled. Its formatting of strings and floats is outside this core, and `parse_json` only prints the `Debug` name of punctuation tokens.
- The commented-out tests in parser.rs:30-231 are not live code.
- `Utils.EscapeChar` copies every control character other than LF, TAB, CR, U+0008 and U+000C unescaped, as the code does. Section 7 of RFC 8259 requires those to be escaped too. The model follows the code.
- `Errors.Message`: its own ensures fixes only the prefix, the decimal position and the `:` after it. The exact field text is stated by `Errors.MessageLayout` and read back by `Errors.MessageFieldsReadBack`.
- `Errors.MessageDeterminesError`: excludes `UnexpectedToken`, whose message is not injective because the expected text may itself contain `, found `. For that variant only the variant, the position and the whole field text are recoverable.
