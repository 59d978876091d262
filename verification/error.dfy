/** The error type shared by the scanner and the parser (`JsonError`), its
    `Display` rendering, the conversion from a float-parse failure, and the
    crate-wide `Result` alias. */
module Errors {
  import opened Optional

  /** Rust's `usize` on a 64-bit target: the type of every error position. */
  type Usize = n: nat | n < 0x1_0000_0000_0000_0000

  datatype JsonError =
    | UnexpectedToken(expected: string, found: string, position: Usize)
    | UnexpectedEndOfInput(expected: string, position: Usize)
    | InvalidNumber(value: string, position: Usize)

  /** The crate's `Result<T>`, an alias fixing the error type to `JsonError`. */
  datatype Result<+T> = Ok(value: T) | Err(error: JsonError)

  /** `std::num::ParseFloatError`; its only content is which of Rust's two
      failure kinds occurred, and the conversion below ignores it. */
  datatype ParseFloatError = EmptyInput | InvalidInput

  // ---------------------------------------------------------------------
  // Decimal rendering of positions (`{}` on a `usize`)
  // ---------------------------------------------------------------------

  predicate IsDigit(c: char) {
    '0' <= c <= '9'
  }

  predicate AllDigits(s: string) {
    forall i :: 0 <= i < |s| ==> IsDigit(s[i])
  }

  function DigitChar(d: nat): (c: char)
    requires d < 10
    ensures IsDigit(c)
    ensures DigitValue(c) == d
  {
    (('0' as int) + d) as char
  }

  function DigitValue(c: char): nat
    requires IsDigit(c)
  {
    (c as int) - ('0' as int)
  }

  /** The decimal numeral of `n`: only digits, never empty, and with a leading
      zero only when `n` itself is zero. */
  function Decimal(n: nat): (s: string)
    ensures |s| > 0
    ensures AllDigits(s)
    ensures s[0] == '0' <==> n == 0
    decreases n
  {
    if n < 10 then [DigitChar(n)] else Decimal(n / 10) + [DigitChar(n % 10)]
  }

  /** The value of a string of decimal digits, read most significant first. */
  function DecimalValue(s: string): nat
    requires AllDigits(s)
    decreases |s|
  {
    if |s| == 0 then 0 else DecimalValue(s[..|s| - 1]) * 10 + DigitValue(s[|s| - 1])
  }

  /** Reading a rendered position back yields the position. */
  lemma {:induction false} DecimalRoundTrip(n: nat)
    ensures DecimalValue(Decimal(n)) == n
    decreases n
  {
    if n >= 10 {
      var s := Decimal(n);
      assert s[..|s| - 1] == Decimal(n / 10);
      DecimalRoundTrip(n / 10);
    }
  }

  /** Distinct positions render as distinct numerals. */
  lemma DecimalInjective(m: nat, n: nat)
    ensures Decimal(m) == Decimal(n) <==> m == n
  {
    if Decimal(m) == Decimal(n) {
      DecimalRoundTrip(m);
      DecimalRoundTrip(n);
    }
  }

  // ---------------------------------------------------------------------
  // Display
  // ---------------------------------------------------------------------

  datatype ErrorKind = UnexpectedTokenKind | UnexpectedEndOfInputKind | InvalidNumberKind

  function KindOf(e: JsonError): ErrorKind {
    match e
    case UnexpectedToken(_, _, _) => UnexpectedTokenKind
    case UnexpectedEndOfInput(_, _) => UnexpectedEndOfInputKind
    case InvalidNumber(_, _) => InvalidNumberKind
  }

  /** The fixed words each variant's message opens with, before `position`. */
  function Lead(k: ErrorKind): string {
    match k
    case UnexpectedTokenKind => "Unexpected token at "
    case UnexpectedEndOfInputKind => "Unexpected end of input at "
    case InvalidNumberKind => "Invalid number at "
  }

  /** The fixed text each variant's message opens with, up to the position. */
  function Prefix(k: ErrorKind): string {
    Lead(k) + "position "
  }

  /** `impl fmt::Display for JsonError`: the prefix of the variant, the
      position in decimal, then the variant's fields. */
  function Message(e: JsonError): (m: string)
    ensures HeadThenColon(m, Prefix(KindOf(e)) + Decimal(e.position))
  {
    match e
    case UnexpectedToken(expected, found, position) =>
      Prefix(UnexpectedTokenKind) + Decimal(position) + ": expected " + expected + ", found " + found
    case UnexpectedEndOfInput(expected, position) =>
      Prefix(UnexpectedEndOfInputKind) + Decimal(position) + ": expected " + expected
    case InvalidNumber(value, position) =>
      Prefix(InvalidNumberKind) + Decimal(position) + ": value " + value
  }

  predicate StartsWith(s: string, p: string) {
    |p| <= |s| && s[..|p|] == p
  }

  /** `s` opens with `head`, and a colon follows it. */
  predicate HeadThenColon(s: string, head: string) {
    StartsWith(s, head) && |s| > |head| && s[|head|] == ':'
  }

  predicate IsInfixAt(sub: string, s: string, k: nat) {
    k + |sub| <= |s| && s[k..k + |sub|] == sub
  }

  predicate IsInfix(sub: string, s: string) {
    exists k: nat :: k <= |s| && IsInfixAt(sub, s, k)
  }

  /** The text each variant's message carries after the position: its
      fields, each behind fixed words, starting with a colon. */
  function Fields(e: JsonError): (tail: string)
    ensures |tail| > 0 && tail[0] == ':'
  {
    match e
    case UnexpectedToken(expected, found, _) => ": expected " + expected + ", found " + found
    case UnexpectedEndOfInput(expected, _) => ": expected " + expected
    case InvalidNumber(value, _) => ": value " + value
  }

  lemma Regroup(a: string, b: string, c: string, d: string, f: string, g: string)
    ensures a + b + c + d + f + g == a + b + (c + d + f + g)
    ensures a + b + c + d == a + b + (c + d)
  {
  }

  /** Every message is exactly its variant's prefix, the decimal position,
      then the variant's fields: the three format strings of `Display`. */
  lemma MessageLayout(e: JsonError)
    ensures Message(e) == Prefix(KindOf(e)) + Decimal(e.position) + Fields(e)
  {
    var p, d := Prefix(KindOf(e)), Decimal(e.position);
    match e
    case UnexpectedToken(expected, found, _) =>
      Regroup(p, d, ": expected ", expected, ", found ", found);
    case UnexpectedEndOfInput(expected, _) =>
      Regroup(p, d, ": expected ", expected, "", "");
    case InvalidNumber(value, _) =>
      Regroup(p, d, ": value ", value, "", "");
  }

  /** Where the pieces of a concatenation sit inside it. */
  lemma PiecesAreInfixes(a: string, b: string, c: string, d: string, f: string, g: string, h: string)
    ensures IsInfix(b + c, a + b + c + d + f + g + h)
    ensures IsInfix(f, a + b + c + d + f + g + h)
    ensures IsInfix(h, a + b + c + d + f + g + h)
  {
    var s := a + b + c + d + f + g + h;
    assert IsInfixAt(b + c, s, |a|);
    assert IsInfixAt(f, s, |a + b + c + d|);
    assert IsInfixAt(h, s, |a + b + c + d + f + g|);
  }

  /** The message of every error mentions `position <n>` and each text field
      the error carries. */
  lemma MessageMentionsFields(e: JsonError)
    ensures IsInfix("position " + Decimal(e.position), Message(e))
    ensures !e.InvalidNumber? ==> IsInfix(e.expected, Message(e))
    ensures e.UnexpectedToken? ==> IsInfix(e.found, Message(e))
    ensures e.InvalidNumber? ==> IsInfix(e.value, Message(e))
  {
    var d := Decimal(e.position);
    match e
    case UnexpectedToken(expected, found, position) =>
      PiecesAreInfixes(Lead(UnexpectedTokenKind), "position ", d, ": expected ", expected, ", found ", found);
    case UnexpectedEndOfInput(expected, position) =>
      PiecesAreInfixes(Lead(UnexpectedEndOfInputKind), "position ", d, ": expected ", expected, "", "");
      assert Message(e) == Lead(UnexpectedEndOfInputKind) + "position " + d + ": expected " + expected + "" + "";
    case InvalidNumber(value, position) =>
      PiecesAreInfixes(Lead(InvalidNumberKind), "position ", d, ": value ", value, "", "");
      assert Message(e) == Lead(InvalidNumberKind) + "position " + d + ": value " + value + "" + "";
  }

  // ---------------------------------------------------------------------
  // Reading a message back
  // ---------------------------------------------------------------------

  /** The variant a message was rendered from, recognised by its prefix. */
  function MessageKind(m: string): Option<ErrorKind> {
    if StartsWith(m, Prefix(UnexpectedTokenKind)) then Some(UnexpectedTokenKind)
    else if StartsWith(m, Prefix(UnexpectedEndOfInputKind)) then Some(UnexpectedEndOfInputKind)
    else if StartsWith(m, Prefix(InvalidNumberKind)) then Some(InvalidNumberKind)
    else None
  }

  /** The longest run of digits a string opens with. */
  function LeadingDigits(s: string): (d: string)
    ensures AllDigits(d)
    ensures |d| <= |s| && s[..|d|] == d
    ensures |d| < |s| ==> !IsDigit(s[|d|])
    decreases |s|
  {
    if |s| == 0 || !IsDigit(s[0]) then [] else [s[0]] + LeadingDigits(s[1..])
  }

  /** The position a message reports, read from the digits after its prefix. */
  function MessagePosition(m: string): Option<nat> {
    match MessageKind(m)
    case None => None
    case Some(k) =>
      var d := LeadingDigits(m[|Prefix(k)|..]);
      if |d| == 0 then None else Some(DecimalValue(d))
  }

  lemma {:induction false} LeadingDigitsOfNumeral(d: string, rest: string)
    requires AllDigits(d)
    requires |rest| == 0 || !IsDigit(rest[0])
    ensures LeadingDigits(d + rest) == d
    decreases |d|
  {
    if |d| > 0 {
      assert (d + rest)[1..] == d[1..] + rest;
      LeadingDigitsOfNumeral(d[1..], rest);
    }
  }

  /** Two of the prefixes disagree at some index inside both of them, so no
      string opens with both. */
  lemma PrefixesExclusive(m: string, k: ErrorKind, k': ErrorKind)
    requires StartsWith(m, Prefix(k))
    requires k != k'
    ensures !StartsWith(m, Prefix(k'))
  {
    var i := if {k, k'} == {UnexpectedTokenKind, UnexpectedEndOfInputKind} then 11 else 0;
    assert Prefix(k)[i] != Prefix(k')[i];
    assert m[i] == Prefix(k)[i];
  }

  /** The variant of an error can be read back from its message alone. */
  lemma MessageKindReadBack(e: JsonError)
    ensures MessageKind(Message(e)) == Some(KindOf(e))
  {
    MessageLayout(e);
    var m := Message(e);
    var k := KindOf(e);
    assert m[..|Prefix(k)|] == Prefix(k);
    if k != UnexpectedTokenKind {
      PrefixesExclusive(m, k, UnexpectedTokenKind);
    }
    if k == InvalidNumberKind {
      PrefixesExclusive(m, k, UnexpectedEndOfInputKind);
    }
  }

  lemma DigitsAfterPrefix(m: string, p: string, d: string, tail: string)
    requires m == p + d + tail
    requires AllDigits(d)
    requires |tail| > 0 && tail[0] == ':'
    ensures LeadingDigits(m[|p|..]) == d
  {
    assert m[|p|..] == d + tail;
    LeadingDigitsOfNumeral(d, tail);
  }

  /** So can the position: the message reports exactly the error's position. */
  lemma MessagePositionReadBack(e: JsonError)
    ensures MessagePosition(Message(e)) == Some(e.position)
  {
    MessageLayout(e);
    MessageKindReadBack(e);
    DigitsAfterPrefix(Message(e), Prefix(KindOf(e)), Decimal(e.position), Fields(e));
    DecimalRoundTrip(e.position);
  }

  /** The text a message carries after its prefix and position. */
  function MessageFields(m: string): Option<string> {
    match MessageKind(m)
    case None => None
    case Some(k) =>
      var rest := m[|Prefix(k)|..];
      var d := LeadingDigits(rest);
      if |d| == 0 then None else Some(rest[|d|..])
  }

  /** The fields can be read back too: what follows the position in a message
      is exactly the variant's field text. */
  lemma MessageFieldsReadBack(e: JsonError)
    ensures MessageFields(Message(e)) == Some(Fields(e))
  {
    var m, p, d := Message(e), Prefix(KindOf(e)), Decimal(e.position);
    MessageLayout(e);
    MessageKindReadBack(e);
    DigitsAfterPrefix(m, p, d, Fields(e));
    assert m[|p|..] == d + Fields(e);
    assert (d + Fields(e))[|d|..] == Fields(e);
  }

  /** An end-of-input or invalid-number message determines the whole error:
      its variant, its position and its text field. */
  lemma MessageDeterminesError(e: JsonError, e': JsonError)
    requires !e.UnexpectedToken? && Message(e) == Message(e')
    ensures e == e'
  {
    MessageKindReadBack(e);
    MessageKindReadBack(e');
    MessagePositionReadBack(e);
    MessagePositionReadBack(e');
    MessageFieldsReadBack(e);
    MessageFieldsReadBack(e');
    var f, f' := Fields(e), Fields(e');
    if e.UnexpectedEndOfInput? {
      assert e.expected == f[|": expected "|..] && e'.expected == f'[|": expected "|..];
    } else {
      assert e.value == f[|": value "|..] && e'.value == f'[|": value "|..];
    }
  }

  /** Messages of errors of different variants, or at different positions,
      differ. */
  lemma MessageSeparatesKindAndPosition(e: JsonError, e': JsonError)
    requires KindOf(e) != KindOf(e') || e.position != e'.position
    ensures Message(e) != Message(e')
  {
    MessageKindReadBack(e);
    MessageKindReadBack(e');
    MessagePositionReadBack(e);
    MessagePositionReadBack(e');
  }

  // ---------------------------------------------------------------------
  // From<ParseFloatError>
  // ---------------------------------------------------------------------

  /** Any float-parse failure becomes the same unexpected-token error at
      position 0, whatever the failure was. */
  function FromParseFloatError(cause: ParseFloatError): (e: JsonError)
    ensures e.UnexpectedToken? && e.position == 0
    ensures e.expected == "number" && e.found == "NaN"
  {
    UnexpectedToken("number", "NaN", 0)
  }
}
