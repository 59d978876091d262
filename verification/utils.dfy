/** The string escape helpers: the decode table for one-character escapes and
    the encoder used when writing strings out. */
module Utils {
  import opened Optional

  const Backspace: char := '\U{8}'
  const FormFeed: char := '\U{C}'

  /** The eight characters that may follow a backslash (`\u` excepted). */
  const EscapeLetters: string := "ntr\\\"/bf"

  /** The control characters the encoder writes as a letter escape. */
  const EscapedControls: string := ['\n', '\t', '\r', Backspace, FormFeed]

  /** The characters the encoder escapes: the quote, the backslash and the five
      controls above. Every other control character is copied as it is. */
  predicate NeedsEscape(c: char) {
    c == '"' || c == '\\' || c in EscapedControls
  }

  /** `resolve_escape_sequence`: the character a one-letter escape stands for.
      The five letters `n t r b f` stand for controls, the three punctuation
      marks stand for themselves, and nothing else is an escape. */
  function ResolveEscapeSequence(c: char): (r: Option<char>)
    ensures r.Some? <==> c in EscapeLetters
    ensures r.Some? && r.value in EscapedControls <==> c in "ntrbf"
    ensures r.Some? && r.value !in EscapedControls ==> r.value == c
    ensures forall i :: 0 <= i < 5 ==> (c == "ntrbf"[i] <==> r == Some(EscapedControls[i]))
  {
    match c
    case 'n' => Some('\n')
    case 't' => Some('\t')
    case 'r' => Some('\r')
    case '\\' => Some('\\')
    case '"' => Some('"')
    case '/' => Some('/')
    case 'b' => Some(Backspace)
    case 'f' => Some(FormFeed)
    case _ => None
  }

  /** One iteration of `escape_json_string`: a character that needs escaping
      becomes a backslash and a letter the decoder maps back to it; any other
      character is copied. The solidus is never escaped. */
  function EscapeChar(c: char): (r: string)
    ensures !NeedsEscape(c) ==> r == [c]
    ensures NeedsEscape(c) ==> |r| == 2 && r[0] == '\\' && ResolveEscapeSequence(r[1]) == Some(c)
    ensures r != "\\/"
  {
    match c
    case '"' => "\\\""
    case '\\' => "\\\\"
    case '\n' => "\\n"
    case '\t' => "\\t"
    case '\r' => "\\r"
    case '\U{8}' => "\\b"
    case '\U{C}' => "\\f"
    case _ => [c]
  }

  /** The decoder and the encoder agree in the other direction too: every
      escape the decoder accepts, except the solidus, is exactly what the
      encoder writes for the decoded character. */
  lemma ResolveThenEscape(x: char)
    requires ResolveEscapeSequence(x).Some?
    ensures x != '/' <==> NeedsEscape(ResolveEscapeSequence(x).value)
    ensures x != '/' ==> EscapeChar(ResolveEscapeSequence(x).value) == ['\\', x]
    ensures x == '/' ==> EscapeChar(ResolveEscapeSequence(x).value) == "/"
  {
  }

  /** `escape_json_string`: the characters of `s` escaped one by one, in order. */
  function EscapeJsonString(s: string): (r: string)
    ensures |r| >= |s|
    ensures (forall i :: 0 <= i < |s| ==> !NeedsEscape(s[i])) ==> r == s
    decreases |s|
  {
    if |s| == 0 then [] else EscapeChar(s[0]) + EscapeJsonString(s[1..])
  }

  /** The loop of `escape_json_string`, pushing onto a buffer. */
  method EscapeJsonStringLoop(s: string) returns (result: string)
    ensures result == EscapeJsonString(s)
  {
    result := [];
    var i := 0;
    while i < |s|
      invariant 0 <= i <= |s|
      invariant result == EscapeJsonString(s[..i])
    {
      EscapeAppend(s[..i], [s[i]]);
      assert s[..i] + [s[i]] == s[..i + 1];
      result := result + EscapeChar(s[i]);
      i := i + 1;
    }
    assert s[..i] == s;
  }

  /** Escaping one more character appends that character's escape. */
  lemma EscapeAppend(a: string, b: string)
    requires |b| == 1
    ensures EscapeJsonString(a + b) == EscapeJsonString(a) + EscapeChar(b[0])
  {
    EscapeDistributes(a, b);
    assert b[1..] == [];
  }

  /** The encoder works character by character, so it distributes over
      concatenation. */
  lemma {:induction false} EscapeDistributes(a: string, b: string)
    ensures EscapeJsonString(a + b) == EscapeJsonString(a) + EscapeJsonString(b)
    decreases |a|
  {
    if |a| == 0 {
      assert a + b == b;
    } else {
      assert (a + b)[1..] == a[1..] + b;
      EscapeDistributes(a[1..], b);
    }
  }

  /** How many characters of `s` need escaping. */
  function EscapedCount(s: string): nat
    decreases |s|
  {
    if |s| == 0 then 0 else (if NeedsEscape(s[0]) then 1 else 0) + EscapedCount(s[1..])
  }

  /** Each escaped character costs exactly one extra character. */
  lemma {:induction false} EscapeLength(s: string)
    ensures |EscapeJsonString(s)| == |s| + EscapedCount(s)
    decreases |s|
  {
    if |s| > 0 {
      EscapeLength(s[1..]);
    }
  }

  lemma {:induction false} EscapedCountZero(s: string)
    ensures EscapedCount(s) == 0 <==> forall i :: 0 <= i < |s| ==> !NeedsEscape(s[i])
    decreases |s|
  {
    if |s| > 0 {
      EscapedCountZero(s[1..]);
      assert forall i :: 1 <= i < |s| ==> s[i] == s[1..][i - 1];
    }
  }

  /** The output is as long as the input exactly when nothing is escaped, and
      then it is the input itself. */
  lemma EscapeIdentityIff(s: string)
    ensures |EscapeJsonString(s)| == |s| <==> forall i :: 0 <= i < |s| ==> !NeedsEscape(s[i])
    ensures EscapeJsonString(s) == s <==> forall i :: 0 <= i < |s| ==> !NeedsEscape(s[i])
  {
    EscapeLength(s);
    EscapedCountZero(s);
  }

  /** No raw newline, tab, carriage return, backspace or form feed survives
      escaping. */
  lemma {:induction false} EscapeLeavesNoRawControls(s: string)
    ensures forall i :: 0 <= i < |EscapeJsonString(s)| ==> EscapeJsonString(s)[i] !in EscapedControls
    decreases |s|
  {
    if |s| > 0 {
      EscapeLeavesNoRawControls(s[1..]);
      var head, tail := EscapeChar(s[0]), EscapeJsonString(s[1..]);
      assert forall i :: 0 <= i < |head| ==> head[i] !in EscapedControls;
      assert forall i :: |head| <= i < |head + tail| ==> (head + tail)[i] == tail[i - |head|];
    }
  }

  /** A reference decoder for the string bodies the encoder produces: a
      backslash and the letter after it are replaced by what
      `resolve_escape_sequence` maps the letter to, every other character is
      copied, and an unknown or truncated escape fails. */
  function Unescape(t: string): (r: Option<string>)
    decreases |t|
  {
    if |t| == 0 then Some([])
    else if t[0] != '\\' then
      match Unescape(t[1..])
      case None => None
      case Some(rest) => Some([t[0]] + rest)
    else if |t| == 1 then None
    else
      match ResolveEscapeSequence(t[1])
      case None => None
      case Some(c) =>
        match Unescape(t[2..])
        case None => None
        case Some(rest) => Some([c] + rest)
  }

  /** Everything the encoder escapes is recovered by the decoder: decoding the
      escaped form of any string gives that string back. */
  lemma {:induction false} UnescapeEscape(s: string)
    ensures Unescape(EscapeJsonString(s)) == Some(s)
    decreases |s|
  {
    if |s| > 0 {
      UnescapeEscape(s[1..]);
      var head, tail := EscapeChar(s[0]), EscapeJsonString(s[1..]);
      var t := head + tail;
      assert t == EscapeJsonString(s);
      if NeedsEscape(s[0]) {
        assert t[0] == '\\' && t[1] == head[1];
        assert t[2..] == tail;
      } else {
        assert t[0] == s[0];
        assert t[1..] == tail;
      }
      assert [s[0]] + s[1..] == s;
    }
  }

  /** The decoder is not injective: `\/` and `/` both decode to a solidus, of
      which the encoder only ever writes the second form. */
  lemma SolidusDecodesTwoWays()
    ensures Unescape("\\/") == Unescape("/") == Some("/")
    ensures EscapeJsonString("/") == "/"
  {
    assert "\\/"[2..] == [] && "/"[1..] == [];
    assert Unescape([]) == Some([]);
    assert ['/'] + [] == "/";
  }
}
