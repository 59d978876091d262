/** The value a parse produces (`JsonValue`): one scalar, with total accessors
    and the derived `PartialEq`. */
module Values {
  import opened Optional
  import opened Float

  datatype JsonValue =
    | String(text: string)
    | Number(number: F64)
    | Boolean(flag: bool)
    | Null

  /** `is_null`: holds of the null value and of nothing else. */
  function IsNull(v: JsonValue): (r: bool)
    ensures r <==> v == Null
  {
    v.Null?
  }

  /** `as_str`: the text of a string value, nothing for every other variant. */
  function AsStr(v: JsonValue): (r: Option<string>)
    ensures forall s :: r == Some(s) <==> v == String(s)
    ensures r.None? <==> !v.String?
  {
    match v
    case String(s) => Some(s)
    case _ => None
  }

  /** `as_f64`: the number of a number value, nothing for every other variant. */
  function AsF64(v: JsonValue): (r: Option<F64>)
    ensures forall n :: r == Some(n) <==> v == Number(n)
    ensures r.None? <==> !v.Number?
  {
    match v
    case Number(n) => Some(n)
    case _ => None
  }

  /** `as_bool`: the flag of a boolean value, nothing for every other variant. */
  function AsBool(v: JsonValue): (r: Option<bool>)
    ensures forall b :: r == Some(b) <==> v == Boolean(b)
    ensures r.None? <==> !v.Boolean?
  {
    match v
    case Boolean(b) => Some(b)
    case _ => None
  }

  /** How many of the four accessors answer for `v`. */
  function AnsweringAccessors(v: JsonValue): nat {
    (if IsNull(v) then 1 else 0)
    + (if AsStr(v).Some? then 1 else 0)
    + (if AsF64(v).Some? then 1 else 0)
    + (if AsBool(v).Some? then 1 else 0)
  }

  /** Exactly one accessor answers for every value, and what it returns
      rebuilds the value. */
  lemma ExactlyOneAccessor(v: JsonValue)
    ensures AnsweringAccessors(v) == 1
    ensures AsStr(v).Some? ==> v == String(AsStr(v).value)
    ensures AsF64(v).Some? ==> v == Number(AsF64(v).value)
    ensures AsBool(v).Some? ==> v == Boolean(AsBool(v).value)
  {
  }

  /** The derived `PartialEq`: same variant and equal payloads, with numbers
      compared by binary64 `==`. */
  function ValueEq(a: JsonValue, b: JsonValue): (r: bool)
    ensures r ==> (a.String? <==> b.String?) && (a.Number? <==> b.Number?)
                  && (a.Boolean? <==> b.Boolean?) && (a.Null? <==> b.Null?)
    ensures !a.Number? ==> (r <==> a == b)
    ensures a.Number? && b.Number? ==> (r <==> FloatEq(a.number, b.number))
  {
    match (a, b)
    case (String(s), String(t)) => s == t
    case (Number(x), Number(y)) => FloatEq(x, y)
    case (Boolean(p), Boolean(q)) => p == q
    case (Null, Null) => true
    case _ => false
  }

  /** `==` is symmetric, and reflexive on every value but a NaN number. */
  lemma ValueEqStructural(a: JsonValue, b: JsonValue)
    ensures ValueEq(a, b) <==> ValueEq(b, a)
    ensures ValueEq(a, a) <==> !(a.Number? && IsNaN(a.number))
  {
  }

  /** The equalities the value tests assert: null equals null, `true`,
      42.0 and "test" equal themselves, null is not `false`, and 1.0 is not
      2.0. */
  lemma ValueEqExamples()
    ensures ValueEq(Null, Null) && !ValueEq(Null, Boolean(false))
    ensures ValueEq(Boolean(true), Boolean(true)) && ValueEq(String("test"), String("test"))
    ensures ValueEq(Number(FortyTwo), Number(FortyTwo))
    ensures !ValueEq(Number(One), Number(Two))
  {
    FloatEqExamples();
    assert !IsNaN(FortyTwo);
  }
}
