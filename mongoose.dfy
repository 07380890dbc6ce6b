/** How mongoose turns a JavaScript value into the value a schema path stores:
    the String and Boolean casts and the `required` check for strings. Both
    schemas of the service use only these two types. */
module Mongoose {
  import opened Http

  /** Casting to a String path. `null` and `undefined` stay unset (None);
      strings are kept; numbers and booleans go through `toString()`; an
      object with a non-empty string `_id` becomes that id; arrays and other
      plain objects are refused with a CastError. */
  function CastString(v: Json): (r: Result<Option<string>>)
    ensures r.Ok? && r.value.Some? <==> v.Str? || v.Num? || v.Bool? || (v.Obj? && HasStringId(v))
    ensures r == Ok(None) <==> v.Nullish()
    ensures v.Str? ==> r == Ok(Some(v.s))
    // a number becomes its canonical decimal numeral (no leading zero), which
    // reads back as the number
    ensures v.Num? && v.n >= 0 ==> (forall i :: 0 <= i < |r.value.value| ==> IsDigit(r.value.value[i]))
                                   && DecimalValue(r.value.value) == v.n
                                   && (v.n == 0 ==> r.value.value == "0")
                                   && (v.n > 0 ==> r.value.value[0] != '0')
    ensures v.Num? && v.n < 0 ==> r.value.value != [] && r.value.value[0] == '-'
                                  && (forall i :: 1 <= i < |r.value.value| ==> IsDigit(r.value.value[i]))
                                  && DecimalValue(r.value.value[1..]) == -v.n
                                  && |r.value.value| > 1 && r.value.value[1] != '0'
    ensures v.Bool? ==> r == Ok(Some(if v.b then "true" else "false"))
    ensures v.Obj? && HasStringId(v) ==> r == Ok(Some(v.fields["_id"].s))
  {
    match v
    case Undefined => Ok(None)
    case Null => Ok(None)
    case Str(s) => Ok(Some(s))
    case Num(n) => Ok(Some(IntToString(n)))
    case Bool(b) => Ok(Some(if b then "true" else "false"))
    case Arr(_) => Err
    case Obj(fields) => if HasStringId(v) then Ok(Some(fields["_id"].s)) else Err
  }

  /** A document passed where a string is expected: a truthy string `_id`. */
  predicate HasStringId(v: Json)
    requires v.Obj?
  {
    "_id" in v.fields && v.fields["_id"].Str? && v.fields["_id"].s != []
  }

  /** Casting to a Boolean path: `true`, 'true', 1, '1', 'yes' give true;
      `false`, 'false', 0, '0', 'no' give false; `null` and `undefined` stay
      unset; anything else is a CastError. */
  function CastBoolean(v: Json): (r: Result<Option<bool>>)
    ensures r == Ok(Some(true)) <==> v in TrueValues()
    ensures r == Ok(Some(false)) <==> v in FalseValues()
    ensures r == Ok(None) <==> v.Nullish()
  {
    if v in TrueValues() then Ok(Some(true))
    else if v in FalseValues() then Ok(Some(false))
    else if v.Nullish() then Ok(None)
    else Err
  }

  function TrueValues(): set<Json> {
    {Bool(true), Str("true"), Num(1), Str("1"), Str("yes")}
  }

  function FalseValues(): set<Json> {
    {Bool(false), Str("false"), Num(0), Str("0"), Str("no")}
  }

  /** The `required` validator of a String path: the cast value is a
      non-empty string. */
  predicate RequiredString(v: Option<string>) {
    v.Some? && v.value != []
  }

  /** Casting then validating a required String path; a value passes exactly
      when it casts to a non-empty string. */
  function CastRequiredString(v: Json): (r: Result<string>)
    ensures r.Ok? <==> CastString(v).Ok? && RequiredString(CastString(v).value)
    ensures r.Ok? ==> Some(r.value) == CastString(v).value && r.value != []
    ensures v.Nullish() || v == Str("") ==> r == Err
  {
    match CastString(v)
    case Err => Err
    case Ok(s) => if RequiredString(s) then Ok(s.value) else Err
  }

  /** Every number and boolean casts to a non-empty string, so it satisfies
      `required` whatever it is, even a falsy 0 or `false`. */
  lemma NumbersAndBooleansAreRequiredStrings(v: Json)
    requires v.Num? || v.Bool?
    ensures CastRequiredString(v).Ok?
  {
  }
}
