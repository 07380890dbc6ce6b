/** Values that cross the HTTP boundary of the service: the JSON data Express
    hands to a route handler, the identifiers MongoDB assigns, and the
    (status, body) pair a handler answers with. */
module Http {

  datatype Option<+T> = None | Some(value: T)

  /** The outcome of a step that mongoose may reject (a cast or validation
      error); the error's message is produced by mongoose and not modelled. */
  datatype Result<+T> = Ok(value: T) | Err

  /** MongoDB ObjectIds, modelled as naturals handed out by the store. */
  type Id = nat

  /** A value meant to hold an ObjectId (a path parameter, a token claim):
      either it casts to an id or mongoose throws a CastError. */
  datatype IdParam = ObjectId(id: Id) | NotObjectId

  /** A JavaScript value as it arrives in a parsed request (body, query).
      Numbers are integers: floating point is not modelled. */
  datatype Json =
    | Undefined
    | Null
    | Bool(b: bool)
    | Num(n: int)
    | Str(s: string)
    | Arr(items: seq<Json>)
    | Obj(fields: map<string, Json>)
  {
    /** `null` and `undefined`: reading a property of either throws a TypeError. */
    predicate Nullish() {
      Undefined? || Null?
    }

    /** JavaScript truthiness, as used by `&&` and `if`: everything except
        the falsy values undefined, null, false, 0 and "". */
    predicate Truthy(): (t: bool)
      ensures t <==> this !in {Undefined, Null, Bool(false), Num(0), Str("")}
    {
      match this
      case Undefined => false
      case Null => false
      case Bool(b) => b
      case Num(n) => n != 0
      case Str(s) => s != []
      case Arr(_) => true
      case Obj(_) => true
    }

    /** The property access `v.key` on a value that is not null or undefined:
        an own field of an object, `undefined` for anything else. */
    function Prop(key: string): (v: Json)
      requires !Nullish()
      ensures Obj? && key in fields ==> v == fields[key]
      ensures !v.Undefined? ==> Obj? && key in fields
    {
      if Obj? && key in fields then fields[key] else Undefined
    }
  }

  /** What a handler sends: `res.status(status).json(body)`; a bare
      `res.json(body)` is status 200. */
  datatype Response<+P> = Response(status: int, body: P)

  predicate IsDigit(c: char) {
    '0' <= c <= '9'
  }

  function DigitChar(d: nat): (c: char)
    requires d < 10
    ensures IsDigit(c) && c as int - '0' as int == d
  {
    ('0' as int + d) as char
  }

  /** The decimal numeral JavaScript's `String(n)` produces for a natural. */
  function NatToString(n: nat): (s: string)
    ensures |s| > 0
    ensures forall i :: 0 <= i < |s| ==> IsDigit(s[i])
    // the canonical numeral: "0" for zero, and no leading zero otherwise
    ensures n == 0 ==> s == "0"
    ensures n > 0 ==> s[0] != '0'
  {
    if n < 10 then [DigitChar(n)] else NatToString(n / 10) + [DigitChar(n % 10)]
  }

  /** The value a string of decimal digits denotes (its inverse). */
  function DecimalValue(s: string): nat
    requires forall i :: 0 <= i < |s| ==> IsDigit(s[i])
  {
    if s == [] then 0
    else
      assert IsDigit(s[|s| - 1]);
      DecimalValue(s[..|s| - 1]) * 10 + (s[|s| - 1] as int - '0' as int)
  }

  /** Reading back the numeral gives the number: `String(n)` loses nothing. */
  lemma {:induction false} DecimalRoundTrip(n: nat)
    ensures DecimalValue(NatToString(n)) == n
  {
    if n >= 10 {
      var s := NatToString(n);
      assert s[..|s| - 1] == NatToString(n / 10);
      DecimalRoundTrip(n / 10);
    }
  }

  /** `String(n)` for an integer: a minus sign before a negative number's
      digits. The digits read back as the number's magnitude. */
  function IntToString(n: int): (s: string)
    ensures |s| > 0
    ensures n < 0 <==> s[0] == '-'
    ensures n >= 0 ==> (forall i :: 0 <= i < |s| ==> IsDigit(s[i])) && DecimalValue(s) == n
    ensures n < 0 ==> (forall i :: 1 <= i < |s| ==> IsDigit(s[i])) && DecimalValue(s[1..]) == -n
    // no leading zero after the sign, and zero is "0"
    ensures n == 0 ==> s == "0"
    ensures n > 0 ==> s[0] != '0'
    ensures n < 0 ==> |s| > 1 && s[1] != '0'
  {
    if n < 0 then
      DecimalRoundTrip(-n);
      assert ("-" + NatToString(-n))[1..] == NatToString(-n);
      "-" + NatToString(-n)
    else
      DecimalRoundTrip(n);
      NatToString(n)
  }
}
