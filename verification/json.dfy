/** The JSON tree the kotlinx decoders read, and the primitive and field
    readers the generated class serializers are made of.

    Numbers are integers or decimals (`JDecimal`, the CPU loads of the
    statistics among them). No kotlinx decoder here reads a decimal; the
    org.json accessors `OperationHandlers.GetLong` and
    `OperationHandlers.OptLong` do.
    A class decoder reads a JSON object; a missing required field is a
    `MissingFieldException` and a value of the wrong shape a
    `JsonDecodingException`, both `SerializationError` here. Unknown keys
    are ignored, as `ignoreUnknownKeys = true` configures, and the readers
    are the lenient ones `isLenient = true` selects: a quoted primitive
    reads like the bare literal, and a bare literal reads as a string. */
module Json {
  import opened Wrappers
  import opened KotlinInt
  import opened LongAsString

  datatype Json =
    | JNull
    | JBool(b: bool)
    | JNumber(n: int)
    | JDecimal(d: real)
    | JString(s: string)
    | JArray(items: seq<Json>)
    | JObject(fields: map<string, Json>)

  /** The characters a primitive reader meets: the contents of a string, or
      a number or boolean literal as it is written. Null, decimals, arrays
      and objects offer none that a reader here accepts. */
  function Literal(j: Json): Option<string>
  {
    match j
    case JString(s) => Some(s)
    case JNumber(n) => Some(ToDecimal(n))
    case JBool(b) => Some(if b then "true" else "false")
    case _ => None
  }

  /** An optional minus sign followed by at least one decimal digit. */
  predicate IsIntegerLiteral(s: string)
  {
    |s| >= 1 && (if s[0] == '-' then |s| >= 2 && AllDigits(s[1..]) else AllDigits(s))
  }

  /** The exact value an integer literal denotes. */
  function LiteralValue(s: string): int
    requires IsIntegerLiteral(s)
  {
    if s[0] == '-' then 0 - Digits(s[1..]) else Digits(s)
  }

  /** The accumulator of the numeric-literal lexer after the digits `ds`: it
      counts downwards (`acc * 10 - digit`) in Long arithmetic, wrapping
      silently, and gives up as soon as it turns positive. */
  function Accumulate(ds: string): (r: Option<Long>)
    requires AllDigits(ds)
    ensures r.Some? ==> r.value <= 0 && r.value == WrapLong(0 - Digits(ds))
    ensures Digits(ds) <= 0x8000_0000_0000_0000 ==> r == Some(0 - Digits(ds))
  {
    if ds == [] then Some(0)
    else
      var prefix := ds[..|ds| - 1];
      var digit := ds[|ds| - 1] as int - '0' as int;
      match Accumulate(prefix)
      case None => None
      case Some(a) =>
        WrapLongTimesTen(a, 0 - Digits(prefix), digit);
        Step(a, digit)
  }

  /** One turn of the lexer's loop: `acc * 10 - digit` in Long arithmetic,
      which fails once it turns positive. */
  function Step(a: Long, digit: int): Option<Long>
  {
    var b := WrapLong(a * 10 - digit);
    if b > 0 then None else Some(b)
  }

  /** Wrapping before or after a step `x * 10 - d` lands on the same Long. */
  lemma WrapLongTimesTen(a: int, x: int, d: int)
    requires a == WrapLong(x)
    ensures WrapLong(a * 10 - d) == WrapLong(x * 10 - d)
  {
    var k := (x - a) / 0x1_0000_0000_0000_0000;
    assert x - a == k * 0x1_0000_0000_0000_0000;
    assert (x * 10 - d) - (a * 10 - d) == (10 * k) * 0x1_0000_0000_0000_0000;
    WrapLongCongruent(x * 10 - d, a * 10 - d);
  }

  /** `consumeNumericLiteral`, applied to a bare literal or to the contents
      of a quoted one: an optional leading minus and then digits only. The
      result is the literal's value modulo 2^64; a value in the Long range
      always reads exactly. */
  function NumericLiteral(s: string): (r: Result<Long, Failure>)
    ensures r.Err? ==> r.error == SerializationError
    ensures r.Ok? ==> IsIntegerLiteral(s) && r.value == WrapLong(LiteralValue(s))
    ensures IsIntegerLiteral(s) && LONG_MIN <= LiteralValue(s) <= LONG_MAX ==> r == Ok(LiteralValue(s))
  {
    if |s| == 0 then Err(SerializationError)
    else
      var negative := s[0] == '-';
      var ds := if negative then s[1..] else s;
      if |ds| == 0 || !AllDigits(ds) then Err(SerializationError)
      else
        match Accumulate(ds)
        case None => Err(SerializationError)
        case Some(a) =>
          if negative then Ok(a)
          else if a != LONG_MIN then
            WrapLongCongruent(Digits(ds), 0 - a);
            Ok(0 - a)
          else Err(SerializationError)
  }

  /** `decodeLong`. */
  function ReadLong(j: Json): (r: Result<Long, Failure>)
    ensures r.Err? ==> r.error == SerializationError
    ensures j.JNumber? && LONG_MIN <= j.n <= LONG_MAX ==> r == Ok(j.n)
    ensures j.JNumber? && r.Ok? ==> r.value == WrapLong(j.n)
    ensures j.JString? ==> r == NumericLiteral(j.s)
    ensures r.Ok? ==> j.JNumber? || j.JString?
  {
    if j.JNumber? then
      LiteralOfNumber(j.n);
      NumericLiteral(ToDecimal(j.n))
    else if j.JString? then NumericLiteral(j.s)
    else Err(SerializationError)
  }

  /** A number's literal is an integer literal denoting that number. */
  lemma LiteralOfNumber(n: int)
    ensures IsIntegerLiteral(ToDecimal(n)) && LiteralValue(ToDecimal(n)) == n
  {
    var s := ToDecimal(n);
    if n < 0 {
      assert s[1..] == NatDigits(0 - n);
      DigitsInverts(0 - n);
    } else {
      DigitsInverts(n);
      assert s[0] != '-' by { assert IsDigit(s[0]); }
    }
  }

  /** Every Long reads back from its bare literal and from the same literal
      in quotes. */
  lemma QuotedLongReadsBack(n: Long)
    ensures ReadLong(JNumber(n)) == Ok(n)
    ensures ReadLong(JString(ToDecimal(n))) == Ok(n)
  {
    LiteralOfNumber(n);
  }

  /** 2^64 does not fail as an overflow: the lexer's accumulator wraps
      around to zero on the last digit and the literal reads as 0. */
  lemma WrapsPastTwoToThe64()
    ensures ReadLong(JNumber(0x1_0000_0000_0000_0000)) == Ok(0)
  {
    var n: nat := 0x1_0000_0000_0000_0000;
    assert WrapLong(0 - n) == 0;
    LastDigitWraps(n);
  }

  /** A literal whose digits up to the last one still fit reads as its
      value modulo 2^64 when the last step does not turn positive. */
  lemma LastDigitWraps(n: nat)
    requires 10 <= n && n / 10 <= 0x8000_0000_0000_0000 && WrapLong(0 - n) <= 0 && WrapLong(0 - n) != LONG_MIN
    ensures ReadLong(JNumber(n)) == Ok(0 - WrapLong(0 - n))
  {
    var s := NatDigits(n);
    assert ToDecimal(n) == s;
    LastStep(n);
    assert s[0] != '-' by { assert IsDigit(s[0]); }
  }

  lemma LastStep(n: nat)
    requires 10 <= n && n / 10 <= 0x8000_0000_0000_0000 && WrapLong(0 - n) <= 0
    ensures Accumulate(NatDigits(n)) == Some(WrapLong(0 - n))
  {
    var s := NatDigits(n);
    LastDigit(n);
    DigitsInverts(n / 10);
    AccumulateStep(s, 0 - n / 10);
  }

  /** The text of `n` is the text of `n / 10` followed by the digit `n % 10`. */
  lemma LastDigit(n: nat)
    requires 10 <= n
    ensures var s := NatDigits(n);
            s[..|s| - 1] == NatDigits(n / 10) && (0 - n / 10) * 10 - (s[|s| - 1] as int - '0' as int) == 0 - n
  {
    var s := NatDigits(n);
    var q, r := n / 10, n % 10;
    assert s == NatDigits(q) + ["0123456789"[r]];
    assert s[..|s| - 1] == NatDigits(q);
    assert s[|s| - 1] as int - '0' as int == r;
    assert (0 - q) * 10 - r == 0 - n by {
      assert n == q * 10 + r;
    }
  }

  /** One step of the lexer's loop, from the accumulator of all digits but
      the last. */
  lemma AccumulateStep(ds: string, a: Long)
    requires AllDigits(ds) && |ds| >= 1 && Accumulate(ds[..|ds| - 1]) == Some(a)
    ensures Accumulate(ds) == Step(a, ds[|ds| - 1] as int - '0' as int)
  {
  }

  /** `decodeInt`: a numeric literal whose Long value fits an Int. */
  function ReadInt(j: Json): (r: Result<Int, Failure>)
    ensures r.Err? ==> r.error == SerializationError
    ensures r.Ok? <==> ReadLong(j).Ok? && INT_MIN <= ReadLong(j).value <= INT_MAX
    ensures r.Ok? ==> r.value == ReadLong(j).value
    ensures j.JNumber? && INT_MIN <= j.n <= INT_MAX ==> r == Ok(j.n)
  {
    match ReadLong(j)
    case Ok(v) => if INT_MIN <= v <= INT_MAX then Ok(v) else Err(SerializationError)
    case Err(e) => Err(e)
  }

  /** ASCII lower-casing of one character; any other character is kept. */
  function LowerChar(c: char): char
  {
    if 'A' <= c <= 'Z' then (c as int + 0x20) as char else c
  }

  function LowerAscii(s: string): (l: string)
    ensures |l| == |s|
  {
    seq(|s|, i requires 0 <= i < |s| => LowerChar(s[i]))
  }

  /** Whether `t` spells the lower-case word `w` with each ASCII letter in
      either case, as the lexer compares (`code or 0x20`). */
  predicate SpellsIgnoringCase(t: string, w: string)
  {
    |t| == |w| && forall i :: 0 <= i < |t| ==> t[i] == w[i] || t[i] as int + 0x20 == w[i] as int
  }

  /** The lenient `decodeBoolean`: `true` or `false`, bare or quoted, in any
      mix of letter case. */
  function ReadBool(j: Json): (r: Result<bool, Failure>)
    ensures r.Err? ==> r.error == SerializationError
    ensures j.JBool? ==> r == Ok(j.b)
    ensures j.JString? ==> (r == Ok(true) <==> LowerAscii(j.s) == "true")
    ensures j.JString? ==> (r == Ok(false) <==> LowerAscii(j.s) == "false")
    ensures r.Ok? ==> j.JBool? || j.JString?
  {
    match Literal(j)
    case None => Err(SerializationError)
    case Some(t) =>
      SpellsLower(t, "true");
      SpellsLower(t, "false");
      if SpellsIgnoringCase(t, "true") then Ok(true)
      else if SpellsIgnoringCase(t, "false") then Ok(false)
      else Err(SerializationError)
  }

  /** For a word of lower-case letters, the lexer's comparison is ASCII
      case folding. */
  lemma SpellsLower(t: string, w: string)
    requires w == "true" || w == "false"
    ensures SpellsIgnoringCase(t, w) <==> LowerAscii(t) == w
  {
    if SpellsIgnoringCase(t, w) {
      assert forall i :: 0 <= i < |t| ==> LowerAscii(t)[i] == w[i];
    }
    if LowerAscii(t) == w {
      forall i | 0 <= i < |t| ensures t[i] == w[i] || t[i] as int + 0x20 == w[i] as int {
        assert LowerAscii(t)[i] == w[i];
      }
    }
  }

  /** Both booleans read back from their literals, bare or in quotes. */
  lemma QuotedBoolReadsBack(b: bool)
    ensures ReadBool(JBool(b)) == Ok(b)
    ensures ReadBool(JString(if b then "true" else "false")) == Ok(b)
  {
    assert LowerAscii("true") == "true";
    assert LowerAscii("false") == "false";
  }

  /** The lenient `decodeString`: a string's contents, or the text of a
      bare number or boolean literal. */
  function ReadString(j: Json): (r: Result<string, Failure>)
    ensures r.Err? ==> r.error == SerializationError
    ensures j.JString? ==> r == Ok(j.s)
    ensures j.JNumber? ==> r == Ok(ToDecimal(j.n))
    ensures j.JBool? ==> r == Ok(if j.b then "true" else "false")
    ensures j.JNull? || j.JDecimal? || j.JArray? || j.JObject? ==> r.Err?
  {
    match Literal(j)
    case Some(t) => Ok(t)
    case None => Err(SerializationError)
  }

  /** Whether `j` is an object that has `key`. */
  predicate Has(j: Json, key: string)
  {
    j.JObject? && key in j.fields
  }

  /** A required, non-null field. */
  function Required<T>(j: Json, key: string, read: Json -> Result<T, Failure>): (r: Result<T, Failure>)
    ensures !Has(j, key) ==> r == Err(SerializationError)
    ensures Has(j, key) ==> r == read(j.fields[key])
  {
    if Has(j, key) then read(j.fields[key]) else Err(SerializationError)
  }

  /** A field with a default value, used when the key is absent. */
  function Optional<T>(j: Json, key: string, read: Json -> Result<T, Failure>, default: T): (r: Result<T, Failure>)
    ensures j.JObject? && key !in j.fields ==> r == Ok(default)
    ensures Has(j, key) ==> r == read(j.fields[key])
  {
    if Has(j, key) then read(j.fields[key]) else if j.JObject? then Ok(default) else Err(SerializationError)
  }

  /** A nullable field: JSON null reads as null. With `isDefault`, an absent
      key also reads as null; otherwise the key is required. */
  function Nullable<T>(j: Json, key: string, read: Json -> Result<T, Failure>, isDefault: bool): (r: Result<Option<T>, Failure>)
    ensures Has(j, key) && j.fields[key] == JNull ==> r == Ok(None)
    ensures j.JObject? && key !in j.fields ==> r == (if isDefault then Ok(None) else Err(SerializationError))
    ensures r.Ok? && r.value.Some? ==> Has(j, key) && read(j.fields[key]) == Ok(r.value.value)
  {
    if Has(j, key) then
      if j.fields[key] == JNull then Ok(None)
      else
        match read(j.fields[key])
        case Ok(v) => Ok(Some(v))
        case Err(f) => Err(f)
    else if j.JObject? && isDefault then Ok(None)
    else Err(SerializationError)
  }

  /** A nullable field with a null default whose value is kept as a JSON
      tree (a payload whose decoder lies outside this model). */
  function OptionalTree(j: Json, key: string): (r: Option<Json>)
    ensures r.Some? <==> Has(j, key) && j.fields[key] != JNull
    ensures r.Some? ==> r.value == j.fields[key]
  {
    if Has(j, key) && j.fields[key] != JNull then Some(j.fields[key]) else None
  }
}

/** kotlinx `LongAsStringSerializer`, which carries guild ids: a Long
    travels as its decimal text (`toString`) and is read back with Kotlin's
    `String.toLong`, which takes an optional sign and decimal digits and
    throws `NumberFormatException` for anything else or for a value outside
    the Long range. */
module LongAsString {
  import opened Wrappers
  import opened KotlinInt

  predicate IsDigit(c: char)
  {
    '0' <= c <= '9'
  }

  predicate AllDigits(s: string)
  {
    forall i :: 0 <= i < |s| ==> IsDigit(s[i])
  }

  /** The value of a string of decimal digits. */
  function Digits(s: string): (n: nat)
    requires AllDigits(s)
  {
    if s == [] then 0 else Digits(s[..|s| - 1]) * 10 + (s[|s| - 1] as int - '0' as int)
  }

  /** `String.toLong`. */
  function ParseLong(s: string): (r: Result<Long, Failure>)
    ensures r.Err? ==> r.error == NumberFormat
    ensures r.Ok? ==> |s| >= 1 && (IsDigit(s[0]) || s[0] == '-' || s[0] == '+')
    ensures r.Ok? && r.value < 0 ==> s[0] == '-'
  {
    if |s| == 0 then Err(NumberFormat)
    else if s[0] == '-' || s[0] == '+' then
      if |s| == 1 || !AllDigits(s[1..]) then Err(NumberFormat)
      else
        var v: int := if s[0] == '-' then 0 - Digits(s[1..]) else Digits(s[1..]);
        if LONG_MIN <= v <= LONG_MAX then Ok(v) else Err(NumberFormat)
    else if AllDigits(s) && Digits(s) <= LONG_MAX then Ok(Digits(s))
    else Err(NumberFormat)
  }

  /** The decimal digits of a natural number, without leading zeros. */
  function NatDigits(n: nat): (s: string)
    ensures |s| >= 1 && AllDigits(s)
  {
    if n < 10 then ["0123456789"[n]] else NatDigits(n / 10) + ["0123456789"[n % 10]]
  }

  /** The decimal text of an integer: `Long.toString` on a Long, and the
      literal a JSON number is written as. */
  function ToDecimal(n: int): (s: string)
    ensures |s| >= 1
    ensures n < 0 <==> s[0] == '-'
  {
    if n < 0 then "-" + NatDigits(0 - n as int) else NatDigits(n)
  }

  lemma {:induction false} DigitsInverts(n: nat)
    ensures Digits(NatDigits(n)) == n
    decreases n
  {
    if n >= 10 {
      var s := NatDigits(n);
      assert s[..|s| - 1] == NatDigits(n / 10);
      DigitsInverts(n / 10);
    }
  }

  /** Every Long survives the serializer: its text reads back as itself. */
  lemma RoundTrip(n: Long)
    ensures ParseLong(ToDecimal(n)) == Ok(n)
  {
    if n < 0 {
      DigitsInverts(0 - n as int);
      assert ToDecimal(n)[1..] == NatDigits(0 - n as int);
    } else {
      DigitsInverts(n);
    }
  }
}
