/** Failure-carrying datatypes shared by every component of the model.
    `Option` stands for a Kotlin nullable value, `Result` for a value or a thrown exception. */
module Wrappers {

  datatype Option<+T> = None | Some(value: T)

  datatype Result<+T, +E> = Ok(value: T) | Err(error: E)
  {
    /** The three members that let `:-` propagate a thrown exception. */
    predicate IsFailure()
    {
      Err?
    }

    function PropagateFailure<U>(): Result<U, E>
      requires Err?
    {
      Err(error)
    }

    function Extract(): T
      requires Ok?
    {
      value
    }
  }

  /** The exceptions the modelled code throws, by their JVM class. */
  datatype Failure =
    | IllegalArgument          // `require` / IllegalArgumentException
    | IllegalState             // `check` / IllegalStateException
    | NoSuchElement
    | IndexOutOfBounds
    | NullPointer              // `!!` on null, or a `checkNotNull` of a missing value
    | NumberFormat
    | ArithmeticDivByZero
    | OutOfMemory
    | BufferOverflow
    | UnsupportedEncryptionMode
    | OperationNotSupported
    | SerializationError       // kotlinx `error(...)` or a missing JSON key
    | SocketTimeout
    | JsonException          // org.json `JSONException`
    | UnsetValue             // konf `UnsetValueException`: a required setting is missing
}

/** Two's-complement arithmetic of Kotlin's Byte, Int and Long, and Kotlin's
    truncating integer division. Dafny integers are unbounded and its `/` is
    Euclidean, so every place the JVM would wrap or truncate goes through here. */
module KotlinInt {

  const BYTE_MIN: int := -0x80
  const BYTE_MAX: int := 0x7f
  const SHORT_MIN: int := -0x8000
  const SHORT_MAX: int := 0x7fff
  const INT_MIN: int := -0x8000_0000
  const INT_MAX: int := 0x7fff_ffff
  const LONG_MIN: int := -0x8000_0000_0000_0000
  const LONG_MAX: int := 0x7fff_ffff_ffff_ffff

  type Byte = x: int | BYTE_MIN <= x <= BYTE_MAX
  type Short = x: int | SHORT_MIN <= x <= SHORT_MAX
  type Int = x: int | INT_MIN <= x <= INT_MAX
  type Long = x: int | LONG_MIN <= x <= LONG_MAX

  /** The Byte a JVM computation lands on when its exact result is `x`. */
  function WrapByte(x: int): (r: Byte)
    ensures (x - r) % 0x100 == 0
    ensures BYTE_MIN <= x <= BYTE_MAX ==> r == x
  {
    (x + 0x80) % 0x100 - 0x80
  }

  /** The Int a JVM computation lands on when its exact result is `x`. */
  function WrapInt(x: int): (r: Int)
    ensures (x - r) % 0x1_0000_0000 == 0
    ensures INT_MIN <= x <= INT_MAX ==> r == x
  {
    (x + 0x8000_0000) % 0x1_0000_0000 - 0x8000_0000
  }

  /** Values equal modulo 2^32 land on the same Int. */
  lemma WrapIntCongruent(a: int, b: int)
    requires (a - b) % 0x1_0000_0000 == 0
    ensures WrapInt(a) == WrapInt(b)
  {
    var k := (a - b) / 0x1_0000_0000;
    assert a == b + k * 0x1_0000_0000;
    assert (b + k * 0x1_0000_0000 + 0x8000_0000) % 0x1_0000_0000 == (b + 0x8000_0000) % 0x1_0000_0000;
  }

  /** Int arithmetic may wrap at every step or once at the end. */
  lemma WrapIntAdd(a: int, b: int)
    ensures WrapInt(WrapInt(a) + b) == WrapInt(a + b)
  {
    WrapIntCongruent(WrapInt(a) + b, a + b);
  }

  /** Int addition or subtraction may wrap its operands first or only the
      result. */
  lemma WrapIntCombine(a: int, b: int, sign: int)
    requires sign == 1 || sign == -1
    ensures WrapInt(WrapInt(a) + sign * WrapInt(b)) == WrapInt(a + sign * b)
  {
    var wa: int, wb: int := WrapInt(a), WrapInt(b);
    var ka := (a - wa) / 0x1_0000_0000;
    var kb := (b - wb) / 0x1_0000_0000;
    assert a == wa + ka * 0x1_0000_0000;
    assert b == wb + kb * 0x1_0000_0000;
    assert (a + sign * b) - (wa + sign * wb) == (ka + sign * kb) * 0x1_0000_0000;
    WrapIntCongruent(a + sign * b, wa + sign * wb);
  }

  /** The Long a JVM computation lands on when its exact result is `x`. */
  function WrapLong(x: int): (r: Long)
    ensures (x - r) % 0x1_0000_0000_0000_0000 == 0
    ensures LONG_MIN <= x <= LONG_MAX ==> r == x
  {
    (x + 0x8000_0000_0000_0000) % 0x1_0000_0000_0000_0000 - 0x8000_0000_0000_0000
  }

  /** Values equal modulo 2^64 land on the same Long. */
  lemma WrapLongCongruent(a: int, b: int)
    requires (a - b) % 0x1_0000_0000_0000_0000 == 0
    ensures WrapLong(a) == WrapLong(b)
  {
    var k := (a - b) / 0x1_0000_0000_0000_0000;
    assert a == b + k * 0x1_0000_0000_0000_0000;
    assert (b + k * 0x1_0000_0000_0000_0000 + 0x8000_0000_0000_0000) % 0x1_0000_0000_0000_0000
        == (b + 0x8000_0000_0000_0000) % 0x1_0000_0000_0000_0000;
  }

  /** Kotlin's `/`: the quotient rounded toward zero. */
  function TDiv(a: int, b: int): (q: int)
    requires b != 0
    ensures a >= 0 ==> 0 <= a - q * b < Abs(b)
    ensures a < 0 ==> 0 <= q * b - a < Abs(b)
  {
    if a >= 0 then
      (if b > 0 then a / b else -(a / -b))
    else
      (if b > 0 then -((-a) / b) else (-a) / (-b))
  }

  /** Kotlin's `%` (`rem`): the remainder takes the sign of the dividend. */
  function TRem(a: int, b: int): (r: int)
    requires b != 0
    ensures a >= 0 ==> 0 <= r < Abs(b)
    ensures a < 0 ==> 0 <= -r < Abs(b)
  {
    a - TDiv(a, b) * b
  }

  /** On a non-negative dividend and a positive divisor, Kotlin's `%` agrees with Dafny's. */
  lemma TRemAgrees(a: int, b: int)
    requires b > 0
    ensures a >= 0 ==> TRem(a, b) == a % b
  {
  }

  function Abs(x: int): (r: nat)
    ensures r == x || r == -x
  {
    if x < 0 then -x else x
  }
}
