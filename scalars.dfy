/**
  The scalar conversions of the codec. The FIX type names select a
  converter; the QuickFIX/J and `java.time` parsers and formatters are
  parameters (`Converters`), except the FIX boolean convention and the
  choice of sub-second precision, which are written out.
 */
module Scalars {
  import opened Wrappers

  /** The branches of `when (type)` in `encodeField` and `decodeField`. */
  datatype ScalarType = BooleanType | IntType | DecimalType | DateOnlyType | TimeOnlyType | TimestampType | StringType

  /** Every type name with a converter of its own. */
  const ConvertedTypes: set<string> :=
    {"Boolean", "int", "Length", "NumInGroup", "SeqNum", "float", "Amt", "Price", "PriceOffset", "Qty", "Percentage",
     "UTCDateOnly", "UTCTimeOnly", "UTCTimestamp"}

  function TypeOf(typ: Option<string>): (t: ScalarType)
    ensures t == StringType <==> typ.None? || typ.value !in ConvertedTypes
  {
    match typ
    case None => StringType
    case Some(name) =>
      if name == "Boolean" then BooleanType
      else if name in {"int", "Length", "NumInGroup", "SeqNum"} then IntType
      else if name in {"float", "Amt", "Price", "PriceOffset", "Qty", "Percentage"} then DecimalType
      else if name == "UTCDateOnly" then DateOnlyType
      else if name == "UTCTimeOnly" then TimeOnlyType
      else if name == "UTCTimestamp" then TimestampType
      else StringType
  }

  /** The word naming a scalar type in an "Invalid ... value" error. */
  function FamilyName(t: ScalarType): string {
    match t
    case BooleanType => "boolean"
    case IntType => "integer"
    case DecimalType => "decimal"
    case DateOnlyType => "date-only"
    case TimeOnlyType => "time-only"
    case TimestampType => "date-time"
    case StringType => "string"
  }

  /** The nano-of-second of a `LocalTime` or `LocalDateTime`. */
  type Nano = n: int | 0 <= n < 1_000_000_000

  /** A parsed `LocalDate`, `LocalTime` or `LocalDateTime`: its value and its nano-of-second. */
  datatype Temporal = Temporal(text: string, nano: Nano)

  /** `UtcTimestampPrecision`. */
  datatype Precision = Seconds | Millis | Micros | Nanos

  /**
    The parsers and formatters of QuickFIX/J and `java.time` the codec calls.
    A parser gives `None` where the library throws.
   */
  datatype Converters = Converters(
    intOf: string -> Option<int>,
    decimalOf: string -> Option<string>,
    isoDate: string -> Option<Temporal>,
    isoTime: string -> Option<Temporal>,
    isoDateTime: string -> Option<Temporal>,
    fixDate: string -> Option<Temporal>,
    fixTime: string -> Option<Temporal>,
    fixDateTime: string -> Option<Temporal>,
    formatDate: Temporal -> string,
    formatTime: (Temporal, Precision) -> string,
    formatDateTime: (Temporal, Precision) -> string,
    show: Temporal -> string)

  /** `toBooleanExact`. */
  function ToBooleanExact(s: string): (r: Result<bool>)
    ensures r.Ok? <==> s == "true" || s == "false"
    ensures r.Ok? ==> (r.value <==> s == "true")
  {
    if s == "true" then Ok(true)
    else if s == "false" then Ok(false)
    else Err("Invalid boolean value: " + s)
  }

  /** `BooleanConverter.convert(String)`: the FIX booleans `Y` and `N`. */
  function FixBooleanOf(s: string): (r: Option<bool>)
    ensures r.Some? <==> s == "Y" || s == "N"
    ensures r == Some(true) <==> s == "Y"
    ensures r == Some(false) <==> s == "N"
  {
    if s == "Y" then Some(true) else if s == "N" then Some(false) else None
  }

  /** `BooleanConverter.convert(Boolean)`, what `setBoolean` writes. */
  function FixBoolean(b: bool): (r: string)
    ensures FixBooleanOf(r) == Some(b)
  {
    if b then "Y" else "N"
  }

  /** The digits of the second's fraction a precision writes, and the nanoseconds one unit of it stands for. */
  function FractionDigits(p: Precision): nat {
    match p
    case Seconds => 0
    case Millis => 3
    case Micros => 6
    case Nanos => 9
  }

  function Unit(p: Precision): nat {
    match p
    case Seconds => 1_000_000_000
    case Millis => 1_000_000
    case Micros => 1_000
    case Nanos => 1
  }

  /** The nano-of-second a time written with precision `p` still carries. */
  function Truncated(nanos: Nano, p: Precision): (r: Nano)
    ensures r <= nanos && nanos - r < Unit(p)
  {
    nanos - nanos % Unit(p)
  }

  /** Writing `nanos` with precision `p` keeps every digit. */
  predicate Lossless(nanos: Nano, p: Precision) {
    Truncated(nanos, p) == nanos
  }

  /** `calculateTimePrecision` as written: the branch is chosen by the magnitude of the nanoseconds. */
  function CalculateTimePrecision(nanos: int): (r: Result<Precision>)
    ensures r.Err? <==> nanos < 0 || 1_000_000_000 <= nanos
    ensures r.Err? ==> r.error == "nanos part is negative"
    ensures r.Ok? ==> (r.value == Seconds <==> nanos == 0)
    ensures r.Ok? && nanos > 0 ==> Unit(r.value) <= nanos < 1_000 * Unit(r.value)
  {
    if nanos == 0 then Ok(Seconds)
    else if 1 <= nanos <= 999 then Ok(Nanos)
    else if 1_000 <= nanos <= 999_999 then Ok(Micros)
    else if 1_000_000 <= nanos <= 999_999_999 then Ok(Millis)
    else Err("nanos part is negative")
  }

  /** 12:00:00.123456789 is written as 12:00:00.123: the choice as written drops digits. */
  lemma CalculatedPrecisionTruncates()
    ensures CalculateTimePrecision(123_456_789) == Ok(Millis)
    ensures Truncated(123_456_789, Millis) == 123_000_000
    ensures !Lossless(123_456_789, Millis)
  {
  }

  /**
    The precision `calculateTimeOnlyPrecision` and `calculateTimestampPrecision`
    pass to QuickFIX/J: `calculateTimePrecision` of a nano-of-second, which is
    always in its range.
   */
  function EncoderPrecision(nanos: Nano): (p: Precision)
    ensures CalculateTimePrecision(nanos) == Ok(p)
    ensures p == Seconds <==> nanos == 0
    ensures nanos > 0 ==> Unit(p) <= nanos < 1_000 * Unit(p)
  {
    TimePrecisionAgrees(nanos);
    CalculateTimePrecision(nanos).value
  }

  /**
    The corrected choice of precision: the fewest fraction digits that keep
    every digit of the time. The encoder does not use it; it is the reference
    `calculateTimePrecision` is measured against.
   */
  function TimePrecision(nanos: Nano): (p: Precision)
    ensures Lossless(nanos, p)
    ensures forall q :: Lossless(nanos, q) ==> FractionDigits(p) <= FractionDigits(q)
  {
    if nanos == 0 then Seconds
    else if nanos % 1_000_000 == 0 then Millis
    else if nanos % 1_000 == 0 then Micros
    else Nanos
  }

  /** Wherever the precision as written keeps every digit, it is the one `TimePrecision` chooses. */
  lemma TimePrecisionAgrees(nanos: Nano)
    ensures CalculateTimePrecision(nanos).Ok?
    ensures Lossless(nanos, CalculateTimePrecision(nanos).value) ==> TimePrecision(nanos) == CalculateTimePrecision(nanos).value
  {
    if nanos == 0 {
    } else if nanos < 1_000 {
      assert nanos % 1_000 != 0;
    } else if nanos < 1_000_000 {
      assert nanos % 1_000_000 != 0;
    }
  }
}
