/**
  One field value through the codec: `encodeField` turns a th2 simple value
  into the text QuickFIX/J stores under the field's tag, `decodeField` turns
  the stored text back into a th2 simple value. Each either gives the text
  to store or the error to report.
 */
module Fields {
  import opened Wrappers
  import opened LinkedMaps
  import opened Text
  import opened Schema
  import opened Errors
  import opened Scalars

  datatype FieldOutcome = Written(text: string) | Rejected(error: CodecError)

  /** An error reported by one field: at the field's path, and neither a presence nor an unknown-name error. */
  predicate FieldError(r: FieldOutcome, path: string, f: FixField) {
    r.Rejected? ==> r.error.at == FieldPath(path, f.name) && !r.error.MissingRequired? && !r.error.Unexpected?
  }

  /** A symbolic name becomes its code; anything else stays as it is. */
  function EnumCode(f: FixField, value: string): string {
    match Get(f.values, Fst, value)
    case Some(e) => e.1
    case None => value
  }

  /** A code becomes its symbolic name; anything else stays as it is. */
  function EnumName(f: FixField, value: string): string {
    match Get(f.ReversedValues(), Fst, value)
    case Some(e) => e.1
    case None => value
  }

  lemma ValueOfEntry(m: seq<(string, string)>, e: (string, string))
    requires e in m
    ensures e.1 in Values(m)
  {
    var i :| 0 <= i < |m| && m[i] == e;
    assert Values(m)[i] == e.1;
  }

  lemma StoredValue(m: seq<(string, string)>, k: string)
    ensures Get(m, Fst, k).Some? ==> Get(m, Fst, k).value.1 in Values(m)
  {
    if Get(m, Fst, k).Some? {
      ValueOfEntry(m, Get(m, Fst, k).value);
    }
  }

  /** `LocalDate.parse`, and QuickFIX/J's converter where it throws. */
  function ParsedDate(value: string, cv: Converters): Option<Temporal> {
    if cv.isoDate(value).Some? then cv.isoDate(value) else cv.fixDate(value)
  }

  /** `LocalTime.parse`, and QuickFIX/J's converter where it throws. */
  function ParsedTime(value: string, cv: Converters): Option<Temporal> {
    if cv.isoTime(value).Some? then cv.isoTime(value) else cv.fixTime(value)
  }

  /** `LocalDateTime.parse`, and QuickFIX/J's converter where it throws. */
  function ParsedDateTime(value: string, cv: Converters): Option<Temporal> {
    if cv.isoDateTime(value).Some? then cv.isoDateTime(value) else cv.fixDateTime(value)
  }

  /** Every name of the reversed table is a symbolic name of the enum. */
  lemma ReversedNamesAreNames(f: FixField, name: string)
    requires name in Values(f.ReversedValues())
    ensures name in Keys(f.values, Fst)
  {
    var reversed := f.ReversedValues();
    var i :| 0 <= i < |reversed| && Values(reversed)[i] == name;
    PutAllFrom([], Fst, Inverted(f.values));
    assert reversed[i] in Inverted(f.values);
    var j :| 0 <= j < |f.values| && Inverted(f.values)[j] == reversed[i];
    assert Keys(f.values, Fst)[j] == name;
  }

  /** `encodeField`. */
  function EncodeField(f: FixField, value: string, path: string, cv: Converters): (r: FieldOutcome)
    ensures FieldError(r, path, f)
    ensures f.IsEnum() && r.Written? ==> r.text in Values(f.values)
    ensures f.IsEnum() && value in Keys(f.values, Fst) ==> r.Written? && Get(f.values, Fst, value) == Some((value, r.text))
    ensures f.IsEnum() && value !in Keys(f.values, Fst) && value !in Values(f.values) ==>
              r == Rejected(OutOfRange(value, FieldPath(path, f.name)))
    ensures !f.IsEnum() && TypeOf(f.typ) == StringType ==> r == Written(value)
    ensures !f.IsEnum() && TypeOf(f.typ) == BooleanType ==>
              && (r.Written? <==> value in {"true", "false", "Y", "N"})
              && (r.Written? ==> FixBooleanOf(r.text) == Some(value == "true" || value == "Y"))
    ensures f.IsEnum() && value !in Keys(f.values, Fst) && value in Values(f.values) ==> r == Written(value)
    ensures !f.IsEnum() && TypeOf(f.typ) == IntType ==>
              && (r.Written? <==> cv.intOf(value).Some?)
              && (r.Written? ==> r.text == IntToString(cv.intOf(value).value))
    ensures !f.IsEnum() && TypeOf(f.typ) == DecimalType ==>
              && (r.Written? <==> cv.decimalOf(value).Some?)
              && (r.Written? ==> r.text == cv.decimalOf(value).value)
    ensures !f.IsEnum() && TypeOf(f.typ) == DateOnlyType ==>
              && (r.Written? <==> ParsedDate(value, cv).Some?)
              && (r.Written? ==> r.text == cv.formatDate(ParsedDate(value, cv).value))
    ensures !f.IsEnum() && TypeOf(f.typ) == TimeOnlyType ==> (r.Written? <==> ParsedTime(value, cv).Some?)
    ensures !f.IsEnum() && TypeOf(f.typ) == TimestampType ==> (r.Written? <==> ParsedDateTime(value, cv).Some?)
    ensures !f.IsEnum() && TypeOf(f.typ) != StringType && r.Rejected? ==>
              r.error == InvalidValue(FamilyName(TypeOf(f.typ)), value, FieldPath(path, f.name))
  {
    var at := FieldPath(path, f.name);
    if f.IsEnum() then
      var code := EnumCode(f, value);
      StoredValue(f.values, value);
      if code in Values(f.values) then Written(code) else Rejected(OutOfRange(code, at))
    else
      var t := TypeOf(f.typ);
      var invalid := Rejected(InvalidValue(FamilyName(t), value, at));
      match t
      case BooleanType =>
        var b := match ToBooleanExact(value) case Ok(b) => Some(b) case Err(_) => FixBooleanOf(value);
        if b.Some? then Written(FixBoolean(b.value)) else invalid
      case IntType =>
        (match cv.intOf(value)
        case Some(i) => Written(IntToString(i))
        case None => invalid)
      case DecimalType =>
        (match cv.decimalOf(value)
        case Some(d) => Written(d)
        case None => invalid)
      case DateOnlyType =>
        var d := ParsedDate(value, cv);
        if d.Some? then Written(cv.formatDate(d.value)) else invalid
      case TimeOnlyType =>
        var tm := ParsedTime(value, cv);
        if tm.Some? then Written(cv.formatTime(tm.value, EncoderPrecision(tm.value.nano))) else invalid
      case TimestampType =>
        var ts := ParsedDateTime(value, cv);
        if ts.Some? then Written(cv.formatDateTime(ts.value, EncoderPrecision(ts.value.nano))) else invalid
      case StringType => Written(value)
  }

  /** `decodeField`. */
  function DecodeField(f: FixField, value: string, path: string, cv: Converters): (r: FieldOutcome)
    ensures FieldError(r, path, f)
    ensures f.IsEnum() && r.Written? ==> r.text in Values(f.ReversedValues())
    ensures f.IsEnum() && value in Values(f.values) ==> r.Written? && (r.text, value) in f.values
    ensures f.IsEnum() && value in Values(f.values) ==>
              var i := LastIndexOf(Inverted(f.values), Fst, value); 0 <= i && r == Written(f.values[i].0)
    ensures f.IsEnum() && value !in Values(f.values) && r.Written? ==> r.text == value
    ensures f.IsEnum() && value !in Values(f.values) && value !in Keys(f.values, Fst) ==>
              r == Rejected(OutOfRange(value, FieldPath(path, f.name)))
    ensures !f.IsEnum() && TypeOf(f.typ) != StringType && r.Rejected? ==>
              r.error == InvalidValue(FamilyName(TypeOf(f.typ)), value, FieldPath(path, f.name))
    ensures !f.IsEnum() && TypeOf(f.typ) == StringType ==> r == Written(value)
    ensures !f.IsEnum() && TypeOf(f.typ) == BooleanType ==>
              && (r.Written? <==> FixBooleanOf(value).Some?)
              && (r.Written? ==> ToBooleanExact(r.text).Ok?)
              && (r.Written? ==> (r.text == "true" <==> value == "Y"))
    ensures !f.IsEnum() && TypeOf(f.typ) == IntType ==>
              && (r.Written? <==> cv.intOf(value).Some?)
              && (r.Written? ==> r.text == IntToString(cv.intOf(value).value))
    ensures !f.IsEnum() && TypeOf(f.typ) == DecimalType ==>
              && (r.Written? <==> cv.decimalOf(value).Some?)
              && (r.Written? ==> r.text == cv.decimalOf(value).value)
    ensures !f.IsEnum() && TypeOf(f.typ) == DateOnlyType ==>
              && (r.Written? <==> cv.fixDate(value).Some?)
              && (r.Written? ==> r.text == cv.show(cv.fixDate(value).value))
    ensures !f.IsEnum() && TypeOf(f.typ) == TimeOnlyType ==>
              && (r.Written? <==> cv.fixTime(value).Some?)
              && (r.Written? ==> r.text == cv.show(cv.fixTime(value).value))
    ensures !f.IsEnum() && TypeOf(f.typ) == TimestampType ==>
              && (r.Written? <==> cv.fixDateTime(value).Some?)
              && (r.Written? ==> r.text == cv.show(cv.fixDateTime(value).value))
  {
    var at := FieldPath(path, f.name);
    if f.IsEnum() then
      var name := EnumName(f, value);
      var reversed := f.ReversedValues();
      ReversedValuesInverse(f, value);
      StoredValue(reversed, value);
      if name in Values(reversed) then
        ReversedNamesAreNames(f, name);
        Written(name)
      else Rejected(OutOfRange(name, at))
    else
      var t := TypeOf(f.typ);
      var invalid := Rejected(InvalidValue(FamilyName(t), value, at));
      match t
      case BooleanType =>
        (match FixBooleanOf(value)
        case Some(b) => Written(if b then "true" else "false")
        case None => invalid)
      case IntType =>
        (match cv.intOf(value)
        case Some(i) => Written(IntToString(i))
        case None => invalid)
      case DecimalType =>
        (match cv.decimalOf(value)
        case Some(d) => Written(d)
        case None => invalid)
      case DateOnlyType =>
        (match cv.fixDate(value)
        case Some(d) => Written(cv.show(d))
        case None => invalid)
      case TimeOnlyType =>
        (match cv.fixTime(value)
        case Some(tm) => Written(cv.show(tm))
        case None => invalid)
      case TimestampType =>
        (match cv.fixDateTime(value)
        case Some(ts) => Written(cv.show(ts))
        case None => invalid)
      case StringType => Written(value)
  }

  /** A time or timestamp is written with the precision `calculateTimePrecision` picks from its nanoseconds. */
  lemma EncodedTimePrecision(f: FixField, value: string, path: string, cv: Converters)
    requires !f.IsEnum()
    ensures TypeOf(f.typ) == TimeOnlyType && ParsedTime(value, cv).Some? ==>
              var t := ParsedTime(value, cv).value;
              EncodeField(f, value, path, cv) == Written(cv.formatTime(t, CalculateTimePrecision(t.nano).value))
    ensures TypeOf(f.typ) == TimestampType && ParsedDateTime(value, cv).Some? ==>
              var t := ParsedDateTime(value, cv).value;
              EncodeField(f, value, path, cv) == Written(cv.formatDateTime(t, CalculateTimePrecision(t.nano).value))
  {
  }

  /** The time 12:00:00.123456789 is written with milliseconds, dropping six of its digits. */
  lemma EncodedTimeTruncates(f: FixField, value: string, path: string, cv: Converters, t: Temporal)
    requires !f.IsEnum() && TypeOf(f.typ) == TimeOnlyType && ParsedTime(value, cv) == Some(t) && t.nano == 123_456_789
    ensures EncodeField(f, value, path, cv) == Written(cv.formatTime(t, Millis))
    ensures Truncated(t.nano, Millis) == 123_000_000 && TimePrecision(t.nano) == Nanos
  {
    EncodedTimePrecision(f, value, path, cv);
  }

  /** The values whose meaning survives the wire without a library converter. */
  predicate RoundTrips(f: FixField, value: string) {
    if f.IsEnum() then Distinct(Values(f.values)) && value in Keys(f.values, Fst)
    else match TypeOf(f.typ)
      case BooleanType => value == "true" || value == "false"
      case StringType => true
      case _ => false
  }

  /** Encoding then decoding gives back the th2 value: symbolic names of an enum with distinct codes, booleans and strings. */
  lemma FieldRoundTrip(f: FixField, value: string, path: string, cv: Converters)
    requires RoundTrips(f, value)
    ensures EncodeField(f, value, path, cv).Written?
    ensures DecodeField(f, EncodeField(f, value, path, cv).text, path, cv) == Written(value)
  {
    if f.IsEnum() {
      var e := Get(f.values, Fst, value).value;
      var code := EncodeField(f, value, path, cv).text;
      assert code == e.1;
      ValueOfEntry(f.values, e);
      var name := DecodeField(f, code, path, cv).text;
      assert (name, code) in f.values;
      var i :| 0 <= i < |f.values| && f.values[i] == e;
      var j :| 0 <= j < |f.values| && f.values[j] == (name, code);
      assert Values(f.values)[i] == Values(f.values)[j];
    }
  }

  /** Decoding then encoding gives back the wire code, for an enum whose names are distinct. */
  lemma {:induction false} EnumCodeRoundTrip(f: FixField, code: string, path: string, cv: Converters)
    requires f.IsEnum() && Distinct(Keys(f.values, Fst)) && code in Values(f.values)
    ensures DecodeField(f, code, path, cv).Written?
    ensures EncodeField(f, DecodeField(f, code, path, cv).text, path, cv) == Written(code)
  {
    var name := DecodeField(f, code, path, cv).text;
    assert (name, code) in f.values;
    var j :| 0 <= j < |f.values| && f.values[j] == (name, code);
    var keys := Keys(f.values, Fst);
    assert keys[j] == name;
    var e := Get(f.values, Fst, name).value;
    var i :| 0 <= i < |f.values| && f.values[i] == e;
    assert keys[i] == name;
    assert i == j;
    assert EnumCode(f, name) == code;
  }
}
