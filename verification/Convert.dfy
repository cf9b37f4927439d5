/**
 internal/server/convert.go: rows and documents to and from `google.protobuf.Value`.
 `format` stands for fmt.Sprintf("%v", v), which the conversion falls back on.
 */
module Convert {
  import opened Values
  import opened FloatRounding

  type Format = Native -> string

  type Fields = map<string, Wire>

  // ----- toProtoValue and rowToProtoFields -----

  function ToProto(v: Native, format: Format): Wire {
    match v
    case Nil => NullValue
    case Bool(b) => BoolValue(b)
    case F64(f) => NumberValue(f)
    case F32(f) => NumberValue(f)
    case Int(n) => NumberValue(ToFloat64(n))
    case I32(n) => NumberValue(ToFloat64(n))
    case I64(n) => NumberValue(ToFloat64(n))
    case Str(s) => StringValue(s)
    case Bytes(s) => StringValue(s)
    case _ => StringValue(format(v))
  }

  function RowToProto(row: Row, format: Format): Fields {
    map k | k in row :: ToProto(row[k], format)
  }

  method RowToProtoFields(row: Row, format: Format) returns (m: Fields)
    ensures m == RowToProto(row, format)
  {
    m := map[];
    var remaining := row.Keys;
    while remaining != {}
      invariant remaining <= row.Keys
      invariant m == map k | k in row && k !in remaining :: ToProto(row[k], format)
      decreases remaining
    {
      var k :| k in remaining;
      m := m[k := ToProto(row[k], format)];
      remaining := remaining - {k};
    }
  }

  // ----- fromProtoValue and protoFieldsToRow -----

  ghost function FromProto(w: Wire): Native {
    match w
    case NumberValue(f) => F64(f)
    case StringValue(s) => Str(s)
    case BoolValue(b) => Bool(b)
    case StructValue(fields) => Record(map k | k in fields :: FromProto(fields[k]))
    case ListValue(values) => List(seq(|values|, i requires 0 <= i < |values| => FromProto(values[i])))
    case _ => Nil
  }

  ghost function ProtoToRow(fields: Fields): Row {
    map k | k in fields :: FromProto(fields[k])
  }

  method FromProtoValue(w: Wire) returns (v: Native)
    ensures v == FromProto(w)
    decreases w
  {
    match w
    case Absent => return Nil;
    case NullValue => return Nil;
    case NumberValue(f) => return F64(f);
    case StringValue(s) => return Str(s);
    case BoolValue(b) => return Bool(b);
    case StructValue(fields) =>
      var row: Row := map[];
      var remaining := fields.Keys;
      while remaining != {}
        invariant remaining <= fields.Keys
        invariant row == map k | k in fields && k !in remaining :: FromProto(fields[k])
        decreases remaining
      {
        var k :| k in remaining;
        var field := FromProtoValue(fields[k]);
        row := row[k := field];
        remaining := remaining - {k};
      }
      return Record(row);
    case ListValue(values) =>
      var list := new Native[|values|](_ => Nil);
      for i := 0 to |values|
        invariant forall j | 0 <= j < i :: list[j] == FromProto(values[j])
      {
        var item := FromProtoValue(values[i]);
        list[i] := item;
      }
      assert list[..] == seq(|values|, i requires 0 <= i < |values| => FromProto(values[i]));
      return List(list[..]);
    case Unset => return Nil;
  }

  method ProtoFieldsToRow(fields: Fields) returns (row: Row)
    ensures row == ProtoToRow(fields)
  {
    row := map[];
    var remaining := fields.Keys;
    while remaining != {}
      invariant remaining <= fields.Keys
      invariant row == map k | k in fields && k !in remaining :: FromProto(fields[k])
      decreases remaining
    {
      var k :| k in remaining;
      var field := FromProtoValue(fields[k]);
      row := row[k := field];
      remaining := remaining - {k};
    }
  }

  // ----- round trips -----

  /** A wire value comes back unchanged exactly when it is a null, a number, a string or a boolean. */
  lemma WireRoundTrip(w: Wire, format: Format)
    ensures ToProto(FromProto(w), format) == w
       <==> w.NullValue? || w.NumberValue? || w.StringValue? || w.BoolValue?
  {
    match w {
      case StructValue(fields) => assert FromProto(w).Record?;
      case ListValue(values) => assert FromProto(w).List?;
      case _ =>
    }
  }

  /** A native value survives the wire exactly when it is nil, a bool, a float64 or a string. */
  lemma NativeRoundTrip(v: Native, format: Format)
    ensures FromProto(ToProto(v, format)) == v <==> v.Nil? || v.Bool? || v.F64? || v.Str?
  {
  }

  ghost function Pass(row: Row, format: Format): Row {
    ProtoToRow(RowToProto(row, format))
  }

  /** One trip of a row over the wire keeps its columns and reaches a fixed point of the trip. */
  lemma PassReachesFixedPoint(row: Row, format: Format)
    ensures Pass(row, format).Keys == row.Keys
    ensures Pass(Pass(row, format), format) == Pass(row, format)
  {
    var once := Pass(row, format);
    forall k | k in once ensures FromProto(ToProto(once[k], format)) == once[k] {
      assert once[k] == FromProto(ToProto(row[k], format));
    }
  }

  /** An integer column read back over the wire is the same number exactly when a float64 equals it. */
  lemma IntegerSurvives(n: Int64, format: Format)
    ensures FromProto(ToProto(I64(n), format)) == F64(Finite(n as real)) <==> IsFloat(n)
    ensures FromProto(ToProto(Int(n), format)) == F64(Finite(n as real)) <==> IsFloat(n)
    ensures Abs(n) <= SIGNIFICANDS ==> FromProto(ToProto(I64(n), format)) == F64(Finite(n as real))
    ensures -0x8000_0000 <= n < 0x8000_0000 ==> FromProto(ToProto(I32(n), format)) == F64(Finite(n as real))
  {
    ExactIffFloat(n);
    if Abs(n) <= SIGNIFICANDS { ExactUpTo53Bits(n); }
  }

  // ----- what every kind of value travels as -----

  /** Every 64-bit integer arrives as the nearest float64, ties to even, within half a unit in the last place. */
  lemma IntegerArrives(n: Int64, v: Native, format: Format)
    requires v == I64(n) || v == Int(n)
    ensures ToProto(v, format).NumberValue? && Arrives(ToProto(v, format).number, n)
    ensures -512.0 <= ToProto(v, format).number.v - n as real <= 512.0
    ensures -(Ulp(Abs(n)) as real) <= 2.0 * (ToProto(v, format).number.v - n as real) <= Ulp(Abs(n)) as real
  {
    hide ToFloat64, Ulp, Arrives;
    ConversionArrives(n);
    ConversionError(n);
  }

  lemma IntegersKeepOrder(a: Int64, b: Int64, format: Format)
    requires a <= b
    ensures ToProto(I64(a), format).NumberValue? && ToProto(I64(b), format).NumberValue?
    ensures var x, y := ToProto(I64(a), format).number, ToProto(I64(b), format).number;
            x.Finite? && y.Finite? && x.v <= y.v
  {
    ConversionKeepsOrder(a, b);
    hide ToFloat64;
  }

  /** What a stored column is after the wire. */
  ghost predicate TravelsAs(v: Native, back: Native, format: Format) {
    match v
    case Nil => back == Nil
    case Bool(b) => back == Bool(b)
    case F64(f) => back == F64(f)
    case F32(f) => back == F64(f)
    case Str(s) => back == Str(s)
    case Bytes(s) => back == Str(s)
    case Int(n) => back.F64? && Arrives(back.f, n)
    case I64(n) => back.F64? && Arrives(back.f, n)
    case I32(n) => back == F64(Finite(n as real))
    case Record(_) => back == Str(format(v))
    case List(_) => back == Str(format(v))
    case Other(_) => back == Str(format(v))
  }

  /** Bytes travel as their characters, floats as the same number, integers as they round, the rest as text. */
  lemma EveryKindTravels(v: Native, format: Format)
    ensures TravelsAs(v, FromProto(ToProto(v, format)), format)
  {
    match v {
      case Int(n) => IntegerArrives(n, v, format);
      case I64(n) => IntegerArrives(n, v, format);
      case I32(n) => IntegerSurvives(n, format);
      case _ =>
    }
    hide ToFloat64, Arrives;
  }

  /** A value without content is nil, a scalar its own value; the parts of a struct or list are converted in place. */
  lemma EveryWireIsRead(w: Wire)
    ensures match w
            case Absent => FromProto(w) == Nil
            case Unset => FromProto(w) == Nil
            case NullValue => FromProto(w) == Nil
            case NumberValue(f) => FromProto(w) == F64(f)
            case StringValue(s) => FromProto(w) == Str(s)
            case BoolValue(b) => FromProto(w) == Bool(b)
            case StructValue(fields) =>
              && FromProto(w).Record? && FromProto(w).fields.Keys == fields.Keys
              && forall k | k in fields :: FromProto(w).fields[k] == FromProto(fields[k])
            case ListValue(values) =>
              && FromProto(w).List? && |FromProto(w).items| == |values|
              && forall i | 0 <= i < |values| :: FromProto(w).items[i] == FromProto(values[i])
  {
  }

  /** Rows keep their columns, and each column is converted by itself. */
  lemma RowsTravel(row: Row, format: Format)
    ensures RowToProto(row, format).Keys == row.Keys && Pass(row, format).Keys == row.Keys
    ensures forall k | k in row :: TravelsAs(row[k], Pass(row, format)[k], format)
  {
    forall k | k in row ensures TravelsAs(row[k], FromProto(ToProto(row[k], format)), format) {
      EveryKindTravels(row[k], format);
    }
    hide TravelsAs, ToProto, FromProto;
  }
}
