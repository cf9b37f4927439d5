/**
 The dynamic values the router moves around: what a Go `interface{}` column or document field
 can hold, and the `google.protobuf.Value` it travels as.
 */
module Values {
  type Int32 = n: int | -0x8000_0000 <= n < 0x8000_0000

  type Int64 = n: int | -0x8000_0000_0000_0000 <= n < 0x8000_0000_0000_0000

  /** A float64: a finite number, or one of the values that are not numbers on the real line. */
  datatype Float64 = Finite(v: real) | NegativeZero | PositiveInfinity | NegativeInfinity | NaN

  /**
   A Go `interface{}`. `Record` stands for both `map[string]interface{}` and `service.Row`;
   `Other` for every type neither conversion names.
   */
  datatype Native =
    | Nil
    | Bool(b: bool)
    | F64(f: Float64)
    | F32(f: Float64)
    | Int(n: Int64)
    | I32(i32: Int32)
    | I64(i64: Int64)
    | Str(s: string)
    | Bytes(bytes: string)
    | Record(fields: map<string, Native>)
    | List(items: seq<Native>)
    | Other(id: nat)

  /** `service.Row`. */
  type Row = map<string, Native>

  /** A `*structpb.Value`: `Absent` is the nil pointer, `Unset` a message whose kind is not set. */
  datatype Wire =
    | Absent
    | Unset
    | NullValue
    | NumberValue(number: Float64)
    | StringValue(text: string)
    | BoolValue(b: bool)
    | StructValue(fields: map<string, Wire>)
    | ListValue(values: seq<Wire>)
}
