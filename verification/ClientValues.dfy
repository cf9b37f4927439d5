/**
 The value packing of the Go client (core/go/client.go), composed with the server's conversions:
 columns through PgInsert and PgQuery, documents of any depth through MongoInsert.
 */
module ClientValues {
  import opened Values
  import opened FloatRounding
  import opened Convert

  // ----- PgInsert: packing a row -----

  function PackColumn(v: Native, format: Format): Wire {
    match v
    case Str(s) => StringValue(s)
    case Bool(b) => BoolValue(b)
    case F64(f) => NumberValue(f)
    case Int(n) => NumberValue(ToFloat64(n))
    case _ => StringValue(format(v))
  }

  function PackRow(data: Row, format: Format): Fields {
    map k | k in data :: PackColumn(data[k], format)
  }

  method PackInsert(data: Row, format: Format) returns (packed: Fields)
    ensures packed == PackRow(data, format)
  {
    packed := map[];
    var remaining := data.Keys;
    while remaining != {}
      invariant remaining <= data.Keys
      invariant packed == map k | k in data && k !in remaining :: PackColumn(data[k], format)
      decreases remaining
    {
      var k :| k in remaining;
      packed := packed[k := PackColumn(data[k], format)];
      remaining := remaining - {k};
    }
  }

  // ----- PgQuery: unpacking the result rows -----

  predicate IsShown(w: Wire) { w.StringValue? || w.NumberValue? || w.BoolValue? }

  function UnpackColumn(w: Wire): Native
    requires IsShown(w)
  {
    match w
    case StringValue(s) => Str(s)
    case NumberValue(f) => F64(f)
    case BoolValue(b) => Bool(b)
  }

  /** Columns of the other kinds are left out of the result map. */
  function UnpackRow(fields: Fields): Row {
    map k | k in fields && IsShown(fields[k]) :: UnpackColumn(fields[k])
  }

  /** The client reads the kind of every value, so a nil pointer among them would panic. */
  method UnpackQuery(rows: seq<Fields>) returns (results: seq<Row>)
    requires forall i, k | 0 <= i < |rows| && k in rows[i] :: rows[i][k] != Absent
    ensures |results| == |rows| && forall i | 0 <= i < |rows| :: results[i] == UnpackRow(rows[i])
  {
    results := [];
    for i := 0 to |rows|
      invariant |results| == i && forall j | 0 <= j < i :: results[j] == UnpackRow(rows[j])
    {
      var fields := rows[i];
      var rowData: Row := map[];
      var remaining := fields.Keys;
      while remaining != {}
        invariant remaining <= fields.Keys
        invariant rowData == map k | k in fields && k !in remaining && IsShown(fields[k]) :: UnpackColumn(fields[k])
        decreases remaining
      {
        var k :| k in remaining;
        match fields[k] {
          case StringValue(s) => rowData := rowData[k := Str(s)];
          case NumberValue(f) => rowData := rowData[k := F64(f)];
          case BoolValue(b) => rowData := rowData[k := Bool(b)];
          case _ =>
        }
        remaining := remaining - {k};
      }
      results := results + [rowData];
    }
  }

  // ----- a row written by PgInsert and read by PgQuery -----

  /** What the client gets back for a value it wrote, when the table stores what it is given. */
  function Stored(v: Native, format: Format): Native {
    match v
    case Str(_) => v
    case Bool(_) => v
    case F64(_) => v
    case Int(n) => F64(ToFloat64(n))
    case _ => Str(format(v))
  }

  ghost function Echo(data: Row, client: Format, server: Format): Row {
    UnpackRow(RowToProto(ProtoToRow(PackRow(data, client)), server))
  }

  /**
   Packing, the server's unpacking and repacking, and unpacking compose to a map with exactly the
   original columns: even a nil is there, as the text the client formats it to.
   */
  lemma InsertThenQuery(data: Row, client: Format, server: Format)
    ensures Echo(data, client, server) == map k | k in data :: Stored(data[k], client)
  {
    forall k | k in data ensures IsShown(PackColumn(data[k], client)) {}
    EchoedWire(PackRow(data, client), server);
    PackedThenUnpacked(data, client);
  }

  /** Columns of the shown kinds cross the server and come back unchanged. */
  lemma EchoedWire(fields: Fields, server: Format)
    requires forall k | k in fields :: IsShown(fields[k])
    ensures RowToProto(ProtoToRow(fields), server) == fields
  {
    forall k | k in fields ensures ToProto(FromProto(fields[k]), server) == fields[k] {
      WireRoundTrip(fields[k], server);
    }
    hide ToProto, FromProto;
    assert RowToProto(ProtoToRow(fields), server).Keys == fields.Keys;
  }

  lemma ColumnPackedThenUnpacked(v: Native, client: Format)
    ensures IsShown(PackColumn(v, client)) && UnpackColumn(PackColumn(v, client)) == Stored(v, client)
  {
  }

  lemma PackedThenUnpacked(data: Row, client: Format)
    ensures UnpackRow(PackRow(data, client)) == map k | k in data :: Stored(data[k], client)
  {
    hide PackColumn, UnpackColumn, Stored, IsShown;
    forall k | k in data
      ensures IsShown(PackColumn(data[k], client))
      ensures UnpackColumn(PackColumn(data[k], client)) == Stored(data[k], client)
    {
      ColumnPackedThenUnpacked(data[k], client);
    }
    assert UnpackRow(PackRow(data, client)).Keys == data.Keys;
  }

  /** A row read from a table loses exactly its NULL columns, and keeps the others' wire form. */
  lemma QueryDropsNulls(row: Row, format: Format)
    ensures UnpackRow(RowToProto(row, format)).Keys == set k | k in row && row[k] != Nil
    ensures forall k | k in row :: RowToProto(row, format)[k] != Absent
    ensures forall k | k in row && row[k] != Nil ::
              UnpackRow(RowToProto(row, format))[k] == FromProto(ToProto(row[k], format))
  {
    forall k | k in row
      ensures ToProto(row[k], format) != Absent
      ensures IsShown(ToProto(row[k], format)) <==> row[k] != Nil
      ensures row[k] != Nil ==> UnpackColumn(ToProto(row[k], format)) == FromProto(ToProto(row[k], format))
    {
    }
    hide ToProto, FromProto, IsShown, UnpackColumn;
  }

  /** What PgQuery shows of a row: every column but the NULL ones, as it travels. */
  lemma QueryShowsColumns(row: Row, format: Format)
    ensures UnpackRow(RowToProto(row, format)).Keys == set k | k in row && row[k] != Nil
    ensures forall k | k in row && row[k] != Nil :: TravelsAs(row[k], UnpackRow(RowToProto(row, format))[k], format)
  {
    QueryDropsNulls(row, format);
    forall k | k in row ensures TravelsAs(row[k], FromProto(ToProto(row[k], format)), format) {
      EveryKindTravels(row[k], format);
    }
    hide TravelsAs, ToProto, FromProto;
  }

  /** What PgInsert packs for a value of each kind; only a Go int is sent as a number rounded to float64. */
  lemma EveryKindIsPacked(v: Native, format: Format)
    ensures match v
            case Str(s) => PackColumn(v, format) == StringValue(s)
            case Bool(b) => PackColumn(v, format) == BoolValue(b)
            case F64(f) => PackColumn(v, format) == NumberValue(f)
            case Int(n) =>
              && PackColumn(v, format).NumberValue? && Arrives(PackColumn(v, format).number, n)
              && -512.0 <= PackColumn(v, format).number.v - n as real <= 512.0
            case _ => PackColumn(v, format) == StringValue(format(v))
  {
    if v.Int? {
      ConversionArrives(v.n);
      ConversionError(v.n);
    }
    hide ToFloat64, Arrives, Ulp;
  }

  /** What comes back of a row that PgInsert wrote: all its columns, each as it was packed. */
  lemma InsertedColumnsAreRead(data: Row, client: Format, server: Format)
    ensures Echo(data, client, server).Keys == data.Keys
    ensures forall k | k in data ::
              var back := Echo(data, client, server)[k];
              match data[k]
              case Str(s) => back == Str(s)
              case Bool(b) => back == Bool(b)
              case F64(f) => back == F64(f)
              case Int(n) => back.F64? && Arrives(back.f, n)
              case _ => back == Str(client(data[k]))
  {
    InsertThenQuery(data, client, server);
    forall k | k in data && data[k].Int? ensures Arrives(ToFloat64(data[k].n), data[k].n) {
      ConversionArrives(data[k].n);
    }
    hide Echo, ToFloat64, Arrives;
  }

  // ----- MongoInsert: documents -----

  /** Bytes as base64 text, which structpb.NewStruct sends them as. */
  type Base64 = string -> string

  /** What structpb.NewStruct accepts: anything but foreign types. */
  ghost predicate IsDocument(d: Native) {
    match d
    case Other(_) => false
    case Record(fields) => forall k | k in fields :: IsDocument(fields[k])
    case List(items) => forall i | 0 <= i < |items| :: IsDocument(items[i])
    case _ => true
  }

  /** structpb.NewValue on a document. */
  ghost function Pack(d: Native, base64: Base64): Wire
    requires IsDocument(d)
  {
    match d
    case Nil => NullValue
    case Bool(b) => BoolValue(b)
    case F64(f) => NumberValue(f)
    case F32(f) => NumberValue(f)
    case Int(n) => NumberValue(ToFloat64(n))
    case I32(n) => NumberValue(ToFloat64(n))
    case I64(n) => NumberValue(ToFloat64(n))
    case Str(s) => StringValue(s)
    case Bytes(b) => StringValue(base64(b))
    case Record(fields) => StructValue(map k | k in fields :: Pack(fields[k], base64))
    case List(items) => ListValue(seq(|items|, i requires 0 <= i < |items| => Pack(items[i], base64)))
  }

  /** A position in a document tree, and what is to be seen there. */
  datatype Step = Key(k: string) | Index(i: nat)

  datatype View = Missing | Leaf(v: Native) | Keys(keys: set<string>) | Length(n: nat)

  ghost function Look(d: Native, path: seq<Step>): View
    decreases |path|
  {
    match d
    case Record(fields) =>
      if path == [] then Keys(fields.Keys)
      else if path[0].Key? && path[0].k in fields then Look(fields[path[0].k], path[1..])
      else Missing
    case List(items) =>
      if path == [] then Length(|items|)
      else if path[0].Index? && path[0].i < |items| then Look(items[path[0].i], path[1..])
      else Missing
    case _ => if path == [] then Leaf(d) else Missing
  }

  /** The view of a number is its float64, that of bytes their text; every other view is the same. */
  ghost function Widened(v: View, base64: Base64): View {
    match v
    case Leaf(F32(f)) => Leaf(F64(f))
    case Leaf(Int(n)) => Leaf(F64(ToFloat64(n)))
    case Leaf(I32(n)) => Leaf(F64(ToFloat64(n)))
    case Leaf(I64(n)) => Leaf(F64(ToFloat64(n)))
    case Leaf(Bytes(b)) => Leaf(Str(base64(b)))
    case _ => v
  }

  /**
   At every path of the tree the server sees what the client wrote: the same keys, the same list
   length and order, the same leaf with numbers widened to float64 and bytes as text, and nothing else.
   */
  lemma {:induction false} DocumentRoundTrip(d: Native, path: seq<Step>, base64: Base64)
    requires IsDocument(d)
    ensures Look(FromProto(Pack(d, base64)), path) == Widened(Look(d, path), base64)
    decreases |path|
  {
    if path != [] {
      match d {
        case Record(fields) =>
          if path[0].Key? && path[0].k in fields { DocumentRoundTrip(fields[path[0].k], path[1..], base64); }
        case List(items) =>
          if path[0].Index? && path[0].i < |items| { DocumentRoundTrip(items[path[0].i], path[1..], base64); }
        case _ =>
      }
    }
  }

  /** Every value in the tree has a kind, without which it cannot be sent. */
  ghost predicate IsSendable(w: Wire) {
    match w
    case Absent => false
    case Unset => false
    case StructValue(fields) => forall k | k in fields :: IsSendable(fields[k])
    case ListValue(values) => forall i | 0 <= i < |values| :: IsSendable(values[i])
    case _ => true
  }

  lemma {:induction false} PackedDocumentIsSendable(d: Native, base64: Base64)
    requires IsDocument(d)
    ensures IsSendable(Pack(d, base64))
  {
    match d {
      case Record(fields) =>
        forall k | k in fields ensures IsSendable(Pack(fields[k], base64)) {
          PackedDocumentIsSendable(fields[k], base64);
        }
      case List(items) =>
        forall i | 0 <= i < |items| ensures IsSendable(Pack(items[i], base64)) {
          PackedDocumentIsSendable(items[i], base64);
        }
      case _ =>
    }
  }

  ghost predicate HasForeignAt(d: Native, path: seq<Step>) { Look(d, path).Leaf? && Look(d, path).v.Other? }

  lemma {:induction false} DocumentHasNoForeign(d: Native, path: seq<Step>)
    requires IsDocument(d)
    ensures !HasForeignAt(d, path)
    decreases |path|
  {
    if path != [] {
      match d {
        case Record(fields) =>
          if path[0].Key? && path[0].k in fields { DocumentHasNoForeign(fields[path[0].k], path[1..]); }
        case List(items) =>
          if path[0].Index? && path[0].i < |items| { DocumentHasNoForeign(items[path[0].i], path[1..]); }
        case _ =>
      }
    }
  }

  lemma {:induction false} ForeignIsFound(d: Native) returns (path: seq<Step>)
    requires !IsDocument(d)
    ensures HasForeignAt(d, path)
  {
    match d {
      case Record(fields) =>
        var k :| k in fields && !IsDocument(fields[k]);
        var more := ForeignIsFound(fields[k]);
        path := [Key(k)] + more;
        assert path[1..] == more;
      case List(items) =>
        var i: nat :| i < |items| && !IsDocument(items[i]);
        var more := ForeignIsFound(items[i]);
        path := [Index(i)] + more;
        assert path[1..] == more;
      case _ => path := [];
    }
  }

  /** NewStruct refuses a document exactly for a foreign value somewhere in it. */
  lemma RefusedForForeignValues(d: Native)
    ensures IsDocument(d) <==> forall path :: !HasForeignAt(d, path)
  {
    if IsDocument(d) {
      forall path ensures !HasForeignAt(d, path) { DocumentHasNoForeign(d, path); }
    } else {
      var path := ForeignIsFound(d);
    }
  }

  /** An integer anywhere in a document reaches the server unchanged exactly when a float64 equals it. */
  lemma IntegerLeafSurvives(d: Native, path: seq<Step>, n: Int64, base64: Base64)
    requires IsDocument(d)
    requires || Look(d, path) == Leaf(Int(n))
             || Look(d, path) == Leaf(I64(n))
             || (-0x8000_0000 <= n < 0x8000_0000 && Look(d, path) == Leaf(I32(n)))
    ensures Look(FromProto(Pack(d, base64)), path) == Leaf(F64(Finite(n as real))) <==> IsFloat(n)
  {
    DocumentRoundTrip(d, path, base64);
    ExactIffFloat(n);
  }

  /** Every other integer leaf arrives as the nearest float64, ties to even, within 512. */
  lemma IntegerLeafArrives(d: Native, path: seq<Step>, n: Int64, base64: Base64)
    requires IsDocument(d)
    requires Look(d, path) == Leaf(Int(n)) || Look(d, path) == Leaf(I64(n))
    ensures var leaf := Look(FromProto(Pack(d, base64)), path);
            && leaf.Leaf? && leaf.v.F64? && Arrives(leaf.v.f, n)
            && -512.0 <= leaf.v.f.v - n as real <= 512.0
  {
    DocumentRoundTrip(d, path, base64);
    ConversionArrives(n);
    ConversionError(n);
    hide ToFloat64, Arrives, Ulp;
  }
}
