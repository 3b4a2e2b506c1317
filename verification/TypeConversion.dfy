/** Types between Spark Connect and Arrow. */
module TypeConversion {
  import opened AsciiText
  import opened Results

  // ---------------------------------------------------------------- the two type languages

  datatype ScalarKind =
    | Boolean | Byte | Short | Integer | Long | Float | Double | Binary | Timestamp | TimestampNtz | Date

  /** A Connect type. A nested type may be missing from the message; `variation` is its
      `type_variation_reference`. */
  datatype Kind =
    | Scalar(scalar: ScalarKind, variation: nat)
    | Text(collation: string, variation: nat)
    | Decimal(precision: Option<int>, scale: Option<int>, variation: nat)
    | Struct(fields: seq<StructField>, variation: nat)
    | Array(element: Option<Kind>, containsNull: bool, variation: nat)
    | Map(key: Option<Kind>, value: Option<Kind>, valueContainsNull: bool, variation: nat)
    | Unsupported(id: nat)

  datatype StructField = StructField(name: string, kind: Option<Kind>, nullable: bool)

  datatype TimeUnit = Second | Millisecond | Microsecond | Nanosecond

  type U8 = n: int | 0 <= n < 256
  type I8 = n: int | -128 <= n < 128

  datatype ArrowType =
    | BooleanType | Int8 | Int16 | Int32 | Int64 | Float32 | Float64
    | Utf8 | LargeUtf8 | Utf8View
    | BinaryType | LargeBinary | BinaryView
    | TimestampOf(unit: TimeUnit, zone: Option<string>)
    | Date32
    | Decimal128(p: U8, s: I8)
    | StructOf(arrowFields: seq<Field>)
    | ListOf(item: Field)
    | MapOf(entries: Field, sorted: bool)
    | OtherType(id: nat)

  datatype Field = Field(name: string, dataType: ArrowType, nullable: bool)

  predicate StringType(t: ArrowType) {
    t.Utf8? || t.LargeUtf8? || t.Utf8View?
  }

  predicate BinaryLike(t: ArrowType) {
    t.BinaryType? || t.LargeBinary? || t.BinaryView?
  }

  datatype ConversionOptions = ConversionOptions(stringVariant: ArrowType, binaryVariant: ArrowType) {
    /** What `with_string_variant` and `with_binary_variant` let through. */
    predicate Valid() {
      StringType(stringVariant) && BinaryLike(binaryVariant)
    }
  }

  datatype ConversionError = Missing | NotImplemented

  type Converted<T> = Result<T, ConversionError>

  // ---------------------------------------------------------------- the conversions

  /** `as u8`. */
  function AsU8(n: int): U8 {
    n % 256
  }

  /** `as i8`. */
  function AsI8(n: int): I8 {
    var low := n % 256;
    if low < 128 then low else low - 256
  }

  function OrElse(o: Option<int>, default: int): int {
    if o.Some? then o.value else default
  }

  function ScalarToArrow(scalar: ScalarKind, options: ConversionOptions): ArrowType {
    match scalar
    case Boolean => BooleanType
    case Byte => Int8
    case Short => Int16
    case Integer => Int32
    case Long => Int64
    case Float => Float32
    case Double => Float64
    case Binary => options.binaryVariant
    case Timestamp => TimestampOf(Microsecond, Some("UTC"))
    case TimestampNtz => TimestampOf(Microsecond, None)
    case Date => Date32
  }

  function MapEntries(key: ArrowType, value: ArrowType, valueContainsNull: bool): Field {
    Field("key_value", StructOf([Field("key", key, false), Field("value", value, valueContainsNull)]), false)
  }

  function ToArrow(k: Kind, options: ConversionOptions): Converted<ArrowType>
    decreases k
  {
    match k
    case Scalar(scalar, _) => Ok(ScalarToArrow(scalar, options))
    case Text(_, _) => Ok(options.stringVariant)
    case Decimal(precision, scale, _) => Ok(Decimal128(AsU8(OrElse(precision, 38)), AsI8(OrElse(scale, 18))))
    case Struct(fields, _) =>
      (match FieldsToArrow(fields, options)
       case Err(e) => Err(e)
       case Ok(converted) => Ok(StructOf(converted)))
    case Array(element, containsNull, _) =>
      if element.None? then Err(Missing)
      else (match ToArrow(element.value, options)
            case Err(e) => Err(e)
            case Ok(item) => Ok(ListOf(Field("item", item, containsNull))))
    case Map(key, value, valueContainsNull, _) =>
      if key.None? then Err(Missing)
      else (match ToArrow(key.value, options)
            case Err(e) => Err(e)
            case Ok(arrowKey) =>
              if value.None? then Err(Missing)
              else (match ToArrow(value.value, options)
                    case Err(e) => Err(e)
                    case Ok(arrowValue) => Ok(MapOf(MapEntries(arrowKey, arrowValue, valueContainsNull), false))))
    case Unsupported(_) => Err(NotImplemented)
  }

  function FieldToArrow(f: StructField, options: ConversionOptions): Converted<Field>
    decreases f
  {
    if f.kind.None? then Err(Missing)
    else (match ToArrow(f.kind.value, options)
          case Err(e) => Err(e)
          case Ok(t) => Ok(Field(f.name, t, f.nullable)))
  }

  /** The first field that cannot be converted decides. */
  function FieldsToArrow(fields: seq<StructField>, options: ConversionOptions): Converted<seq<Field>>
    decreases fields
  {
    if fields == [] then Ok([])
    else (match FieldToArrow(fields[0], options)
          case Err(e) => Err(e)
          case Ok(first) =>
            (match FieldsToArrow(fields[1..], options)
             case Err(e) => Err(e)
             case Ok(rest) => Ok([first] + rest)))
  }

  predicate IsUtc(zone: string) {
    EqualsIgnoreCase(zone, "utc") || zone == "*00:00"
  }

  function ToConnect(t: ArrowType): Converted<Kind> {
    match t
    case BooleanType => Ok(Scalar(Boolean, 0))
    case Int8 => Ok(Scalar(Byte, 0))
    case Int16 => Ok(Scalar(Short, 0))
    case Int32 => Ok(Scalar(Integer, 0))
    case Int64 => Ok(Scalar(Long, 0))
    case Float32 => Ok(Scalar(Float, 0))
    case Float64 => Ok(Scalar(Double, 0))
    case Utf8 => Ok(Text("", 0))
    case LargeUtf8 => Ok(Text("", 0))
    case Utf8View => Ok(Text("", 0))
    case BinaryType => Ok(Scalar(Binary, 0))
    case LargeBinary => Ok(Scalar(Binary, 0))
    case BinaryView => Ok(Scalar(Binary, 0))
    case TimestampOf(unit, zone) =>
      if unit == Microsecond && zone.Some? && IsUtc(zone.value) then Ok(Scalar(Timestamp, 0))
      else if unit == Microsecond && zone.None? then Ok(Scalar(TimestampNtz, 0))
      else Err(NotImplemented)
    case Date32 => Ok(Scalar(Date, 0))
    case Decimal128(p, s) => Ok(Decimal(Some(p), Some(s), 0))
    case _ => Err(NotImplemented)
  }

  // ---------------------------------------------------------------- when a type converts

  /** Every type nested in a Connect type, at any depth, with itself; None where one is missing. */
  function Occurrences(k: Kind): set<Option<Kind>>
    decreases k
  {
    {Some(k)} +
    match k
    case Struct(fields, _) => FieldOccurrences(fields)
    case Array(element, _, _) => if element.None? then {None} else Occurrences(element.value)
    case Map(key, value, _, _) =>
      (if key.None? then {None} else Occurrences(key.value)) +
      (if value.None? then {None} else Occurrences(value.value))
    case _ => {}
  }

  function FieldOccurrences(fields: seq<StructField>): set<Option<Kind>>
    decreases fields
  {
    if fields == [] then {}
    else
      (if fields[0].kind.None? then {None} else Occurrences(fields[0].kind.value)) + FieldOccurrences(fields[1..])
  }

  predicate AllThere(kinds: set<Option<Kind>>) {
    forall o <- kinds :: o.Some? && !o.value.Unsupported?
  }

  /** A type converts exactly when, at every depth, no nested type is missing and none is unsupported. */
  lemma {:induction false} ConvertsIff(k: Kind, options: ConversionOptions)
    ensures ToArrow(k, options).Ok? <==> AllThere(Occurrences(k))
    decreases k
  {
    match k {
      case Struct(fields, _) => FieldsConvertIff(fields, options);
      case Array(element, _, _) => if element.Some? { ConvertsIff(element.value, options); }
      case Map(key, value, _, _) =>
        if key.Some? { ConvertsIff(key.value, options); }
        if value.Some? { ConvertsIff(value.value, options); }
      case _ =>
    }
  }

  lemma {:induction false} FieldsConvertIff(fields: seq<StructField>, options: ConversionOptions)
    ensures FieldsToArrow(fields, options).Ok? <==> AllThere(FieldOccurrences(fields))
    decreases fields
  {
    if fields != [] {
      if fields[0].kind.Some? { ConvertsIff(fields[0].kind.value, options); }
      FieldsConvertIff(fields[1..], options);
    }
  }

  // ---------------------------------------------------------------- what a conversion keeps

  /** A Connect type without what Arrow cannot say: variations and collations are dropped, decimals
      have their defaults filled in and are cut down to eight bits. */
  function Canonical(k: Kind): Kind
    decreases k
  {
    match k
    case Scalar(scalar, _) => Scalar(scalar, 0)
    case Text(_, _) => Text("", 0)
    case Decimal(precision, scale, _) => Decimal(Some(AsU8(OrElse(precision, 38))), Some(AsI8(OrElse(scale, 18))), 0)
    case Struct(fields, _) => Struct(CanonicalFields(fields), 0)
    case Array(element, containsNull, _) =>
      Array(if element.None? then None else Some(Canonical(element.value)), containsNull, 0)
    case Map(key, value, valueContainsNull, _) =>
      Map(if key.None? then None else Some(Canonical(key.value)),
          if value.None? then None else Some(Canonical(value.value)), valueContainsNull, 0)
    case Unsupported(_) => k
  }

  function CanonicalFields(fields: seq<StructField>): (r: seq<StructField>)
    ensures |r| == |fields|
    decreases fields
  {
    if fields == [] then []
    else
      var kind := if fields[0].kind.None? then None else Some(Canonical(fields[0].kind.value));
      [StructField(fields[0].name, kind, fields[0].nullable)] + CanonicalFields(fields[1..])
  }

  /** Reading an Arrow type back, nested ones included. */
  ghost function Recover(t: ArrowType): Kind
    decreases t
  {
    match t
    case StructOf(fields) => Struct(RecoverFields(fields), 0)
    case ListOf(item) => Array(Some(Recover(item.dataType)), item.nullable, 0)
    case MapOf(entries, _) =>
      (match entries.dataType
       case StructOf(fields) =>
         if |fields| == 2 then
           Map(Some(Recover(fields[0].dataType)), Some(Recover(fields[1].dataType)), fields[1].nullable, 0)
         else Unsupported(0)
       case _ => Unsupported(0))
    case _ => if ToConnect(t).Ok? then ToConnect(t).value else Unsupported(0)
  }

  ghost function RecoverFields(fields: seq<Field>): seq<StructField>
    decreases fields
  {
    if fields == [] then []
    else
      [StructField(fields[0].name, Some(Recover(fields[0].dataType)), fields[0].nullable)]
      + RecoverFields(fields[1..])
  }

  lemma ScalarRecovers(scalar: ScalarKind, options: ConversionOptions)
    requires options.Valid()
    ensures Recover(ScalarToArrow(scalar, options)) == Scalar(scalar, 0)
  {
  }

  lemma MapRecovers(key: ArrowType, value: ArrowType, valueContainsNull: bool)
    ensures Recover(MapOf(MapEntries(key, value, valueContainsNull), false))
      == Map(Some(Recover(key)), Some(Recover(value)), valueContainsNull, 0)
  {
  }

  lemma {:induction false} RecoversCanonical(k: Kind, options: ConversionOptions)
    requires options.Valid() && ToArrow(k, options).Ok?
    ensures Recover(ToArrow(k, options).value) == Canonical(k)
    decreases k
  {
    match k {
      case Scalar(scalar, _) => ScalarRecovers(scalar, options);
      case Struct(fields, _) => RecoversFields(fields, options);
      case Array(element, _, _) => RecoversCanonical(element.value, options);
      case Map(key, value, valueContainsNull, _) =>
        RecoversCanonical(key.value, options);
        RecoversCanonical(value.value, options);
        MapRecovers(ToArrow(key.value, options).value, ToArrow(value.value, options).value, valueContainsNull);
      case _ =>
    }
  }

  lemma {:induction false} RecoversFields(fields: seq<StructField>, options: ConversionOptions)
    requires options.Valid() && FieldsToArrow(fields, options).Ok?
    ensures RecoverFields(FieldsToArrow(fields, options).value) == CanonicalFields(fields)
    decreases fields
  {
    if fields != [] {
      RecoversCanonical(fields[0].kind.value, options);
      RecoversFields(fields[1..], options);
      var converted := FieldsToArrow(fields, options).value;
      assert converted[1..] == FieldsToArrow(fields[1..], options).value;
    }
  }

  lemma {:induction false} CanonicalConvertsAlike(k: Kind, options: ConversionOptions)
    ensures ToArrow(Canonical(k), options) == ToArrow(k, options)
    decreases k
  {
    match k {
      case Decimal(precision, scale, _) =>
        assert AsU8(AsU8(OrElse(precision, 38))) == AsU8(OrElse(precision, 38));
        assert AsI8(AsI8(OrElse(scale, 18))) == AsI8(OrElse(scale, 18));
      case Struct(fields, _) => CanonicalFieldsConvertAlike(fields, options);
      case Array(element, _, _) => if element.Some? { CanonicalConvertsAlike(element.value, options); }
      case Map(key, value, _, _) =>
        if key.Some? { CanonicalConvertsAlike(key.value, options); }
        if value.Some? { CanonicalConvertsAlike(value.value, options); }
      case _ =>
    }
  }

  lemma {:induction false} CanonicalFieldsConvertAlike(fields: seq<StructField>, options: ConversionOptions)
    ensures FieldsToArrow(CanonicalFields(fields), options) == FieldsToArrow(fields, options)
    decreases fields
  {
    if fields != [] {
      if fields[0].kind.Some? { CanonicalConvertsAlike(fields[0].kind.value, options); }
      CanonicalFieldsConvertAlike(fields[1..], options);
      assert CanonicalFields(fields)[1..] == CanonicalFields(fields[1..]);
    }
  }

  /** The conversion forgets exactly what Arrow cannot say: two convertible types become the same Arrow
      type if and only if they agree up to that. In particular every field's name, its place and its
      nullability survive, at every depth. */
  lemma ForgetsExactly(j: Kind, k: Kind, options: ConversionOptions)
    requires options.Valid() && ToArrow(j, options).Ok? && ToArrow(k, options).Ok?
    ensures ToArrow(j, options) == ToArrow(k, options) <==> Canonical(j) == Canonical(k)
  {
    RecoversCanonical(j, options);
    RecoversCanonical(k, options);
    CanonicalConvertsAlike(j, options);
    CanonicalConvertsAlike(k, options);
  }

  // ---------------------------------------------------------------- round trips

  /** The Arrow type the options prefer for the same values. */
  function Variant(t: ArrowType, options: ConversionOptions): ArrowType {
    if StringType(t) then options.stringVariant
    else if BinaryLike(t) then options.binaryVariant
    else if t.TimestampOf? && t.zone.Some? then TimestampOf(t.unit, Some("UTC"))
    else t
  }

  /** From Arrow and back: the same type, with strings, binaries and UTC spelled as the options say;
      decimals are exact. */
  lemma ArrowRoundTrip(t: ArrowType, options: ConversionOptions)
    requires ToConnect(t).Ok?
    ensures ToArrow(ToConnect(t).value, options) == Ok(Variant(t, options))
  {
  }

  /** What survives the trip to Arrow and back unchanged. */
  predicate Survives(k: Kind) {
    match k
    case Scalar(_, variation) => variation == 0
    case Text(collation, variation) => collation == "" && variation == 0
    case Decimal(precision, scale, variation) =>
      variation == 0 && precision.Some? && 0 <= precision.value < 256 && scale.Some? && -128 <= scale.value < 128
    case _ => false
  }

  /** From Connect and back is exact for scalars with no variation or collation, and for decimals
      precisely when both numbers are given and fit eight bits; nested types do not come back at all. */
  lemma ConnectRoundTripIff(k: Kind, options: ConversionOptions)
    requires options.Valid()
    ensures ToArrow(k, options).Ok? && ToConnect(ToArrow(k, options).value) == Ok(k) <==> Survives(k)
  {
  }

  // ---------------------------------------------------------------- columns

  datatype Column = Column(
    name: string, kind: Option<Kind>, nullable: bool, generatedAlwaysAs: Option<string>, comment: Option<string>)

  function ColumnToArrow(c: Column, options: ConversionOptions): Converted<Field> {
    FieldToArrow(StructField(c.name, c.kind, c.nullable), options)
  }

  function FieldToConnect(f: Field): Converted<Column> {
    match ToConnect(f.dataType)
    case Err(e) => Err(e)
    case Ok(k) => Ok(Column(f.name, Some(k), f.nullable, None, None))
  }

  /** A field that has a Connect form comes back with its name and nullability, in the preferred type. */
  lemma FieldRoundTrip(f: Field, options: ConversionOptions)
    requires FieldToConnect(f).Ok?
    ensures ColumnToArrow(FieldToConnect(f).value, options) == Ok(f.(dataType := Variant(f.dataType, options)))
  {
    ArrowRoundTrip(f.dataType, options);
  }

  /** A column comes back exactly when its type survives and it says nothing else. */
  lemma ColumnRoundTripIff(c: Column, options: ConversionOptions)
    requires options.Valid()
    ensures ColumnToArrow(c, options).Ok? && FieldToConnect(ColumnToArrow(c, options).value) == Ok(c)
      <==> c.kind.Some? && Survives(c.kind.value) && c.generatedAlwaysAs.None? && c.comment.None?
  {
    if c.kind.Some? { ConnectRoundTripIff(c.kind.value, options); }
  }
}
