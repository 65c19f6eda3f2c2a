/** Attribute schema, event values and the conversions between event values,
    statement parameters, result-set columns and bloom-filter keys. */
module Schema {
  import opened Text

  datatype Option<+T> = None | Some(value: T)

  datatype Result<+T, +E> = Ok(value: T) | Err(error: E) {
    predicate IsFailure() { Err? }
    function PropagateFailure<U>(): Result<U, E>
      requires Err?
    {
      Err(error)
    }
    function Extract(): T
      requires Ok?
    {
      value
    }
  }

  /** Attribute.Type */
  datatype AttrType = STRING | INT | LONG | FLOAT | DOUBLE | BOOL | OBJECT

  datatype Attribute = Attribute(name: string, attrType: AttrType)

  /** A Java value held in an event's output data: null, a boxed primitive, a
      String or some other object. Float, double and arbitrary objects are
      opaque and carried by their toString() text. */
  datatype Value =
    | Null
    | BoolValue(boolVal: bool)
    | IntValue(intVal: int)
    | LongValue(longVal: int)
    | FloatValue(floatText: string)
    | DoubleValue(doubleText: string)
    | StringValue(str: string)
    | ObjectValue(objText: string)

  /** An event's output data, one value per attribute. */
  type Row = seq<Value>

  /** The cast in front of each setter of populateStatement, `(Integer) value`
      and so on, succeeds. OBJECT columns have no setter, hence no cast. */
  predicate Fits(t: AttrType, v: Value) {
    match t
    case STRING => v.StringValue?
    case INT => v.IntValue?
    case LONG => v.LongValue?
    case FLOAT => v.FloatValue?
    case DOUBLE => v.DoubleValue?
    case BOOL => v.BoolValue?
    case OBJECT => true
  }

  /** populateStatement calls a setter for this value: it is not null and the
      column type is one the switch handles. */
  predicate Bindable(t: AttrType, v: Value) {
    !v.Null? && t != OBJECT
  }

  /** A row this layer can write completely: every value bound by a setter of
      the matching kind. */
  predicate Complete(attrs: seq<Attribute>, r: Row) {
    |r| == |attrs| &&
    forall i :: 0 <= i < |attrs| ==> Bindable(attrs[i].attrType, r[i]) && Fits(attrs[i].attrType, r[i])
  }

  /** A row the backing table can hold: per column SQL NULL or a value of the
      column's kind (no setter ever writes an OBJECT column). */
  predicate Storable(attrs: seq<Attribute>, r: Row) {
    |r| == |attrs| &&
    forall i :: 0 <= i < |attrs| ==>
      r[i].Null? || (attrs[i].attrType != OBJECT && Fits(attrs[i].attrType, r[i]))
  }

  /** Object.toString() of a non-null value. */
  function ToText(v: Value): string
    requires !v.Null?
  {
    match v
    case BoolValue(b) => if b then "true" else "false"
    case IntValue(n) => IntToString(n)
    case LongValue(n) => IntToString(n)
    case FloatValue(s) => s
    case DoubleValue(s) => s
    case StringValue(s) => s
    case ObjectValue(s) => s
  }

  /** The key addToBloomFilters and removeFromBloomFilters derive from an event
      value: its toString(), or nothing when the value is null (a null dereference). */
  function KeyOf(v: Value): (k: Option<string>)
    ensures k.None? <==> v.Null?
  {
    if v.Null? then None else Some(ToText(v))
  }

  /** What buildBloomFilters does with one column value read from the table. */
  datatype ScanKey = Skip | AddKey(key: string) | NullDeref

  /** buildBloomFilters reads column i with the getter of its type and
      stringifies the result: SQL NULL reads as 0, 0.0 or false through the
      primitive getters, and as null through getString, whose getBytes() then
      dereferences null. OBJECT columns have no case and add nothing. */
  function ScanKeyOf(t: AttrType, v: Value): ScanKey {
    if t == OBJECT then Skip
    else if v.Null? then
      match t
      case STRING => NullDeref
      case INT => AddKey("0")
      case LONG => AddKey("0")
      case FLOAT => AddKey("0.0")
      case DOUBLE => AddKey("0.0")
      case BOOL => AddKey("false")
    else AddKey(ToText(v))
  }

  /** selectEvent reads a column with the getter of its attribute type; the
      primitive getters turn SQL NULL into false, 0 or 0.0, getString and
      getObject return null. */
  function DecodeColumn(t: AttrType, raw: Value): (v: Value)
    ensures !raw.Null? ==> v == raw
    ensures raw.Null? ==> (v.Null? <==> t == STRING || t == OBJECT)
  {
    if !raw.Null? then raw
    else
      match t
      case BOOL => BoolValue(false)
      case INT => IntValue(0)
      case LONG => LongValue(0)
      case FLOAT => FloatValue("0.0")
      case DOUBLE => DoubleValue("0.0")
      case STRING => Null
      case OBJECT => Null
  }

  /** One result row decoded into an event's output data, attribute by attribute. */
  function DecodeRow(attrs: seq<Attribute>, raw: Row): (r: Row)
    requires |raw| >= |attrs|
    ensures |r| == |attrs|
  {
    seq(|attrs|, i requires 0 <= i < |attrs| => DecodeColumn(attrs[i].attrType, raw[i]))
  }

  /** A completely written row reads back as the same values. */
  lemma {:induction false} DecodeRoundTrip(attrs: seq<Attribute>, r: Row)
    requires Complete(attrs, r)
    ensures DecodeRow(attrs, r) == r
  {
    forall i | 0 <= i < |attrs| ensures DecodeRow(attrs, r)[i] == r[i] {
      assert !r[i].Null?;
    }
  }

  /** For a value written by a setter, the key the table scan derives equals the
      key the event itself gives, so rebuilt and incremental filters agree. */
  lemma {:induction false} ScanKeyAgreesWithKeyOf(t: AttrType, v: Value)
    requires Bindable(t, v) && Fits(t, v)
    ensures ScanKeyOf(t, v) == AddKey(KeyOf(v).value)
  {
  }

  /** Every row this layer writes is one the table can hold. */
  lemma {:induction false} CompleteIsStorable(attrs: seq<Attribute>, r: Row)
    requires Complete(attrs, r)
    ensures Storable(attrs, r)
  {
  }
}
