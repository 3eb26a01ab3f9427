/** The types a section is read as. */
module Schemas {
  // A `Schema` stands for a type's `Deserialize`: the deserializer method it calls and what its visitor accepts.

  import opened Options
  import opened Trees
  import Decimal

  datatype IntType = I8 | I16 | I32 | I64 | I128 | U8 | U16 | U32 | U64 | U128
  {
    function Bits(): nat {
      match this
      case I8 => 8 case I16 => 16 case I32 => 32 case I64 => 64 case I128 => 128
      case U8 => 8 case U16 => 16 case U32 => 32 case U64 => 64 case U128 => 128
    }

    predicate Signed() {
      I8? || I16? || I32? || I64? || I128?
    }

    predicate Holds(n: int) {
      if Signed() then 0 - Pow2(Bits() - 1) <= n < Pow2(Bits() - 1) else 0 <= n < Pow2(Bits())
    }
  }

  function Pow2(k: nat): nat {
    if k == 0 then 1 else 2 * Pow2(k - 1)
  }

  datatype Schema =
    | SBool
    | SInt(width: IntType)
    | SStr
    | SLeaf(accepts: string -> bool)                       // reads a string, then may refuse it
    | SOption(inner: Schema)
    | SSeq(element: Schema)
    | SMap(element: Schema)                                // any key, one value type
    | SAny                                                 // self-describing: reads what is there
    | SStruct(fields: seq<Field>)
    | SMapped(inner: Schema, takes: Decoded -> bool)       // `try_from`: reads `inner`, then may refuse it

  /** `fallback`: the field is `#[serde(default)]`. */
  datatype Field = Field(name: string, schema: Schema, fallback: bool)

  datatype Decoded =
    | DBool(flag: bool)
    | DInt(number: int)
    | DStr(text: string)
    | DNone
    | DSome(inner: Decoded)
    | DSeq(items: seq<Decoded>)
    | DTable(entries: map<string, Decoded>)
    | DRaw(value: Value)                                   // a scalar read for no type
    | DDefault                                             // the field type's `Default`

  datatype Message =
    | Expected(what: string, found: string)
    | OutOfRange(width: IntType)
    | MissingValue
    | MissingField
    | Refused                                              // whatever a type says of a value it turns down
    | CouldNotRead
    | Truncated(count: nat)

  datatype Problem = Problem(path: string, origin: Option<Origin>, message: Message)

  /** What a deserializer reads: a node, or a place where there is none. */
  datatype Target =
    | At(node: Node)
    | Absent(reported: bool, origin: Option<Origin>)

  function OriginOf(t: Target): Option<Origin> {
    if t.At? then Some(t.node.origin) else t.origin
  }

  /** The origin a missing field is reported with: the table's, unless it is the type's default. */
  function SuppliedOrigin(t: Target): Option<Origin> {
    if OriginOf(t) == Some(Default) then None else OriginOf(t)
  }

  /** Nothing is to be said of this absence: it follows from one already listed. */
  predicate Silent(t: Target) {
    t.Absent? && t.reported
  }

  function Kind(v: Value): string {
    match v
    case Null => "null"
    case Bool(_) => "a boolean"
    case Integer(_) => "an integer"
    case Float(_) => "a float"
    case String(_) | Text(_) => "a string"
    case Array(_) => "an array"
    case Table(_) => "a table"
  }

  /** The problem a value of the wrong type is, if it is one not yet reported. */
  function Mismatch(t: Target, path: string, what: string): (problems: seq<Problem>)
    ensures |problems| <= 1
    ensures Silent(t) ==> problems == []
  {
    match t
    case At(node) => [Problem(path, Some(node.origin), Expected(what, Kind(node.value)))]
    case Absent(false, origin) => [Problem(path, origin, MissingValue)]
    case Absent(true, _) => []
  }

  // ---- Tables as schemas see them ----

  predicate IsTable(s: Schema) {
    s.SStruct? || s.SMap? || s.SAny?
  }

  function EntriesOf(t: Target): seq<Entry> {
    if t.At? && t.node.value.Table? then t.node.value.entries else []
  }

  function FieldsOf(s: Schema): seq<Field> {
    if s.SStruct? then s.fields else []
  }

  /** The place of the first field of that name, or the number of fields. */
  function FindField(fields: seq<Field>, name: string): (i: nat)
    ensures i <= |fields|
    ensures i < |fields| ==> fields[i].name == name
    ensures forall j | 0 <= j < i :: fields[j].name != name
  {
    if |fields| == 0 || fields[0].name == name then 0 else 1 + FindField(fields[1..], name)
  }

  predicate Reads(s: Schema, key: string) {
    IsTable(s) && (s.SStruct? ==> FindField(s.fields, key) < |s.fields|)
  }

  /** The type the value under `key` is read as. */
  function Under(s: Schema, key: string): Schema
    requires Reads(s, key)
  {
    match s
    case SStruct(fields) => fields[FindField(fields, key)].schema
    case SMap(element) => element
    case SAny => SAny
  }

  /** What the derive makes of a field no entry supplied. */
  datatype Given = Value(value: Decoded) | Required | Unacceptable

  function WhenMissing(s: Schema): Given {
    match s
    case SOption(_) => Value(DNone)
    case SMapped(inner, takes) =>
      (match WhenMissing(inner)
       case Value(v) => if takes(v) then Value(v) else Unacceptable
       case other => other)
    case _ => Required
  }

  function GivenFor(f: Field): Given {
    if f.fallback then Value(DDefault) else WhenMissing(f.schema)
  }

  // ---- Scalars ----

  /** An integer as `i128` parses one: an optional sign, digits, and no overflow. */
  function ParsedInt(text: string): Option<int> {
    var signed := text != "" && (text[0] == '-' || text[0] == '+');
    var digits := if signed then text[1..] else text;
    if digits == "" || !Decimal.AllDigits(digits) then
      None
    else
      var n: int := if text[0] == '-' then 0 - Decimal.Value(digits) else Decimal.Value(digits);
      if I128.Holds(n) then Some(n) else None
  }

  predicate IsScalarSchema(s: Schema) {
    s.SBool? || s.SInt? || s.SStr? || s.SLeaf?
  }

  function WhatOf(s: Schema): string
    requires IsScalarSchema(s)
  {
    match s
    case SBool => "a boolean"
    case SInt(width) => IntName(width)
    case _ => "a string"
  }

  function IntName(width: IntType): string {
    match width
    case I8 => "i8" case I16 => "i16" case I32 => "i32" case I64 => "i64" case I128 => "i128"
    case U8 => "u8" case U16 => "u16" case U32 => "u32" case U64 => "u64" case U128 => "u128"
  }

  /** What a scalar type makes of a value. */
  datatype Probe =
    | Good(value: Decoded)
    | WrongKind
    | OverRange
    | Refuses

  function ProbeOf(s: Schema, v: Value): Probe
    requires IsScalarSchema(s)
  {
    match s
    case SBool =>
      (match v
       case Bool(flag) => Good(DBool(flag))
       case Text(text) => if text == "true" then Good(DBool(true))
       else if text == "false" then Good(DBool(false)) else WrongKind
       case _ => WrongKind)
    case SInt(width) =>
      (match (match v case Integer(n) => Some(n) case Text(text) => ParsedInt(text) case _ => None)
       case Some(n) => if width.Holds(n) then Good(DInt(n)) else OverRange
       case None => WrongKind)
    case SStr =>
      if v.String? || v.Text? then Good(DStr(v.text)) else WrongKind
    case SLeaf(accepts) =>
      if v.String? || v.Text? then (if accepts(v.text) then Good(DStr(v.text)) else Refuses) else WrongKind
  }

  /** The placeholder of a scalar type, unless the type refuses it. */
  function Placeholder(s: Schema): Option<Decoded>
    requires IsScalarSchema(s)
  {
    match s
    case SBool => Some(DBool(false))
    case SInt(_) => Some(DInt(0))
    case SStr => Some(DStr(""))
    case SLeaf(accepts) => if accepts("") then Some(DStr("")) else None
  }

  /** What one read of a scalar reports, and the value it ends with, if it ends with one. */
  datatype ScalarRead = ScalarRead(problems: seq<Problem>, value: Option<Decoded>)

  function ReadScalar(s: Schema, t: Target, path: string): (r: ScalarRead)
    requires IsScalarSchema(s)
    ensures |r.problems| <= 1
    ensures Silent(t) ==> r.problems == []
    ensures r.value.None? && !Silent(t) ==> r.problems != []
  {
    if t.Absent? then
      ScalarRead(Mismatch(t, path, WhatOf(s)), Placeholder(s))
    else
      match ProbeOf(s, t.node.value)
      case Good(v) => ScalarRead([], Some(v))
      case WrongKind => ScalarRead(Mismatch(t, path, WhatOf(s)), Placeholder(s))
      case OverRange => ScalarRead([Problem(path, Some(t.node.origin), OutOfRange(s.width))], Placeholder(s))
      case Refuses => ScalarRead([Problem(path, Some(t.node.origin), Message.Refused)], None)
  }
}
