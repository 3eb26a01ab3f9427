/** What a value of the tree means as a type, said apart from how it is read. */
module Meanings {
  import opened Options
  import opened Trees
  import opened Schemas
  import Decimal

  // ---- Integers ----

  /** The numbers an integer type holds. */
  predicate InRange(width: IntType, n: int) {
    match width
    case I8 => -128 <= n <= 127
    case I16 => -32_768 <= n <= 32_767
    case I32 => -2_147_483_648 <= n <= 2_147_483_647
    case I64 => -0x8000_0000_0000_0000 <= n <= 0x7fff_ffff_ffff_ffff
    case I128 => -0x8000_0000_0000_0000_0000_0000_0000_0000 <= n <= 0x7fff_ffff_ffff_ffff_ffff_ffff_ffff_ffff
    case U8 => 0 <= n <= 255
    case U16 => 0 <= n <= 65_535
    case U32 => 0 <= n <= 4_294_967_295
    case U64 => 0 <= n <= 0xffff_ffff_ffff_ffff
    case U128 => 0 <= n <= 0xffff_ffff_ffff_ffff_ffff_ffff_ffff_ffff
  }

  lemma {:induction false} PowAdd(a: nat, b: nat)
    ensures Pow2(a + b) == Pow2(a) * Pow2(b)
  {
    if a > 0 {
      PowAdd(a - 1, b);
      Doubled(Pow2(a - 1), Pow2(b));
    }
  }

  lemma Doubled(x: nat, y: nat)
    ensures 2 * (x * y) == 2 * x * y
  {
  }

  lemma SmallPowers()
    ensures Pow2(7) == 128 && Pow2(8) == 256
  {
  }

  lemma Powers()
    ensures Pow2(7) == 128 && Pow2(8) == 256 && Pow2(15) == 32_768 && Pow2(16) == 65_536
    ensures Pow2(31) == 2_147_483_648 && Pow2(32) == 4_294_967_296
    ensures Pow2(63) == 0x8000_0000_0000_0000 && Pow2(64) == 0x1_0000_0000_0000_0000
    ensures Pow2(127) == 0x8000_0000_0000_0000_0000_0000_0000_0000
    ensures Pow2(128) == 0x1_0000_0000_0000_0000_0000_0000_0000_0000
  {
    hide Pow2;
    SmallPowers();
    PowAdd(7, 8);
    PowAdd(8, 8);
    PowAdd(15, 16);
    PowAdd(16, 16);
    PowAdd(31, 32);
    PowAdd(32, 32);
    PowAdd(63, 64);
    PowAdd(64, 64);
  }

  lemma RangesAre(width: IntType, n: int)
    ensures width.Holds(n) <==> InRange(width, n)
  {
    hide Pow2;
    Powers();
  }

  /** The text is `n` in decimal, any zeros before it, and any sign that suits. */
  predicate Spells(text: string, n: int) {
    || (n >= 0 && Decimal.Writes(text, n))
    || (n >= 0 && text != "" && text[0] == '+' && Decimal.Writes(text[1..], n))
    || (n <= 0 && text != "" && text[0] == '-' && Decimal.Writes(text[1..], -n))
  }

  /** Environment text is parsed exactly as the number it spells, if 128 bits hold it. */
  lemma ParsedIntIs(text: string, n: int)
    ensures ParsedInt(text) == Some(n) <==> Spells(text, n) && InRange(I128, n)
  {
    hide Decimal.Writes, Decimal.Value, Decimal.AllDigits;
    var signed := text != "" && (text[0] == '-' || text[0] == '+');
    var digits := if signed then text[1..] else text;
    RangesAre(I128, n);
    Decimal.WritesIs(digits, if n >= 0 then n else -n);
    if signed {
      Decimal.SignIsNoDigit(text, if n >= 0 then n else -n);
    }
  }

  // ---- Fields without an entry ----

  /** `v` is what a type with no value of its own to offer stands for: none, if every mapping takes it. */
  predicate StandsFor(s: Schema, v: Decoded) {
    match s
    case SOption(_) => v == DNone
    case SMapped(inner, takes) => takes(v) && StandsFor(inner, v)
    case _ => false
  }

  predicate StandsIn(f: Field, v: Decoded) {
    if f.fallback then v == DDefault else StandsFor(f.schema, v)
  }

  lemma {:induction false} StandsForIs(s: Schema, v: Decoded)
    ensures StandsFor(s, v) <==> WhenMissing(s) == Value(v)
  {
    if s.SMapped? {
      StandsForIs(s.inner, v);
    }
  }

  lemma StandsInIs(f: Field, v: Decoded)
    ensures StandsIn(f, v) <==> GivenFor(f) == Value(v)
  {
    StandsForIs(f.schema, v);
  }

  /** The type beneath the mappings, if it is an option. */
  predicate IsOption(s: Schema) {
    s.SOption? || (s.SMapped? && IsOption(s.inner))
  }

  /** A field has to be supplied exactly when it has no default and its type is no option, mapped or not. */
  lemma {:induction false} RequiredIs(f: Field)
    ensures GivenFor(f).Required? <==> !f.fallback && !IsOption(f.schema)
  {
    MissingIs(f.schema);
  }

  lemma {:induction false} MissingIs(s: Schema)
    ensures WhenMissing(s).Required? <==> !IsOption(s)
  {
    if s.SMapped? {
      MissingIs(s.inner);
    }
  }

  // ---- Values ----

  /** `v` is what the node holds, read as `s`. */
  predicate Represents(s: Schema, v: Decoded, node: Node)
    decreases s, node, 1
  {
    match s
    case SBool => v.DBool? && (node.value == Bool(v.flag) || node.value == Text(if v.flag then "true" else "false"))
    case SInt(width) =>
      && v.DInt? && InRange(width, v.number)
      && (|| node.value == Integer(v.number)
          || (node.value.Text? && Spells(node.value.text, v.number) && InRange(I128, v.number)))
    case SStr => v.DStr? && (node.value == String(v.text) || node.value == Text(v.text))
    case SLeaf(accepts) => v.DStr? && accepts(v.text) && (node.value == String(v.text) || node.value == Text(v.text))
    case SOption(inner) => if node.value.Null? then v == DNone else v.DSome? && Represents(inner, v.inner, node)
    case SMapped(inner, takes) => takes(v) && Represents(inner, v, node)
    case SSeq(element) =>
      node.value.Array? && v.DSeq? && |v.items| == |node.value.items| &&
      forall i | 0 <= i < |v.items| :: Represents(element, v.items[i], node.value.items[i])
    case SAny =>
      (match node.value
       case Array(items) =>
         v.DSeq? && |v.items| == |items| && forall i | 0 <= i < |items| :: Represents(SAny, v.items[i], items[i])
       case Table(_) => TableRepresents(s, v, node)
       case _ => v == DRaw(node.value))
    case _ => node.value.Table? && TableRepresents(s, v, node)
  }

  /**
   * A struct has a value for each of its fields and for nothing else: what the entry of that name
   * holds, or what stands in for it. A map has one for each entry.
   */
  predicate TableRepresents(s: Schema, v: Decoded, node: Node)
    requires IsTable(s) && node.value.Table?
    decreases s, node, 0
  {
    var entries := node.value.entries;
    v.DTable? &&
    match s
    case SStruct(fields) =>
      && v.entries.Keys == NamesOf(fields)
      && forall j | 0 <= j < |fields| ::
           && (forall i | 0 <= i < |entries| && entries[i].key == fields[j].name ::
                 Represents(fields[j].schema, v.entries[fields[j].name], entries[i].node))
           && (Unsupplied(entries, fields[j].name) ==> StandsIn(fields[j], v.entries[fields[j].name]))
    case SMap(element) =>
      && v.entries.Keys == KeysOf(entries)
      && forall i | 0 <= i < |entries| :: Represents(element, v.entries[entries[i].key], entries[i].node)
    case SAny =>
      && v.entries.Keys == KeysOf(entries)
      && forall i | 0 <= i < |entries| :: Represents(SAny, v.entries[entries[i].key], entries[i].node)
  }

  function NamesOf(fields: seq<Field>): (names: set<string>)
    ensures forall j | 0 <= j < |fields| :: fields[j].name in names
  {
    set j | 0 <= j < |fields| :: fields[j].name
  }

  function KeysOf(entries: seq<Entry>): (keys: set<string>)
    ensures forall i | 0 <= i < |entries| :: entries[i].key in keys
  {
    set i | 0 <= i < |entries| :: entries[i].key
  }

  predicate Unsupplied(entries: seq<Entry>, name: string) {
    forall i | 0 <= i < |entries| :: entries[i].key != name
  }

  /** `v` is what `s` makes of nothing at all, with nothing to report. */
  predicate Vacant(s: Schema, v: Decoded) {
    match s
    case SOption(_) => v == DNone
    case SMapped(inner, takes) => takes(v) && Vacant(inner, v)
    case SMap(_) => v == DTable(map[])
    case SStruct(fields) =>
      && v.DTable? && v.entries.Keys == NamesOf(fields)
      && forall i | 0 <= i < |fields| :: StandsIn(fields[i], v.entries[fields[i].name])
    case _ => false
  }

  // ---- What is wrong with a scalar ----

  /** The value is the integer `n`, or environment text that spells it. */
  predicate IsInteger(value: Value, n: int) {
    value == Integer(n) || (value.Text? && Spells(value.text, n) && InRange(I128, n))
  }

  /** What is wrong with a scalar value that means nothing as the type. */
  ghost function WrongWith(s: Schema, value: Value): Message
    requires IsScalarSchema(s)
  {
    if s.SInt? && exists n :: IsInteger(value, n) then OutOfRange(s.width)
    else if s.SLeaf? && (value.String? || value.Text?) then Refused
    else Expected(WhatOf(s), Kind(value))
  }

  ghost predicate Fits(s: Schema, node: Node) {
    exists v :: Represents(s, v, node)
  }

  /** A scalar is read as what it means; if it means nothing one problem says so, with the value's origin. */
  lemma ScalarTold(s: Schema, node: Node, path: string)
    requires IsScalarSchema(s)
    ensures ReadScalar(s, At(node), path).problems ==
            if Fits(s, node) then [] else [Problem(path, Some(node.origin), WrongWith(s, node.value))]
  {
    hide Spells, InRange, ParsedInt;
    var value := node.value;
    if s.SInt? {
      IntegerTold(s, node, path);
    } else if s.SBool? {
      if value.Bool? {
        assert Represents(s, DBool(value.flag), node);
      } else if value == Text("true") {
        assert Represents(s, DBool(true), node);
      } else if value == Text("false") {
        assert Represents(s, DBool(false), node);
      }
    } else if value.String? || value.Text? {
      if s.SStr? || s.accepts(value.text) {
        assert Represents(s, DStr(value.text), node);
      }
    }
  }

  lemma IntegerTold(s: Schema, node: Node, path: string)
    requires s.SInt?
    ensures ReadScalar(s, At(node), path).problems ==
            if Fits(s, node) then [] else [Problem(path, Some(node.origin), WrongWith(s, node.value))]
  {
    hide Spells, InRange, ParsedInt;
    var value := node.value;
    var read := if value.Integer? then Some(value.number) else if value.Text? then ParsedInt(value.text) else None;
    forall n
      ensures IsInteger(value, n) <==> read == Some(n)
    {
      if value.Text? {
        ParsedIntIs(value.text, n);
      }
    }
    if read.Some? {
      RangesAre(s.width, read.value);
      assert IsInteger(value, read.value);
      assert InRange(s.width, read.value) ==> Represents(s, DInt(read.value), node);
    }
    forall v | Represents(s, v, node)
      ensures read == Some(v.number) && InRange(s.width, v.number)
    {
      assert IsInteger(value, v.number);
    }
  }

  /** A number the type does not hold means nothing as the type. */
  lemma OutOfRangeMeansNothing(width: IntType, node: Node, n: int)
    requires IsInteger(node.value, n) && !InRange(width, n)
    ensures !Fits(SInt(width), node) && WrongWith(SInt(width), node.value) == OutOfRange(width)
  {
    hide Spells, InRange;
    forall v | Represents(SInt(width), v, node)
      ensures v.number == n
    {
      if node.value.Text? {
        ParsedIntIs(node.value.text, n);
        ParsedIntIs(node.value.text, v.number);
      }
    }
  }

  /** What a scalar type without a refusal of its own is given in place of a value it cannot read. */
  function Blank(s: Schema): Decoded {
    match s
    case SBool => DBool(false)
    case SInt(_) => DInt(0)
    case _ => DStr("")
  }

  lemma BlankInstead(s: Schema, node: Node, path: string)
    requires IsScalarSchema(s) && !s.SLeaf? && !Fits(s, node)
    ensures ReadScalar(s, At(node), path) ==
            ScalarRead([Problem(path, Some(node.origin), WrongWith(s, node.value))], Some(Blank(s)))
  {
    hide Fits, WrongWith, ParsedInt;
    ScalarTold(s, node, path);
  }

  // ---- What a message tells ----

  /** The same kind of value, strings and environment text alike. */
  predicate Alike(v: Value, w: Value) {
    match v
    case Null => w.Null?
    case Bool(_) => w.Bool?
    case Integer(_) => w.Integer?
    case Float(_) => w.Float?
    case String(_) => w.String? || w.Text?
    case Text(_) => w.String? || w.Text?
    case Array(_) => w.Array?
    case Table(_) => w.Table?
  }

  /** The kind found tells any two kinds of value apart, and the type expected any two integer types. */
  lemma MessagesTellApart(v: Value, w: Value, one: IntType, other: IntType)
    ensures Kind(v) == Kind(w) <==> Alike(v, w)
    ensures WhatOf(SInt(one)) == WhatOf(SInt(other)) <==> one == other
  {
    KindsDiffer();
    NamesDiffer(one, other);
  }

  lemma KindsDiffer()
    ensures |"null"| == 4 && |"a boolean"| == 9 && |"an integer"| == 10 && |"a float"| == 7 && |"a string"| == 8
    ensures |"an array"| == 8 && |"a table"| == 7
    ensures "a float"[2] != "a table"[2] && "a string"[1] != "an array"[1]
  {
  }

  lemma NamesDiffer(one: IntType, other: IntType)
    ensures IntName(one) == IntName(other) <==> one == other
  {
    var a, b := IntName(one), IntName(other);
    assert one != other ==> |a| != |b| || a[0] != b[0] || a[1] != b[1];
  }
}
