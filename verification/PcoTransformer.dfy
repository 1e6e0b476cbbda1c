/**
 The transformer between an item of Planning Center and the fields of an entity, driven by the
 annotated fields of the schema: named fields become columns, custom fields become a tagged
 list, and the way back fills in what is missing.
 */
module PcoTransformer {
  import opened EntityTable
  import opened SchemaAst
  import opened Seqs
  import opened Strings
  import opened Tables
  import opened Values
  import opened Wrappers

  type Item = map<string, Value>

  /** A field of the schema with its annotations; the default function reads the item encoded so far. */
  datatype Field = Field(
    key: string, ofName: Option<string>, custom: bool, skip: bool, ast: Ast, default: Option<Item -> Value>)

  /** An entity's columns, with its custom fields apart. */
  datatype Shape = Shape(columns: Item, customFields: seq<CustomField>)

  const PREFIX := "pco_"
  const RESERVED := "customFields"

  predicate DistinctFields(fields: seq<Field>) {
    forall i, j :: 0 <= i < j < |fields| ==> fields[i].key != fields[j].key
  }

  /** Columns and custom fields share one record, so no column may take the list's name. */
  ghost predicate NamesAreFree(fields: seq<Field>) {
    forall f :: f in fields ==> f.ofName != Some(RESERVED)
  }

  // ----- decoding

  /** The field takes part in decoding the item. */
  predicate Carried(f: Field, x: Item) {
    f.key in x && f.ofName.Some? && !f.skip && GetUnderlyingType(f.ast).Some?
  }

  function TagOf(t: BaseType): (tag: string) {
    match t
    case StringType => "string"
    case NumberType => "number"
    case BooleanType => "boolean"
  }

  function NullIfUndefined(v: Value): (w: Value) {
    if v == Undefined then Null else v
  }

  function MkCustomField(t: BaseType, key: string, v: Value): (c: CustomField) {
    CustomField(TagOf(t), PREFIX + key, PCO, NullIfUndefined(v))
  }

  function DecodedColumns(fields: seq<Field>, x: Item): (columns: Item) {
    if |fields| == 0 then map[]
    else
      var f := fields[|fields| - 1];
      var columns := DecodedColumns(fields[..|fields| - 1], x);
      if Carried(f, x) && !f.custom then columns[f.ofName.value := x[f.key]] else columns
  }

  function DecodedCustomFields(fields: seq<Field>, x: Item): (cs: seq<CustomField>) {
    if |fields| == 0 then []
    else
      var f := fields[|fields| - 1];
      var cs := DecodedCustomFields(fields[..|fields| - 1], x);
      if Carried(f, x) && f.custom then cs + [MkCustomField(GetUnderlyingType(f.ast).value, f.key, x[f.key])] else cs
  }

  /** The gender as entities keep it. */
  function OfGender(v: Value): (w: Value) {
    if !Truthy(v) then v
    else if v == Str("Male") || v == Str("M") then Str("male")
    else if v == Str("Female") || v == Str("F") then Str("female")
    else Null
  }

  function Defaults(tag: string): (columns: Item) {
    map["_tag" := Str(tag), "tags" := List([]), "type" := Str("default"), "status" := Str("active")]
  }

  function OnGender(columns: Item, change: Value -> Value): (columns': Item) {
    if "gender" in columns then columns["gender" := change(columns["gender"])] else columns
  }

  function Decode(fields: seq<Field>, tag: string, x: Item): (s: Shape)
    requires NamesAreFree(fields)
  {
    Shape(OnGender(Defaults(tag) + DecodedColumns(fields, x), OfGender), DecodedCustomFields(fields, x))
  }

  /** The last step of decoding, as the source takes it. */
  method FinishDecoding(tag: string, merged: Item) returns (result: Item)
    ensures result == OnGender(Defaults(tag) + merged, OfGender)
  {
    result := map["_tag" := Str(tag)] + merged;
    if "tags" !in result {
      result := result["tags" := List([])];
    }
    if "type" !in result {
      result := result["type" := Str("default")];
    }
    if "status" !in result {
      result := result["status" := Str("active")];
    }
    assert result == Defaults(tag) + merged;
    result := FinishGender(result);
  }

  method FinishGender(item: Item) returns (result: Item)
    ensures result == OnGender(item, OfGender)
  {
    result := item;
    if "gender" in item && Truthy(item["gender"]) {
      var g := item["gender"];
      if g == Str("Male") || g == Str("M") {
        result := result["gender" := Str("male")];
      } else if g == Str("Female") || g == Str("F") {
        result := result["gender" := Str("female")];
      } else {
        result := result["gender" := Null];
      }
    }
    assert result == OnGender(item, OfGender);
  }

  // ----- encoding

  function EncodedColumns(fields: seq<Field>, columns: Item): (out: Item) {
    if |fields| == 0 then map[]
    else
      var f := fields[|fields| - 1];
      var out := EncodedColumns(fields[..|fields| - 1], columns);
      if f.custom || f.skip || f.ofName.None? then out
      else if f.ofName.value in columns then out[f.key := columns[f.ofName.value]]
      else if IsNullable(f.ast) then out[f.key := Null]
      else out
  }

  /** The name without one leading prefix. */
  function Stripped(name: string): (key: string) {
    if PREFIX <= name then name[|PREFIX|..] else name
  }

  function EncodedCustomFields(cs: seq<CustomField>): (out: Item) {
    if cs == [] then map[]
    else
      var c := cs[|cs| - 1];
      var out := EncodedCustomFields(cs[..|cs| - 1]);
      if c.source == PCO then out[Stripped(c.name) := c.value] else out
  }

  function DefaultFor(f: Field, soFar: Item): (v: Value) {
    if f.default.Some? then f.default.value(soFar) else DefaultOf(f.ast)
  }

  function MissingCustomFields(fields: seq<Field>, stored: Item, soFar: Item): (out: Item) {
    if |fields| == 0 then map[]
    else
      var f := fields[|fields| - 1];
      var out := MissingCustomFields(fields[..|fields| - 1], stored, soFar);
      if IsRequired(f) && f.key !in stored then out[f.key := DefaultFor(f, soFar)] else out
  }

  /** The gender as Planning Center spells it. */
  function PcoGender(v: Value): (w: Value) {
    if v == Str("male") then Str("Male") else if v == Str("female") then Str("Female") else v
  }

  function Encode(fields: seq<Field>, columns: Item, customFields: CustomColumn): (out: Item) {
    var stored := EncodedCustomFields(FieldsOf(customFields));
    var soFar := EncodedColumns(fields, columns) + stored;
    OnGender(soFar + MissingCustomFields(fields, stored, soFar), PcoGender)
  }

  /** The last step of encoding, as the source takes it. */
  method FinishEncoding(item: Item) returns (result: Item)
    ensures result == OnGender(item, PcoGender)
  {
    result := item;
    if "gender" in result && Truthy(result["gender"]) {
      if result["gender"] == Str("male") {
        result := result["gender" := Str("Male")];
      } else if result["gender"] == Str("female") {
        result := result["gender" := Str("Female")];
      }
    }
    assert result == OnGender(item, PcoGender);
  }

  // ----- what each fold yields

  predicate FillsColumn(f: Field, x: Item) {
    Carried(f, x) && !f.custom
  }

  /** The field is the last one that fills its column. */
  predicate FillsColumnLast(fields: seq<Field>, x: Item, i: nat)
    requires i < |fields|
  {
    FillsColumn(fields[i], x)
      && forall j :: i < j < |fields| && FillsColumn(fields[j], x) ==> fields[j].ofName != fields[i].ofName
  }

  lemma {:induction false} ColumnOfField(fields: seq<Field>, x: Item, i: nat)
    requires i < |fields| && FillsColumnLast(fields, x, i)
    ensures fields[i].ofName.value in DecodedColumns(fields, x)
    ensures DecodedColumns(fields, x)[fields[i].ofName.value] == x[fields[i].key]
  {
    var n := |fields| - 1;
    if i < n {
      ColumnOfField(fields[..n], x, i);
    }
  }

  /** The field shows in the encoded item as a column. */
  predicate GivesColumn(f: Field, columns: Item) {
    !f.custom && !f.skip && f.ofName.Some? && (f.ofName.value in columns || IsNullable(f.ast))
  }

  lemma EncodedColumn(fields: seq<Field>, columns: Item, key: string)
    requires DistinctFields(fields)
    ensures key in EncodedColumns(fields, columns) <==>
      exists f :: f in fields && f.key == key && GivesColumn(f, columns)
    ensures forall f :: f in fields && f.key == key && GivesColumn(f, columns) ==>
      EncodedColumns(fields, columns)[key] == if f.ofName.value in columns then columns[f.ofName.value] else Null
  {
  }

  /** A custom field that the encoded item has to have. */
  predicate IsRequired(f: Field) {
    f.custom && !f.skip
  }

  lemma {:induction false} MissingFieldIsThere(fields: seq<Field>, stored: Item, soFar: Item, i: nat)
    requires DistinctFields(fields) && i < |fields| && IsRequired(fields[i]) && fields[i].key !in stored
    ensures fields[i].key in MissingCustomFields(fields, stored, soFar)
    ensures MissingCustomFields(fields, stored, soFar)[fields[i].key] == DefaultFor(fields[i], soFar)
  {
    var n := |fields| - 1;
    if i < n {
      MissingFieldIsThere(fields[..n], stored, soFar, i);
    }
  }

  lemma {:induction false} OnlyMissingFields(fields: seq<Field>, stored: Item, soFar: Item, key: string)
    requires key in stored || forall i :: 0 <= i < |fields| && fields[i].key == key ==> !IsRequired(fields[i])
    ensures key !in MissingCustomFields(fields, stored, soFar)
  {
    if |fields| != 0 {
      OnlyMissingFields(fields[..|fields| - 1], stored, soFar, key);
    }
  }

  lemma MissingCustomField(fields: seq<Field>, stored: Item, soFar: Item, key: string)
    requires DistinctFields(fields)
    ensures key in MissingCustomFields(fields, stored, soFar) <==>
      key !in stored && exists f :: f in fields && f.key == key && IsRequired(f)
    ensures forall f :: f in fields && f.key == key && IsRequired(f) && key !in stored ==>
      MissingCustomFields(fields, stored, soFar)[key] == DefaultFor(f, soFar)
  {
    if i :| 0 <= i < |fields| && fields[i].key == key && IsRequired(fields[i]) && key !in stored {
      MissingFieldIsThere(fields, stored, soFar, i);
      KeyNamesField(fields);
    } else {
      OnlyMissingFields(fields, stored, soFar, key);
    }
  }

  /** The value stored for a key: that of the last field from PCO whose name leads back to it. */
  function StoredFor(cs: seq<CustomField>, key: string): (v: Option<Value>) {
    LastValue(Filter((c: CustomField) => c.source == PCO && Stripped(c.name) == key, cs))
  }

  function LastValue(cs: seq<CustomField>): (v: Option<Value>) {
    if cs == [] then None else Some(cs[|cs| - 1].value)
  }

  lemma StoredForOneMore(cs: seq<CustomField>, c: CustomField, key: string)
    ensures StoredFor(cs + [c], key) ==
      if c.source == PCO && Stripped(c.name) == key then Some(c.value) else StoredFor(cs, key)
  {
    FilterAppend((c: CustomField) => c.source == PCO && Stripped(c.name) == key, cs, [c]);
  }

  lemma {:induction false} EncodedCustomField(cs: seq<CustomField>, key: string)
    ensures StoredFor(cs, key) == if key in EncodedCustomFields(cs) then Some(EncodedCustomFields(cs)[key]) else None
  {
    if cs != [] {
      var n := |cs| - 1;
      EncodedCustomField(cs[..n], key);
      assert cs == cs[..n] + [cs[n]];
      StoredForOneMore(cs[..n], cs[n], key);
    }
  }

  lemma {:induction false} CustomFieldOfField(fields: seq<Field>, x: Item, key: string)
    requires DistinctFields(fields)
    ensures StoredFor(DecodedCustomFields(fields, x), key).Some? <==>
      exists f :: f in fields && f.key == key && f.custom && Carried(f, x)
    ensures StoredFor(DecodedCustomFields(fields, x), key).Some? ==>
      key in x && StoredFor(DecodedCustomFields(fields, x), key) == Some(NullIfUndefined(x[key]))
  {
    if |fields| != 0 {
      var n := |fields| - 1;
      var f := fields[n];
      CustomFieldOfField(fields[..n], x, key);
      assert fields == fields[..n] + [f];
      if Carried(f, x) && f.custom {
        assert Stripped(PREFIX + f.key) == f.key;
        StoredForOneMore(DecodedCustomFields(fields[..n], x),
          MkCustomField(GetUnderlyingType(f.ast).value, f.key, x[f.key]), key);
      }
    }
  }

  /**
   A decoded entity is complete: it has its tag, a list of tags, a type and a status, its gender
   is one of an entity's spellings or nothing, and a column that decoding carried keeps its value.
   */
  lemma DecodedIsComplete(fields: seq<Field>, tag: string, x: Item)
    requires NamesAreFree(fields)
    ensures var columns := Decode(fields, tag, x).columns;
      && (forall name :: name in columns <==>
        name in {"_tag", "tags", "type", "status"} || name in DecodedColumns(fields, x))
      && (forall name :: name in DecodedColumns(fields, x) && name != "gender" ==>
        columns[name] == DecodedColumns(fields, x)[name])
      && ("gender" in columns && Truthy(columns["gender"]) ==> columns["gender"] in {Str("male"), Str("female")})
  {
  }

  /** The custom field of an item's field, with the name of its JavaScript type. */
  function CustomFieldFor(f: Field, x: Item): (c: CustomField)
    requires f.key in x && GetUnderlyingType(f.ast).Some?
  {
    CustomField(
      match GetUnderlyingType(f.ast).value {
        case StringType => "string"
        case NumberType => "number"
        case BooleanType => "boolean"
      },
      "pco_" + f.key, Some("pco"), if x[f.key] == Undefined then Null else x[f.key])
  }

  /** The item holds a value for the field, which has a name and a known type and is not skipped. */
  predicate TakesPart(f: Field, x: Item) {
    f.key in x && f.ofName != None && !f.skip && GetUnderlyingType(f.ast) != None
  }

  /** The place of a field among the custom fields of the item: how many custom fields before it take part. */
  function CustomBefore(fields: seq<Field>, x: Item, i: nat): (n: nat)
    requires i <= |fields|
  {
    if i == 0 then 0
    else CustomBefore(fields, x, i - 1) + if fields[i - 1].custom && TakesPart(fields[i - 1], x) then 1 else 0
  }

  lemma OneMoreField(fields: seq<Field>, x: Item)
    requires |fields| != 0
    ensures var n := |fields| - 1;
      DecodedCustomFields(fields, x) == DecodedCustomFields(fields[..n], x)
        + if fields[n].custom && TakesPart(fields[n], x) then [CustomFieldFor(fields[n], x)] else []
  {
  }

  lemma {:induction false} CustomBeforeOfPrefix(fields: seq<Field>, x: Item, n: nat, i: nat)
    requires i <= n <= |fields|
    ensures CustomBefore(fields[..n], x, i) == CustomBefore(fields, x, i)
  {
    if i > 0 {
      CustomBeforeOfPrefix(fields, x, n, i - 1);
    }
  }

  lemma {:induction false} CustomFieldsCount(fields: seq<Field>, x: Item)
    ensures |DecodedCustomFields(fields, x)| == CustomBefore(fields, x, |fields|)
  {
    if |fields| != 0 {
      var n := |fields| - 1;
      CustomFieldsCount(fields[..n], x);
      CustomBeforeOfPrefix(fields, x, n, n);
      OneMoreField(fields, x);
    }
  }

  lemma {:induction false} CustomFieldAt(fields: seq<Field>, x: Item, i: nat)
    requires i < |fields| && fields[i].custom && TakesPart(fields[i], x)
    ensures var before := CustomBefore(fields, x, i);
      before < |DecodedCustomFields(fields, x)|
        && DecodedCustomFields(fields, x)[before] == CustomFieldFor(fields[i], x)
    decreases |fields|
  {
    var n := |fields| - 1;
    OneMoreField(fields, x);
    CustomBeforeOfPrefix(fields, x, n, i);
    if i < n {
      CustomFieldAt(fields[..n], x, i);
    } else {
      CustomFieldsCount(fields[..n], x);
    }
  }

  /** The custom fields of a decoded entity are those that take part, in order, each with its name, type and value. */
  lemma CustomFieldsInValues(fields: seq<Field>, x: Item)
    ensures |DecodedCustomFields(fields, x)| == CustomBefore(fields, x, |fields|)
    ensures forall i :: 0 <= i < |fields| && fields[i].custom && TakesPart(fields[i], x) ==>
      && CustomBefore(fields, x, i) < |DecodedCustomFields(fields, x)|
      && DecodedCustomFields(fields, x)[CustomBefore(fields, x, i)] == CustomFieldFor(fields[i], x)
  {
    CustomFieldsCount(fields, x);
    forall i | 0 <= i < |fields| && fields[i].custom && TakesPart(fields[i], x)
      ensures var before := CustomBefore(fields, x, i);
        before < |DecodedCustomFields(fields, x)|
          && DecodedCustomFields(fields, x)[before] == CustomFieldFor(fields[i], x)
    {
      CustomFieldAt(fields, x, i);
    }
  }

  lemma {:induction false} UnfilledColumn(fields: seq<Field>, x: Item, name: string)
    requires forall f :: f in fields && !f.custom && TakesPart(f, x) ==> f.ofName != Some(name)
    ensures name !in DecodedColumns(fields, x)
  {
    if |fields| != 0 {
      UnfilledColumn(fields[..|fields| - 1], x, name);
    }
  }

  ghost predicate Unfilled(fields: seq<Field>, x: Item, name: string) {
    forall f :: f in fields && !f.custom && TakesPart(f, x) ==> f.ofName != Some(name)
  }

  predicate FilledBy(fields: seq<Field>, x: Item, name: string, i: nat)
    requires i < |fields|
  {
    && !fields[i].custom && TakesPart(fields[i], x) && fields[i].ofName == Some(name)
    && forall j :: i < j < |fields| && !fields[j].custom && TakesPart(fields[j], x) ==> fields[j].ofName != Some(name)
  }

  /** A column of a decoded entity that no field fills is there only with its default. */
  lemma DefaultsInValues(fields: seq<Field>, tag: string, x: Item, name: string)
    requires NamesAreFree(fields) && Unfilled(fields, x, name)
    ensures var columns := Decode(fields, tag, x).columns;
      && (name in columns <==> name in {"_tag", "tags", "type", "status"})
      && (name == "_tag" ==> columns[name] == Str(tag)) && (name == "tags" ==> columns[name] == List([]))
      && (name == "type" ==> columns[name] == Str("default")) && (name == "status" ==> columns[name] == Str("active"))
  {
    UnfilledColumn(fields, x, name);
  }

  /** One that is filled has the value of the last field that does, the gender in an entity's spelling. */
  lemma ColumnsInValues(fields: seq<Field>, tag: string, x: Item, name: string, i: nat)
    requires NamesAreFree(fields) && i < |fields| && FilledBy(fields, x, name, i)
    ensures var columns, v := Decode(fields, tag, x).columns, x[fields[i].key];
      name in columns && columns[name] ==
        if name != "gender" || v in {Undefined, Null, Bool(false), Num(0), Str("")} then v
        else if v in {Str("Male"), Str("M")} then Str("male")
        else if v in {Str("Female"), Str("F")} then Str("female")
        else Null
  {
    ColumnOfField(fields, x, i);
  }

  // ----- encoding covers the custom fields

  /** A value as Planning Center spells it under a key: only a gender changes. */
  function AtKey(key: string, v: Value): (w: Value) {
    if key == "gender" && v == Str("male") then Str("Male")
    else if key == "gender" && v == Str("female") then Str("Female")
    else v
  }

  lemma EncodeKeys(fields: seq<Field>, columns: Item, customFields: CustomColumn, key: string)
    requires DistinctFields(fields)
    ensures var out := Encode(fields, columns, customFields);
      var stored := StoredFor(FieldsOf(customFields), key);
      && (key in out <==>
           || stored.Some?
           || exists f :: f in fields && f.key == key && (GivesColumn(f, columns) || IsRequired(f)))
      && (stored.Some? ==> out[key] == AtKey(key, stored.value))
      && (forall f :: f in fields && f.key == key && IsRequired(f) && stored.None? ==>
           out[key] == AtKey(key,
             DefaultFor(f, EncodedColumns(fields, columns) + EncodedCustomFields(FieldsOf(customFields)))))
      && (forall f :: f in fields && f.key == key && GivesColumn(f, columns) && stored.None? ==>
           out[key] == AtKey(key, if f.ofName.value in columns then columns[f.ofName.value] else Null))
  {
    var cs := FieldsOf(customFields);
    var soFar := EncodedColumns(fields, columns) + EncodedCustomFields(cs);
    EncodedCustomField(cs, key);
    EncodedColumn(fields, columns, key);
    MissingCustomField(fields, EncodedCustomFields(cs), soFar, key);
    KeyNamesField(fields);
  }

  /**
   Encoding gives exactly the stored custom fields, the columns it can name, and every other
   custom field that is not skipped; what is stored wins over columns and defaults.
   */
  lemma EncodeCovers(fields: seq<Field>, columns: Item, customFields: CustomColumn, key: string)
    requires DistinctFields(fields)
    ensures var out := Encode(fields, columns, customFields);
      var stored := StoredFor(FieldsOf(customFields), key);
      && (key in out <==>
           || stored.Some?
           || exists f :: f in fields && f.key == key && !f.skip
                && (f.custom || (f.ofName.Some? && (f.ofName.value in columns || IsNullable(f.ast)))))
      && (stored.Some? ==> out[key] == AtKey(key, stored.value))
      && (forall f :: f in fields && f.key == key && f.custom && !f.skip && stored.None? ==>
           out[key] == AtKey(key,
             if f.default.None? then DefaultOf(f.ast)
             else f.default.value(EncodedColumns(fields, columns) + EncodedCustomFields(FieldsOf(customFields)))))
      && (forall f :: f in fields && f.key == key && !f.custom && !f.skip && f.ofName.Some? && stored.None? ==>
           && (f.ofName.value in columns ==> out[key] == AtKey(key, columns[f.ofName.value]))
           && (f.ofName.value !in columns && IsNullable(f.ast) ==> out[key] == Null))
  {
    EncodeKeys(fields, columns, customFields, key);
    forall f | f in fields
      ensures GivesColumn(f, columns) || IsRequired(f) <==>
        !f.skip && (f.custom || (f.ofName.Some? && (f.ofName.value in columns || IsNullable(f.ast))))
    {
    }
  }

  lemma KeyNamesField(fields: seq<Field>)
    requires DistinctFields(fields)
    ensures forall f, g :: f in fields && g in fields && f.key == g.key ==> f == g
  {
  }

  /** A custom field without a default function is defaulted within its type exactly when it has a keyword or null. */
  lemma DefaultFitsFieldIff(f: Field, soFar: Item)
    requires f.default.None? && IsSimple(f.ast)
    ensures Accepts(f.ast, DefaultFor(f, soFar)) <==> HasKeyword(f.ast) || Accepts(f.ast, Null)
  {
    DefaultIsAcceptedIff(f.ast);
  }

  // ----- the round trip

  /** What a field's value comes back as. */
  function Normal(f: Field, v: Value): (w: Value)
    requires f.ofName.Some?
  {
    AtKey(f.key, if f.custom then NullIfUndefined(v) else if f.ofName.value == "gender" then OfGender(v) else v)
  }

  /**
   Whatever the schema, a carried custom field comes back in its normal form, and a column comes
   back under each of its keys with the value of the last field that fills it.
   */
  lemma WhatComesBack(fields: seq<Field>, tag: string, x: Item, f: Field, last: nat)
    requires DistinctFields(fields) && NamesAreFree(fields) && f in fields && Carried(f, x)
    requires last < |fields|
      && if f.custom then fields[last] == f else FillsColumnLast(fields, x, last) && fields[last].ofName == f.ofName
    ensures var s := Decode(fields, tag, x);
      var out := Encode(fields, s.columns, Fields(s.customFields));
      f.key in out && out[f.key] == Normal(f, x[fields[last].key])
  {
    var s := Decode(fields, tag, x);
    EncodeKeys(fields, s.columns, Fields(s.customFields), f.key);
    CustomFieldOfField(fields, x, f.key);
    KeyNamesField(fields);
    if !f.custom {
      ColumnOfField(fields, x, last);
    }
  }

  /** No two carried fields fill one column. */
  predicate OneFieldPerColumn(fields: seq<Field>, x: Item) {
    forall i, j :: 0 <= i < j < |fields| && FillsColumn(fields[i], x) && FillsColumn(fields[j], x) ==>
      fields[i].ofName != fields[j].ofName
  }

  /** Encoding a decoded item gives back every field that decoding carried, in its normal form. */
  lemma RoundTrip(fields: seq<Field>, tag: string, x: Item, f: Field)
    requires DistinctFields(fields) && NamesAreFree(fields) && OneFieldPerColumn(fields, x)
    requires f in fields && Carried(f, x)
    ensures var s := Decode(fields, tag, x);
      var out := Encode(fields, s.columns, Fields(s.customFields));
      f.key in out && out[f.key] == Normal(f, x[f.key])
  {
    var i :| 0 <= i < |fields| && fields[i] == f;
    WhatComesBack(fields, tag, x, f, i);
  }

  // ----- the second trip

  /** What a trip makes of an item. */
  function Trip(fields: seq<Field>, tag: string, x: Item): (out: Item)
    requires NamesAreFree(fields)
  {
    var s := Decode(fields, tag, x);
    Encode(fields, s.columns, Fields(s.customFields))
  }

  /** The field would fill the column, if the item had its key. */
  predicate CanFill(f: Field, name: string) {
    f.ofName == Some(name) && !f.custom && !f.skip && GetUnderlyingType(f.ast).Some?
  }

  /** The field is the last that can fill the column; after a trip it is the one that does. */
  predicate OwnsColumn(fields: seq<Field>, name: string, last: nat) {
    last < |fields| && CanFill(fields[last], name) && forall j :: last < j < |fields| ==> !CanFill(fields[j], name)
  }

  lemma {:induction false} CarriedColumnIsThere(fields: seq<Field>, x: Item, i: nat)
    requires i < |fields| && FillsColumn(fields[i], x)
    ensures fields[i].ofName.value in DecodedColumns(fields, x)
  {
    var n := |fields| - 1;
    if i < n {
      CarriedColumnIsThere(fields[..n], x, i);
    }
  }

  /** After a trip, every field that can fill a carried column shows the column. */
  lemma ColumnShows(fields: seq<Field>, tag: string, x: Item, name: string, g: Field)
    requires DistinctFields(fields) && NamesAreFree(fields) && g in fields && CanFill(g, name)
    requires name in Decode(fields, tag, x).columns
    ensures g.key in Trip(fields, tag, x)
      && Trip(fields, tag, x)[g.key] == AtKey(g.key, Decode(fields, tag, x).columns[name])
    ensures Carried(g, Trip(fields, tag, x))
  {
    var s := Decode(fields, tag, x);
    EncodeKeys(fields, s.columns, Fields(s.customFields), g.key);
    CustomFieldOfField(fields, x, g.key);
    KeyNamesField(fields);
  }

  lemma OwnerFillsLast(fields: seq<Field>, tag: string, x: Item, name: string, last: nat)
    requires DistinctFields(fields) && NamesAreFree(fields) && OwnsColumn(fields, name, last)
    requires name in Decode(fields, tag, x).columns
    ensures FillsColumnLast(fields, Trip(fields, tag, x), last)
  {
    ColumnShows(fields, tag, x, name, fields[last]);
  }

  const GENDERS := {Str("male"), Str("female")}

  /**
   A second trip: a custom field comes back as the first trip left it. A column does so under each
   of its keys, unless it holds an entity's spelling of a gender and exactly one of the column and
   the key that owns it is called gender; then it is read in the wrong spelling the second time.
   It is lost when the column is the gender, and else respelled under the other keys.
   */
  lemma SecondTripIff(fields: seq<Field>, tag: string, x: Item, f: Field, last: nat)
    requires DistinctFields(fields) && NamesAreFree(fields) && f in fields && Carried(f, x)
    requires if f.custom then last < |fields| && fields[last] == f else OwnsColumn(fields, f.ofName.value, last)
    ensures var once := Trip(fields, tag, x);
      var twice := Trip(fields, tag, once);
      && f.key in once && f.key in twice
      && (f.custom ==> twice[f.key] == once[f.key])
      && (!f.custom ==>
           var name := f.ofName.value;
           && name in Decode(fields, tag, x).columns
           && (twice[f.key] != once[f.key] <==>
                && Decode(fields, tag, x).columns[name] in GENDERS
                && (name == "gender") != (fields[last].key == "gender")
                && (name == "gender" || f.key != "gender")))
  {
    var once := Trip(fields, tag, x);
    var i :| 0 <= i < |fields| && fields[i] == f;
    if f.custom {
      WhatComesBack(fields, tag, x, f, i);
      WhatComesBack(fields, tag, once, f, i);
    } else {
      var name := f.ofName.value;
      CarriedColumnIsThere(fields, x, i);
      ColumnShows(fields, tag, x, name, f);
      ColumnShows(fields, tag, x, name, fields[last]);
      OwnerFillsLast(fields, tag, x, name, last);
      WhatComesBack(fields, tag, once, f, last);
      GenderIsNormal(fields, tag, x, name);
      SpelledTwice(name, f.key, fields[last].key, Decode(fields, tag, x).columns[name]);
    }
  }

  /** The gender column never holds what decoding would turn into something else, but its own spellings. */
  lemma GenderIsNormal(fields: seq<Field>, tag: string, x: Item, name: string)
    requires NamesAreFree(fields) && name in Decode(fields, tag, x).columns
    ensures var v := Decode(fields, tag, x).columns[name];
      name == "gender" && v !in GENDERS ==> !Truthy(v)
  {
  }

  lemma SpelledTwice(name: string, key: string, owner: string, v: Value)
    requires name == "gender" && v !in GENDERS ==> !Truthy(v)
    ensures AtKey(key, if name == "gender" then OfGender(AtKey(owner, v)) else AtKey(owner, v)) != AtKey(key, v) <==>
      v in GENDERS && (name == "gender") != (owner == "gender") && (name == "gender" || key != "gender")
  {
  }

  // ----- through the entity table

  lemma {:induction false} OnlyPcoFieldsAreEncoded(cs: seq<CustomField>)
    ensures EncodedCustomFields(FromPco(cs)) == EncodedCustomFields(cs)
  {
    if cs != [] {
      var n := |cs| - 1;
      OnlyPcoFieldsAreEncoded(cs[..n]);
      assert cs == cs[..n] + [cs[n]];
      FromPcoOneMore(cs[..n], cs[n]);
      if cs[n].source == PCO {
        EncodedOneMore(FromPco(cs[..n]), cs[n]);
      }
    }
  }

  lemma EncodedOneMore(cs: seq<CustomField>, c: CustomField)
    requires c.source == PCO
    ensures EncodedCustomFields(cs + [c]) == EncodedCustomFields(cs)[Stripped(c.name) := c.value]
  {
  }

  /** Fields of other sources never reach the encoded item. */
  lemma EncodeReadsOnlyPcoFields(fields: seq<Field>, columns: Item, a: CustomColumn, b: CustomColumn)
    requires FromPco(FieldsOf(a)) == FromPco(FieldsOf(b))
    ensures Encode(fields, columns, a) == Encode(fields, columns, b)
  {
    OnlyPcoFieldsAreEncoded(FieldsOf(a));
    OnlyPcoFieldsAreEncoded(FieldsOf(b));
  }

  /** The row carries the decoded item. */
  predicate RowCarries(e: Entity, s: Shape) {
    e.columns == s.columns && e.customFields == Fields(s.customFields)
  }

  /**
   The round trip survives the table: after any run whose last accepted sync of the entity brought
   the decoded item, the stored row encodes back to it, whether the row was there before or not,
   and whatever custom fields other sources or earlier syncs had put in it.
   */
  lemma RoundTripOverRuns(
    db: Database, ss: seq<Statement>, k: EntityKey, fields: seq<Field>, tag: string, x: Item, f: Field)
    requires DistinctFields(fields) && NamesAreFree(fields) && OneFieldPerColumn(fields, x)
    requires f in fields && Carried(f, x)
    requires LastBrought(ss, k).Some? && RowCarries(LastBrought(ss, k).value, Decode(fields, tag, x))
    ensures k in Run(db, ss).entities
    ensures var row := Run(db, ss).entities[k];
      var out := Encode(fields, row.columns, row.customFields);
      f.key in out && out[f.key] == Normal(f, x[f.key])
  {
    var s := Decode(fields, tag, x);
    RunReflectsLastSync(db, ss, k);
    RoundTrip(fields, tag, x, f);
    EncodeReadsOnlyPcoFields(fields, s.columns, Run(db, ss).entities[k].customFields, Fields(s.customFields));
  }
}
