/**
 * `ManagerHelper`: the column/property mapping of a record class, key renaming,
 * record-to-dictionary conversion, and the decoding of JSON scalars coming
 * back from the browser.
 */
module ManagerHelper {
  import opened Wrappers
  import opened Guids
  import opened Descriptors
  import opened Dictionaries
  import SchemaHelper

  // ---------------------------------------------------------------- mapping

  /**
   * The key `GeneratePropertyMapping` files a property under: the `ColumnName`
   * of the first attribute present, tried in the order index, unique index,
   * primary key, and the property's name when that is null or when the
   * property carries none of the three.
   */
  function MappingColumn(p: Property): string {
    var designated :=
      if p.Index.Some? then p.Index.value.ColumnName
      else if p.UniqueIndex.Some? then p.UniqueIndex.value.ColumnName
      else if p.PrimaryKey.Some? then p.PrimaryKey.value.ColumnName
      else None;
    designated.GetOr(p.Name)
  }

  /**
   * For attributes built by their constructors, the mapping key is the column
   * `GetPropertyColumnName` resolves for the first attribute present.
   */
  lemma MappingColumnResolves(p: Property)
    requires SchemaHelper.AttributesNormalised(p)
    ensures p.Index.Some? ==>
      MappingColumn(p) == SchemaHelper.GetPropertyColumnName(p, SchemaHelper.IndexKind)
    ensures p.Index.None? && p.UniqueIndex.Some? ==>
      MappingColumn(p) == SchemaHelper.GetPropertyColumnName(p, SchemaHelper.UniqueIndexKind)
    ensures p.Index.None? && p.UniqueIndex.None? ==>
      MappingColumn(p) == SchemaHelper.GetPropertyColumnName(p, SchemaHelper.PrimaryKeyKind)
  {
    if p.Index.Some? {
      SchemaHelper.ColumnNameOfNormalised(p, SchemaHelper.IndexKind);
    } else if p.UniqueIndex.Some? {
      SchemaHelper.ColumnNameOfNormalised(p, SchemaHelper.UniqueIndexKind);
    } else if p.PrimaryKey.Some? {
      SchemaHelper.ColumnNameOfNormalised(p, SchemaHelper.PrimaryKeyKind);
    }
  }

  /** The dictionary `GeneratePropertyMapping<TRecord>()` returns: mapping key to property name. */
  function PropertyMapping(props: seq<Property>): Dict<string, string> {
    if props == [] then []
    else
      var last := props[|props| - 1];
      Put(PropertyMapping(props[..|props| - 1]), MappingColumn(last), last.Name)
  }

  /** `GeneratePropertyMapping<TRecord>()`: one `propertyMappings[columnName] = property.Name` per property. */
  method GeneratePropertyMapping(t: TypeDescriptor) returns (propertyMappings: Dict<string, string>)
    ensures propertyMappings == PropertyMapping(t.Properties)
  {
    var properties := t.Properties;
    propertyMappings := [];
    for i := 0 to |properties|
      invariant propertyMappings == PropertyMapping(properties[..i])
    {
      assert properties[..i + 1][..i] == properties[..i];
      var property := properties[i];
      propertyMappings := Put(propertyMappings, MappingColumn(property), property.Name);
    }
    assert properties[..|properties|] == properties;
  }

  /** The mapping never holds two entries for one key. */
  lemma {:induction false} PropertyMappingUnique(props: seq<Property>)
    ensures UniqueKeys(PropertyMapping(props))
  {
    if props != [] {
      var last := props[|props| - 1];
      PropertyMappingUnique(props[..|props| - 1]);
      PutUnique(PropertyMapping(props[..|props| - 1]), MappingColumn(last), last.Name);
    }
  }

  /** A key is mapped exactly when some property files under it. */
  lemma {:induction false} PropertyMappingHasKey(props: seq<Property>, c: string)
    ensures Lookup(PropertyMapping(props), c).None? <==>
      forall i :: 0 <= i < |props| ==> MappingColumn(props[i]) != c
  {
    if props != [] {
      var init := props[..|props| - 1];
      var last := props[|props| - 1];
      PropertyMappingHasKey(init, c);
      LookupPut(PropertyMapping(init), MappingColumn(last), last.Name, c);
      assert forall i :: 0 <= i < |init| ==> init[i] == props[i];
    }
  }

  /** A mapped key names the LAST property filed under it: a later property overwrites an earlier one. */
  lemma {:induction false} PropertyMappingLast(props: seq<Property>, c: string, i: nat)
    requires i < |props| && MappingColumn(props[i]) == c
    requires forall j :: i < j < |props| ==> MappingColumn(props[j]) != c
    ensures Lookup(PropertyMapping(props), c) == Some(props[i].Name)
  {
    var init := props[..|props| - 1];
    var last := props[|props| - 1];
    LookupPut(PropertyMapping(init), MappingColumn(last), last.Name, c);
    if i < |props| - 1 {
      assert init[i] == props[i];
      forall j | i < j < |init| ensures MappingColumn(init[j]) != c {
        assert init[j] == props[j];
      }
      PropertyMappingLast(init, c, i);
    }
  }

  /** No two properties file under the same mapping key. */
  predicate DistinctColumns(props: seq<Property>) {
    forall i, j :: 0 <= i < j < |props| ==> MappingColumn(props[i]) != MappingColumn(props[j])
  }

  /** Without key collisions, the mapping lists every property, in declaration order. */
  lemma {:induction false} PropertyMappingEntries(props: seq<Property>)
    requires DistinctColumns(props)
    ensures |PropertyMapping(props)| == |props|
    ensures forall i :: 0 <= i < |props| ==> PropertyMapping(props)[i] == (MappingColumn(props[i]), props[i].Name)
  {
    if props != [] {
      var init := props[..|props| - 1];
      var last := props[|props| - 1];
      assert DistinctColumns(init) by {
        forall i, j | 0 <= i < j < |init| ensures MappingColumn(init[i]) != MappingColumn(init[j]) {
          assert init[i] == props[i] && init[j] == props[j];
        }
      }
      PropertyMappingEntries(init);
      var m := PropertyMapping(init);
      assert !HasKey(m, MappingColumn(last)) by {
        forall i | 0 <= i < |m| ensures m[i].0 != MappingColumn(last) {
          assert m[i].0 == MappingColumn(props[i]);
        }
      }
    }
  }

  // ---------------------------------------------------------------- renaming

  /** `propertyMappings.FirstOrDefault(x => x.Value == key).Key`, falling back to the key itself. */
  function TargetKey(propertyMappings: Dict<string, string>, key: string): (target: string)
    ensures ContainsValue(propertyMappings, key) ==>
      exists i :: FirstHolding(propertyMappings, i, key) && propertyMappings[i].0 == target
    ensures !ContainsValue(propertyMappings, key) ==> target == key
  {
    match FirstKeyWithValue(propertyMappings, key)
    case Some(c) => c
    case None => key
  }

  /** The dictionary `ConvertPropertyNamesUsingMappings(inputRecord, propertyMappings)` returns. */
  function RenamedRecord(inputRecord: Dict<string, Value>, propertyMappings: Dict<string, string>): Dict<string, Value> {
    if inputRecord == [] then []
    else
      var last := inputRecord[|inputRecord| - 1];
      Put(RenamedRecord(inputRecord[..|inputRecord| - 1], propertyMappings), TargetKey(propertyMappings, last.0), last.1)
  }

  /** `ConvertPropertyNamesUsingMappings`: every entry copied under its target key, later ones overwriting. */
  method ConvertPropertyNamesUsingMappings(inputRecord: Dict<string, Value>, propertyMappings: Dict<string, string>)
    returns (updatedRecord: Dict<string, Value>)
    ensures updatedRecord == RenamedRecord(inputRecord, propertyMappings)
  {
    updatedRecord := [];
    for i := 0 to |inputRecord|
      invariant updatedRecord == RenamedRecord(inputRecord[..i], propertyMappings)
    {
      assert inputRecord[..i + 1][..i] == inputRecord[..i];
      var kvp := inputRecord[i];
      var targetKey := FirstKeyWithValue(propertyMappings, kvp.0);
      if targetKey.Some? {
        updatedRecord := Put(updatedRecord, targetKey.value, kvp.1);
      } else {
        updatedRecord := Put(updatedRecord, kvp.0, kvp.1);
      }
    }
    assert inputRecord[..|inputRecord|] == inputRecord;
  }

  /** The renamed record holds a key exactly when some input key is renamed to it. */
  lemma {:induction false} RenamedRecordKeys(inputRecord: Dict<string, Value>, propertyMappings: Dict<string, string>, k: string)
    ensures HasKey(RenamedRecord(inputRecord, propertyMappings), k) <==>
      exists i :: 0 <= i < |inputRecord| && TargetKey(propertyMappings, inputRecord[i].0) == k
  {
    if inputRecord != [] {
      var init := inputRecord[..|inputRecord| - 1];
      var last := inputRecord[|inputRecord| - 1];
      RenamedRecordKeys(init, propertyMappings, k);
      PutKeys(RenamedRecord(init, propertyMappings), TargetKey(propertyMappings, last.0), last.1, k);
      assert forall i :: 0 <= i < |init| ==> init[i] == inputRecord[i];
    }
  }

  /** The renamed record never holds two entries for one key, whatever collides. */
  lemma {:induction false} RenamedRecordUnique(inputRecord: Dict<string, Value>, propertyMappings: Dict<string, string>)
    ensures UniqueKeys(RenamedRecord(inputRecord, propertyMappings))
  {
    if inputRecord != [] {
      var last := inputRecord[|inputRecord| - 1];
      RenamedRecordUnique(inputRecord[..|inputRecord| - 1], propertyMappings);
      PutUnique(RenamedRecord(inputRecord[..|inputRecord| - 1], propertyMappings), TargetKey(propertyMappings, last.0), last.1);
    }
  }

  /** No two input keys are renamed to the same key. */
  predicate RenamesApart(inputRecord: Dict<string, Value>, propertyMappings: Dict<string, string>) {
    forall i, j :: 0 <= i < j < |inputRecord| ==>
      TargetKey(propertyMappings, inputRecord[i].0) != TargetKey(propertyMappings, inputRecord[j].0)
  }

  /** Without collisions, renaming keeps every entry, its position and its value. */
  lemma {:induction false} RenamedRecordEntries(inputRecord: Dict<string, Value>, propertyMappings: Dict<string, string>)
    requires RenamesApart(inputRecord, propertyMappings)
    ensures |RenamedRecord(inputRecord, propertyMappings)| == |inputRecord|
    ensures forall i :: 0 <= i < |inputRecord| ==>
      RenamedRecord(inputRecord, propertyMappings)[i] == (TargetKey(propertyMappings, inputRecord[i].0), inputRecord[i].1)
  {
    if inputRecord != [] {
      var init := inputRecord[..|inputRecord| - 1];
      var last := inputRecord[|inputRecord| - 1];
      assert RenamesApart(init, propertyMappings) by {
        forall i, j | 0 <= i < j < |init|
          ensures TargetKey(propertyMappings, init[i].0) != TargetKey(propertyMappings, init[j].0)
        {
          assert init[i] == inputRecord[i] && init[j] == inputRecord[j];
        }
      }
      RenamedRecordEntries(init, propertyMappings);
      var r := RenamedRecord(init, propertyMappings);
      assert !HasKey(r, TargetKey(propertyMappings, last.0)) by {
        forall i | 0 <= i < |r| ensures r[i].0 != TargetKey(propertyMappings, last.0) {
          assert r[i].0 == TargetKey(propertyMappings, inputRecord[i].0);
        }
      }
    }
  }

  /** Without collisions, every input value is found under its renamed key. */
  lemma RenamedRecordLookup(inputRecord: Dict<string, Value>, propertyMappings: Dict<string, string>, i: nat)
    requires RenamesApart(inputRecord, propertyMappings)
    requires i < |inputRecord|
    ensures Lookup(RenamedRecord(inputRecord, propertyMappings), TargetKey(propertyMappings, inputRecord[i].0)) ==
      Some(inputRecord[i].1)
  {
    RenamedRecordEntries(inputRecord, propertyMappings);
    RenamedRecordUnique(inputRecord, propertyMappings);
    LookupAt(RenamedRecord(inputRecord, propertyMappings), i);
  }

  // ---------------------------------------------------------- record to dictionary

  /** The record object holds a value for each of the class's properties. */
  predicate HoldsAll(values: map<string, Value>, props: seq<Property>) {
    forall i :: 0 <= i < |props| ==> props[i].Name in values
  }

  /**
   * The key `ConvertRecordToDictionary` files a property's value under: the
   * key of the first mapping entry holding the property's name, or the name.
   */
  function EntryKey(propertyMappings: Dict<string, string>, p: Property): (key: string)
    ensures ContainsValue(propertyMappings, p.Name) ==>
      exists i :: FirstHolding(propertyMappings, i, p.Name) && propertyMappings[i].0 == key
    ensures !ContainsValue(propertyMappings, p.Name) ==> key == p.Name
  {
    if ContainsValue(propertyMappings, p.Name) then FirstKeyWithValue(propertyMappings, p.Name).value else p.Name
  }

  /** The dictionary `ConvertRecordToDictionary(record)` returns, for a given mapping. */
  function RecordDictionary(values: map<string, Value>, props: seq<Property>, propertyMappings: Dict<string, string>): Dict<string, Value>
    requires HoldsAll(values, props)
  {
    if props == [] then []
    else
      var last := props[|props| - 1];
      Put(RecordDictionary(values, props[..|props| - 1], propertyMappings), EntryKey(propertyMappings, last), values[last.Name])
  }

  /** `ConvertRecordToDictionary<TRecord>(record)`: every public property, NotMapped ones included. */
  method ConvertRecordToDictionary(t: TypeDescriptor, record: Record) returns (dictionary: Dict<string, Value>)
    requires HoldsAll(record.Values, t.Properties)
    ensures dictionary == RecordDictionary(record.Values, t.Properties, PropertyMapping(t.Properties))
  {
    var propertyMappings := GeneratePropertyMapping(t);
    dictionary := [];
    var properties := t.Properties;
    for i := 0 to |properties|
      invariant dictionary == RecordDictionary(record.Values, properties[..i], propertyMappings)
    {
      assert properties[..i + 1][..i] == properties[..i];
      var property := properties[i];
      var value := record.Values[property.Name];
      var columnName := property.Name;
      if ContainsValue(propertyMappings, property.Name) {
        columnName := FirstKeyWithValue(propertyMappings, property.Name).value;
      }
      dictionary := Put(dictionary, columnName, value);
    }
    assert properties[..|properties|] == properties;
  }

  /**
   * When names and mapping keys are both distinct, the dictionary lists every
   * property under its mapping key, in declaration order, with its value.
   */
  lemma {:induction false} RecordDictionaryEntries(values: map<string, Value>, props: seq<Property>)
    requires HoldsAll(values, props)
    requires DistinctNames(props) && DistinctColumns(props)
    ensures |RecordDictionary(values, props, PropertyMapping(props))| == |props|
    ensures forall i :: 0 <= i < |props| ==>
      RecordDictionary(values, props, PropertyMapping(props))[i] == (MappingColumn(props[i]), values[props[i].Name])
  {
    var m := PropertyMapping(props);
    PropertyMappingEntries(props);
    forall i | 0 <= i < |props| ensures EntryKey(m, props[i]) == MappingColumn(props[i]) {
      assert m[i].1 == props[i].Name;
      FirstKeyWithValueAt(m, i);
    }
    RecordDictionaryEntriesFor(values, props, m);
  }

  /** The same, for any prefix of the property list against a fixed mapping. */
  lemma {:induction false} RecordDictionaryEntriesFor(values: map<string, Value>, props: seq<Property>, m: Dict<string, string>)
    requires HoldsAll(values, props)
    requires DistinctColumns(props)
    requires forall i :: 0 <= i < |props| ==> EntryKey(m, props[i]) == MappingColumn(props[i])
    ensures |RecordDictionary(values, props, m)| == |props|
    ensures forall i :: 0 <= i < |props| ==> RecordDictionary(values, props, m)[i] == (MappingColumn(props[i]), values[props[i].Name])
  {
    if props != [] {
      var init := props[..|props| - 1];
      var last := props[|props| - 1];
      assert forall i :: 0 <= i < |init| ==> init[i] == props[i];
      assert DistinctColumns(init) by {
        forall i, j | 0 <= i < j < |init| ensures MappingColumn(init[i]) != MappingColumn(init[j]) {
          assert init[i] == props[i] && init[j] == props[j];
        }
      }
      RecordDictionaryEntriesFor(values, init, m);
      var d := RecordDictionary(values, init, m);
      assert !HasKey(d, MappingColumn(last)) by {
        forall i | 0 <= i < |d| ensures d[i].0 != MappingColumn(last) {
          assert d[i].0 == MappingColumn(props[i]);
        }
      }
    }
  }

  /**
   * When no two properties share a name or a mapping key, each output key of
   * `ConvertRecordToDictionary` maps back, through the same mapping, to the
   * property it came from, and the dictionary holds that property's value.
   */
  lemma RecordDictionaryRoundTrip(values: map<string, Value>, props: seq<Property>, i: nat)
    requires HoldsAll(values, props)
    requires DistinctNames(props) && DistinctColumns(props)
    requires i < |props|
    ensures |RecordDictionary(values, props, PropertyMapping(props))| == |props|
    ensures Lookup(PropertyMapping(props), RecordDictionary(values, props, PropertyMapping(props))[i].0) == Some(props[i].Name)
    ensures Lookup(RecordDictionary(values, props, PropertyMapping(props)), MappingColumn(props[i])) == Some(values[props[i].Name])
  {
    var d := RecordDictionary(values, props, PropertyMapping(props));
    RecordDictionaryEntries(values, props);
    PropertyMappingEntries(props);
    PropertyMappingUnique(props);
    LookupAt(PropertyMapping(props), i);
    assert UniqueKeys(d) by {
      forall a, b | 0 <= a < b < |d| ensures d[a].0 != d[b].0 {
        assert d[a].0 == MappingColumn(props[a]) && d[b].0 == MappingColumn(props[b]);
      }
    }
    LookupAt(d, i);
  }

  // ---------------------------------------------------------- JSON scalars

  /** A `System.Text.Json.JsonElement`, reduced to its `ValueKind` and scalar payload. */
  datatype JsonElement =
    | JsonNumber(n: real)
    | JsonString(s: string)
    | JsonTrue
    | JsonFalse
    | JsonNull
    | JsonObject
    | JsonArray
    | JsonUndefined

  /** What a property bag from the browser holds: a `JsonElement`, or an already-typed value. */
  datatype Incoming = Element(e: JsonElement) | Boxed(v: Value)

  /** `GetValueFromValueKind(value)`. */
  function GetValueFromValueKind(value: Incoming): (r: Value)
    ensures value.Boxed? ==> r == value.v
    ensures value.Element? ==> (r.Null? <==> !(value.e.JsonNumber? || value.e.JsonString? || value.e.JsonTrue? || value.e.JsonFalse?))
    ensures value.Element? && value.e.JsonNumber? ==> r.Dec?
    ensures value.Element? && value.e.JsonString? ==> r.Str?
    ensures value.Element? && (value.e.JsonTrue? || value.e.JsonFalse?) ==> r.Bool?
  {
    match value
    case Boxed(v) => v
    case Element(e) =>
      match e
      case JsonNumber(n) => Dec(n)
      case JsonString(s) => Str(s)
      case JsonTrue => Bool(true)
      case JsonFalse => Bool(false)
      case _ => Null
  }

  /** The position of a `StringComparison` member; System.Text.Json writes enums as numbers. */
  function ComparisonOrdinal(c: StringComparison): nat {
    match c
    case CurrentCulture => 0
    case CurrentCultureIgnoreCase => 1
    case InvariantCulture => 2
    case InvariantCultureIgnoreCase => 3
    case Ordinal => 4
    case OrdinalIgnoreCase => 5
  }

  /** How System.Text.Json writes a property value on its way to the browser. */
  function Serialize(v: Value): JsonElement {
    match v
    case Null => JsonNull
    case Int(i) => JsonNumber(i as real)
    case Dec(d) => JsonNumber(d)
    case Bool(b) => if b then JsonTrue else JsonFalse
    case Str(s) => JsonString(s)
    case GuidValue(g) => JsonString(FormatGuid(g))
    case Comparison(c) => JsonNumber(ComparisonOrdinal(c) as real)
  }

  /**
   * Reading back what was written: strings, booleans, decimals and null come
   * back unchanged; integers and enums come back as decimals and a GUID as its
   * text, which is why reconstruction converts each value to the property type.
   */
  lemma ReadBackSerialized(v: Value)
    ensures (v.Null? || v.Dec? || v.Bool? || v.Str?) ==> GetValueFromValueKind(Element(Serialize(v))) == v
    ensures v.Int? ==> GetValueFromValueKind(Element(Serialize(v))) == Dec(v.i as real)
    ensures v.GuidValue? ==> GetValueFromValueKind(Element(Serialize(v))) == Str(FormatGuid(v.g))
    ensures v.Comparison? ==> GetValueFromValueKind(Element(Serialize(v))) == Dec(ComparisonOrdinal(v.c) as real)
  {
  }
}
