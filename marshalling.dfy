/**
 * Record marshalling in `IndexedDbManager`: what `ProcessRecord` does to a
 * record before it is sent (encryption of tagged strings in place, and the
 * projection that drops an auto-assigned primary key), and how a property bag
 * coming back is turned into a record again (`ConvertValueToType`,
 * `ConvertIndexedDbRecordToCRecord`, `ConvertListToRecords`).
 */
module Marshalling {
  import opened Wrappers
  import opened Guids
  import opened Text
  import opened Descriptors
  import opened StoreSchemas
  import opened Dictionaries
  import SchemaHelper
  import opened ManagerHelper

  // ---------------------------------------------------------------- values

  const MinInt32: int := -0x8000_0000
  const MaxInt32: int := 0x7FFF_FFFF

  /** `GetDefaultValue(type)`: `Activator.CreateInstance` for a value type, `null` otherwise. */
  function GetDefaultValue(t: ValueType): (v: Value)
    ensures v.Null? <==> !IsValueType(t)
    ensures !v.Null? ==> TypeOf(v) == Some(t)
  {
    match t
    case Int32Type => Int(0)
    case DecimalType => Dec(0.0)
    case BoolType => Bool(false)
    case StringType => Null
    case GuidType => GuidValue(Empty)
    case StringComparisonType => Comparison(CurrentCulture)
  }

  /** `primaryKeyValue == null || primaryKeyValue.Equals(GetDefaultValue(primaryKeyValue.GetType()))`. */
  predicate IsUnsetKey(v: Value) {
    v.Null? || v == GetDefaultValue(TypeOf(v).value)
  }

  /** Which values count as an unset key: null, and the zero of each value type; never a string. */
  lemma UnsetKeys(v: Value)
    ensures IsUnsetKey(v) <==>
      v in {Null, Int(0), Dec(0.0), Bool(false), GuidValue(Empty), Comparison(CurrentCulture)}
  {
  }

  /** `decimal.Round(d, 0)`: to the nearest integer, halves to the even neighbour. */
  function RoundHalfEven(d: real): (n: int)
    ensures d - 0.5 <= n as real <= d + 0.5
    ensures (n as real == d - 0.5 || n as real == d + 0.5) ==> n % 2 == 0
  {
    var f := d.Floor;
    var frac := d - f as real;
    if frac < 0.5 then f
    else if frac > 0.5 then f + 1
    else if f % 2 == 0 then f
    else f + 1
  }

  /** `StringComparison.ToString()`. */
  function ComparisonName(c: StringComparison): string {
    match c
    case CurrentCulture => "CurrentCulture"
    case CurrentCultureIgnoreCase => "CurrentCultureIgnoreCase"
    case InvariantCulture => "InvariantCulture"
    case InvariantCultureIgnoreCase => "InvariantCultureIgnoreCase"
    case Ordinal => "Ordinal"
    case OrdinalIgnoreCase => "OrdinalIgnoreCase"
  }

  /**
   * `Convert.ChangeType(value, targetType)` on the values a property bag can
   * hold. `Guid` is not `IConvertible`: it converts only to itself. Formatting
   * numbers as text and parsing text as numbers or booleans depend on the
   * current culture and are `ConversionNotModelled`.
   */
  function ChangeType(value: Value, target: ValueType): (r: Result<Value, Error>)
    ensures r.Success? && !r.value.Null? ==> TypeOf(r.value) == Some(target)
    ensures value.Null? ==> r == (if IsValueType(target) then Failure(InvalidCast) else Success(Null))
    ensures TypeOf(value) == Some(target) ==> r == Success(value)
  {
    match value
    case Null => if IsValueType(target) then Failure(InvalidCast) else Success(Null)
    case GuidValue(_) => if target == GuidType then Success(value) else Failure(InvalidCast)
    case Int(i) =>
      (match target
       case Int32Type => Success(value)
       case DecimalType => Success(Dec(i as real))
       case BoolType => Success(Bool(i != 0))
       case StringType => Failure(ConversionNotModelled)
       case _ => Failure(InvalidCast))
    case Dec(d) =>
      (match target
       case Int32Type =>
         var n := RoundHalfEven(d);
         if MinInt32 <= n <= MaxInt32 then Success(Int(n)) else Failure(Overflow)
       case DecimalType => Success(value)
       case BoolType => Success(Bool(d != 0.0))
       case StringType => Failure(ConversionNotModelled)
       case _ => Failure(InvalidCast))
    case Bool(b) =>
      (match target
       case Int32Type => Success(Int(if b then 1 else 0))
       case DecimalType => Success(Dec(if b then 1.0 else 0.0))
       case BoolType => Success(value)
       case StringType => Success(Str(if b then "True" else "False"))
       case _ => Failure(InvalidCast))
    case Str(_) =>
      (match target
       case StringType => Success(value)
       case Int32Type => Failure(ConversionNotModelled)
       case DecimalType => Failure(ConversionNotModelled)
       case BoolType => Failure(ConversionNotModelled)
       case _ => Failure(InvalidCast))
    case Comparison(c) =>
      (match target
       case Int32Type => Success(Int(ComparisonOrdinal(c)))
       case DecimalType => Success(Dec(ComparisonOrdinal(c) as real))
       case BoolType => Success(Bool(ComparisonOrdinal(c) != 0))
       case StringType => Success(Str(ComparisonName(c)))
       case GuidType => Failure(InvalidCast)
       case StringComparisonType => Success(value))
  }

  /** `ConvertValueToType(value, targetType)`: text bound for a `Guid` property is parsed, everything else goes to `ChangeType`. */
  function ConvertValueToType(value: Value, target: ValueType): (r: Result<Value, Error>)
    ensures target == GuidType && value.Str? && IsGuidText(value.s) ==> r == Success(GuidValue(ParseGuid(value.s).value))
    ensures target == GuidType && value.Str? && !IsGuidText(value.s) ==> r == Failure(BadGuidFormat(value.s))
    ensures !(target == GuidType && value.Str?) ==> r == ChangeType(value, target)
  {
    if target == GuidType && value.Str? then
      match ParseGuid(value.s)
      case Some(g) => Success(GuidValue(g))
      case None => Failure(BadGuidFormat(value.s))
    else ChangeType(value, target)
  }

  /** A value a property of type `t` can hold, and that the browser side stores faithfully. */
  predicate Storable(v: Value, t: ValueType) {
    && t != StringComparisonType
    && (TypeOf(v) == Some(t) || (v.Null? && !IsValueType(t)))
    && (v.Int? ==> MinInt32 <= v.i <= MaxInt32)
  }

  /** Writing a value and reading it back into a property of its own type gives the value back. */
  lemma ConvertReadBack(v: Value, t: ValueType)
    requires Storable(v, t)
    ensures ConvertValueToType(GetValueFromValueKind(Element(Serialize(v))), t) == Success(v)
  {
    ReadBackSerialized(v);
    if v.GuidValue? {
      ParseFormat(v.g);
    }
    if v.Int? {
      assert RoundHalfEven(v.i as real) == v.i;
    }
  }

  /** An enum property does not survive the trip: it is written as a number, and a decimal will not convert to an enum. */
  lemma EnumDoesNotReadBack(c: StringComparison)
    ensures ConvertValueToType(GetValueFromValueKind(Element(Serialize(Comparison(c)))), StringComparisonType) == Failure(InvalidCast)
  {
    ReadBackSerialized(Comparison(c));
  }

  /** Numbers that arrive as decimals go into an `int` property rounded half to even, and fail outside its range. */
  lemma DecimalToInt32(d: real)
    ensures ConvertValueToType(Dec(d), Int32Type).Success? <==> MinInt32 <= RoundHalfEven(d) <= MaxInt32
    ensures ConvertValueToType(Dec(d), Int32Type).Success? ==> ConvertValueToType(Dec(d), Int32Type) == Success(Int(RoundHalfEven(d)))
    ensures ConvertValueToType(Dec(2.5), Int32Type) == Success(Int(2)) && ConvertValueToType(Dec(3.5), Int32Type) == Success(Int(4))
  {
    assert RoundHalfEven(2.5) == 2 by { assert (2.5).Floor == 2; }
    assert RoundHalfEven(3.5) == 4 by { assert (3.5).Floor == 3; }
  }

  // ---------------------------------------------------------------- ProcessRecord

  /** What `ProcessRecord` hands on: the caller's record itself, or a property bag built from it. */
  datatype Processed = TheRecord | Expando(entries: seq<(string, Value)>)

  /** Store `i` has the name and no store before it does. */
  predicate FirstStoreNamed(stores: seq<SchemaData>, i: int, schemaName: string) {
    && 0 <= i < |stores|
    && stores[i].Name == schemaName
    && forall j :: 0 <= j < i ==> stores[j].Name != schemaName
  }

  /** `Stores.FirstOrDefault(s => s.Name == schemaName)`. */
  function FindStore(stores: seq<SchemaData>, schemaName: string): (r: Option<SchemaData>)
    ensures r.Some? ==> r.value in stores && r.value.Name == schemaName
    ensures r.Some? ==> exists i :: FirstStoreNamed(stores, i, schemaName) && stores[i] == r.value
    ensures r.None? <==> forall i :: 0 <= i < |stores| ==> stores[i].Name != schemaName
  {
    if stores == [] then None
    else if stores[0].Name == schemaName then
      assert FirstStoreNamed(stores, 0, schemaName);
      Some(stores[0])
    else
      assert forall i :: FirstStoreNamed(stores[1..], i, schemaName) ==> FirstStoreNamed(stores, i + 1, schemaName);
      FindStore(stores[1..], schemaName)
  }

  /** The properties carrying `[BlazorizedEncrypt]`, in declaration order. */
  function EncryptTagged(props: seq<Property>): (tagged: seq<Property>)
    ensures forall p :: p in tagged <==> p in props && p.Encrypt
  {
    if props == [] then []
    else (if props[0].Encrypt then [props[0]] else []) + EncryptTagged(props[1..])
  }

  /** What the encryption step writes back: encrypted text for non-blank text, otherwise what `as string` gave. */
  function EncryptedValue(v: Value, encrypt: string -> string): Value {
    if v.Str? && !IsBlank(v.s) then Str(encrypt(v.s))
    else if v.Str? then v
    else Null
  }

  /** One pass of the encryption loop over property `p`: the type check, then `SetValue`. */
  function EncryptOne(values: map<string, Value>, p: Property, encrypt: string -> string): (r: Result<map<string, Value>, Error>)
    requires p.Name in values
    ensures r.Success? ==> r.value == values[p.Name := EncryptedValue(values[p.Name], encrypt)]
    ensures r.Failure? <==> p.Type != StringType || !p.CanWrite
  {
    if p.Type != StringType then Failure(EncryptOnNonString(p.Name))
    else if !p.CanWrite then Failure(NoSetter(p.Name))
    else Success(values[p.Name := EncryptedValue(values[p.Name], encrypt)])
  }

  /** The record's values after the encryption loop over `ps`, and the exception that ended it early, if any. */
  datatype Encrypted = Encrypted(values: map<string, Value>, error: Option<Error>)

  function EncryptAll(values: map<string, Value>, ps: seq<Property>, encrypt: string -> string): (r: Encrypted)
    requires HoldsAll(values, ps)
    ensures r.values.Keys == values.Keys
  {
    if ps == [] then Encrypted(values, None)
    else
      match EncryptOne(values, ps[0], encrypt)
      case Failure(e) => Encrypted(values, Some(e))
      case Success(next) => EncryptAll(next, ps[1..], encrypt)
  }

  /** The loop completes exactly when every tagged property is a writable string. */
  lemma {:induction false} EncryptAllFails(values: map<string, Value>, ps: seq<Property>, encrypt: string -> string)
    requires HoldsAll(values, ps)
    ensures EncryptAll(values, ps, encrypt).error.None? <==>
      forall i :: 0 <= i < |ps| ==> ps[i].Type == StringType && ps[i].CanWrite
    ensures EncryptAll(values, ps, encrypt).error.Some? ==>
      exists i :: 0 <= i < |ps| && (ps[i].Type != StringType || !ps[i].CanWrite) &&
        EncryptAll(values, ps, encrypt).error.value ==
          (if ps[i].Type != StringType then EncryptOnNonString(ps[i].Name) else NoSetter(ps[i].Name))
  {
    if ps != [] {
      var r := EncryptOne(values, ps[0], encrypt);
      if r.Success? {
        EncryptAllFails(r.value, ps[1..], encrypt);
        if EncryptAll(r.value, ps[1..], encrypt).error.Some? {
          var i :| 0 <= i < |ps[1..]| && (ps[1..][i].Type != StringType || !ps[1..][i].CanWrite) &&
            EncryptAll(r.value, ps[1..], encrypt).error.value ==
              (if ps[1..][i].Type != StringType then EncryptOnNonString(ps[1..][i].Name) else NoSetter(ps[1..][i].Name));
          assert ps[i + 1] == ps[1..][i];
        } else {
          forall i | 0 <= i < |ps| ensures ps[i].Type == StringType && ps[i].CanWrite {
            if i > 0 {
              assert ps[i] == ps[1..][i - 1];
            }
          }
        }
      }
    }
  }

  /** When it completes, each tagged property holds its encrypted value and every other value is as it was. */
  lemma {:induction false} EncryptAllValues(values: map<string, Value>, ps: seq<Property>, encrypt: string -> string)
    requires HoldsAll(values, ps) && DistinctNames(ps)
    requires EncryptAll(values, ps, encrypt).error.None?
    ensures forall i :: 0 <= i < |ps| ==>
      EncryptAll(values, ps, encrypt).values[ps[i].Name] == EncryptedValue(values[ps[i].Name], encrypt)
    ensures forall k :: k in values && (forall i :: 0 <= i < |ps| ==> ps[i].Name != k) ==>
      EncryptAll(values, ps, encrypt).values[k] == values[k]
  {
    if ps != [] {
      var next := EncryptOne(values, ps[0], encrypt).value;
      var tail := ps[1..];
      assert DistinctNames(tail) by {
        forall i, j | 0 <= i < j < |tail| ensures tail[i].Name != tail[j].Name {
          assert tail[i] == ps[i + 1] && tail[j] == ps[j + 1];
        }
      }
      EncryptAllValues(next, tail, encrypt);
      forall i | 0 <= i < |ps|
        ensures EncryptAll(values, ps, encrypt).values[ps[i].Name] == EncryptedValue(values[ps[i].Name], encrypt)
      {
        if i > 0 {
          assert ps[i] == tail[i - 1];
          assert ps[i].Name != ps[0].Name;
        } else {
          forall j | 0 <= j < |tail| ensures tail[j].Name != ps[0].Name {
            assert tail[j] == ps[j + 1];
          }
        }
      }
      forall k | k in values && (forall i :: 0 <= i < |ps| ==> ps[i].Name != k)
        ensures EncryptAll(values, ps, encrypt).values[k] == values[k]
      {
        assert forall i :: 0 <= i < |tail| ==> tail[i] == ps[i + 1];
      }
    }
  }

  /** Property `i` carries a key attribute and no property before it does. */
  predicate FirstKeyTagged(props: seq<Property>, i: int) {
    && 0 <= i < |props|
    && props[i].PrimaryKey.Some?
    && forall j :: 0 <= j < i ==> props[j].PrimaryKey.None?
  }

  /** `typeof(T).GetProperties().FirstOrDefault(p => p has [BlazorizedPrimaryKey])`. */
  function FirstPrimaryKey(props: seq<Property>): (r: Option<Property>)
    ensures r.Some? ==> r.value in props && r.value.PrimaryKey.Some?
    ensures r.Some? ==> exists i :: FirstKeyTagged(props, i) && props[i] == r.value
    ensures r.None? <==> forall i :: 0 <= i < |props| ==> props[i].PrimaryKey.None?
  {
    if props == [] then None
    else if props[0].PrimaryKey.Some? then
      assert FirstKeyTagged(props, 0);
      Some(props[0])
    else
      assert forall i :: FirstKeyTagged(props[1..], i) ==> FirstKeyTagged(props, i + 1);
      FirstPrimaryKey(props[1..])
  }

  /** The `Where` filter of the projection: mapped properties, without the key when it is to be omitted. */
  function Projected(props: seq<Property>, keyName: string, omitKey: bool): (kept: seq<Property>)
    ensures forall p :: p in kept <==> p in props && !p.NotMapped && !(omitKey && p.Name == keyName)
  {
    if props == [] then []
    else
      (if !props[0].NotMapped && !(omitKey && props[0].Name == keyName) then [props[0]] else [])
      + Projected(props[1..], keyName, omitKey)
  }

  /** `.ToDictionary(p => p.Name, p => p.GetValue(record))`, in property order. */
  function NamedValues(values: map<string, Value>, props: seq<Property>): (entries: seq<(string, Value)>)
    requires HoldsAll(values, props)
    ensures |entries| == |props|
    ensures forall i :: 0 <= i < |props| ==> entries[i] == (props[i].Name, values[props[i].Name])
  {
    if props == [] then [] else [(props[0].Name, values[props[0].Name])] + NamedValues(values, props[1..])
  }

  /** What `ProcessRecord` returns once the encryption loop has completed. */
  function Projection(store: SchemaData, props: seq<Property>, values: map<string, Value>): (r: Processed)
    requires HoldsAll(values, props)
    ensures !store.PrimaryKeyAuto ==> r == TheRecord
    ensures FirstPrimaryKey(props).None? ==> r == TheRecord
  {
    if !store.PrimaryKeyAuto then TheRecord
    else
      match FirstPrimaryKey(props)
      case None => TheRecord
      case Some(primaryKeyProperty) =>
        var omitKey := IsUnsetKey(values[primaryKeyProperty.Name]);
        var kept := Projected(props, primaryKeyProperty.Name, omitKey);
        assert HoldsAll(values, kept) by {
          forall i | 0 <= i < |kept| ensures kept[i].Name in values {
            assert kept[i] in props;
          }
        }
        Expando(NamedValues(values, kept))
  }

  /**
   * With an auto-assigned key: the bag holds exactly the properties that are not
   * NotMapped, minus the key when it is null or its type's default, each under
   * its own name with its own value.
   */
  lemma ProjectionEntries(store: SchemaData, props: seq<Property>, values: map<string, Value>)
    requires HoldsAll(values, props)
    requires store.PrimaryKeyAuto && FirstPrimaryKey(props).Some?
    ensures Projection(store, props, values).Expando?
    ensures var key := FirstPrimaryKey(props).value;
      forall name, v :: (name, v) in Projection(store, props, values).entries <==>
        exists p :: p in props && !p.NotMapped && !(IsUnsetKey(values[key.Name]) && p.Name == key.Name) &&
          name == p.Name && v == values[p.Name]
  {
    var key := FirstPrimaryKey(props).value;
    var kept := Projected(props, key.Name, IsUnsetKey(values[key.Name]));
    assert HoldsAll(values, kept) by {
      forall i | 0 <= i < |kept| ensures kept[i].Name in values {
        assert kept[i] in props;
      }
    }
    NamedValuesMembers(values, kept);
  }

  /** An entry of the bag is a kept property's name with its value. */
  lemma NamedValuesMembers(values: map<string, Value>, kept: seq<Property>)
    requires HoldsAll(values, kept)
    ensures forall name, v :: (name, v) in NamedValues(values, kept) <==>
      exists p :: p in kept && name == p.Name && v == values[p.Name]
  {
    var entries := NamedValues(values, kept);
    forall name, v ensures (name, v) in entries <==> exists p :: p in kept && name == p.Name && v == values[p.Name] {
      if (name, v) in entries {
        var i :| 0 <= i < |entries| && entries[i] == (name, v);
        assert kept[i] in kept;
      }
      if exists p :: p in kept && name == p.Name && v == values[p.Name] {
        var p :| p in kept && name == p.Name && v == values[p.Name];
        var i :| 0 <= i < |kept| && kept[i] == p;
        assert entries[i] == (name, v);
      }
    }
  }

  /**
   * `ProcessRecord(record)`: looks up `T`'s store, runs the encryption loop over
   * the tagged properties, writing into the caller's record, then chooses what
   * to send. `encrypt` stands for `EncryptionFactory.Encrypt` under the
   * database's key.
   */
  method ProcessRecord(stores: seq<SchemaData>, t: TypeDescriptor, record: Record, encrypt: string -> string)
    returns (r: Result<Processed, Error>)
    requires HoldsAll(record.Values, t.Properties)
    modifies record
    ensures FindStore(stores, SchemaHelper.GetSchemaName(t)).None? ==>
      r == Failure(StoreSchemaNotFound(SchemaHelper.GetSchemaName(t))) && record.Values == old(record.Values)
    ensures FindStore(stores, SchemaHelper.GetSchemaName(t)).Some? ==>
      var done := EncryptAll(old(record.Values), EncryptTagged(t.Properties), encrypt);
      && record.Values == done.values
      && (done.error.Some? ==> r == Failure(done.error.value))
      && (done.error.None? ==>
            (HoldsAll(done.values, t.Properties) &&
             r == Success(Projection(FindStore(stores, SchemaHelper.GetSchemaName(t)).value, t.Properties, done.values))))
  {
    var schemaName := SchemaHelper.GetSchemaName(t);
    var storeSchema := FindStore(stores, schemaName);
    if storeSchema.None? {
      return Failure(StoreSchemaNotFound(schemaName));
    }
    var propertiesToEncrypt := EncryptTagged(t.Properties);
    assert HoldsAll(record.Values, propertiesToEncrypt) by {
      forall i | 0 <= i < |propertiesToEncrypt| ensures propertiesToEncrypt[i].Name in record.Values {
        assert propertiesToEncrypt[i] in t.Properties;
      }
    }
    ghost var done := EncryptAll(record.Values, propertiesToEncrypt, encrypt);
    for i := 0 to |propertiesToEncrypt|
      invariant record.Values.Keys == old(record.Values).Keys
      invariant HoldsAll(record.Values, propertiesToEncrypt[i..])
      invariant EncryptAll(record.Values, propertiesToEncrypt[i..], encrypt) == done
    {
      var property := propertiesToEncrypt[i];
      assert propertiesToEncrypt[i..][1..] == propertiesToEncrypt[i + 1..];
      if property.Type != StringType {
        return Failure(EncryptOnNonString(property.Name));
      }
      var originalValue := record.Values[property.Name];
      var newValue := if originalValue.Str? then originalValue else Null;
      if newValue.Str? && !IsBlank(newValue.s) {
        newValue := Str(encrypt(newValue.s));
      }
      if !property.CanWrite {
        return Failure(NoSetter(property.Name));
      }
      record.Values := record.Values[property.Name := newValue];
    }
    assert HoldsAll(record.Values, t.Properties);
    return Success(Projection(storeSchema.value, t.Properties, record.Values));
  }

  // ---------------------------------------------------------------- reconstruction

  /** One pass of the reconstruction loop: a mapped key naming a property of the class sets that property. */
  function SetFrom(values: map<string, Value>, props: seq<Property>, kvp: (string, Incoming), propertyMappings: Dict<string, string>)
    : (r: Result<map<string, Value>, Error>)
    ensures Lookup(propertyMappings, kvp.0).None? ==> r == Success(values)
    ensures Lookup(propertyMappings, kvp.0).Some? && FindProperty(props, Lookup(propertyMappings, kvp.0).value).None? ==>
      r == Success(values)
    ensures r.Success? && HoldsAll(values, props) ==> r.value.Keys == values.Keys
    ensures Lookup(propertyMappings, kvp.0).Some? && FindProperty(props, Lookup(propertyMappings, kvp.0).value).Some? ==>
      var p := FindProperty(props, Lookup(propertyMappings, kvp.0).value).value;
      var converted := ConvertValueToType(GetValueFromValueKind(kvp.1), p.Type);
      && (converted.Failure? ==> r == Failure(converted.error))
      && (converted.Success? && !p.CanWrite ==> r == Failure(NoSetter(p.Name)))
      && (converted.Success? && p.CanWrite ==> r == Success(values[p.Name := converted.value]))
  {
    match Lookup(propertyMappings, kvp.0)
    case None => Success(values)
    case Some(propertyName) =>
      match FindProperty(props, propertyName)
      case None => Success(values)
      case Some(property) =>
        var converted :- ConvertValueToType(GetValueFromValueKind(kvp.1), property.Type);
        if !property.CanWrite then Failure(NoSetter(property.Name))
        else Success(values[property.Name := converted])
  }

  /** The record's values after the reconstruction loop over `items` from `values`, or the first exception. */
  function Reconstruct(values: map<string, Value>, props: seq<Property>, items: Dict<string, Incoming>, propertyMappings: Dict<string, string>)
    : Result<map<string, Value>, Error>
    decreases |items|
  {
    if items == [] then Success(values)
    else
      var next :- SetFrom(values, props, items[0], propertyMappings);
      Reconstruct(next, props, items[1..], propertyMappings)
  }

  /** `ConvertIndexedDbRecordToCRecord<TRecord>(item, propertyMappings)`. */
  method ConvertIndexedDbRecordToCRecord(t: TypeDescriptor, item: Dict<string, Incoming>, propertyMappings: Dict<string, string>)
    returns (r: Result<Record, Error>)
    ensures r.Success? ==> fresh(r.value) && Reconstruct(InitialValues(t.Properties), t.Properties, item, propertyMappings) == Success(r.value.Values)
    ensures r.Failure? ==> Reconstruct(InitialValues(t.Properties), t.Properties, item, propertyMappings) == Failure(r.error)
  {
    var record := new Record(InitialValues(t.Properties));
    ghost var expected := Reconstruct(record.Values, t.Properties, item, propertyMappings);
    for i := 0 to |item|
      invariant Reconstruct(record.Values, t.Properties, item[i..], propertyMappings) == expected
    {
      var kvp := item[i];
      assert item[i..][0] == kvp && item[i..][1..] == item[i + 1..];
      var propertyName := Lookup(propertyMappings, kvp.0);
      if propertyName.Some? {
        var property := FindProperty(t.Properties, propertyName.value);
        if property.Some? {
          var value := GetValueFromValueKind(kvp.1);
          var converted := ConvertValueToType(value, property.value.Type);
          if converted.Failure? {
            return Failure(converted.error);
          }
          if !property.value.CanWrite {
            return Failure(NoSetter(property.value.Name));
          }
          record.Values := record.Values[property.value.Name := converted.value];
        }
      }
    }
    return Success(record);
  }

  /**
   * Reconstruction keeps the record's property set, and a property that no
   * incoming key is mapped to keeps the value it started with.
   */
  lemma {:induction false} ReconstructUntouched(values: map<string, Value>, props: seq<Property>, items: Dict<string, Incoming>,
                                                propertyMappings: Dict<string, string>, name: string)
    requires HoldsAll(values, props)
    requires Reconstruct(values, props, items, propertyMappings).Success?
    requires name in values
    requires forall i :: 0 <= i < |items| ==> Lookup(propertyMappings, items[i].0) != Some(name)
    ensures Reconstruct(values, props, items, propertyMappings).value.Keys == values.Keys
    ensures Reconstruct(values, props, items, propertyMappings).value[name] == values[name]
    decreases |items|
  {
    if items != [] {
      var next := SetFrom(values, props, items[0], propertyMappings).value;
      assert next[name] == values[name] by {
        var pn := Lookup(propertyMappings, items[0].0);
        if pn.Some? && FindProperty(props, pn.value).Some? {
          assert FindProperty(props, pn.value).value.Name == pn.value != name;
        }
      }
      assert HoldsAll(next, props);
      forall i | 0 <= i < |items[1..]| ensures Lookup(propertyMappings, items[1..][i].0) != Some(name) {
        assert items[1..][i] == items[i + 1];
      }
      ReconstructUntouched(next, props, items[1..], propertyMappings, name);
    }
  }

  /** Reconstructing two runs of entries one after the other is reconstructing their concatenation. */
  lemma {:induction false} ReconstructAppend(values: map<string, Value>, props: seq<Property>, a: Dict<string, Incoming>, b: Dict<string, Incoming>,
                                             propertyMappings: Dict<string, string>)
    ensures Reconstruct(values, props, a, propertyMappings).Failure? ==>
      Reconstruct(values, props, a + b, propertyMappings) == Reconstruct(values, props, a, propertyMappings)
    ensures Reconstruct(values, props, a, propertyMappings).Success? ==>
      Reconstruct(values, props, a + b, propertyMappings) ==
        Reconstruct(Reconstruct(values, props, a, propertyMappings).value, props, b, propertyMappings)
    decreases |a|
  {
    if a == [] {
      assert a + b == b;
    } else {
      assert (a + b)[0] == a[0] && (a + b)[1..] == a[1..] + b;
      var step := SetFrom(values, props, a[0], propertyMappings);
      if step.Success? {
        ReconstructAppend(step.value, props, a[1..], b, propertyMappings);
      }
    }
  }

  /** An incoming key the mapping does not know is ignored, wherever it occurs. */
  lemma ReconstructIgnoresUnmapped(values: map<string, Value>, props: seq<Property>, a: Dict<string, Incoming>, key: string,
                                   x: Incoming, b: Dict<string, Incoming>, propertyMappings: Dict<string, string>)
    requires Lookup(propertyMappings, key).None?
    ensures Reconstruct(values, props, a + [(key, x)] + b, propertyMappings) == Reconstruct(values, props, a + b, propertyMappings)
  {
    ReconstructAppend(values, props, a + [(key, x)], b, propertyMappings);
    ReconstructAppend(values, props, a, [(key, x)], propertyMappings);
    ReconstructAppend(values, props, a, b, propertyMappings);
    if Reconstruct(values, props, a, propertyMappings).Success? {
      var mid := Reconstruct(values, props, a, propertyMappings).value;
      assert Reconstruct(mid, props, [(key, x)], propertyMappings) == Success(mid) by {
        assert [(key, x)][1..] == [];
      }
    }
  }

  /** The property bags reconstructed one after another, or the first exception. */
  function ReconstructAll(props: seq<Property>, items: seq<Dict<string, Incoming>>, propertyMappings: Dict<string, string>)
    : (r: Result<seq<map<string, Value>>, Error>)
    ensures r.Success? ==> |r.value| == |items|
  {
    if items == [] then Success([])
    else
      var init :- ReconstructAll(props, items[..|items| - 1], propertyMappings);
      var last :- Reconstruct(InitialValues(props), props, items[|items| - 1], propertyMappings);
      Success(init + [last])
  }

  /** Once a prefix of the list fails, the whole list fails with the same exception. */
  lemma {:induction false} ReconstructAllStops(props: seq<Property>, items: seq<Dict<string, Incoming>>, propertyMappings: Dict<string, string>, n: nat)
    requires n <= |items|
    requires ReconstructAll(props, items[..n], propertyMappings).Failure?
    ensures ReconstructAll(props, items, propertyMappings) == ReconstructAll(props, items[..n], propertyMappings)
    decreases |items| - n
  {
    if n < |items| {
      var init := items[..|items| - 1];
      assert init[..n] == items[..n];
      ReconstructAllStops(props, init, propertyMappings, n);
    } else {
      assert items[..n] == items;
    }
  }

  /** The values of a list of record objects. */
  function ValuesOf(records: seq<Record>): (vs: seq<map<string, Value>>)
    reads set r | r in records
    ensures |vs| == |records|
  {
    if records == [] then [] else ValuesOf(records[..|records| - 1]) + [records[|records| - 1].Values]
  }

  /** The values of records held one by one are the sequence of those values. */
  lemma {:induction false} ValuesOfPointwise(records: seq<Record>, vs: seq<map<string, Value>>)
    requires |records| == |vs|
    requires forall j :: 0 <= j < |records| ==> records[j].Values == vs[j]
    ensures ValuesOf(records) == vs
  {
    if records != [] {
      ValuesOfPointwise(records[..|records| - 1], vs[..|vs| - 1]);
    }
  }

  /** `ConvertListToRecords<TRecord>(listToConvert, propertyMappings)`: one fresh record per bag, in order. */
  method ConvertListToRecords(t: TypeDescriptor, listToConvert: seq<Dict<string, Incoming>>, propertyMappings: Dict<string, string>)
    returns (r: Result<seq<Record>, Error>)
    ensures r.Failure? ==> ReconstructAll(t.Properties, listToConvert, propertyMappings) == Failure(r.error)
    ensures r.Success? ==> ReconstructAll(t.Properties, listToConvert, propertyMappings) == Success(ValuesOf(r.value))
  {
    var records: seq<Record> := [];
    ghost var vs: seq<map<string, Value>> := [];
    for i := 0 to |listToConvert|
      invariant |records| == i && |vs| == i
      invariant forall j :: 0 <= j < i ==> records[j].Values == vs[j]
      invariant ReconstructAll(t.Properties, listToConvert[..i], propertyMappings) == Success(vs)
    {
      assert listToConvert[..i + 1][..i] == listToConvert[..i];
      assert listToConvert[..i + 1][i] == listToConvert[i];
      var record := ConvertIndexedDbRecordToCRecord(t, listToConvert[i], propertyMappings);
      if record.Failure? {
        ReconstructAllStops(t.Properties, listToConvert, propertyMappings, i + 1);
        return Failure(record.error);
      }
      records := records + [record.value];
      vs := vs + [record.value.Values];
    }
    assert listToConvert[..|listToConvert|] == listToConvert;
    ValuesOfPointwise(records, vs);
    return Success(records);
  }

  // ---------------------------------------------------------------- the round trip

  /** What a property bag sent as `d` comes back as: each value as System.Text.Json wrote it, under the same key. */
  function Stored(d: Dict<string, Value>): (items: Dict<string, Incoming>)
    ensures |items| == |d|
    ensures forall i :: 0 <= i < |d| ==> items[i] == (d[i].0, Element(Serialize(d[i].1)))
  {
    if d == [] then []
    else Stored(d[..|d| - 1]) + [(d[|d| - 1].0, Element(Serialize(d[|d| - 1].1)))]
  }

  /** A record whose class has distinct names and columns, writable properties, and storable values only. */
  predicate RoundTrippable(values: map<string, Value>, props: seq<Property>) {
    && HoldsAll(values, props)
    && (forall k :: k in values ==> exists i :: 0 <= i < |props| && props[i].Name == k)
    && DistinctNames(props)
    && DistinctColumns(props)
    && (forall i :: 0 <= i < |props| ==> props[i].CanWrite && Storable(values[props[i].Name], props[i].Type))
  }

  /** With distinct names, `GetProperty(name)` finds the property of that name. */
  lemma {:induction false} FindPropertyAt(props: seq<Property>, i: nat)
    requires DistinctNames(props) && i < |props|
    ensures FindProperty(props, props[i].Name) == Some(props[i])
  {
    if i > 0 {
      assert props[0].Name != props[i].Name;
      assert DistinctNames(props[1..]) by {
        forall a, b | 0 <= a < b < |props[1..]| ensures props[1..][a].Name != props[1..][b].Name {
          assert props[1..][a] == props[a + 1] && props[1..][b] == props[b + 1];
        }
      }
      assert props[1..][i - 1] == props[i];
      FindPropertyAt(props[1..], i - 1);
    }
  }

  /** One entry of a stored record sets its own property to its own value. */
  lemma ReadBackOne(acc: map<string, Value>, props: seq<Property>, i: nat, v: Value, propertyMappings: Dict<string, string>)
    requires DistinctNames(props) && i < |props|
    requires props[i].CanWrite && Storable(v, props[i].Type)
    requires Lookup(propertyMappings, MappingColumn(props[i])) == Some(props[i].Name)
    ensures SetFrom(acc, props, (MappingColumn(props[i]), Element(Serialize(v))), propertyMappings) == Success(acc[props[i].Name := v])
  {
    FindPropertyAt(props, i);
    ConvertReadBack(v, props[i].Type);
  }

  /** Reading back the entries from position `i` on, into a record that already agrees before `i`, gives the record. */
  lemma {:induction false} ReadBackFrom(acc: map<string, Value>, values: map<string, Value>, props: seq<Property>,
                                        items: Dict<string, Incoming>, propertyMappings: Dict<string, string>, i: nat)
    requires HoldsAll(values, props) && DistinctNames(props)
    requires forall k :: k in values ==> exists j :: 0 <= j < |props| && props[j].Name == k
    requires |items| == |props| && i <= |props|
    requires forall j :: 0 <= j < |props| ==>
      && props[j].CanWrite && Storable(values[props[j].Name], props[j].Type)
      && items[j] == (MappingColumn(props[j]), Element(Serialize(values[props[j].Name])))
      && Lookup(propertyMappings, MappingColumn(props[j])) == Some(props[j].Name)
    requires acc.Keys == values.Keys
    requires forall j :: 0 <= j < i ==> acc[props[j].Name] == values[props[j].Name]
    ensures Reconstruct(acc, props, items[i..], propertyMappings) == Success(values)
    decreases |props| - i
  {
    if i == |props| {
      assert items[i..] == [];
      AgreeEverywhere(acc, values, props);
    } else {
      var name := props[i].Name;
      var next := acc[name := values[name]];
      ReadBackOne(acc, props, i, values[name], propertyMappings);
      ReconstructStep(acc, props, items, propertyMappings, i, next);
      AgreeOneMore(acc, values, props, i);
      ReadBackFrom(next, values, props, items, propertyMappings, i + 1);
    }
  }

  /** A record with the same property set that agrees on every property is the same record. */
  lemma AgreeEverywhere(acc: map<string, Value>, values: map<string, Value>, props: seq<Property>)
    requires HoldsAll(values, props)
    requires forall k :: k in values ==> exists j :: 0 <= j < |props| && props[j].Name == k
    requires acc.Keys == values.Keys
    requires forall j :: 0 <= j < |props| ==> acc[props[j].Name] == values[props[j].Name]
    ensures acc == values
  {
    forall k | k in values ensures acc[k] == values[k] {
      var j :| 0 <= j < |props| && props[j].Name == k;
    }
  }

  /** Setting property `i` to its value extends the agreement by one. */
  lemma AgreeOneMore(acc: map<string, Value>, values: map<string, Value>, props: seq<Property>, i: nat)
    requires HoldsAll(values, props) && DistinctNames(props) && i < |props|
    requires forall j :: 0 <= j < i ==> props[j].Name in acc && acc[props[j].Name] == values[props[j].Name]
    ensures var next := acc[props[i].Name := values[props[i].Name]];
      forall j :: 0 <= j < i + 1 ==> next[props[j].Name] == values[props[j].Name]
  {
    var next := acc[props[i].Name := values[props[i].Name]];
    forall j | 0 <= j < i + 1 ensures next[props[j].Name] == values[props[j].Name] {
      if j < i {
        assert props[j].Name != props[i].Name;
      }
    }
  }

  /** One turn of the reconstruction loop, once its effect is known. */
  lemma ReconstructStep(acc: map<string, Value>, props: seq<Property>, items: Dict<string, Incoming>,
                        propertyMappings: Dict<string, string>, i: nat, next: map<string, Value>)
    requires i < |items|
    requires SetFrom(acc, props, items[i], propertyMappings) == Success(next)
    ensures Reconstruct(acc, props, items[i..], propertyMappings) == Reconstruct(next, props, items[i + 1..], propertyMappings)
  {
    assert items[i..][0] == items[i] && items[i..][1..] == items[i + 1..];
  }

  /** The intended bag files each property's value under its mapping key, in declaration order. */
  lemma SentEntries(values: map<string, Value>, props: seq<Property>)
    requires HoldsAll(values, props) && DistinctNames(props) && DistinctColumns(props)
    ensures |SentIntended(values, props)| == |props|
    ensures forall j :: 0 <= j < |props| ==>
      SentIntended(values, props)[j] == (MappingColumn(props[j]), values[props[j].Name])
  {
    RecordDictionaryEntries(values, props);
  }

  /** Under the class's own mapping, each property's mapping key leads back to it. */
  lemma MappingLookups(props: seq<Property>)
    requires DistinctNames(props) && DistinctColumns(props)
    ensures forall j :: 0 <= j < |props| ==> Lookup(PropertyMapping(props), MappingColumn(props[j])) == Some(props[j].Name)
  {
    var m := PropertyMapping(props);
    PropertyMappingEntries(props);
    PropertyMappingUnique(props);
    forall j | 0 <= j < |props| ensures Lookup(m, MappingColumn(props[j])) == Some(props[j].Name) {
      LookupAt(m, j);
    }
  }

  /**
   * A record converted with `ConvertRecordToDictionary`, stored, and read back
   * with `ConvertIndexedDbRecordToCRecord` under the class's own mapping, is
   * the record it started as.
   */
  lemma RecordRoundTrip(values: map<string, Value>, props: seq<Property>)
    requires RoundTrippable(values, props)
    ensures Reconstruct(InitialValues(props), props, Stored(SentIntended(values, props)), PropertyMapping(props)) == Success(values)
  {
    var m := PropertyMapping(props);
    var d := SentIntended(values, props);
    var items := Stored(d);
    SentEntries(values, props);
    MappingLookups(props);
    var init := InitialValues(props);
    assert init.Keys == values.Keys;
    assert items[0..] == items;
    ReadBackFrom(init, values, props, items, m, 0);
  }

  // ---------------------------------------------------------------- the write path

  /**
   * The property bag `Add` sends for a record that `ProcessRecord` handed back
   * unchanged, as written: `ConvertRecordToDictionary` already files each value
   * under its mapping key, and `ConvertPropertyNamesUsingMappings` then renames
   * those keys a second time, as if they were still property names.
   */
  function SentAsWritten(values: map<string, Value>, props: seq<Property>): Dict<string, Value>
    requires HoldsAll(values, props)
  {
    RenamedRecord(RecordDictionary(values, props, PropertyMapping(props)), PropertyMapping(props))
  }

  /** The bag `Add` evidently means to send: each value filed once, under its property's mapping key. */
  function SentIntended(values: map<string, Value>, props: seq<Property>): Dict<string, Value>
    requires HoldsAll(values, props)
  {
    RecordDictionary(values, props, PropertyMapping(props))
  }

  /** Property `A`, indexed under column "B", and property `B`, indexed under column "C". */
  const RenameA := Property("A", Int32Type, true, Int(0), Some(Annotations.IndexAttribute(Some("B"))), None, None, false, false)
  const RenameB := Property("B", Int32Type, true, Int(0), Some(Annotations.IndexAttribute(Some("C"))), None, None, false, false)
  const RenameValues := map["A" := Int(1), "B" := Int(2)]

  /** The mapping of a two-property class. */
  lemma MappingOfTwo(a: Property, b: Property)
    ensures PropertyMapping([a, b]) == Put([(MappingColumn(a), a.Name)], MappingColumn(b), b.Name)
  {
    assert [a, b][..1] == [a] && [a][..0] == [];
    assert PropertyMapping([a]) == Put([], MappingColumn(a), a.Name) == [(MappingColumn(a), a.Name)];
  }

  /** The bag of a two-property record. */
  lemma DictionaryOfTwo(values: map<string, Value>, a: Property, b: Property, m: Dict<string, string>)
    requires a.Name in values && b.Name in values
    ensures HoldsAll(values, [a, b])
    ensures RecordDictionary(values, [a, b], m) == Put([(EntryKey(m, a), values[a.Name])], EntryKey(m, b), values[b.Name])
  {
    assert [a, b][..1] == [a] && [a][..0] == [];
    assert RecordDictionary(values, [a], m) == Put([], EntryKey(m, a), values[a.Name]) == [(EntryKey(m, a), values[a.Name])];
  }

  /** The renaming of a two-entry bag. */
  lemma RenamedOfTwo(x: (string, Value), y: (string, Value), m: Dict<string, string>)
    ensures RenamedRecord([x, y], m) == Put([(TargetKey(m, x.0), x.1)], TargetKey(m, y.0), y.1)
  {
    assert [x, y][..1] == [x] && [x][..0] == [];
    assert RenamedRecord([x], m) == Put([], TargetKey(m, x.0), x.1) == [(TargetKey(m, x.0), x.1)];
  }

  lemma RenameMapping()
    ensures PropertyMapping([RenameA, RenameB]) == [("B", "A"), ("C", "B")]
  {
    MappingOfTwo(RenameA, RenameB);
    assert MappingColumn(RenameA) == "B" && MappingColumn(RenameB) == "C";
  }

  /** The mapping `[B: A, C: B]` sends `A` to "B" and `B` to "C", and renames "B" to "C" but keeps "C". */
  lemma RenameKeys(m: Dict<string, string>)
    requires m == [("B", "A"), ("C", "B")]
    ensures EntryKey(m, RenameA) == "B"
    ensures EntryKey(m, RenameB) == "C"
    ensures TargetKey(m, "B") == "C"
    ensures TargetKey(m, "C") == "C"
  {
    assert m[0].1 == "A" && m[1].1 == "B" && m[1..] == [("C", "B")];
    assert FirstKeyWithValue(m, "A") == Some("B");
    assert FirstKeyWithValue(m, "B") == Some("C");
    assert FirstKeyWithValue(m, "C") == None;
  }

  lemma RenameIntended()
    ensures SentIntended(RenameValues, [RenameA, RenameB]) == [("B", Int(1)), ("C", Int(2))]
  {
    RenameMapping();
    var m := PropertyMapping([RenameA, RenameB]);
    RenameKeys(m);
    DictionaryOfTwo(RenameValues, RenameA, RenameB, m);
  }

  lemma RenameAsWritten()
    ensures SentAsWritten(RenameValues, [RenameA, RenameB]) == [("C", Int(2))]
  {
    RenameMapping();
    RenameIntended();
    var m := PropertyMapping([RenameA, RenameB]);
    RenameKeys(m);
    RenamedOfTwo(("B", Int(1)), ("C", Int(2)), m);
  }

  /**
   * A property indexed under column "B" next to a property named `B` indexed
   * under column "C": the second renaming files the first value under "C" too,
   * where the second value overwrites it, and column "B" is never written.
   */
  lemma DoubleRenameLosesValue()
    ensures SentIntended(RenameValues, [RenameA, RenameB]) == [("B", Int(1)), ("C", Int(2))]
    ensures SentAsWritten(RenameValues, [RenameA, RenameB]) == [("C", Int(2))]
  {
    RenameIntended();
    RenameAsWritten();
  }

  /** A mapping key that names no other property is renamed to itself. */
  lemma KeptColumn(props: seq<Property>, i: nat)
    requires DistinctNames(props) && DistinctColumns(props) && i < |props|
    requires forall i, j :: 0 <= i < |props| && 0 <= j < |props| && MappingColumn(props[i]) == props[j].Name ==> i == j
    ensures TargetKey(PropertyMapping(props), MappingColumn(props[i])) == MappingColumn(props[i])
  {
    PropertyMappingEntries(props);
  }

  /** The second renaming is harmless when no mapping key is the name of another property. */
  lemma DoubleRenameHarmless(values: map<string, Value>, props: seq<Property>)
    requires HoldsAll(values, props) && DistinctNames(props) && DistinctColumns(props)
    requires forall i, j :: 0 <= i < |props| && 0 <= j < |props| && MappingColumn(props[i]) == props[j].Name ==> i == j
    ensures SentAsWritten(values, props) == SentIntended(values, props)
  {
    var m := PropertyMapping(props);
    var d := SentIntended(values, props);
    SentEntries(values, props);
    forall i | 0 <= i < |d| ensures TargetKey(m, d[i].0) == d[i].0 {
      KeptColumn(props, i);
    }
    assert RenamesApart(d, m);
    RenamedRecordEntries(d, m);
  }
}
