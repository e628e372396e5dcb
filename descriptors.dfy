/**
 * Explicit descriptors in place of .NET reflection: a record class is described
 * by its name, its optional `[BlazorizedTable]` attribute and its public
 * properties in declaration order (what `Type.GetProperties()` returns); each
 * property by its name, declared type, whether it has a setter, and the schema
 * attributes it carries. Also the runtime values properties and constants hold,
 * the exceptions the core throws, and the record object itself.
 */
module Descriptors {
  import opened Wrappers
  import opened Guids
  import opened Annotations

  /** `System.StringComparison`; `CurrentCulture` is the enum's zero value. */
  datatype StringComparison =
    | CurrentCulture
    | CurrentCultureIgnoreCase
    | InvariantCulture
    | InvariantCultureIgnoreCase
    | Ordinal
    | OrdinalIgnoreCase

  /** The declared type of a property, `PropertyInfo.PropertyType`. */
  datatype ValueType =
    | Int32Type
    | DecimalType
    | BoolType
    | StringType
    | GuidType
    | StringComparisonType

  /** `Type.IsValueType`: everything here but `string` is a struct or an enum. */
  predicate IsValueType(t: ValueType) {
    t != StringType
  }

  /** A runtime value: what a property holds, a constant denotes, or a property bag carries. */
  datatype Value =
    | Null
    | Int(i: int)
    | Dec(d: real)
    | Bool(b: bool)
    | Str(s: string)
    | GuidValue(g: Guid)
    | Comparison(c: StringComparison)

  /** `value.GetType()`; `None` for `null`, which has no runtime type. */
  function TypeOf(v: Value): (t: Option<ValueType>)
    ensures t.None? <==> v.Null?
  {
    match v
    case Null => None
    case Int(_) => Some(Int32Type)
    case Dec(_) => Some(DecimalType)
    case Bool(_) => Some(BoolType)
    case Str(_) => Some(StringType)
    case GuidValue(_) => Some(GuidType)
    case Comparison(_) => Some(StringComparisonType)
  }

  /** A public property of a record class, with the schema attributes it carries. */
  datatype Property = Property(
    Name: string,
    Type: ValueType,
    CanWrite: bool,          // has a public setter
    Initial: Value,          // what the parameterless constructor leaves in it
    Index: Option<IndexAttribute>,
    UniqueIndex: Option<UniqueIndexAttribute>,
    PrimaryKey: Option<PrimaryKeyAttribute>,
    NotMapped: bool,         // [BlazorizedNotMapped]
    Encrypt: bool)           // [BlazorizedEncrypt]

  /** Carries at least one of the index, unique-index and primary-key attributes. */
  predicate HasKeyTag(p: Property) {
    p.Index.Some? || p.UniqueIndex.Some? || p.PrimaryKey.Some?
  }

  /** A record class: `Type.Name`, its `[BlazorizedTable]` if any, and `Type.GetProperties()`. */
  datatype TypeDescriptor = TypeDescriptor(Name: string, Table: Option<TableAttribute>, Properties: seq<Property>)

  /** A C# class cannot declare two public properties with one name. */
  predicate DistinctNames(props: seq<Property>) {
    forall i, j :: 0 <= i < j < |props| ==> props[i].Name != props[j].Name
  }

  /** `Type.GetProperty(name)`: the property with that exact name, or `null`. */
  function FindProperty(props: seq<Property>, name: string): (r: Option<Property>)
    ensures r.Some? ==> r.value in props && r.value.Name == name
    ensures r.None? <==> forall i :: 0 <= i < |props| ==> props[i].Name != name
  {
    if props == [] then None
    else if props[0].Name == name then Some(props[0])
    else FindProperty(props[1..], name)
  }

  /** The exceptions the modelled code throws. */
  datatype Error =
    | StoreSchemaNotFound(schemaName: string)      // InvalidOperationException in ProcessRecord
    | EncryptOnNonString(property: string)         // encrypt attribute on a non-string property
    | NoSuchPrimaryKeyProperty(name: string)       // explicit primary key names no property
    | NoPrimaryKeyAttribute                        // no property carries [BlazorizedPrimaryKey]
    | MultiplePrimaryKeys                          // more than one does
    | NestedOrNotSupported                         // "Nested OR conditions are not supported."
    | NotIndexed(property: string)                 // queried property carries no index attribute
    | NotSinglePropertyAccess                      // order-by selector is not a property access
    | OrderByNotIndexed                            // order-by property carries no index attribute
    | NoSetter(property: string)                   // PropertyInfo.SetValue on a get-only property
    | BadGuidFormat(text: string)                  // Guid.Parse FormatException
    | InvalidCast                                  // Convert.ChangeType InvalidCastException
    | Overflow                                     // Convert.ChangeType OverflowException
    | ConversionNotModelled                        // culture-dependent string parsing (left out)

  /** A record object: the current value of each of its properties, by property name. */
  class Record {
    var Values: map<string, Value>

    constructor (values: map<string, Value>)
      ensures Values == values
    {
      Values := values;
    }
  }

  /** `Activator.CreateInstance`: every property at the value the constructor gives it. */
  function InitialValues(props: seq<Property>): (m: map<string, Value>)
    ensures forall i :: 0 <= i < |props| ==> props[i].Name in m
    ensures forall k :: k in m ==> exists i :: 0 <= i < |props| && props[i].Name == k
    ensures DistinctNames(props) ==> forall i :: 0 <= i < |props| ==> m[props[i].Name] == props[i].Initial
  {
    if props == [] then map[]
    else
      var init := props[..|props| - 1];
      assert forall i :: 0 <= i < |init| ==> init[i] == props[i];
      InitialValues(init)[props[|props| - 1].Name := props[|props| - 1].Initial]
  }
}
