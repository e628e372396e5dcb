/**
 * `SchemaHelper`: the store schema and the column names derived from a record
 * class's attributes.
 */
module SchemaHelper {
  import opened Wrappers
  import opened Text
  import opened Annotations
  import opened Descriptors
  import opened StoreSchemas
  import opened Expressions

  /** `GetSchemaName<T>()`: the table attribute's schema name, else the class name. */
  function GetSchemaName(t: TypeDescriptor): (name: string)
    ensures t.Table.Some? ==> name == t.Table.value.SchemaName
    ensures t.Table.None? ==> name == t.Name
  {
    if t.Table.Some? then t.Table.value.SchemaName else t.Name
  }

  /** The attribute classes that name a column. */
  datatype AttributeKind = IndexKind | UniqueIndexKind | PrimaryKeyKind

  /**
   * `Attribute.GetCustomAttribute(prop, attributeType)` followed by a read of
   * the attribute's designated property: `None` when the property does not
   * carry the attribute, else `Some` of what `ColumnName` holds.
   */
  function DesignatedColumn(p: Property, kind: AttributeKind): Option<Option<string>> {
    match kind
    case IndexKind => if p.Index.Some? then Some(p.Index.value.ColumnName) else None
    case UniqueIndexKind => if p.UniqueIndex.Some? then Some(p.UniqueIndex.value.ColumnName) else None
    case PrimaryKeyKind => if p.PrimaryKey.Some? then Some(p.PrimaryKey.value.ColumnName) else None
  }

  /** The attribute of that kind names a column that is not blank. */
  predicate NamesColumn(p: Property, kind: AttributeKind) {
    var d := DesignatedColumn(p, kind);
    d.Some? && d.value.Some? && !IsBlank(d.value.value)
  }

  /**
   * `GetPropertyColumnName(prop, attributeType)`: the designated column name of
   * the attribute when it is present and not blank, else the property's name.
   */
  function GetPropertyColumnName(p: Property, kind: AttributeKind): (column: string)
    ensures NamesColumn(p, kind) ==> column == DesignatedColumn(p, kind).value.value
    ensures !NamesColumn(p, kind) ==> column == p.Name
  {
    var d := DesignatedColumn(p, kind);
    if d.Some? && d.value.Some? && !IsBlank(d.value.value) then d.value.value else p.Name
  }

  /** Every attribute on the property went through its constructor's normalisation. */
  predicate AttributesNormalised(p: Property) {
    && (p.Index.Some? ==> IsNormalisedColumnName(p.Index.value.ColumnName))
    && (p.UniqueIndex.Some? ==> IsNormalisedColumnName(p.UniqueIndex.value.ColumnName))
    && (p.PrimaryKey.Some? ==> IsNormalisedColumnName(p.PrimaryKey.value.ColumnName))
  }

  /**
   * For attributes built by their constructors, the blank test here never
   * fires: the column is the raw `ColumnName`, or the property name when that
   * is null (the rule `ManagerHelper.GeneratePropertyMapping` applies).
   */
  lemma ColumnNameOfNormalised(p: Property, kind: AttributeKind)
    requires AttributesNormalised(p)
    requires DesignatedColumn(p, kind).Some?
    ensures GetPropertyColumnName(p, kind) == DesignatedColumn(p, kind).value.GetOr(p.Name)
  {
  }

  /** The properties carrying `[BlazorizedPrimaryKey]`, in declaration order. */
  function PrimaryKeyProperties(props: seq<Property>): (keys: seq<Property>)
    ensures forall q :: q in keys <==> q in props && q.PrimaryKey.Some?
    ensures |keys| <= |props|
  {
    if props == [] then []
    else
      var last := props[|props| - 1];
      PrimaryKeyProperties(props[..|props| - 1]) + (if last.PrimaryKey.Some? then [last] else [])
  }

  /** The resolved column of every `[BlazorizedUniqueIndex]` property, in declaration order. */
  function UniqueIndexColumns(props: seq<Property>): seq<string> {
    if props == [] then []
    else
      var last := props[|props| - 1];
      UniqueIndexColumns(props[..|props| - 1])
        + (if last.UniqueIndex.Some? then [GetPropertyColumnName(last, UniqueIndexKind)] else [])
  }

  /** The resolved column of every `[BlazorizedIndex]` property, in declaration order. */
  function IndexColumns(props: seq<Property>): seq<string> {
    if props == [] then []
    else
      var last := props[|props| - 1];
      IndexColumns(props[..|props| - 1])
        + (if last.Index.Some? then [GetPropertyColumnName(last, IndexKind)] else [])
  }

  /** A column is listed as an index exactly when some index-tagged property resolves to it. */
  lemma {:induction false} IndexColumnsMembers(props: seq<Property>, c: string)
    ensures c in IndexColumns(props) <==>
      exists i :: 0 <= i < |props| && props[i].Index.Some? && GetPropertyColumnName(props[i], IndexKind) == c
  {
    if props != [] {
      var init := props[..|props| - 1];
      IndexColumnsMembers(init, c);
      assert forall i :: 0 <= i < |init| ==> init[i] == props[i];
      if c in IndexColumns(props) && c !in IndexColumns(init) {
        assert GetPropertyColumnName(props[|props| - 1], IndexKind) == c;
      }
    }
  }

  /** Likewise for unique indexes. */
  lemma {:induction false} UniqueIndexColumnsMembers(props: seq<Property>, c: string)
    ensures c in UniqueIndexColumns(props) <==>
      exists i :: 0 <= i < |props| && props[i].UniqueIndex.Some? && GetPropertyColumnName(props[i], UniqueIndexKind) == c
  {
    if props != [] {
      var init := props[..|props| - 1];
      UniqueIndexColumnsMembers(init, c);
      assert forall i :: 0 <= i < |init| ==> init[i] == props[i];
      if c in UniqueIndexColumns(props) && c !in UniqueIndexColumns(init) {
        assert GetPropertyColumnName(props[|props| - 1], UniqueIndexKind) == c;
      }
    }
  }

  /** The store name `GetStoreSchema` uses: the explicit one unless blank, else the attribute's, else the class name. */
  function StoreName(t: TypeDescriptor, name: Option<string>): string {
    if IsNullOrWhiteSpace(name) then (if t.Table.Some? then t.Table.value.SchemaName else t.Name) else name.value
  }

  /** The key path `GetStoreSchema` stores, or the exception it throws. */
  function ResolvePrimaryKey(t: TypeDescriptor, primaryKey: Option<string>): (r: Result<Option<string>, Error>)
    // an explicit key must name a property and is kept verbatim
    ensures primaryKey.Some? ==> (r.Success? <==> FindProperty(t.Properties, primaryKey.value).Some?)
    ensures primaryKey.Some? && r.Failure? ==> r.error == NoSuchPrimaryKeyProperty(primaryKey.value)
    ensures primaryKey.Some? && r.Success? ==> r.value == primaryKey
    // otherwise exactly one property must carry the key attribute
    ensures primaryKey.None? ==>
      (r == Failure(NoPrimaryKeyAttribute) <==> |PrimaryKeyProperties(t.Properties)| == 0)
    ensures primaryKey.None? ==>
      (r == Failure(MultiplePrimaryKeys) <==> |PrimaryKeyProperties(t.Properties)| > 1)
    ensures primaryKey.None? && r.Success? ==>
      |PrimaryKeyProperties(t.Properties)| == 1 &&
      r.value == Some(GetPropertyColumnName(PrimaryKeyProperties(t.Properties)[0], PrimaryKeyKind))
  {
    if primaryKey.Some? then
      if FindProperty(t.Properties, primaryKey.value).None? then Failure(NoSuchPrimaryKeyProperty(primaryKey.value))
      else Success(primaryKey)
    else
      var keys := PrimaryKeyProperties(t.Properties);
      if |keys| == 0 then Failure(NoPrimaryKeyAttribute)
      else if |keys| > 1 then Failure(MultiplePrimaryKeys)
      else Success(Some(GetPropertyColumnName(keys[0], PrimaryKeyKind)))
  }

  /** The store schema `GetStoreSchema(type, name, primaryKey)` builds, or the exception it throws. */
  function DeriveStoreSchema(t: TypeDescriptor, name: Option<string>, primaryKey: Option<string>): (r: Result<SchemaData, Error>)
    ensures r.Success? && !IsNullOrWhiteSpace(name) ==> r.value.Name == name.value
    ensures r.Success? && IsNullOrWhiteSpace(name) ==> r.value.Name == GetSchemaName(t)
    ensures r.Failure? <==> ResolvePrimaryKey(t, primaryKey).Failure?
    ensures r.Failure? ==> r.error == ResolvePrimaryKey(t, primaryKey).error
    ensures r.Success? ==> r.value.PrimaryKey == ResolvePrimaryKey(t, primaryKey).value
    ensures r.Success? ==> !r.value.PrimaryKeyAuto
    ensures r.Success? ==> r.value.UniqueIndexes == UniqueIndexColumns(t.Properties)
    ensures r.Success? ==> r.value.Indexes == IndexColumns(t.Properties)
  {
    var key :- ResolvePrimaryKey(t, primaryKey);
    Success(SchemaData(StoreName(t, name), key, false, UniqueIndexColumns(t.Properties), IndexColumns(t.Properties)))
  }

  /** `GetStoreSchema(type, name, primaryKey)`: a fresh `StoreSchema` filled in step by step. */
  method GetStoreSchema(t: TypeDescriptor, name: Option<string>, primaryKey: Option<string>)
    returns (r: Result<StoreSchema, Error>)
    ensures r.Failure? ==> DeriveStoreSchema(t, name, primaryKey) == Failure(r.error)
    ensures r.Success? ==> fresh(r.value) && DeriveStoreSchema(t, name, primaryKey) == Success(r.value.Snapshot())
  {
    GetStoreSchemaMatches(t, name, primaryKey);
    var schema := new StoreSchema();
    if IsNullOrWhiteSpace(name) {
      schema.Name := if t.Table.Some? then t.Table.value.SchemaName else t.Name;
    } else {
      schema.Name := name.value;
    }

    if primaryKey.Some? {
      var property := FindProperty(t.Properties, primaryKey.value);
      if property.None? {
        return Failure(NoSuchPrimaryKeyProperty(primaryKey.value));
      }
      schema.PrimaryKey := primaryKey;
    } else {
      var keys := PrimaryKeyProperties(t.Properties);
      if |keys| == 0 {
        return Failure(NoPrimaryKeyAttribute);
      }
      if |keys| > 1 {
        return Failure(MultiplePrimaryKeys);
      }
      schema.PrimaryKey := Some(GetPropertyColumnName(keys[0], PrimaryKeyKind));
    }

    AddIndexes(schema, t.Properties);
    return Success(schema);
  }

  /** The two loops of `GetStoreSchema`: unique-index columns, then index columns, in declaration order. */
  method AddIndexes(schema: StoreSchema, props: seq<Property>)
    requires schema.UniqueIndexes == [] && schema.Indexes == []
    modifies schema
    ensures schema.Snapshot() ==
      old(schema.Snapshot()).(UniqueIndexes := UniqueIndexColumns(props), Indexes := IndexColumns(props))
  {
    ghost var start := schema.Snapshot();
    for i := 0 to |props|
      invariant schema.Snapshot() == start.(UniqueIndexes := UniqueIndexColumns(props[..i]))
    {
      ColumnsStep(props, i);
      if props[i].UniqueIndex.Some? {
        schema.UniqueIndexes := schema.UniqueIndexes + [GetPropertyColumnName(props[i], UniqueIndexKind)];
      }
    }
    assert props[..|props|] == props;
    for i := 0 to |props|
      invariant schema.Snapshot() == start.(UniqueIndexes := UniqueIndexColumns(props), Indexes := IndexColumns(props[..i]))
    {
      ColumnsStep(props, i);
      if props[i].Index.Some? {
        schema.Indexes := schema.Indexes + [GetPropertyColumnName(props[i], IndexKind)];
      }
    }
  }

  /** One more property scanned by either index loop. */
  lemma ColumnsStep(props: seq<Property>, i: nat)
    requires i < |props|
    ensures UniqueIndexColumns(props[..i + 1]) == UniqueIndexColumns(props[..i])
      + (if props[i].UniqueIndex.Some? then [GetPropertyColumnName(props[i], UniqueIndexKind)] else [])
    ensures IndexColumns(props[..i + 1]) == IndexColumns(props[..i])
      + (if props[i].Index.Some? then [GetPropertyColumnName(props[i], IndexKind)] else [])
  {
    assert props[..i + 1][..i] == props[..i];
  }

  /** The method builds exactly the schema the specification describes. */
  lemma GetStoreSchemaMatches(t: TypeDescriptor, name: Option<string>, primaryKey: Option<string>)
    ensures ResolvePrimaryKey(t, primaryKey).Failure? ==>
      DeriveStoreSchema(t, name, primaryKey) == Failure(ResolvePrimaryKey(t, primaryKey).error)
    ensures ResolvePrimaryKey(t, primaryKey).Success? ==>
      DeriveStoreSchema(t, name, primaryKey) ==
        Success(SchemaData(StoreName(t, name), ResolvePrimaryKey(t, primaryKey).value, false,
                           UniqueIndexColumns(t.Properties), IndexColumns(t.Properties)))
  {
  }

  /** `GetAllSchemas`' database name: the given one unless blank, else `"DefaultedNone"`. */
  function DatabaseNameOrDefault(databaseName: Option<string>): (db: string)
    ensures IsNullOrWhiteSpace(databaseName) ==> db == DefaultedNone
    ensures !IsNullOrWhiteSpace(databaseName) ==> db == databaseName.value
  {
    if IsNullOrWhiteSpace(databaseName) then DefaultedNone else databaseName.value
  }

  /** The class carries `[BlazorizedTable]` for that database. */
  predicate IsSelected(t: TypeDescriptor, db: string) {
    t.Table.Some? && t.Table.value.DatabaseName == db
  }

  /** Every type of every assembly, in enumeration order. */
  function Flatten(assemblies: seq<seq<TypeDescriptor>>): seq<TypeDescriptor> {
    if assemblies == [] then [] else Flatten(assemblies[..|assemblies| - 1]) + assemblies[|assemblies| - 1]
  }

  /** The selected types, in order. */
  function Selected(types: seq<TypeDescriptor>, db: string): (s: seq<TypeDescriptor>)
    ensures forall t :: t in s ==> IsSelected(t, db)
  {
    if types == [] then []
    else Selected(types[..|types| - 1], db) + (if IsSelected(types[|types| - 1], db) then [types[|types| - 1]] else [])
  }

  /** The schema of each type in turn; the first exception ends the scan. */
  function DeriveAll(types: seq<TypeDescriptor>): (r: Result<seq<SchemaData>, Error>)
    ensures r.Success? ==> |r.value| == |types|
  {
    if types == [] then Success([])
    else
      var init :- DeriveAll(types[..|types| - 1]);
      var last :- DeriveStoreSchema(types[|types| - 1], None, None);
      Success(init + [last])
  }

  /** What `GetAllSchemas(databaseName)` returns, or the exception it throws. */
  function AllSchemas(assemblies: seq<seq<TypeDescriptor>>, databaseName: Option<string>): Result<seq<SchemaData>, Error> {
    DeriveAll(Selected(Flatten(assemblies), DatabaseNameOrDefault(databaseName)))
  }

  lemma {:induction false} FlattenAppend(a: seq<seq<TypeDescriptor>>, b: seq<seq<TypeDescriptor>>)
    ensures Flatten(a + b) == Flatten(a) + Flatten(b)
  {
    if b != [] {
      assert (a + b)[..|a + b| - 1] == a + b[..|b| - 1];
      FlattenAppend(a, b[..|b| - 1]);
    } else {
      assert a + b == a;
    }
  }

  /** A type is flattened exactly when one of the assemblies holds it. */
  lemma {:induction false} FlattenMembers(a: seq<seq<TypeDescriptor>>, t: TypeDescriptor)
    ensures t in Flatten(a) <==> exists i :: 0 <= i < |a| && t in a[i]
  {
    if a != [] {
      var init := a[..|a| - 1];
      FlattenMembers(init, t);
      assert forall i :: 0 <= i < |init| ==> init[i] == a[i];
    }
  }

  lemma {:induction false} SelectedAppend(a: seq<TypeDescriptor>, b: seq<TypeDescriptor>, db: string)
    ensures Selected(a + b, db) == Selected(a, db) + Selected(b, db)
  {
    if b != [] {
      assert (a + b)[..|a + b| - 1] == a + b[..|b| - 1];
      SelectedAppend(a, b[..|b| - 1], db);
    } else {
      assert a + b == a;
    }
  }

  /** `GetAllSchemas` picks a type exactly when it is tagged for the database. */
  lemma {:induction false} SelectedMembers(types: seq<TypeDescriptor>, db: string, t: TypeDescriptor)
    ensures t in Selected(types, db) <==> t in types && IsSelected(t, db)
  {
    if types != [] {
      var init := types[..|types| - 1];
      SelectedMembers(init, db, t);
      assert types == init + [types[|types| - 1]];
    }
  }

  /** Once a type's schema fails, later types do not change the outcome. */
  lemma {:induction false} DeriveAllPrefixFailure(a: seq<TypeDescriptor>, b: seq<TypeDescriptor>)
    requires DeriveAll(a).Failure?
    ensures DeriveAll(a + b) == DeriveAll(a)
  {
    if b == [] {
      assert a + b == a;
    } else {
      assert (a + b)[..|a + b| - 1] == a + b[..|b| - 1];
      DeriveAllPrefixFailure(a, b[..|b| - 1]);
    }
  }

  /** When the earlier types all succeed, the first failure among the later ones is the outcome. */
  lemma {:induction false} DeriveAllSuffixFailure(a: seq<TypeDescriptor>, b: seq<TypeDescriptor>, e: Error)
    requires DeriveAll(a).Success?
    requires DeriveAll(b) == Failure(e)
    ensures DeriveAll(a + b) == Failure(e)
  {
    assert b != [];
    var b' := b[..|b| - 1];
    assert (a + b)[..|a + b| - 1] == a + b';
    if DeriveAll(b').Failure? {
      DeriveAllSuffixFailure(a, b', e);
    } else {
      DeriveAllConcat(a, b', DeriveAll(a).value, DeriveAll(b').value);
    }
  }

  /** Schemas of consecutive runs of types concatenate. */
  lemma {:induction false} DeriveAllConcat(a: seq<TypeDescriptor>, b: seq<TypeDescriptor>, x: seq<SchemaData>, y: seq<SchemaData>)
    requires DeriveAll(a) == Success(x)
    requires DeriveAll(b) == Success(y)
    ensures DeriveAll(a + b) == Success(x + y)
  {
    if b == [] {
      assert a + b == a;
      assert x + y == x;
    } else {
      var b' := b[..|b| - 1];
      assert (a + b)[..|a + b| - 1] == a + b';
      var y' := DeriveAll(b').value;
      DeriveAllConcat(a, b', x, y');
      assert y == y' + [y[|y| - 1]];
      assert x + y == (x + y') + [y[|y| - 1]];
    }
  }

  /** One more scanned type: kept when selected. */
  lemma SelectedStep(done: seq<TypeDescriptor>, ty: TypeDescriptor, db: string)
    ensures Selected(done + [ty], db) == Selected(done, db) + (if IsSelected(ty, db) then [ty] else [])
  {
    assert (done + [ty])[..|done|] == done;
  }

  /** One more selected type whose schema is derived: it is appended. */
  lemma DeriveAllStep(done: seq<TypeDescriptor>, ty: TypeDescriptor, x: seq<SchemaData>, y: SchemaData)
    requires DeriveAll(done) == Success(x)
    requires DeriveStoreSchema(ty, None, None) == Success(y)
    ensures DeriveAll(done + [ty]) == Success(x + [y])
  {
    assert (done + [ty])[..|done|] == done;
  }

  /** One more selected type whose schema fails: its exception ends the scan. */
  lemma DeriveAllStepFailure(done: seq<TypeDescriptor>, ty: TypeDescriptor, e: Error)
    requires DeriveAll(done).Success?
    requires DeriveStoreSchema(ty, None, None) == Failure(e)
    ensures DeriveAll(done + [ty]) == Failure(e)
  {
    assert (done + [ty])[..|done|] == done;
  }

  /** The scan of one more assembly. */
  lemma SchemasStep(assemblies: seq<seq<TypeDescriptor>>, i: nat, db: string)
    requires i < |assemblies|
    ensures Selected(Flatten(assemblies[..i + 1]), db) == Selected(Flatten(assemblies[..i]), db) + Selected(assemblies[i], db)
  {
    assert assemblies[..i + 1][..i] == assemblies[..i];
    SelectedAppend(Flatten(assemblies[..i]), assemblies[i], db);
  }

  /** A failure in `assemblies[i]` is the outcome of the whole scan. */
  lemma FailureStopsScan(assemblies: seq<seq<TypeDescriptor>>, i: nat, db: string)
    requires i < |assemblies|
    requires DeriveAll(Selected(Flatten(assemblies[..i + 1]), db)).Failure?
    ensures DeriveAll(Selected(Flatten(assemblies), db)) == DeriveAll(Selected(Flatten(assemblies[..i + 1]), db))
  {
    assert assemblies == assemblies[..i + 1] + assemblies[i + 1..];
    FlattenAppend(assemblies[..i + 1], assemblies[i + 1..]);
    SelectedAppend(Flatten(assemblies[..i + 1]), Flatten(assemblies[i + 1..]), db);
    DeriveAllPrefixFailure(Selected(Flatten(assemblies[..i + 1]), db), Selected(Flatten(assemblies[i + 1..]), db));
  }

  /** The properties of a sequence of schema objects. */
  function Snapshots(s: seq<StoreSchema>): (r: seq<SchemaData>)
    reads s
    ensures |r| == |s|
  {
    if s == [] then [] else Snapshots(s[..|s| - 1]) + [s[|s| - 1].Snapshot()]
  }

  lemma SnapshotsStep(s: seq<StoreSchema>, x: StoreSchema)
    ensures Snapshots(s + [x]) == Snapshots(s) + [x.Snapshot()]
  {
    assert (s + [x])[..|s|] == s;
  }

  lemma {:induction false} SnapshotsAppend(s: seq<StoreSchema>, t: seq<StoreSchema>)
    ensures Snapshots(s + t) == Snapshots(s) + Snapshots(t)
  {
    if t == [] {
      assert s + t == s;
    } else {
      assert (s + t)[..|s + t| - 1] == s + t[..|t| - 1];
      SnapshotsAppend(s, t[..|t| - 1]);
    }
  }

  /** A selected type whose schema fails ends the scan of its assembly with that exception. */
  lemma ScanFailure(types: seq<TypeDescriptor>, j: nat, db: string, e: Error)
    requires j < |types| && IsSelected(types[j], db)
    requires DeriveAll(Selected(types[..j], db)).Success?
    requires DeriveStoreSchema(types[j], None, None) == Failure(e)
    ensures DeriveAll(Selected(types, db)) == Failure(e)
  {
    assert types[..j + 1] == types[..j] + [types[j]];
    SelectedStep(types[..j], types[j], db);
    DeriveAllStepFailure(Selected(types[..j], db), types[j], e);
    assert types == types[..j + 1] + types[j + 1..];
    SelectedAppend(types[..j + 1], types[j + 1..], db);
    DeriveAllPrefixFailure(Selected(types[..j + 1], db), Selected(types[j + 1..], db));
  }

  /** A selected type whose schema is derived adds that schema. */
  lemma ScanSuccess(types: seq<TypeDescriptor>, j: nat, db: string, x: seq<SchemaData>, y: SchemaData)
    requires j < |types| && IsSelected(types[j], db)
    requires DeriveAll(Selected(types[..j], db)) == Success(x)
    requires DeriveStoreSchema(types[j], None, None) == Success(y)
    ensures DeriveAll(Selected(types[..j + 1], db)) == Success(x + [y])
  {
    assert types[..j + 1] == types[..j] + [types[j]];
    SelectedStep(types[..j], types[j], db);
    DeriveAllStep(Selected(types[..j], db), types[j], x, y);
  }

  /** A type that is not selected changes nothing. */
  lemma ScanSkip(types: seq<TypeDescriptor>, j: nat, db: string)
    requires j < |types| && !IsSelected(types[j], db)
    ensures Selected(types[..j + 1], db) == Selected(types[..j], db)
  {
    assert types[..j + 1] == types[..j] + [types[j]];
    SelectedStep(types[..j], types[j], db);
  }

  /** The inner loop of `GetAllSchemas`: the schemas of one assembly's selected types. */
  method ScanAssembly(types: seq<TypeDescriptor>, databaseName: Option<string>)
    returns (r: Result<seq<StoreSchema>, Error>)
    ensures r.Failure? ==> DeriveAll(Selected(types, DatabaseNameOrDefault(databaseName))) == Failure(r.error)
    ensures r.Success? ==> DeriveAll(Selected(types, DatabaseNameOrDefault(databaseName))) == Success(Snapshots(r.value))
    ensures r.Success? ==> forall k :: 0 <= k < |r.value| ==> fresh(r.value[k])
  {
    ghost var db := DatabaseNameOrDefault(databaseName);
    var schemas: seq<StoreSchema> := [];
    ghost var derived: seq<SchemaData> := [];
    for j := 0 to |types|
      invariant forall k :: 0 <= k < |schemas| ==> fresh(schemas[k])
      invariant Snapshots(schemas) == derived
      invariant DeriveAll(Selected(types[..j], db)) == Success(derived)
    {
      var ty := types[j];
      if ty.Table.Some? && ty.Table.value.DatabaseName == DatabaseNameOrDefault(databaseName) {
        var s := GetStoreSchema(ty, None, None);
        assert Snapshots(schemas) == derived;
        if s.Failure? {
          ScanFailure(types, j, db, s.error);
          return Failure(s.error);
        }
        ScanSuccess(types, j, db, derived, s.value.Snapshot());
        SnapshotsStep(schemas, s.value);
        schemas := schemas + [s.value];
        derived := derived + [s.value.Snapshot()];
      } else {
        ScanSkip(types, j, db);
      }
    }
    assert types[..|types|] == types;
    return Success(schemas);
  }

  /** `GetAllSchemas(databaseName)`: scans every type of every assembly. */
  method GetAllSchemas(assemblies: seq<seq<TypeDescriptor>>, databaseName: Option<string>)
    returns (r: Result<seq<StoreSchema>, Error>)
    ensures r.Failure? ==> AllSchemas(assemblies, databaseName) == Failure(r.error)
    ensures r.Success? ==> AllSchemas(assemblies, databaseName) == Success(Snapshots(r.value))
    ensures r.Success? ==> forall k :: 0 <= k < |r.value| ==> fresh(r.value[k])
  {
    ghost var db := DatabaseNameOrDefault(databaseName);
    var schemas: seq<StoreSchema> := [];
    for i := 0 to |assemblies|
      invariant forall k :: 0 <= k < |schemas| ==> fresh(schemas[k])
      invariant DeriveAll(Selected(Flatten(assemblies[..i]), db)) == Success(Snapshots(schemas))
    {
      ghost var before := Snapshots(schemas);
      SchemasStep(assemblies, i, db);
      var found := ScanAssembly(assemblies[i], databaseName);
      if found.Failure? {
        DeriveAllSuffixFailure(Selected(Flatten(assemblies[..i]), db), Selected(assemblies[i], db), found.error);
        FailureStopsScan(assemblies, i, db);
        return Failure(found.error);
      }
      assert Snapshots(schemas) == before;
      DeriveAllConcat(Selected(Flatten(assemblies[..i]), db), Selected(assemblies[i], db), before, Snapshots(found.value));
      SnapshotsAppend(schemas, found.value);
      schemas := schemas + found.value;
    }
    assert assemblies[..|assemblies|] == assemblies;
    return Success(schemas);
  }

  /**
   * `GetPropertyNamesFromExpression`: the member names directly under the
   * predicate's top node: both sides of a binary node (an `&&` or `||` is one
   * too, whose sides are members only when they are bare boolean members),
   * the receiver of a call.
   */
  function GetPropertyNamesFromExpression(e: Expr): (names: seq<string>)
    ensures |names| <= 2
    ensures e.BoolMember? || e.Unknown? ==> names == []
    ensures e.Binary? ==> |names| == (if e.lhs.Member? then 1 else 0) + (if e.rhs.Member? then 1 else 0)
    ensures e.Binary? && e.lhs.Member? ==> names[0] == e.lhs.name
    ensures e.Binary? && e.rhs.Member? ==> names[|names| - 1] == e.rhs.name
    ensures e.AndAlso? || e.OrElse? ==>
      |names| == (if e.left.BoolMember? then 1 else 0) + (if e.right.BoolMember? then 1 else 0)
    ensures (e.AndAlso? || e.OrElse?) && e.left.BoolMember? ==> names[0] == e.left.name
    ensures (e.AndAlso? || e.OrElse?) && e.right.BoolMember? ==> names[|names| - 1] == e.right.name
    ensures e.Call? ==> names == if e.receiver.Member? then [e.receiver.name] else []
  {
    match e
    case Binary(_, lhs, rhs) =>
      (if lhs.Member? then [lhs.name] else []) + (if rhs.Member? then [rhs.name] else [])
    case AndAlso(l, r) => BareMemberName(l) + BareMemberName(r)
    case OrElse(l, r) => BareMemberName(l) + BareMemberName(r)
    case Call(_, _, receiver, _, _) =>
      if receiver.Member? then [receiver.name] else []
    case _ => []
  }

  /** The name of a side of `&&`/`||` that is itself a `MemberExpression`. */
  function BareMemberName(e: Expr): seq<string> {
    if e.BoolMember? then [e.name] else []
  }
}
