# Blazorized.IndexedDb core, modelled in Dafny

Blazorized.IndexedDb is a Blazor library that stores C# record classes in the browser's IndexedDB.
This project models the parts of its `IndexedDbManager` and helpers that make decisions:

- **Schema derivation.** `SchemaHelper` turns a `[BlazorizedTable]` class into a `StoreSchema`: a store name, a primary-key column, unique-index columns and index columns. It also collects every schema that belongs to one database.
- **Column naming and record marshalling.** `ManagerHelper` maps column names to property names and renames a record's dictionary keys. This covers the write path: encryption of `[BlazorizedEncrypt]` strings and the auto-key projection in `ProcessRecord`. It also covers the read path: `GetValueFromValueKind` followed by `ConvertValueToType` on each JSON value, back into a fresh record.
- **The predicate compiler.** `GetJsonQueryFromExpression` compiles a LINQ predicate into a list of condition groups. `Where` and `CollectBinaryExpressions` split a top-level `||` into one compiled query per operand.
- **The query builder.** `BlazorizedQuery<T>` records `Take`, `TakeLast`, `Skip`, `OrderBy` and `OrderByDescending` requests, and `Count` relates to `Execute`.
- **The correlation table.** Each JavaScript call gets a fresh transaction `Guid`. `CalledFromJS` routes the completion to the registered callback, to the awaiting task, or to the `ActionCompleted` event.
- **The attribute constructors** and `StoreSchema`.

The model replaces reflection with explicit descriptors. A class is a `TypeDescriptor`: its name, an optional table attribute, and its properties in declaration order. A property is a `Property`: its name, declared type, setter, the value it holds initially, and the attributes it carries. A .NET `Dictionary` is a `Dict`, an insertion-ordered sequence of pairs. `Put` overwrites a value in place and appends a new key at the end, so enumeration order is modelled too.

Each module corresponds to one area of the source:

- `Annotations` and `StoreSchemas` cover the attribute files and `Models/StoreSchema.cs`.
- `SchemaHelper` and `ManagerHelper` cover the two helper files.
- `QueryCompiler` covers `GetJsonQueryFromExpression` with its local functions.
- `WhereClause` covers `Where` and `CollectBinaryExpressions`.
- `Marshalling` covers the record conversions of `IndexDbManager.cs`.
- `Correlation` covers the transaction tables.
- `Queries` covers `BlazorizedQuery`.
- `Guids` covers the "D" text format of `Guid`.
- `Scenarios` checks the example application's `Person` class and its query.

Methods that change state, or that loop in the source, are Dafny methods with loops and frames. Each is proved against a function that specifies it. The lemmas state what the source promises about that function.

## Model

| member | source | states |
|---|---|---|
| `Annotations.NewIndexAttribute` | Blazorized.IndexedDb/SchemaAnnotations/MagicIndexAttribute.cs:16-26 | a non-blank column name is kept verbatim; a null or blank one becomes null; so a constructed attribute never carries a blank column name |
| `Annotations.NewUniqueIndexAttribute` | Blazorized.IndexedDb/SchemaAnnotations/MagicUniqueIndexAttribute.cs:16-26 | the same normalisation for `[BlazorizedUniqueIndex]` |
| `Annotations.NewPrimaryKeyAttribute` | Blazorized.IndexedDb/SchemaAnnotations/MagicPrimaryKeyAttribute.cs:16-26 | the same normalisation for `[BlazorizedPrimaryKey]` |
| `Annotations.NewTableAttribute` | Blazorized.IndexedDb/SchemaAnnotations/SchemaAnnotationDbAttribute.cs:10-14 | the schema name is kept; a null or blank database name becomes `DefaultedNone`, any other is kept |
| `StoreSchemas.WithAuto` | Blazorized.IndexedDb/Models/StoreSchema.cs:17-21 | sets `PrimaryKeyAuto` and keeps name, key and both index lists |
| `StoreSchemas.WithAutoIdempotent` | Blazorized.IndexedDb/Models/StoreSchema.cs:17-21 | applying `WithPrimaryKeyAuto` twice is the same as applying it once |
| `StoreSchemas.StoreSchema.constructor` | Blazorized.IndexedDb/Models/StoreSchema.cs:9-15 | a new schema has no key, no auto key and empty index lists |
| `StoreSchemas.StoreSchema.WithPrimaryKeyAuto` | Blazorized.IndexedDb/Models/StoreSchema.cs:17-21 | returns the same object, whose new state is `WithAuto` of the old one |
| `Dictionaries.Lookup` | Blazorized.IndexedDb/IndexDbManager.cs:563 | `TryGetValue` misses exactly when no entry has the key, and a hit is the value of an entry with that key |
| `Dictionaries.Put` | Blazorized.IndexedDb/Helpers/ManagerHelper.cs:74 | an indexer store appends a new key; for an existing key it overwrites the first entry with that key in place, so the other entries and the enumeration order are kept |
| `Dictionaries.PutKeys` | Blazorized.IndexedDb/Helpers/ManagerHelper.cs:74 | after a store, the keys are the old keys plus the stored key |
| `Dictionaries.PutUnique` | Blazorized.IndexedDb/Helpers/ManagerHelper.cs:74 | a store keeps keys unique |
| `Dictionaries.LookupPut` | Blazorized.IndexedDb/Helpers/ManagerHelper.cs:74 | looking up the stored key gives the stored value; every other lookup is unchanged |
| `Dictionaries.LookupAt` | Blazorized.IndexedDb/IndexDbManager.cs:563 | with unique keys, looking up an entry's key gives that entry's value |
| `Dictionaries.FirstKeyWithValue` | Blazorized.IndexedDb/Helpers/ManagerHelper.cs:19 | `FirstOrDefault(x => x.Value == v)` misses exactly when no entry holds `v`; a hit is the key of the first entry holding `v`, in enumeration order |
| `Dictionaries.FirstKeyWithValueAt` | Blazorized.IndexedDb/Helpers/ManagerHelper.cs:19 | when only entry `i` holds its value, the search finds entry `i`'s key |
| `Descriptors.FindProperty` | Blazorized.IndexedDb/IndexDbManager.cs:663 | `GetProperty(name)` returns a property of that name, and returns null exactly when none has it |
| `Descriptors.Record.constructor` | Blazorized.IndexedDb/IndexDbManager.cs:577 | a fresh record holds the given property values |
| `Descriptors.InitialValues` | Blazorized.IndexedDb/IndexDbManager.cs:577 | `Activator.CreateInstance` gives a value to every declared property and to no other name, and each property starts at its initializer's value |
| `Guids.FormatGuid` | Blazorized.IndexedDb/IndexDbManager.cs:547-548 | the "D" text of a Guid has 36 characters |
| `Guids.ParseGuid` | Blazorized.IndexedDb/IndexDbManager.cs:547-548 | the model's `Guid.Parse` accepts exactly "D"-format text (32 hex digits grouped 8-4-4-4-12 by hyphens), the format `Guid.ToString()` writes; other formats are out of scope |
| `Guids.HexRoundTrip` | Blazorized.IndexedDb/IndexDbManager.cs:547-548 | reading back `n` hex digits of `x < 16^n` gives `x` |
| `Guids.FormatLayout` | Blazorized.IndexedDb/IndexDbManager.cs:547-548 | the formatted text has hyphens at 8, 13, 18 and 23, and its digits are the 32 hex digits of the value |
| `Guids.ParseFormat` | Blazorized.IndexedDb/IndexDbManager.cs:547-548 | parsing the text of a Guid gives that Guid back |
| `Guids.FormatInjective` | Blazorized.IndexedDb/IndexDbManager.cs:547-548 | two Guids with the same text are equal |
| `SchemaHelper.GetSchemaName` | Blazorized.IndexedDb/Helpers/SchemaHelper.cs:11-21 | the table attribute's schema name, else the class name |
| `SchemaHelper.GetPropertyColumnName` | Blazorized.IndexedDb/Helpers/SchemaHelper.cs:115-141 | the attribute's designated column name when the attribute is present and the name is not null or blank, else the property name |
| `SchemaHelper.ColumnNameOfNormalised` | Blazorized.IndexedDb/Helpers/SchemaHelper.cs:115-141 | for constructor-built attributes, the column is the raw `ColumnName` or, when null, the property name |
| `SchemaHelper.PrimaryKeyProperties` | Blazorized.IndexedDb/Helpers/SchemaHelper.cs:90-93 | exactly the properties with `[BlazorizedPrimaryKey]`, no more of them than there are properties |
| `SchemaHelper.IndexColumnsMembers` | Blazorized.IndexedDb/Helpers/SchemaHelper.cs:107-110 | an index column is listed exactly when some `[BlazorizedIndex]` property resolves to it |
| `SchemaHelper.UniqueIndexColumnsMembers` | Blazorized.IndexedDb/Helpers/SchemaHelper.cs:100-104 | a unique-index column is listed exactly when some `[BlazorizedUniqueIndex]` property resolves to it |
| `SchemaHelper.ResolvePrimaryKey` | Blazorized.IndexedDb/Helpers/SchemaHelper.cs:81-97 | an explicit key must name a property and is kept verbatim; otherwise no key attribute, or more than one, throws; a single one gives its column name |
| `SchemaHelper.DeriveStoreSchema` | Blazorized.IndexedDb/Helpers/SchemaHelper.cs:66-113 | a non-blank name is used as the store name, else the schema name; it fails exactly when key resolution fails; otherwise it gives the resolved key, no auto key, and the unique-index and index columns in declaration order |
| `SchemaHelper.GetStoreSchema` | Blazorized.IndexedDb/Helpers/SchemaHelper.cs:66-113 | a fresh `StoreSchema` whose state is `DeriveStoreSchema`, or that function's exception |
| `SchemaHelper.AddIndexes` | Blazorized.IndexedDb/Helpers/SchemaHelper.cs:99-110 | the two loops add the unique-index columns and then the index columns; nothing else changes |
| `SchemaHelper.GetStoreSchemaMatches` | Blazorized.IndexedDb/Helpers/SchemaHelper.cs:66-113 | the derived schema in full: store name, resolved key, `false`, unique-index columns, index columns |
| `SchemaHelper.DatabaseNameOrDefault` | Blazorized.IndexedDb/Helpers/SchemaHelper.cs:52 | a null or blank database name means `DefaultedNone` |
| `SchemaHelper.Selected` | Blazorized.IndexedDb/Helpers/SchemaHelper.cs:49-53 | only types whose table attribute names the database are kept |
| `SchemaHelper.SelectedMembers` | Blazorized.IndexedDb/Helpers/SchemaHelper.cs:49-53 | a type is kept exactly when it is scanned and its table attribute names the database |
| `SchemaHelper.DeriveAll` | Blazorized.IndexedDb/Helpers/SchemaHelper.cs:54 | a successful scan yields one schema per selected type |
| `SchemaHelper.FlattenMembers` | Blazorized.IndexedDb/Helpers/SchemaHelper.cs:43-47 | the scan visits exactly the types of the given assemblies |
| `SchemaHelper.DeriveAllConcat` | Blazorized.IndexedDb/Helpers/SchemaHelper.cs:43-57 | scanning two type lists in turn collects both schema lists in order |
| `SchemaHelper.DeriveAllPrefixFailure` | Blazorized.IndexedDb/Helpers/SchemaHelper.cs:43-57 | an exception on an earlier type ends the whole scan with that exception |
| `SchemaHelper.FailureStopsScan` | Blazorized.IndexedDb/Helpers/SchemaHelper.cs:43-57 | once an assembly throws, the later assemblies do not change the outcome |
| `SchemaHelper.SnapshotsAppend` | Blazorized.IndexedDb/Helpers/SchemaHelper.cs:54 | the states of a concatenated list of schemas are the concatenated states |
| `SchemaHelper.ScanAssembly` | Blazorized.IndexedDb/Helpers/SchemaHelper.cs:45-56 | the inner loop gives fresh schemas whose states are `DeriveAll` of the selected types, or the first exception |
| `SchemaHelper.GetAllSchemas` | Blazorized.IndexedDb/Helpers/SchemaHelper.cs:38-59 | fresh schemas whose states are `AllSchemas` of the assemblies for that database, or the first exception |
| `SchemaHelper.GetPropertyNamesFromExpression` | Blazorized.IndexedDb/Helpers/SchemaHelper.cs:23-35 | the member names of a binary node's member sides (left first), also when the node is `&&` or `||` and a side is a bare boolean member; the member name of a call's receiver; nothing for any other predicate |
| `ManagerHelper.MappingColumnResolves` | Blazorized.IndexedDb/Helpers/ManagerHelper.cs:60-72 | for constructor-built attributes, the mapping's column agrees with `GetPropertyColumnName` for the first attribute present |
| `ManagerHelper.GeneratePropertyMapping` | Blazorized.IndexedDb/Helpers/ManagerHelper.cs:54-77 | the loop builds `PropertyMapping`: each property, in order, stored under its column |
| `ManagerHelper.PropertyMappingUnique` | Blazorized.IndexedDb/Helpers/ManagerHelper.cs:54-77 | the mapping has unique keys |
| `ManagerHelper.PropertyMappingHasKey` | Blazorized.IndexedDb/Helpers/ManagerHelper.cs:54-77 | a column is mapped exactly when some property resolves to it |
| `ManagerHelper.PropertyMappingLast` | Blazorized.IndexedDb/Helpers/ManagerHelper.cs:74 | on a column collision the last property wins |
| `ManagerHelper.PropertyMappingEntries` | Blazorized.IndexedDb/Helpers/ManagerHelper.cs:54-77 | without collisions, entry `i` is property `i`'s (column, name) |
| `ManagerHelper.TargetKey` | Blazorized.IndexedDb/Helpers/ManagerHelper.cs:19-27 | a key that is some entry's value is renamed to the key of the first entry holding it; any other key is kept |
| `ManagerHelper.EntryKey` | Blazorized.IndexedDb/Helpers/ManagerHelper.cs:41-46 | a property whose name is some mapping entry's value is filed under the key of the first entry holding it; any other property under its own name |
| `ManagerHelper.ConvertPropertyNamesUsingMappings` | Blazorized.IndexedDb/Helpers/ManagerHelper.cs:14-30 | the loop builds `RenamedRecord`, storing each value under its target key |
| `ManagerHelper.RenamedRecordKeys` | Blazorized.IndexedDb/Helpers/ManagerHelper.cs:14-30 | the renamed record's keys are exactly the target keys of the input's keys |
| `ManagerHelper.RenamedRecordUnique` | Blazorized.IndexedDb/Helpers/ManagerHelper.cs:14-30 | the renamed record has unique keys |
| `ManagerHelper.RenamedRecordEntries` | Blazorized.IndexedDb/Helpers/ManagerHelper.cs:14-30 | without target collisions, each entry keeps its position and value under its target key |
| `ManagerHelper.RenamedRecordLookup` | Blazorized.IndexedDb/Helpers/ManagerHelper.cs:14-30 | without target collisions, each input value is found under its target key |
| `ManagerHelper.ConvertRecordToDictionary` | Blazorized.IndexedDb/Helpers/ManagerHelper.cs:32-52 | the loop builds `RecordDictionary`: each property's value under the first mapped column that names it, else under its own name |
| `ManagerHelper.RecordDictionaryEntries` | Blazorized.IndexedDb/Helpers/ManagerHelper.cs:32-52 | with distinct names and columns, entry `i` is property `i`'s (column, value) |
| `ManagerHelper.RecordDictionaryEntriesFor` | Blazorized.IndexedDb/Helpers/ManagerHelper.cs:38-49 | for any mapping that files each property under its column, entry `i` is property `i`'s (column, value) |
| `ManagerHelper.RecordDictionaryRoundTrip` | Blazorized.IndexedDb/Helpers/ManagerHelper.cs:32-77 | every column the dictionary uses maps back to its property, and every value is found under its property's column |
| `ManagerHelper.GetValueFromValueKind` | Blazorized.IndexedDb/Helpers/ManagerHelper.cs:79-94 | a JSON number becomes a decimal, a string a string, true and false booleans, any other kind null; a non-JSON value is returned unchanged |
| `ManagerHelper.ReadBackSerialized` | Blazorized.IndexedDb/Helpers/ManagerHelper.cs:79-94 | null, decimals, booleans and strings read back unchanged; integers read back as decimals, Guids as their text, enums as their ordinal |
| `Marshalling.GetDefaultValue` | Blazorized.IndexedDb/IndexDbManager.cs:238 | null exactly for reference types; otherwise a value of the requested type |
| `Marshalling.UnsetKeys` | Blazorized.IndexedDb/IndexDbManager.cs:212-213 | a key counts as unset exactly when it is null or the zero of its type; a string never is |
| `Marshalling.RoundHalfEven` | Blazorized.IndexedDb/IndexDbManager.cs:550 | `Convert.ToInt32(decimal)` rounds to the nearest integer, ties to even |
| `Marshalling.ChangeType` | Blazorized.IndexedDb/IndexDbManager.cs:550 | a success has the target type; null converts only to a reference type; a value already of the target type is kept |
| `Marshalling.ConvertValueToType` | Blazorized.IndexedDb/IndexDbManager.cs:545-551 | a string headed for a Guid property is parsed, and malformed text throws; everything else goes through `ChangeType` |
| `Marshalling.ConvertReadBack` | Blazorized.IndexedDb/IndexDbManager.cs:566-567 | a storable value that is written out, read back and converted to its property's type is the same value |
| `Marshalling.EnumDoesNotReadBack` | Blazorized.IndexedDb/IndexDbManager.cs:566-567 | a `StringComparison` property does not read back: its ordinal arrives as a decimal and the conversion throws |
| `Marshalling.DecimalToInt32` | Blazorized.IndexedDb/IndexDbManager.cs:550 | a decimal converts to an int exactly when its rounding fits 32 bits, and gives that rounding (2.5 gives 2, 3.5 gives 4) |
| `Marshalling.FindStore` | Blazorized.IndexedDb/IndexDbManager.cs:179 | the first store in the list with the schema's name, and none exactly when no store has it |
| `Marshalling.EncryptTagged` | Blazorized.IndexedDb/IndexDbManager.cs:182-183 | exactly the properties tagged `[BlazorizedEncrypt]` |
| `Marshalling.EncryptOne` | Blazorized.IndexedDb/IndexDbManager.cs:186-199 | one step fails exactly on a non-string property or one without a setter; otherwise it stores the encrypted (or unchanged blank) value |
| `Marshalling.EncryptAll` | Blazorized.IndexedDb/IndexDbManager.cs:186-199 | the loop never adds or removes a property |
| `Marshalling.EncryptAllFails` | Blazorized.IndexedDb/IndexDbManager.cs:186-199 | the loop throws exactly when some tagged property is not a writable string, and with that property's exception |
| `Marshalling.EncryptAllValues` | Blazorized.IndexedDb/IndexDbManager.cs:186-199 | on success each tagged property holds its encrypted value and every other property is unchanged |
| `Marshalling.FirstPrimaryKey` | Blazorized.IndexedDb/IndexDbManager.cs:204-206 | the first `[BlazorizedPrimaryKey]` property in declaration order, and none exactly when there is none |
| `Marshalling.Projected` | Blazorized.IndexedDb/IndexDbManager.cs:215-223 | the mapped properties, minus the key when it is to be omitted |
| `Marshalling.NamedValues` | Blazorized.IndexedDb/IndexDbManager.cs:217 | entry `i` is property `i`'s name and value |
| `Marshalling.NamedValuesMembers` | Blazorized.IndexedDb/IndexDbManager.cs:217 | the entries are exactly the (name, value) pairs of the kept properties |
| `Marshalling.Projection` | Blazorized.IndexedDb/IndexDbManager.cs:202-234 | the record itself is returned when the store has no auto key or the class has no key property |
| `Marshalling.ProjectionEntries` | Blazorized.IndexedDb/IndexDbManager.cs:208-230 | with an auto key, the expando holds exactly the mapped properties' values, without the key when the key is unset |
| `Marshalling.ProcessRecord` | Blazorized.IndexedDb/IndexDbManager.cs:176-235 | a missing store throws and changes nothing; otherwise the record holds the encryption loop's values; the method fails with its exception or returns the projection |
| `Marshalling.SetFrom` | Blazorized.IndexedDb/IndexDbManager.cs:580-585 | an unmapped key, or one mapped to no property, changes nothing; otherwise the value is converted to the property's type first: a failed conversion is that exception, a read-only property is the missing-setter exception, and a writable one gets exactly the converted value, nothing else changing; a successful set keeps the record's property set |
| `Marshalling.ConvertIndexedDbRecordToCRecord` | Blazorized.IndexedDb/IndexDbManager.cs:574-587 | a fresh record whose values are the reconstruction of the item from the initial values, or its exception |
| `Marshalling.ReconstructUntouched` | Blazorized.IndexedDb/IndexDbManager.cs:579-585 | reconstruction keeps the property set and leaves alone a property no key maps to |
| `Marshalling.ReconstructAppend` | Blazorized.IndexedDb/IndexDbManager.cs:579-585 | reconstructing two item lists in turn is reconstructing their concatenation, and an exception stops it |
| `Marshalling.ReconstructIgnoresUnmapped` | Blazorized.IndexedDb/IndexDbManager.cs:580 | an item under an unmapped key may be dropped without changing the result |
| `Marshalling.ReconstructAll` | Blazorized.IndexedDb/IndexDbManager.cs:559-570 | a successful conversion yields one record per item |
| `Marshalling.ReconstructAllStops` | Blazorized.IndexedDb/IndexDbManager.cs:559-570 | an exception on an earlier item is the conversion's outcome |
| `Marshalling.ValuesOfPointwise` | Blazorized.IndexedDb/IndexDbManager.cs:569 | the value maps of records that agree one by one are equal |
| `Marshalling.ConvertListToRecords` | Blazorized.IndexedDb/IndexDbManager.cs:554-572 | fresh records whose values are `ReconstructAll` of the list, or its exception |
| `Marshalling.Stored` | Blazorized.IndexedDb/IndexDbManager.cs:512 | what the store returns is each written entry under the same key, as its JSON element |
| `Marshalling.FindPropertyAt` | Blazorized.IndexedDb/IndexDbManager.cs:582 | with distinct names, `GetProperty` finds each property by its name |
| `Marshalling.ReadBackOne` | Blazorized.IndexedDb/IndexDbManager.cs:580-585 | one stored column that maps back to its property sets that property to the original value |
| `Marshalling.ReadBackFrom` | Blazorized.IndexedDb/IndexDbManager.cs:579-585 | reading back the rest of a written record completes the original values |
| `Marshalling.AgreeEverywhere` | Blazorized.IndexedDb/IndexDbManager.cs:577 | two value maps over the same properties that agree on each property are equal |
| `Marshalling.SentEntries` | Blazorized.IndexedDb/Helpers/ManagerHelper.cs:32-52 | the record sent for storage has one (column, value) entry per property, in order |
| `Marshalling.MappingLookups` | Blazorized.IndexedDb/Helpers/ManagerHelper.cs:54-77 | with distinct names and columns, each property's column maps back to its name |
| `Marshalling.RecordRoundTrip` | Blazorized.IndexedDb/IndexDbManager.cs:574-587 | a record written under its columns, stored, and converted back holds exactly its original values |
| `Marshalling.RenameMapping` | Blazorized.IndexedDb/Helpers/ManagerHelper.cs:54-77 | for A indexed as "B" and B indexed as "C", the mapping is B→A, C→B |
| `Marshalling.RenameIntended` | Blazorized.IndexedDb/Helpers/ManagerHelper.cs:32-52 | for that class, renaming once files A's value under B and B's under C |
| `Marshalling.RenameAsWritten` | Blazorized.IndexedDb/IndexDbManager.cs:141-147 | renaming twice files both values under C, and A's value is lost |
| `Marshalling.DoubleRenameLosesValue` | Blazorized.IndexedDb/IndexDbManager.cs:141-147 | the single and double renaming differ on that input: two entries against one |
| `Marshalling.KeptColumn` | Blazorized.IndexedDb/Helpers/ManagerHelper.cs:19-27 | a column that is no property's name is left unchanged by the second renaming |
| `Marshalling.DoubleRenameHarmless` | Blazorized.IndexedDb/IndexDbManager.cs:141-147 | when no column is the name of another property, renaming twice equals renaming once |
| `QueryCompiler.MirrorOperation` | Blazorized.IndexedDb/IndexDbManager.cs:627-635 | the four order comparisons are swapped pairwise; every other operation is kept |
| `QueryCompiler.MirrorInvolution` | Blazorized.IndexedDb/IndexDbManager.cs:627-635 | mirroring twice gives the operation back |
| `QueryCompiler.ConditionFor` | Blazorized.IndexedDb/IndexDbManager.cs:659-697 | an unknown member adds nothing; a known member without a key attribute throws; otherwise the condition names the first attribute's column, with the operation, the value, whether it is a string, and the case sensitivity |
| `QueryCompiler.CallCaseSensitive` | Blazorized.IndexedDb/IndexDbManager.cs:648-652 | a constant `StringComparison` second argument decides: only Ordinal and CurrentCulture are case sensitive; otherwise it is true |
| `QueryCompiler.SwappedOperandsAgree` | Blazorized.IndexedDb/IndexDbManager.cs:623-637 | `constant op member` compiles like `member op' constant` with the mirrored operator; for equality both orders agree |
| `QueryCompiler.DroppedLeaves` | Blazorized.IndexedDb/IndexDbManager.cs:617-665 | comparisons without one member and one constant, non-string calls or other methods, and unknown members compile to nothing |
| `QueryCompiler.LeafCaseSensitivity` | Blazorized.IndexedDb/IndexDbManager.cs:640-696 | comparisons are never case sensitive; a call carries its comparison's sensitivity and its operation (`Equals` as `StringEquals`); `isString` is whether the value is a string |
| `QueryCompiler.LeafNamesItsMember` | Blazorized.IndexedDb/Helpers/SchemaHelper.cs:23-35 | the column a compiled leaf filters on is that of one of the member names `GetPropertyNamesFromExpression` reads off the same node |
| `QueryCompiler.Grouped` | Blazorized.IndexedDb/IndexDbManager.cs:714-720 | the final list has at most two groups |
| `QueryCompiler.PlaceAllAppend` | Blazorized.IndexedDb/IndexDbManager.cs:699-710 | placing two leaf lists in turn is placing their concatenation |
| `QueryCompiler.TraverseMatchesLeaves` | Blazorized.IndexedDb/IndexDbManager.cs:595-615 | the traversal fails exactly when leaf collection does, with the same exception, and otherwise places the leaves in order |
| `QueryCompiler.PlaceAllFromEmpty` | Blazorized.IndexedDb/IndexDbManager.cs:699-710 | from empty lists, the main leaves form the condition list and the or-branch leaves form one group |
| `QueryCompiler.JsonQueryShape` | Blazorized.IndexedDb/IndexDbManager.cs:589-721 | the query is the or-branch group followed by the main conditions, or the traversal's exception |
| `QueryCompiler.JsonQueryGroups` | Blazorized.IndexedDb/IndexDbManager.cs:699-720 | a compiled query has at most two groups, and none is empty |
| `QueryCompiler.NestedOrFails` | Blazorized.IndexedDb/IndexDbManager.cs:603-606 | an `||` under an `||` throws, and that exception arises only from such a nesting |
| `QueryCompiler.NoOrNoOrs` | Blazorized.IndexedDb/IndexDbManager.cs:599-612 | without `||`, no condition lands in an or-group |
| `QueryCompiler.OrsAppend` | Blazorized.IndexedDb/IndexDbManager.cs:699-708 | the or-branch leaves of a concatenation are concatenated |
| `QueryCompiler.AndOnlySingleGroup` | Blazorized.IndexedDb/IndexDbManager.cs:714-720 | an `&&`-only predicate compiles to one group of its conditions in order, or to nothing |
| `QueryCompiler.QueryBuilder.constructor` | Blazorized.IndexedDb/IndexDbManager.cs:592-593 | both condition lists start empty |
| `QueryCompiler.QueryBuilder.AddConditionInternal` | Blazorized.IndexedDb/IndexDbManager.cs:659-712 | missing operands add nothing; otherwise it throws like `ConditionFor`, or places its condition in the main list or the last or-group |
| `QueryCompiler.QueryBuilder.AddCondition` | Blazorized.IndexedDb/IndexDbManager.cs:617-657 | the new state is the traversal of the leaf from the old state, or its exception |
| `QueryCompiler.QueryBuilder.TraverseExpression` | Blazorized.IndexedDb/IndexDbManager.cs:595-615 | the new state is `Traverse` of the expression from the old state, or its exception |
| `QueryCompiler.GetJsonQueryFromExpression` | Blazorized.IndexedDb/IndexDbManager.cs:589-721 | the method's result is the compiled query `JsonQuery` |
| `WhereClause.OrOperands` | Blazorized.IndexedDb/IndexDbManager.cs:524-533 | splitting at `||` gives at least one operand, none of them an `||`; a non-`||` is its own only operand |
| `WhereClause.CompileAllAppend` | Blazorized.IndexedDb/IndexDbManager.cs:531-532 | compiling two operand lists in turn is compiling their concatenation, and the first exception wins |
| `WhereClause.CollectedIsCompileAll` | Blazorized.IndexedDb/IndexDbManager.cs:522-543 | collecting an expression compiles its `||` operands from left to right |
| `WhereClause.CompileAllEntries` | Blazorized.IndexedDb/IndexDbManager.cs:540-541 | on success entry `i` is the compiled query of operand `i` |
| `WhereClause.CompileAllFails` | Blazorized.IndexedDb/IndexDbManager.cs:540 | compiling fails exactly when some operand fails, with the first failing operand's exception |
| `WhereClause.CollectedEntries` | Blazorized.IndexedDb/IndexDbManager.cs:522-543 | one compiled query per `||` operand, in order |
| `WhereClause.CollectedFails` | Blazorized.IndexedDb/IndexDbManager.cs:522-543 | collection throws exactly when some `||` operand does not compile |
| `WhereClause.SingleEntryWithoutOr` | Blazorized.IndexedDb/IndexDbManager.cs:534-542 | a predicate without a top-level `||` yields exactly its own compiled query |
| `WhereClause.CollectBinaryExpressions` | Blazorized.IndexedDb/IndexDbManager.cs:522-543 | appends the collected queries to the query's list, or throws that exception; the stored query functions and uniqueness are unchanged |
| `WhereClause.Where` | Blazorized.IndexedDb/IndexDbManager.cs:477-489 | a fresh query named by the schema name that holds the collected queries, no stored functions and unique results, or the exception |
| `Queries.GetMemberExpressionFromLambda` | Blazorized.IndexedDb/Models/BlazorizedQuery.cs:158-167 | the member of a member body or of a unary body's member operand; anything else throws |
| `Queries.OrderByColumn` | Blazorized.IndexedDb/Models/BlazorizedQuery.cs:96-116 | succeeds exactly for a property with a key attribute, naming the index, then key, then unique-index column; a field or an untagged property throws the matching exception |
| `Queries.OrderColumnAgreesWithCompiler` | Blazorized.IndexedDb/Models/BlazorizedQuery.cs:111-116 | ordering and filtering pick the same column unless a property has both a unique index and a key but no index |
| `Queries.OrderColumnDiffersFromCompiler` | Blazorized.IndexedDb/Models/BlazorizedQuery.cs:111-116 | in that case ordering uses the key's column and filtering the unique index's |
| `Queries.CountIsExecuteLength` | Blazorized.IndexedDb/Models/BlazorizedQuery.cs:83-90 | `Count()` is the length of what `Execute()` returns, and a null result gives an empty list and 0 |
| `Queries.BlazorizedQuery.constructor` | Blazorized.IndexedDb/Models/BlazorizedQuery.cs:8-16 | a new query has its schema name, no queries, no stored functions, and unique results |
| `Queries.BlazorizedQuery.ResultsNotUnique` | Blazorized.IndexedDb/Models/BlazorizedQuery.cs:24-28 | clears uniqueness, keeps everything else, and returns itself |
| `Queries.BlazorizedQuery.Take` | Blazorized.IndexedDb/Models/BlazorizedQuery.cs:30-37 | appends a `Take` with the amount, keeps everything else, and returns itself |
| `Queries.BlazorizedQuery.TakeLast` | Blazorized.IndexedDb/Models/BlazorizedQuery.cs:39-46 | appends a `Take_Last` with the amount, keeps everything else, and returns itself |
| `Queries.BlazorizedQuery.Skip` | Blazorized.IndexedDb/Models/BlazorizedQuery.cs:48-55 | appends a `Skip` with the amount, keeps everything else, and returns itself |
| `Queries.BlazorizedQuery.OrderBy` | Blazorized.IndexedDb/Models/BlazorizedQuery.cs:94-125 | appends an `Order_By` on the ordering column and returns itself, or throws and changes nothing |
| `Queries.BlazorizedQuery.OrderByDescending` | Blazorized.IndexedDb/Models/BlazorizedQuery.cs:128-155 | appends an `Order_By_Descending` on the ordering column and returns itself, or throws and changes nothing |
| `Correlation.FirstFresh` | Blazorized.IndexedDb/IndexDbManager.cs:1043-1051 | the retry loop stops at the first draw not yet in use |
| `Correlation.DispatchIgnoresEmpty` | Blazorized.IndexedDb/IndexDbManager.cs:892 | a completion for `Guid.Empty` changes nothing |
| `Correlation.DispatchDeliversOnce` | Blazorized.IndexedDb/IndexDbManager.cs:890-919 | any other completion delivers exactly one event carrying its arguments: to a live callback when there is one, else to a waiting task, else to the event |
| `Correlation.DispatchRemovesOnlyItsToken` | Blazorized.IndexedDb/IndexDbManager.cs:890-919 | a completion removes at most its own entry, and from only one table |
| `Correlation.DeadEntryKept` | Blazorized.IndexedDb/IndexDbManager.cs:890-919 | an entry whose callback is gone stays in the table, and the event goes to the task or to `ActionCompleted` |
| `Correlation.IssueThenComplete` | Blazorized.IndexedDb/IndexDbManager.cs:890-919 | registering a callback and completing its transaction invokes it once and leaves the tables as they were |
| `Correlation.IndexedDbManager.constructor` | Blazorized.IndexedDb/IndexDbManager.cs:23-24 | both tables start empty |
| `Correlation.IndexedDbManager.GenerateTransaction` | Blazorized.IndexedDb/IndexDbManager.cs:1039-1053 | returns the first unused draw, registers its callback under it and changes nothing else |
| `Correlation.IndexedDbManager.GenerateTaskTransaction` | Blazorized.IndexedDb/IndexDbManager.cs:1025-1037 | returns the first draw not already awaited, adds it to the awaited set and changes nothing else |
| `Correlation.IndexedDbManager.RaiseEvent` | Blazorized.IndexedDb/IndexDbManager.cs:1055-1056 | raises one event carrying its arguments |
| `Correlation.IndexedDbManager.CalledFromJS` | Blazorized.IndexedDb/IndexDbManager.cs:890-919 | the new state is `Dispatch` of the old one |
| `Correlation.IndexedDbManager.GetNewArgs` | Blazorized.IndexedDb/IndexDbManager.cs:1015-1023 | a fresh array of the object reference, the transaction, and then the arguments in order |
| `Scenarios.AttributesAsConstructed` | IndexDb.Example/Models/Person.cs:6-24 | the example's attributes are the values their constructors build |
| `Scenarios.PersonName` | IndexDb.Example/Models/Person.cs:15-16 | `Person.Name` is found by its name and carries a bare index |
| `Scenarios.PersonAge` | IndexDb.Example/Models/Person.cs:18-19 | `Person._Age` is found by its name and is indexed as "Age" |
| `Scenarios.NameStartsWithEntry` | IndexDb.Example/Pages/Index.razor.cs:96-98 | `Name.StartsWith(prefix, OrdinalIgnoreCase)` compiles to one case-insensitive `StartsWith` on column "Name" |
| `Scenarios.ThirdOperandEntry` | IndexDb.Example/Pages/Index.razor.cs:96-98 | `Name.StartsWith("j", …) && _Age > 35` compiles to one group holding both conditions, with the age on column "Age" |
| `Scenarios.PersonQueryEntries` | IndexDb.Example/Pages/Index.razor.cs:96-98 | the example query `Where` yields three compiled queries, one per `||` operand |
| `Scenarios.PersonOrderByIdThrows` | IndexDb.Example/Pages/Index.razor.cs:99 | the example's `OrderBy(x => x._Id)` throws, since `_Id` carries no key attribute |
| `Scenarios.PersonNeedsExplicitKey` | IndexDb.Example/Models/Person.cs:9-10 | `Person` has no key attribute, so deriving its schema throws unless a key is named, and naming "id" works |

## Left out

- The façade methods of `IndexedDbManager` (`Add`, `Update`, `Delete`, `GetAll`, `WhereV2`, …), the JavaScript interop calls, the module loader, the call timeout and the factories are left out. They carry no logic beyond the helpers modelled here, plus browser calls. What the store hands back is modelled by `Stored`, and `Count` and `Execute` take the store's result as an argument.
- `PreprocessPredicate` and its `PredicateVisitor` are not part of this model, so predicates reach the compiler unchanged.
- `Marshalling.ProcessRecord`: encryption through `EncryptionFactory` and the JS runtime becomes a function parameter `encrypt`.
- JSON serialisation (Newtonsoft, camelCase, `JToken.FromObject`) is left out. A compiled query is the list of condition groups it would serialise.
- `Correlation.IndexedDbManager.GenerateTransaction`: `Guid.NewGuid` becomes a sequence of draws, and the method requires some draw to be fresh. The source loops until one is.
- `Correlation.IndexedDbManager.GenerateTaskTransaction`: the task map is a set of awaited transactions. Completing `TaskCompletionSource` results and awaiting them are not modelled.
- `Correlation.Dispatch`: a weak reference whose target was collected is modelled only through a null action. Garbage collection is not modelled.
- `Correlation.IndexedDbManager.RaiseEvent`: `ActionCompleted` subscribers are not modelled; raising an event appends it to a log.
- `Marshalling.ChangeType`: `Convert.ChangeType` is modelled for the value kinds here. Parsing strings into numbers and booleans and formatting numbers as strings depend on the culture, so they return a "not modelled" error.
- `Marshalling.ConvertValueToType`: a string becomes a `Guid` through `Guids.ParseGuid`, so only "D"-format text converts.
- `Guids.ParseGuid`: models `Guid.Parse` on the "D" format only, the one `Guid` JSON and `Guid.ToString()` use. The model rejects text `Guid.Parse` accepts: the "N" (32 digits, no hyphens), "B" (braces), "P" (parentheses) and "X" (hexadecimal fields in braces) formats, and any of them with leading or trailing whitespace.
- `decimal` is a mathematical real, so its 28-digit precision is not modelled. `int` is a mathematical integer bounded to 32 bits where the source converts to it.
- `GetPropertyColumnName` is a function, not a loop over the attribute's properties. Each of the three attributes has exactly one property, `ColumnName`, carrying `[BlazorizedColumnNameDesignator]`, so the reflective search always finds that one.
- `GeneratePropertyMapping` takes the column name of the first attribute present (index, then unique index, then key), even when that attribute's `ColumnName` is null. The model follows the code.
- `Marshalling.ConvertListToRecords` calls `ConvertIndexedDbRecordToCRecord` once per item. The source repeats the same loop inline.
- `StoreSchemas.StoreSchema.constructor`: `Name` starts as "" where the source leaves it null. `GetStoreSchema` always sets it before the schema is used.
- `Person` is checked with `DbNames.Client` as a parameter, since that constant is not part of this model. `First` and `Last` are private and marked not working, so they are left out, as are the storage estimate and `DbMigrationInstruction`.
- `[BlazorizedColumnNameDesignator]` and `[BlazorizedEncrypt]` are marker attributes without logic. They appear only as the designated `ColumnName` and the `Encrypt` flag of a property.

## Findings

| source | as written | input that shows it | evidently intended | confidence | as-written member | corrected member |
|---|---|---|---|---|---|---|
| Blazorized.IndexedDb/IndexDbManager.cs:141-147 | `ConvertRecordToDictionary` already files each value under its column, and `ConvertPropertyNamesUsingMappings` then renames those columns a second time | property A indexed as "B" and property B indexed as "C", with values A=1, B=2: the record sent is {C: 2} | one renaming from property names to columns, sending {B: 1, C: 2} | not executed | `Marshalling.DoubleRenameLosesValue` (on `Marshalling.SentAsWritten`) | `Marshalling.SentIntended` (proved by `Marshalling.RecordRoundTrip`) |
