/**
 * The schema attributes a record class is annotated with. Each attribute is
 * immutable once constructed, so each is a datatype, and each C# constructor
 * is a function that normalises its arguments.
 */
module Annotations {
  import opened Wrappers
  import opened Text

  /** `SchemaHelper.defaultNone`: the database name of a table attribute given none. */
  const DefaultedNone: string := "DefaultedNone"

  /**
   * What a column-naming attribute can hold in its designated `ColumnName`
   * property once its constructor has run: nothing, or a name that is not blank.
   */
  predicate IsNormalisedColumnName(c: Option<string>) {
    c.None? || !IsBlank(c.value)
  }

  /** `[BlazorizedIndex]`; `ColumnName` is its designated column-name property. */
  datatype IndexAttribute = IndexAttribute(ColumnName: Option<string>)

  /** `[BlazorizedUniqueIndex]`; `ColumnName` is its designated column-name property. */
  datatype UniqueIndexAttribute = UniqueIndexAttribute(ColumnName: Option<string>)

  /** `[BlazorizedPrimaryKey]`; `ColumnName` is its designated column-name property. */
  datatype PrimaryKeyAttribute = PrimaryKeyAttribute(ColumnName: Option<string>)

  /** `[BlazorizedTable]`. */
  datatype TableAttribute = TableAttribute(SchemaName: string, DatabaseName: string)

  /** The `BlazorizedIndexAttribute(string columnName = null)` constructor. */
  function NewIndexAttribute(columnName: Option<string> := None): (a: IndexAttribute)
    ensures IsNormalisedColumnName(a.ColumnName)
    ensures !IsNullOrWhiteSpace(columnName) ==> a.ColumnName == columnName
    ensures IsNullOrWhiteSpace(columnName) ==> a.ColumnName == None
  {
    if !IsNullOrWhiteSpace(columnName) then IndexAttribute(columnName) else IndexAttribute(None)
  }

  /** The `BlazorizedUniqueIndexAttribute(string columnName = null)` constructor. */
  function NewUniqueIndexAttribute(columnName: Option<string> := None): (a: UniqueIndexAttribute)
    ensures IsNormalisedColumnName(a.ColumnName)
    ensures !IsNullOrWhiteSpace(columnName) ==> a.ColumnName == columnName
    ensures IsNullOrWhiteSpace(columnName) ==> a.ColumnName == None
  {
    if !IsNullOrWhiteSpace(columnName) then UniqueIndexAttribute(columnName) else UniqueIndexAttribute(None)
  }

  /** The `BlazorizedPrimaryKeyAttribute(string columnName = null)` constructor. */
  function NewPrimaryKeyAttribute(columnName: Option<string> := None): (a: PrimaryKeyAttribute)
    ensures IsNormalisedColumnName(a.ColumnName)
    ensures !IsNullOrWhiteSpace(columnName) ==> a.ColumnName == columnName
    ensures IsNullOrWhiteSpace(columnName) ==> a.ColumnName == None
  {
    if !IsNullOrWhiteSpace(columnName) then PrimaryKeyAttribute(columnName) else PrimaryKeyAttribute(None)
  }

  /** The `BlazorizedTableAttribute(string schemaName, string? databaseName = null)` constructor. */
  function NewTableAttribute(schemaName: string, databaseName: Option<string> := None): (a: TableAttribute)
    ensures a.SchemaName == schemaName
    ensures !IsNullOrWhiteSpace(databaseName) ==> a.DatabaseName == databaseName.value
    ensures IsNullOrWhiteSpace(databaseName) ==> a.DatabaseName == DefaultedNone
  {
    TableAttribute(schemaName, if IsNullOrWhiteSpace(databaseName) then DefaultedNone else databaseName.value)
  }
}
