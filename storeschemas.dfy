/** `StoreSchema`: the description of one object store that is handed to the database. */
module StoreSchemas {
  import opened Wrappers

  /** The values of a `StoreSchema` object's five properties. */
  datatype SchemaData = SchemaData(
    Name: string,
    PrimaryKey: Option<string>,
    PrimaryKeyAuto: bool,
    UniqueIndexes: seq<string>,
    Indexes: seq<string>)

  /** What `WithPrimaryKeyAuto` makes of a schema's properties. */
  function WithAuto(s: SchemaData): (r: SchemaData)
    ensures r.PrimaryKeyAuto
    ensures r.Name == s.Name && r.PrimaryKey == s.PrimaryKey
    ensures r.UniqueIndexes == s.UniqueIndexes && r.Indexes == s.Indexes
  {
    s.(PrimaryKeyAuto := true)
  }

  /** Marking a schema auto-keyed twice is the same as marking it once. */
  lemma WithAutoIdempotent(s: SchemaData)
    ensures WithAuto(WithAuto(s)) == WithAuto(s)
  {
  }

  class StoreSchema {
    var Name: string
    var PrimaryKey: Option<string>
    var PrimaryKeyAuto: bool
    var UniqueIndexes: seq<string>
    var Indexes: seq<string>

    function Snapshot(): SchemaData
      reads this
    {
      SchemaData(Name, PrimaryKey, PrimaryKeyAuto, UniqueIndexes, Indexes)
    }

    /** `new StoreSchema()`: no key, not auto-keyed, both index lists empty. */
    constructor ()
      ensures Snapshot() == SchemaData("", None, false, [], [])
    {
      Name := "";
      PrimaryKey := None;
      PrimaryKeyAuto := false;
      UniqueIndexes := [];
      Indexes := [];
    }

    /** Sets `PrimaryKeyAuto` and returns the same object. */
    method WithPrimaryKeyAuto() returns (self: StoreSchema)
      modifies this
      ensures self == this
      ensures Snapshot() == WithAuto(old(Snapshot()))
    {
      PrimaryKeyAuto := true;
      self := this;
    }
  }
}
