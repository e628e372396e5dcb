/**
 * The example application's `Person` class and the query its index page runs,
 * worked through the model.
 */
module Scenarios {
  import opened Wrappers
  import opened Guids
  import opened Annotations
  import opened Descriptors
  import opened Expressions
  import SchemaHelper
  import opened QueryCompiler
  import Queries
  import WhereClause

  /** The attributes `Person` carries, as their constructors leave them. */
  const BareIndex := IndexAttribute(None)
  const AgeIndex := IndexAttribute(Some("Age"))
  const GuidUniqueIndex := UniqueIndexAttribute(Some("guid"))

  lemma AttributesAsConstructed(clientDb: string)
    requires !Text.IsNullOrWhiteSpace(Some(clientDb))
    ensures NewIndexAttribute() == BareIndex
    ensures NewIndexAttribute(Some("Age")) == AgeIndex
    ensures NewUniqueIndexAttribute(Some("guid")) == GuidUniqueIndex
    ensures NewTableAttribute("Person", Some(clientDb)) == TableAttribute("Person", clientDb)
  {
    assert "Age"[0] == 'A' && !Text.IsWhiteSpace('A');
    assert "guid"[0] == 'g' && !Text.IsWhiteSpace('g');
  }

  /** `Person.Name`: `[BlazorizedIndex]`. */
  const NameProperty := Property("Name", StringType, true, Null, Some(BareIndex), None, None, false, false)

  /** `Person._Age`: `[BlazorizedIndex("Age")]`. */
  const AgeProperty := Property("_Age", Int32Type, true, Int(0), Some(AgeIndex), None, None, false, false)

  /** `Person._Id`: a get-only `[BlazorizedNotMapped]` view of `id`. */
  const IdViewProperty := Property("_Id", Int32Type, false, Int(0), None, None, None, true, false)

  /**
   * `Person`, its public properties in declaration order. The private
   * `testPrivate` is not among them; `clientDb` is the value of `DbNames.Client`
   * and `guid` the `Guid.NewGuid()` the constructor stores in `GUIY`. The
   * attributes are written out as `AttributesAsConstructed` shows them.
   */
  function Person(clientDb: string, guid: Guid): TypeDescriptor {
    TypeDescriptor("Person", Some(TableAttribute("Person", clientDb)), [
      Property("id", Int32Type, true, Int(0), None, None, None, false, false),
      IdViewProperty,
      NameProperty,
      AgeProperty,
      Property("TestInt", Int32Type, true, Int(0), Some(BareIndex), None, None, false, false),
      Property("GUIY", GuidType, true, GuidValue(guid), None, Some(GuidUniqueIndex), None, false, false),
      Property("Secret", StringType, true, Null, None, None, None, false, true),
      Property("DoNotMapTest", StringType, true, Null, None, None, None, true, false),
      Property("SecretDecrypted", StringType, true, Null, None, None, None, true, false)
    ])
  }

  /** `x.Name.StartsWith(prefix, StringComparison.OrdinalIgnoreCase)`. */
  function NameStartsWith(prefix: string): Expr {
    Call(true, "StartsWith", Member("Name"), Const(Str(prefix)), [Const(Comparison(OrdinalIgnoreCase))])
  }

  /** `x => x.Name.StartsWith("c", …) || x.Name.StartsWith("l", …) || x.Name.StartsWith("j", …) && x._Age > 35`. */
  function PersonQuery(): Expr {
    OrElse(OrElse(NameStartsWith("c"), NameStartsWith("l")),
           AndAlso(NameStartsWith("j"), AgeAbove35))
  }

  /** `x._Age > 35`. */
  const AgeAbove35 := Binary(GreaterThan, Member("_Age"), Const(Int(35)))

  /** The condition `x.Name.StartsWith(prefix, …OrdinalIgnoreCase)` compiles to. */
  function StartsWithName(prefix: string): Condition {
    Condition("Name", "StartsWith", Str(prefix), true, false)
  }

  /** The condition `x._Age > 35` compiles to: the index's column name, not the property's. */
  const AgeOver35 := Condition("Age", "GreaterThan", Int(35), false, false)

  lemma NameCondition(props: seq<Property>, prefix: string)
    requires FindProperty(props, "Name") == Some(NameProperty)
    ensures LeafCondition(props, NameStartsWith(prefix)) == Success(Some(StartsWithName(prefix)))
  {
    assert ConditionColumn(NameProperty) == "Name";
  }

  lemma AgeCondition(props: seq<Property>)
    requires FindProperty(props, "_Age") == Some(AgeProperty)
    ensures LeafCondition(props, AgeAbove35) == Success(Some(AgeOver35))
  {
    assert ConditionColumn(AgeProperty) == "Age" by {
      assert "Age"[0] == 'A' && !Text.IsWhiteSpace('A');
    }
  }

  /** A leaf outside any OR branch appends its condition to `conditions`. */
  lemma PlainLeaf(props: seq<Property>, e: Expr, c: Condition, st: Lists)
    requires e.Binary? || e.Call?
    requires LeafCondition(props, e) == Success(Some(c))
    ensures Traverse(props, e, false, st) == Success(Lists(st.conditions + [c], st.orConditions))
  {
  }

  /** `FindProperty` returns the first property with the name. */
  lemma {:induction false} FindPropertyFirst(props: seq<Property>, name: string, k: nat)
    requires k < |props| && props[k].Name == name
    requires forall i :: 0 <= i < k ==> props[i].Name != name
    ensures FindProperty(props, name) == Some(props[k])
  {
    if k > 0 {
      assert props[0].Name != name;
      FindPropertyFirst(props[1..], name, k - 1);
    }
  }

  /** `Type.GetProperty("Name")` on `Person`. */
  lemma PersonName(clientDb: string, guid: Guid)
    ensures FindProperty(Person(clientDb, guid).Properties, "Name") == Some(NameProperty)
  {
    var props := Person(clientDb, guid).Properties;
    assert props[0].Name == "id" && props[1].Name == "_Id" && props[2] == NameProperty;
    FindPropertyFirst(props, "Name", 2);
  }

  /** `Type.GetProperty("_Age")` on `Person`. */
  lemma PersonAge(clientDb: string, guid: Guid)
    ensures FindProperty(Person(clientDb, guid).Properties, "_Age") == Some(AgeProperty)
  {
    var props := Person(clientDb, guid).Properties;
    assert props[0].Name == "id" && props[1].Name == "_Id" && props[2].Name == "Name" && props[3] == AgeProperty;
    assert "Name"[0] != "_Age"[0];
    FindPropertyFirst(props, "_Age", 3);
  }

  /** A `StartsWith` on `Name` alone: one plain group with one case-insensitive condition. */
  lemma NameStartsWithEntry(props: seq<Property>, prefix: string)
    requires FindProperty(props, "Name") == Some(NameProperty)
    ensures JsonQuery(props, NameStartsWith(prefix)) == Success([[StartsWithName(prefix)]])
  {
    var c := StartsWithName(prefix);
    NameCondition(props, prefix);
    PlainLeaf(props, NameStartsWith(prefix), c, Lists([], []));
    assert [] + [c] == [c];
    assert Traverse(props, NameStartsWith(prefix), false, Lists([], [])) == Success(Lists([c], []));
    assert Finish(Lists([c], [])) == [[c]];
  }

  /** The third operand: both conditions of the AND in one plain group, in source order. */
  lemma ThirdOperandEntry(props: seq<Property>)
    requires FindProperty(props, "Name") == Some(NameProperty)
    requires FindProperty(props, "_Age") == Some(AgeProperty)
    ensures JsonQuery(props, AndAlso(NameStartsWith("j"), AgeAbove35)) == Success([[StartsWithName("j"), AgeOver35]])
  {
    var j := StartsWithName("j");
    NameCondition(props, "j");
    AgeCondition(props);
    var st1, st2 := Lists([j], []), Lists([j, AgeOver35], []);
    PlainLeaf(props, NameStartsWith("j"), j, Lists([], []));
    assert [] + [j] == [j];
    PlainLeaf(props, AgeAbove35, AgeOver35, st1);
    assert [j] + [AgeOver35] == [j, AgeOver35];
    assert Traverse(props, AndAlso(NameStartsWith("j"), AgeAbove35), false, Lists([], [])) == Success(st2);
    assert Finish(st2) == [[j, AgeOver35]];
  }

  /** The three operands compile to one entry each; the AND keeps both conditions in one plain group. */
  lemma CollectedPersonQuery(props: seq<Property>)
    requires FindProperty(props, "Name") == Some(NameProperty)
    requires FindProperty(props, "_Age") == Some(AgeProperty)
    ensures WhereClause.Collected(props, PersonQuery()) == Success([
      [[StartsWithName("c")]],
      [[StartsWithName("l")]],
      [[StartsWithName("j"), AgeOver35]]
    ])
  {
    var c, l := [[StartsWithName("c")]], [[StartsWithName("l")]];
    var j := [[StartsWithName("j"), AgeOver35]];
    NameStartsWithEntry(props, "c");
    NameStartsWithEntry(props, "l");
    ThirdOperandEntry(props);
    var first := OrElse(NameStartsWith("c"), NameStartsWith("l"));
    var third := AndAlso(NameStartsWith("j"), AgeAbove35);
    assert WhereClause.Collected(props, NameStartsWith("c")) == Success([c]);
    assert WhereClause.Collected(props, NameStartsWith("l")) == Success([l]);
    assert [c] + [l] == [c, l];
    assert WhereClause.Collected(props, first) == Success([c, l]);
    assert WhereClause.Collected(props, third) == Success([j]);
    assert [c, l] + [j] == [c, l, j];
  }

  /** On `Person` itself. */
  lemma PersonQueryEntries(clientDb: string, guid: Guid)
    ensures WhereClause.Collected(Person(clientDb, guid).Properties, PersonQuery()) == Success([
      [[StartsWithName("c")]],
      [[StartsWithName("l")]],
      [[StartsWithName("j"), AgeOver35]]
    ])
  {
    PersonName(clientDb, guid);
    PersonAge(clientDb, guid);
    CollectedPersonQuery(Person(clientDb, guid).Properties);
  }

  /** The page's `OrderBy(x => x._Id)` throws: `_Id` carries no index attribute. */
  lemma PersonOrderByIdThrows()
    ensures Queries.OrderByColumn(Unary(MemberAccess(PropertyMember(IdViewProperty)))) == Failure(OrderByNotIndexed)
  {
  }

  /** A type none of whose properties is tagged as primary key has no key properties. */
  lemma {:induction false} NoKeyAttributeNoKeys(props: seq<Property>)
    requires forall i :: 0 <= i < |props| ==> props[i].PrimaryKey.None?
    ensures SchemaHelper.PrimaryKeyProperties(props) == []
  {
    if props != [] {
      NoKeyAttributeNoKeys(props[..|props| - 1]);
    }
  }

  /** `Person` has no primary-key attribute, so its store schema cannot be derived without an explicit key. */
  lemma PersonNeedsExplicitKey(clientDb: string, guid: Guid)
    ensures SchemaHelper.DeriveStoreSchema(Person(clientDb, guid), None, None) == Failure(NoPrimaryKeyAttribute)
    ensures SchemaHelper.DeriveStoreSchema(Person(clientDb, guid), None, Some("id")).Success?
  {
    var props := Person(clientDb, guid).Properties;
    assert forall i :: 0 <= i < |props| ==> props[i].PrimaryKey.None?;
    NoKeyAttributeNoKeys(props);
    assert props[0].Name == "id";
  }
}
