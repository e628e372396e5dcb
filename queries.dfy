/**
 * `BlazorizedQuery<T>`: the object a `Where` call returns. It carries the
 * compiled entries and collects post-filter directives (take, take-last,
 * skip, order-by) that are sent along with them.
 */
module Queries {
  import opened Wrappers
  import opened Descriptors
  import opened Expressions
  import opened Annotations
  import Text
  import SchemaHelper
  import QueryCompiler

  /** A C# `int`. */
  type Int32 = x: int | -0x8000_0000 <= x < 0x8000_0000

  /** The `BlazorizedQueryFunctions` names a directive can carry. */
  datatype QueryFunction = TakeFunction | TakeLastFunction | SkipFunction | OrderByFunction | OrderByDescendingFunction

  /** A `StoredBlazorizedQuery`: `IntValue` defaults to 0 and `StringValue` to null. */
  datatype StoredQuery = StoredQuery(Name: QueryFunction, IntValue: Int32, StringValue: Option<string>)

  /** `GetMemberExpressionFromLambda`: a bare member access, or one under a single unary node. */
  function GetMemberExpressionFromLambda(body: SelectorBody): (r: Result<MemberRef, Error>)
    ensures body.MemberAccess? ==> r == Success(body.member)
    ensures body.Unary? && body.operand.MemberAccess? ==> r == Success(body.operand.member)
    ensures !(body.MemberAccess? || (body.Unary? && body.operand.MemberAccess?)) ==> r == Failure(NotSinglePropertyAccess)
  {
    match body
    case MemberAccess(m) => Success(m)
    case Unary(MemberAccess(m)) => Success(m)
    case _ => Failure(NotSinglePropertyAccess)
  }

  /** The column an order-by directive names: index, then primary key, then unique index. */
  function OrderColumn(p: Property): string {
    if p.Index.Some? then SchemaHelper.GetPropertyColumnName(p, SchemaHelper.IndexKind)
    else if p.PrimaryKey.Some? then SchemaHelper.GetPropertyColumnName(p, SchemaHelper.PrimaryKeyKind)
    else if p.UniqueIndex.Some? then SchemaHelper.GetPropertyColumnName(p, SchemaHelper.UniqueIndexKind)
    else p.Name
  }

  /** What `OrderBy` and `OrderByDescending` compute from their selector before appending: the column, or the exception. */
  function OrderByColumn(selector: SelectorBody): (r: Result<string, Error>)
    ensures GetMemberExpressionFromLambda(selector).Failure? ==> r == Failure(NotSinglePropertyAccess)
    ensures GetMemberExpressionFromLambda(selector).Success? && GetMemberExpressionFromLambda(selector).value.FieldMember? ==>
      r == Failure(NotSinglePropertyAccess)
    ensures r.Success? <==>
      exists p :: GetMemberExpressionFromLambda(selector) == Success(PropertyMember(p)) && HasKeyTag(p)
    ensures r.Success? ==> r.value == OrderColumn(GetMemberExpressionFromLambda(selector).value.property)
    ensures (exists p :: GetMemberExpressionFromLambda(selector) == Success(PropertyMember(p)) && !HasKeyTag(p)) ==>
      r == Failure(OrderByNotIndexed)
  {
    var member :- GetMemberExpressionFromLambda(selector);
    if member.FieldMember? then Failure(NotSinglePropertyAccess)
    else if !HasKeyTag(member.property) then Failure(OrderByNotIndexed)
    else Success(OrderColumn(member.property))
  }

  /** A property carrying one key attribute at most is named alike by the query compiler and by order-by. */
  lemma OrderColumnAgreesWithCompiler(p: Property)
    requires !(p.UniqueIndex.Some? && p.PrimaryKey.Some?) || p.Index.Some?
    ensures OrderColumn(p) == QueryCompiler.ConditionColumn(p)
  {
  }

  /** With both a unique-index and a primary-key attribute and no index, the two orders name different columns. */
  lemma OrderColumnDiffersFromCompiler()
    ensures var p := Property("Key", Int32Type, true, Int(0), None,
                              Some(UniqueIndexAttribute(Some("u"))), Some(PrimaryKeyAttribute(Some("k"))), false, false);
      OrderColumn(p) == "k" && QueryCompiler.ConditionColumn(p) == "u"
  {
    var p := Property("Key", Int32Type, true, Int(0), None,
                      Some(UniqueIndexAttribute(Some("u"))), Some(PrimaryKeyAttribute(Some("k"))), false, false);
    assert SchemaHelper.NamesColumn(p, SchemaHelper.PrimaryKeyKind) by {
      assert "k"[0] == 'k' && !Text.IsWhiteSpace('k');
    }
    assert SchemaHelper.NamesColumn(p, SchemaHelper.UniqueIndexKind) by {
      assert "u"[0] == 'u' && !Text.IsWhiteSpace('u');
    }
  }

  /** What `Count()` makes of the boundary result: its length, or 0 for null. */
  function CountOf<R>(result: Option<seq<R>>): nat {
    if result.Some? then |result.value| else 0
  }

  /** What `Execute()` makes of the boundary result: the list itself, or an empty sequence for null. */
  function ExecuteOf<R>(result: Option<seq<R>>): seq<R> {
    result.GetOr([])
  }

  /** `Count()` is the length of what `Execute()` would return for the same boundary result. */
  lemma CountIsExecuteLength<R>(result: Option<seq<R>>)
    ensures CountOf(result) == |ExecuteOf(result)|
    ensures result.None? ==> ExecuteOf(result) == [] && CountOf(result) == 0
  {
  }

  class BlazorizedQuery {
    const SchemaName: string
    var JsonQueries: seq<QueryCompiler.Entry>
    var StoredBlazorizedQueries: seq<StoredQuery>
    var ResultsUnique: bool

    /** `new BlazorizedQuery<T>(schemaName, manager)`: no entries, no directives, unique results. */
    constructor (schemaName: string)
      ensures SchemaName == schemaName
      ensures JsonQueries == [] && StoredBlazorizedQueries == [] && ResultsUnique
    {
      SchemaName := schemaName;
      JsonQueries := [];
      StoredBlazorizedQueries := [];
      ResultsUnique := true;
    }

    /** `ResultsNotUnique()`: clears the flag and touches nothing else. */
    method ResultsNotUnique() returns (self: BlazorizedQuery)
      modifies this
      ensures self == this
      ensures !ResultsUnique
      ensures JsonQueries == old(JsonQueries) && StoredBlazorizedQueries == old(StoredBlazorizedQueries)
    {
      ResultsUnique := false;
      self := this;
    }

    /** `Take(amount)`. */
    method Take(amount: Int32) returns (self: BlazorizedQuery)
      modifies this
      ensures self == this
      ensures StoredBlazorizedQueries == old(StoredBlazorizedQueries) + [StoredQuery(TakeFunction, amount, None)]
      ensures JsonQueries == old(JsonQueries) && ResultsUnique == old(ResultsUnique)
    {
      var smq := StoredQuery(TakeFunction, amount, None);
      StoredBlazorizedQueries := StoredBlazorizedQueries + [smq];
      self := this;
    }

    /** `TakeLast(amount)`. */
    method TakeLast(amount: Int32) returns (self: BlazorizedQuery)
      modifies this
      ensures self == this
      ensures StoredBlazorizedQueries == old(StoredBlazorizedQueries) + [StoredQuery(TakeLastFunction, amount, None)]
      ensures JsonQueries == old(JsonQueries) && ResultsUnique == old(ResultsUnique)
    {
      var smq := StoredQuery(TakeLastFunction, amount, None);
      StoredBlazorizedQueries := StoredBlazorizedQueries + [smq];
      self := this;
    }

    /** `Skip(amount)`. */
    method Skip(amount: Int32) returns (self: BlazorizedQuery)
      modifies this
      ensures self == this
      ensures StoredBlazorizedQueries == old(StoredBlazorizedQueries) + [StoredQuery(SkipFunction, amount, None)]
      ensures JsonQueries == old(JsonQueries) && ResultsUnique == old(ResultsUnique)
    {
      var smq := StoredQuery(SkipFunction, amount, None);
      StoredBlazorizedQueries := StoredBlazorizedQueries + [smq];
      self := this;
    }

    /** `OrderBy(predicate)`: on an exception nothing is appended. */
    method OrderBy(selector: SelectorBody) returns (r: Result<BlazorizedQuery, Error>)
      modifies this
      ensures OrderByColumn(selector).Failure? ==>
        r == Failure(OrderByColumn(selector).error) && StoredBlazorizedQueries == old(StoredBlazorizedQueries)
      ensures OrderByColumn(selector).Success? ==>
        && r == Success(this)
        && StoredBlazorizedQueries == old(StoredBlazorizedQueries) + [StoredQuery(OrderByFunction, 0, Some(OrderByColumn(selector).value))]
      ensures JsonQueries == old(JsonQueries) && ResultsUnique == old(ResultsUnique)
    {
      var memberExpression :- GetMemberExpressionFromLambda(selector);
      if !memberExpression.PropertyMember? {
        return Failure(NotSinglePropertyAccess);
      }
      var propertyInfo := memberExpression.property;
      if propertyInfo.Index.None? && propertyInfo.UniqueIndex.None? && propertyInfo.PrimaryKey.None? {
        return Failure(OrderByNotIndexed);
      }
      var columnName := OrderColumn(propertyInfo);
      var smq := StoredQuery(OrderByFunction, 0, Some(columnName));
      StoredBlazorizedQueries := StoredBlazorizedQueries + [smq];
      return Success(this);
    }

    /** `OrderByDescending(predicate)`: on an exception nothing is appended. */
    method OrderByDescending(selector: SelectorBody) returns (r: Result<BlazorizedQuery, Error>)
      modifies this
      ensures OrderByColumn(selector).Failure? ==>
        r == Failure(OrderByColumn(selector).error) && StoredBlazorizedQueries == old(StoredBlazorizedQueries)
      ensures OrderByColumn(selector).Success? ==>
        && r == Success(this)
        && StoredBlazorizedQueries == old(StoredBlazorizedQueries) + [StoredQuery(OrderByDescendingFunction, 0, Some(OrderByColumn(selector).value))]
      ensures JsonQueries == old(JsonQueries) && ResultsUnique == old(ResultsUnique)
    {
      var memberExpression :- GetMemberExpressionFromLambda(selector);
      if !memberExpression.PropertyMember? {
        return Failure(NotSinglePropertyAccess);
      }
      var propertyInfo := memberExpression.property;
      if propertyInfo.Index.None? && propertyInfo.UniqueIndex.None? && propertyInfo.PrimaryKey.None? {
        return Failure(OrderByNotIndexed);
      }
      var columnName := OrderColumn(propertyInfo);
      var smq := StoredQuery(OrderByDescendingFunction, 0, Some(columnName));
      StoredBlazorizedQueries := StoredBlazorizedQueries + [smq];
      return Success(this);
    }
  }
}
