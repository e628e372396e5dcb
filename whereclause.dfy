/**
 * `IndexedDbManager.Where`: a predicate is split at its top-level OR nodes and
 * each operand is compiled on its own, one entry per operand, in order.
 */
module WhereClause {
  import opened Wrappers
  import opened Descriptors
  import opened Expressions
  import SchemaHelper
  import opened QueryCompiler
  import opened Queries

  /** The maximal subtrees of `e` that are not `OrElse` nodes reached through `OrElse` nodes only, left to right. */
  function OrOperands(e: Expr): (ops: seq<Expr>)
    ensures |ops| >= 1
    ensures !e.OrElse? ==> ops == [e]
    ensures forall i :: 0 <= i < |ops| ==> !ops[i].OrElse?
  {
    match e
    case OrElse(l, r) => OrOperands(l) + OrOperands(r)
    case _ => [e]
  }

  /** The entries compiled from a list of operands, left to right, or the first exception. */
  function CompileAll(props: seq<Property>, ops: seq<Expr>): Result<seq<Entry>, Error> {
    if ops == [] then Success([])
    else
      var q :- JsonQuery(props, ops[0]);
      var rest :- CompileAll(props, ops[1..]);
      Success([q] + rest)
  }

  /** What `CollectBinaryExpressions(e, ...)` appends to the query's entries, or the exception it throws. */
  function Collected(props: seq<Property>, e: Expr): Result<seq<Entry>, Error> {
    match e
    case OrElse(l, r) =>
      var a :- Collected(props, l);
      var b :- Collected(props, r);
      Success(a + b)
    case _ =>
      var q :- JsonQuery(props, e);
      Success([q])
  }

  /** Compiling two lists one after the other is compiling their concatenation. */
  lemma {:induction false} CompileAllAppend(props: seq<Property>, a: seq<Expr>, b: seq<Expr>)
    ensures CompileAll(props, a).Failure? ==> CompileAll(props, a + b) == Failure(CompileAll(props, a).error)
    ensures CompileAll(props, a).Success? && CompileAll(props, b).Failure? ==>
      CompileAll(props, a + b) == Failure(CompileAll(props, b).error)
    ensures CompileAll(props, a).Success? && CompileAll(props, b).Success? ==>
      CompileAll(props, a + b) == Success(CompileAll(props, a).value + CompileAll(props, b).value)
  {
    if a == [] {
      assert a + b == b;
      if CompileAll(props, b).Success? {
        assert [] + CompileAll(props, b).value == CompileAll(props, b).value;
      }
    } else {
      assert (a + b)[0] == a[0];
      assert (a + b)[1..] == a[1..] + b;
      CompileAllAppend(props, a[1..], b);
      if JsonQuery(props, a[0]).Success? && CompileAll(props, a[1..]).Success? && CompileAll(props, b).Success? {
        var q := JsonQuery(props, a[0]).value;
        assert [q] + (CompileAll(props, a[1..]).value + CompileAll(props, b).value)
            == ([q] + CompileAll(props, a[1..]).value) + CompileAll(props, b).value;
      }
    }
  }

  /** The recursive split is the same as compiling the OR operands one by one. */
  lemma {:induction false} CollectedIsCompileAll(props: seq<Property>, e: Expr)
    ensures Collected(props, e) == CompileAll(props, OrOperands(e))
  {
    match e
    case OrElse(l, r) =>
      CollectedIsCompileAll(props, l);
      CollectedIsCompileAll(props, r);
      CompileAllAppend(props, OrOperands(l), OrOperands(r));
    case _ =>
      assert OrOperands(e)[0] == e && OrOperands(e)[1..] == [];
      if JsonQuery(props, e).Success? {
        assert [JsonQuery(props, e).value] + [] == [JsonQuery(props, e).value];
      }
  }

  /** A successful compilation has one entry per operand, each that operand's own query. */
  lemma {:induction false} CompileAllEntries(props: seq<Property>, ops: seq<Expr>)
    requires CompileAll(props, ops).Success?
    ensures |CompileAll(props, ops).value| == |ops|
    ensures forall i :: 0 <= i < |ops| ==> JsonQuery(props, ops[i]) == Success(CompileAll(props, ops).value[i])
  {
    if ops != [] {
      CompileAllEntries(props, ops[1..]);
      var rest := CompileAll(props, ops[1..]).value;
      forall i | 0 <= i < |ops|
        ensures JsonQuery(props, ops[i]) == Success(CompileAll(props, ops).value[i])
      {
        if i > 0 {
          assert ops[i] == ops[1..][i - 1];
        }
      }
    }
  }

  /** Compilation fails exactly when some operand's query fails, and then with the first such exception. */
  lemma {:induction false} CompileAllFails(props: seq<Property>, ops: seq<Expr>)
    ensures CompileAll(props, ops).Failure? <==> exists i :: 0 <= i < |ops| && JsonQuery(props, ops[i]).Failure?
    ensures CompileAll(props, ops).Failure? ==>
      exists i :: 0 <= i < |ops| && JsonQuery(props, ops[i]) == Failure(CompileAll(props, ops).error) &&
        forall j :: 0 <= j < i ==> JsonQuery(props, ops[j]).Success?
  {
    if ops != [] {
      CompileAllFails(props, ops[1..]);
      if JsonQuery(props, ops[0]).Failure? {
        assert JsonQuery(props, ops[0]) == Failure(CompileAll(props, ops).error);
      } else if CompileAll(props, ops[1..]).Failure? {
        var k :| 0 <= k < |ops[1..]| && JsonQuery(props, ops[1..][k]) == Failure(CompileAll(props, ops[1..]).error) &&
          forall j :: 0 <= j < k ==> JsonQuery(props, ops[1..][j]).Success?;
        assert ops[k + 1] == ops[1..][k];
        forall j | 0 <= j < k + 1
          ensures JsonQuery(props, ops[j]).Success?
        {
          if j > 0 {
            assert ops[j] == ops[1..][j - 1];
          }
        }
      } else {
        CompileAllEntries(props, ops[1..]);
        forall i | 0 <= i < |ops|
          ensures JsonQuery(props, ops[i]).Success?
        {
          if i > 0 {
            assert ops[i] == ops[1..][i - 1];
          }
        }
      }
    }
  }

  /** `Where`'s entries: one per top-level OR operand, each that operand compiled on its own. */
  lemma CollectedEntries(props: seq<Property>, e: Expr)
    requires Collected(props, e).Success?
    ensures |Collected(props, e).value| == |OrOperands(e)|
    ensures forall i :: 0 <= i < |OrOperands(e)| ==>
      JsonQuery(props, OrOperands(e)[i]) == Success(Collected(props, e).value[i])
  {
    CollectedIsCompileAll(props, e);
    CompileAllEntries(props, OrOperands(e));
  }

  /** `Where` throws exactly when one of the operands fails to compile. */
  lemma CollectedFails(props: seq<Property>, e: Expr)
    ensures Collected(props, e).Failure? <==>
      exists i :: 0 <= i < |OrOperands(e)| && JsonQuery(props, OrOperands(e)[i]).Failure?
  {
    CollectedIsCompileAll(props, e);
    CompileAllFails(props, OrOperands(e));
  }

  /** A predicate without a top-level OR compiles to exactly one entry, the one `GetJsonQueryFromExpression` gives. */
  lemma SingleEntryWithoutOr(props: seq<Property>, e: Expr)
    requires !e.OrElse?
    ensures Collected(props, e).Success? <==> JsonQuery(props, e).Success?
    ensures JsonQuery(props, e).Success? ==> Collected(props, e) == Success([JsonQuery(props, e).value])
  {
  }

  /** `CollectBinaryExpressions(expression, predicate, jsonQueries)`: appends one entry per OR operand. */
  method CollectBinaryExpressions(props: seq<Property>, e: Expr, query: BlazorizedQuery) returns (r: Result<(), Error>)
    modifies query
    ensures Collected(props, e).Success? ==>
      r.Success? && query.JsonQueries == old(query.JsonQueries) + Collected(props, e).value
    ensures Collected(props, e).Failure? ==> r == Failure(Collected(props, e).error)
    ensures |old(query.JsonQueries)| <= |query.JsonQueries| && query.JsonQueries[..|old(query.JsonQueries)|] == old(query.JsonQueries)
    ensures query.StoredBlazorizedQueries == old(query.StoredBlazorizedQueries)
    ensures query.ResultsUnique == old(query.ResultsUnique)
    decreases e
  {
    if e.OrElse? {
      var left := e.left;
      var right := e.right;
      var a := CollectBinaryExpressions(props, left, query);
      if a.Failure? {
        return a;
      }
      var b := CollectBinaryExpressions(props, right, query);
      if b.Failure? {
        return b;
      }
      assert query.JsonQueries == old(query.JsonQueries) + Collected(props, left).value + Collected(props, right).value;
      return Success(());
    } else {
      var jsonQuery :- GetJsonQueryFromExpression(props, e);
      query.JsonQueries := query.JsonQueries + [jsonQuery];
      return Success(());
    }
  }

  /** `Where<T>(predicate)`: a fresh query for `T`'s store holding the compiled entries, or the exception. */
  method Where(t: TypeDescriptor, e: Expr) returns (r: Result<BlazorizedQuery, Error>)
    ensures Collected(t.Properties, e).Failure? ==> r == Failure(Collected(t.Properties, e).error)
    ensures Collected(t.Properties, e).Success? ==>
      && r.Success?
      && fresh(r.value)
      && r.value.SchemaName == SchemaHelper.GetSchemaName(t)
      && r.value.JsonQueries == Collected(t.Properties, e).value
      && r.value.StoredBlazorizedQueries == []
      && r.value.ResultsUnique
  {
    var schemaName := SchemaHelper.GetSchemaName(t);
    var query := new BlazorizedQuery(schemaName);
    var preprocessedPredicate := e;
    var collected := CollectBinaryExpressions(t.Properties, preprocessedPredicate, query);
    if collected.Failure? {
      return Failure(collected.error);
    }
    return Success(query);
  }
}
