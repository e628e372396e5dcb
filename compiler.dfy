/**
 * `GetJsonQueryFromExpression`: lowering one OR-free-at-the-top predicate to
 * the list of condition groups that is sent to the browser.
 *
 * `TraverseExpression`, `AddCondition` and `AddConditionInternal` are local
 * functions sharing the two local lists `conditions` and `orConditions`; here
 * those lists are the fields of a `QueryBuilder` object and the three local
 * functions are its methods. Each method is proved against `Traverse`, a pure
 * state transformer, and `Traverse` against `Leaves`, a reference definition
 * that lists the compiled conditions without any state.
 */
module QueryCompiler {
  import opened Wrappers
  import opened Descriptors
  import opened Expressions
  import SchemaHelper

  /** One JSON condition `{property, operation, value, isString, caseSensitive}`. */
  datatype Condition = Condition(property: string, operation: string, value: Value, isString: bool, caseSensitive: bool)

  /** A list of conditions, all of which must hold. */
  type Group = seq<Condition>

  /** What one call serialises: the list `orConditions` of groups. */
  type Entry = seq<Group>

  // ------------------------------------------------------------ leaves

  /** The operation after swapping `constant op member` to `member op' constant`. */
  function MirrorOperation(operation: string): (mirrored: string)
    ensures operation == "GreaterThan" <==> mirrored == "LessThan"
    ensures operation == "LessThan" <==> mirrored == "GreaterThan"
    ensures operation == "GreaterThanOrEqual" <==> mirrored == "LessThanOrEqual"
    ensures operation == "LessThanOrEqual" <==> mirrored == "GreaterThanOrEqual"
    ensures operation !in {"GreaterThan", "LessThan", "GreaterThanOrEqual", "LessThanOrEqual"} ==> mirrored == operation
  {
    if operation == "GreaterThan" then "LessThan"
    else if operation == "LessThan" then "GreaterThan"
    else if operation == "GreaterThanOrEqual" then "LessThanOrEqual"
    else if operation == "LessThanOrEqual" then "GreaterThanOrEqual"
    else operation
  }

  /** Mirroring is its own inverse. */
  lemma MirrorInvolution(operation: string)
    ensures MirrorOperation(MirrorOperation(operation)) == operation
  {
  }

  /** The column a condition on `p` names: index, then unique index, then primary key. */
  function ConditionColumn(p: Property): string {
    if p.Index.Some? then SchemaHelper.GetPropertyColumnName(p, SchemaHelper.IndexKind)
    else if p.UniqueIndex.Some? then SchemaHelper.GetPropertyColumnName(p, SchemaHelper.UniqueIndexKind)
    else if p.PrimaryKey.Some? then SchemaHelper.GetPropertyColumnName(p, SchemaHelper.PrimaryKeyKind)
    else p.Name
  }

  /**
   * `AddConditionInternal` up to where the condition goes: nothing when the
   * member is not a property of `T`, the exception when the property carries
   * none of the three attributes, else the condition.
   */
  function ConditionFor(props: seq<Property>, member: string, value: Value, operation: string, caseSensitive: bool)
    : (r: Result<Option<Condition>, Error>)
    ensures FindProperty(props, member).None? ==> r == Success(None)
    ensures FindProperty(props, member).Some? ==>
      (r.Failure? <==> !HasKeyTag(FindProperty(props, member).value))
    ensures r.Failure? ==> r.error == NotIndexed(member)
    ensures r.Success? && r.value.Some? ==>
      var p := FindProperty(props, member).value;
      && HasKeyTag(p)
      && r.value.value == Condition(ConditionColumn(p), operation, value, value.Str?, caseSensitive)
  {
    match FindProperty(props, member)
    case None => Success(None)
    case Some(p) =>
      if !HasKeyTag(p) then Failure(NotIndexed(p.Name))
      else Success(Some(Condition(ConditionColumn(p), operation, value, value.Str?, caseSensitive)))
  }

  /** The string methods `AddCondition` compiles, and the operation each becomes. */
  predicate IsStringMethod(name: string) {
    name == "Equals" || name == "Contains" || name == "StartsWith"
  }

  function StringOperation(name: string): string {
    if name == "Equals" then "StringEquals" else name
  }

  /** Case sensitivity of a string call: a constant `StringComparison` second argument decides, else true. */
  function CallCaseSensitive(more: seq<Operand>): (cs: bool)
    ensures (|more| > 0 && more[0].Const? && more[0].value.Comparison?) ==>
      (cs <==> more[0].value.c == Ordinal || more[0].value.c == CurrentCulture)
    ensures !(|more| > 0 && more[0].Const? && more[0].value.Comparison?) ==> cs
  {
    if |more| > 0 && more[0].Const? && more[0].value.Comparison? then
      var c := more[0].value.c;
      c == Ordinal || c == CurrentCulture
    else
      true
  }

  /** `AddCondition(expression, _)` up to where the condition goes. */
  function LeafCondition(props: seq<Property>, e: Expr): Result<Option<Condition>, Error> {
    match e
    case Binary(node, lhs, rhs) =>
      if lhs.Member? && rhs.Const? then ConditionFor(props, lhs.name, rhs.value, NodeName(node), false)
      else if lhs.Const? && rhs.Member? then ConditionFor(props, rhs.name, lhs.value, MirrorOperation(NodeName(node)), false)
      else Success(None)
    case Call(onString, name, receiver, arg, more) =>
      if onString && IsStringMethod(name) && receiver.Member? && arg.Const? then
        ConditionFor(props, receiver.name, arg.value, StringOperation(name), CallCaseSensitive(more))
      else Success(None)
    case _ => Success(None)
  }

  /** `constant op member` compiles exactly like `member op' constant` with the mirrored operation. */
  lemma SwappedOperandsAgree(props: seq<Property>, node: NodeType, member: string, value: Value)
    ensures LeafCondition(props, Binary(node, Const(value), Member(member))) ==
      ConditionFor(props, member, value, MirrorOperation(NodeName(node)), false)
    ensures NodeName(node) in {"Equal", "NotEqual"} ==>
      LeafCondition(props, Binary(node, Const(value), Member(member))) ==
      LeafCondition(props, Binary(node, Member(member), Const(value)))
  {
  }

  /** Leaf shapes the compiler does not understand produce no condition and no exception. */
  lemma DroppedLeaves(props: seq<Property>, e: Expr)
    ensures e.Binary? && !((e.lhs.Member? && e.rhs.Const?) || (e.lhs.Const? && e.rhs.Member?)) ==>
      LeafCondition(props, e) == Success(None)
    ensures e.Call? && !(e.onString && IsStringMethod(e.methodName)) ==> LeafCondition(props, e) == Success(None)
    ensures e.Binary? && e.lhs.Member? && FindProperty(props, e.lhs.name).None? ==>
      LeafCondition(props, e) == Success(None)
    ensures e.Call? && e.receiver.Member? && FindProperty(props, e.receiver.name).None? ==>
      LeafCondition(props, e) == Success(None)
  {
  }

  /** A binary comparison is never case sensitive; a string call is unless a comparison constant says otherwise. */
  lemma LeafCaseSensitivity(props: seq<Property>, e: Expr)
    requires LeafCondition(props, e).Success? && LeafCondition(props, e).value.Some?
    ensures e.Binary? ==> !LeafCondition(props, e).value.value.caseSensitive
    ensures e.Call? ==> LeafCondition(props, e).value.value.caseSensitive == CallCaseSensitive(e.more)
    ensures e.Call? ==> LeafCondition(props, e).value.value.operation == StringOperation(e.methodName)
    ensures LeafCondition(props, e).value.value.isString == LeafCondition(props, e).value.value.value.Str?
  {
  }

  /**
   * The column a compiled leaf filters on belongs to one of the member names
   * `GetPropertyNamesFromExpression` reads off the same node.
   */
  lemma LeafNamesItsMember(props: seq<Property>, e: Expr)
    requires LeafCondition(props, e).Success? && LeafCondition(props, e).value.Some?
    ensures exists n ::
              && n in SchemaHelper.GetPropertyNamesFromExpression(e)
              && FindProperty(props, n).Some?
              && LeafCondition(props, e).value.value.property == ConditionColumn(FindProperty(props, n).value)
  {
  }

  // ------------------------------------------------------------ reference

  /** A compiled condition and whether it was reached inside an OR branch. */
  datatype Placed = Placed(condition: Condition, underOr: bool)

  /** The conditions compiled from `e`, left to right, or the first exception. */
  function Leaves(props: seq<Property>, e: Expr, inOrBranch: bool): Result<seq<Placed>, Error> {
    match e
    case AndAlso(l, r) =>
      var a :- Leaves(props, l, inOrBranch);
      var b :- Leaves(props, r, inOrBranch);
      Success(a + b)
    case OrElse(l, r) =>
      if inOrBranch then Failure(NestedOrNotSupported)
      else
        var a :- Leaves(props, l, true);
        var b :- Leaves(props, r, true);
        Success(a + b)
    case BoolMember(_) => Success([])
    case Unknown => Success([])
    case _ =>
      var c :- LeafCondition(props, e);
      Success(if c.Some? then [Placed(c.value, inOrBranch)] else [])
  }

  /** The conditions reached outside any OR branch, in order. */
  function Mains(ls: seq<Placed>): seq<Condition> {
    if ls == [] then []
    else Mains(ls[..|ls| - 1]) + (if ls[|ls| - 1].underOr then [] else [ls[|ls| - 1].condition])
  }

  /** The conditions reached inside an OR branch, in order. */
  function Ors(ls: seq<Placed>): seq<Condition> {
    if ls == [] then []
    else Ors(ls[..|ls| - 1]) + (if ls[|ls| - 1].underOr then [ls[|ls| - 1].condition] else [])
  }

  /** The groups the reference definition predicts: the shared OR group, then the plain conditions. */
  function Grouped(ls: seq<Placed>): (entry: Entry)
    ensures |entry| <= 2
  {
    (if Ors(ls) == [] then [] else [Ors(ls)]) + (if Mains(ls) == [] then [] else [Mains(ls)])
  }

  // ------------------------------------------------------------ state

  /** The two local lists. */
  datatype Lists = Lists(conditions: seq<Condition>, orConditions: seq<Group>)

  /** Where `AddConditionInternal` puts a condition: the last OR group (created if there is none), or `conditions`. */
  function Place(st: Lists, c: Condition, inOrBranch: bool): Lists {
    if !inOrBranch then st.(conditions := st.conditions + [c])
    else if st.orConditions == [] then st.(orConditions := [[c]])
    else
      var n := |st.orConditions|;
      st.(orConditions := st.orConditions[..n - 1] + [st.orConditions[n - 1] + [c]])
  }

  /** `Place`, for each compiled condition in turn. */
  function PlaceAll(st: Lists, ls: seq<Placed>): Lists {
    if ls == [] then st
    else Place(PlaceAll(st, ls[..|ls| - 1]), ls[|ls| - 1].condition, ls[|ls| - 1].underOr)
  }

  /** What the local lists hold after `TraverseExpression(e, inOrBranch)` from `st`, or the exception. */
  function Traverse(props: seq<Property>, e: Expr, inOrBranch: bool, st: Lists): Result<Lists, Error> {
    match e
    case AndAlso(l, r) =>
      var st' :- Traverse(props, l, inOrBranch, st);
      Traverse(props, r, inOrBranch, st')
    case OrElse(l, r) =>
      if inOrBranch then Failure(NestedOrNotSupported)
      else
        var st' :- Traverse(props, l, true, st);
        Traverse(props, r, true, st')
    case BoolMember(_) => Success(st)
    case Unknown => Success(st)
    case _ =>
      var c :- LeafCondition(props, e);
      Success(if c.Some? then Place(st, c.value, inOrBranch) else st)
  }

  /** The list `GetJsonQueryFromExpression` serialises: `orConditions`, then `conditions` if non-empty. */
  function Finish(st: Lists): Entry {
    st.orConditions + (if st.conditions == [] then [] else [st.conditions])
  }

  /** What `GetJsonQueryFromExpression(predicate)` serialises, or the exception it throws. */
  function JsonQuery(props: seq<Property>, e: Expr): Result<Entry, Error> {
    var st :- Traverse(props, e, false, Lists([], []));
    Success(Finish(st))
  }

  lemma {:induction false} PlaceAllAppend(st: Lists, a: seq<Placed>, b: seq<Placed>)
    ensures PlaceAll(st, a + b) == PlaceAll(PlaceAll(st, a), b)
  {
    if b == [] {
      assert a + b == a;
    } else {
      assert (a + b)[..|a + b| - 1] == a + b[..|b| - 1];
      PlaceAllAppend(st, a, b[..|b| - 1]);
    }
  }

  /** The stateful traversal places exactly the conditions `Leaves` lists, in order, and fails exactly when it does. */
  lemma {:induction false} TraverseMatchesLeaves(props: seq<Property>, e: Expr, inOrBranch: bool, st: Lists)
    ensures Traverse(props, e, inOrBranch, st).Failure? <==> Leaves(props, e, inOrBranch).Failure?
    ensures Leaves(props, e, inOrBranch).Failure? ==>
      Traverse(props, e, inOrBranch, st).error == Leaves(props, e, inOrBranch).error
    ensures Leaves(props, e, inOrBranch).Success? ==>
      Traverse(props, e, inOrBranch, st).value == PlaceAll(st, Leaves(props, e, inOrBranch).value)
  {
    match e
    case AndAlso(l, r) =>
      TraverseMatchesLeaves(props, l, inOrBranch, st);
      if Leaves(props, l, inOrBranch).Success? {
        var a := Leaves(props, l, inOrBranch).value;
        TraverseMatchesLeaves(props, r, inOrBranch, PlaceAll(st, a));
        if Leaves(props, r, inOrBranch).Success? {
          PlaceAllAppend(st, a, Leaves(props, r, inOrBranch).value);
        }
      }
    case OrElse(l, r) =>
      if !inOrBranch {
        TraverseMatchesLeaves(props, l, true, st);
        if Leaves(props, l, true).Success? {
          var a := Leaves(props, l, true).value;
          TraverseMatchesLeaves(props, r, true, PlaceAll(st, a));
          if Leaves(props, r, true).Success? {
            PlaceAllAppend(st, a, Leaves(props, r, true).value);
          }
        }
      }
    case BoolMember(_) =>
    case Unknown =>
    case Binary(_, _, _) =>
      if LeafCondition(props, e).Success? && LeafCondition(props, e).value.Some? {
        assert PlaceAll(st, [Placed(LeafCondition(props, e).value.value, inOrBranch)]) ==
          Place(PlaceAll(st, []), LeafCondition(props, e).value.value, inOrBranch);
      }
    case Call(_, _, _, _, _) =>
      if LeafCondition(props, e).Success? && LeafCondition(props, e).value.Some? {
        assert PlaceAll(st, [Placed(LeafCondition(props, e).value.value, inOrBranch)]) ==
          Place(PlaceAll(st, []), LeafCondition(props, e).value.value, inOrBranch);
      }
  }

  /** From empty lists, placing conditions yields the plain ones in order and at most one shared OR group. */
  lemma {:induction false} PlaceAllFromEmpty(ls: seq<Placed>)
    ensures PlaceAll(Lists([], []), ls) == Lists(Mains(ls), if Ors(ls) == [] then [] else [Ors(ls)])
  {
    if ls != [] {
      var init := ls[..|ls| - 1];
      var last := ls[|ls| - 1];
      PlaceAllFromEmpty(init);
      var st := PlaceAll(Lists([], []), init);
      if last.underOr {
        assert Ors(ls) == Ors(init) + [last.condition];
        assert Mains(ls) == Mains(init);
        if Ors(init) != [] {
          assert st.orConditions == [Ors(init)];
          assert st.orConditions[..0] + [st.orConditions[0] + [last.condition]] == [Ors(ls)];
        } else {
          assert Ors(ls) == [last.condition];
        }
      } else {
        assert Ors(ls) == Ors(init);
        assert Mains(ls) == Mains(init) + [last.condition];
      }
    }
  }

  /**
   * The compiled entry: OR-branch conditions share one group, placed first;
   * the conditions outside any OR branch form the last group; an empty group
   * is never emitted. It fails exactly when `Leaves` does, with the same exception.
   */
  lemma JsonQueryShape(props: seq<Property>, e: Expr)
    ensures JsonQuery(props, e).Failure? <==> Leaves(props, e, false).Failure?
    ensures JsonQuery(props, e).Failure? ==> JsonQuery(props, e).error == Leaves(props, e, false).error
    ensures JsonQuery(props, e).Success? ==> JsonQuery(props, e).value == Grouped(Leaves(props, e, false).value)
  {
    TraverseMatchesLeaves(props, e, false, Lists([], []));
    if Leaves(props, e, false).Success? {
      PlaceAllFromEmpty(Leaves(props, e, false).value);
    }
  }

  /** Every compiled entry has at most two groups, and no empty one. */
  lemma JsonQueryGroups(props: seq<Property>, e: Expr)
    requires JsonQuery(props, e).Success?
    ensures |JsonQuery(props, e).value| <= 2
    ensures forall k :: 0 <= k < |JsonQuery(props, e).value| ==> JsonQuery(props, e).value[k] != []
  {
    JsonQueryShape(props, e);
  }

  // ------------------------------------------------------------ nesting

  /** An OR node is reached inside an OR branch. */
  predicate HasNestedOr(e: Expr, inOrBranch: bool) {
    match e
    case AndAlso(l, r) => HasNestedOr(l, inOrBranch) || HasNestedOr(r, inOrBranch)
    case OrElse(l, r) => inOrBranch || HasNestedOr(l, true) || HasNestedOr(r, true)
    case _ => false
  }

  /** The predicate has no OR node at all. */
  predicate NoOr(e: Expr) {
    match e
    case AndAlso(l, r) => NoOr(l) && NoOr(r)
    case OrElse(_, _) => false
    case _ => true
  }

  /** A nested OR always makes compilation fail; the nested-OR exception is raised only because of one. */
  lemma {:induction false} NestedOrFails(props: seq<Property>, e: Expr, inOrBranch: bool)
    ensures HasNestedOr(e, inOrBranch) ==> Leaves(props, e, inOrBranch).Failure?
    ensures Leaves(props, e, inOrBranch) == Failure(NestedOrNotSupported) ==> HasNestedOr(e, inOrBranch)
  {
    match e
    case AndAlso(l, r) =>
      NestedOrFails(props, l, inOrBranch);
      NestedOrFails(props, r, inOrBranch);
    case OrElse(l, r) =>
      NestedOrFails(props, l, true);
      NestedOrFails(props, r, true);
    case Binary(_, _, _) =>
    case Call(_, _, _, _, _) =>
    case BoolMember(_) =>
    case Unknown =>
  }

  /** Without an OR node no condition is reached inside an OR branch. */
  lemma {:induction false} NoOrNoOrs(props: seq<Property>, e: Expr)
    requires NoOr(e)
    requires Leaves(props, e, false).Success?
    ensures Ors(Leaves(props, e, false).value) == []
  {
    match e
    case AndAlso(l, r) =>
      NoOrNoOrs(props, l);
      NoOrNoOrs(props, r);
      OrsAppend(Leaves(props, l, false).value, Leaves(props, r, false).value);
    case Binary(_, _, _) =>
    case Call(_, _, _, _, _) =>
    case BoolMember(_) =>
    case Unknown =>
  }

  lemma {:induction false} OrsAppend(a: seq<Placed>, b: seq<Placed>)
    ensures Ors(a + b) == Ors(a) + Ors(b)
  {
    if b == [] {
      assert a + b == a;
    } else {
      assert (a + b)[..|a + b| - 1] == a + b[..|b| - 1];
      OrsAppend(a, b[..|b| - 1]);
    }
  }

  /** An AND-only predicate compiles to a single group of its conditions in source order, or to nothing. */
  lemma AndOnlySingleGroup(props: seq<Property>, e: Expr)
    requires NoOr(e)
    requires JsonQuery(props, e).Success?
    ensures Leaves(props, e, false).Success?
    ensures JsonQuery(props, e).value == (var m := Mains(Leaves(props, e, false).value); if m == [] then [] else [m])
  {
    JsonQueryShape(props, e);
    NoOrNoOrs(props, e);
  }

  // ------------------------------------------------------------ imperative

  /** The local lists `conditions` and `orConditions` the three local functions share. */
  class QueryBuilder {
    const Properties: seq<Property>
    var conditions: seq<Condition>
    var orConditions: seq<Group>

    function State(): Lists
      reads this
    {
      Lists(conditions, orConditions)
    }

    constructor (properties: seq<Property>)
      ensures Properties == properties
      ensures State() == Lists([], [])
    {
      Properties := properties;
      conditions := [];
      orConditions := [];
    }

    /** `AddConditionInternal(left, right, operation, inOrBranch, caseSensitive)`; `None` stands for a null node. */
    method AddConditionInternal(left: Option<string>, right: Option<Value>, operation: string, inOrBranch: bool, caseSensitive: bool)
      returns (r: Result<(), Error>)
      modifies this
      ensures left.None? || right.None? ==> r.Success? && State() == old(State())
      ensures left.Some? && right.Some? ==>
        var c := ConditionFor(Properties, left.value, right.value, operation, caseSensitive);
        && (r.Failure? <==> c.Failure?)
        && (r.Failure? ==> r.error == c.error)
        && (r.Success? ==> State() == if c.value.Some? then Place(old(State()), c.value.value, inOrBranch) else old(State()))
    {
      if left.Some? && right.Some? {
        var propertyInfo := FindProperty(Properties, left.value);
        if propertyInfo.Some? {
          var p := propertyInfo.value;
          var index := p.Index.None?;
          var unique := p.UniqueIndex.None?;
          var primary := p.PrimaryKey.None?;
          if index && unique && primary {
            return Failure(NotIndexed(p.Name));
          }
          var columnName := p.Name;
          if !index {
            columnName := SchemaHelper.GetPropertyColumnName(p, SchemaHelper.IndexKind);
          } else if !unique {
            columnName := SchemaHelper.GetPropertyColumnName(p, SchemaHelper.UniqueIndexKind);
          } else if !primary {
            columnName := SchemaHelper.GetPropertyColumnName(p, SchemaHelper.PrimaryKeyKind);
          }
          var isString := right.value.Str?;
          var jsonCondition := Condition(columnName, operation, right.value, isString, caseSensitive);
          assert columnName == ConditionColumn(p);
          if inOrBranch {
            ghost var before := orConditions;
            if |orConditions| == 0 {
              orConditions := orConditions + [[]];
            }
            var n := |orConditions|;
            assert before == [] ==> n == 1 && orConditions[n - 1] == [] && orConditions[..n - 1] == [];
            assert before != [] ==> orConditions == before;
            orConditions := orConditions[..n - 1] + [orConditions[n - 1] + [jsonCondition]];
            assert before == [] ==> orConditions == [[jsonCondition]] by {
              if before == [] {
                assert [] + [jsonCondition] == [jsonCondition];
              }
            }
          } else {
            conditions := conditions + [jsonCondition];
          }
          assert ConditionFor(Properties, left.value, right.value, operation, caseSensitive) == Success(Some(jsonCondition));
          assert State() == Place(old(State()), jsonCondition, inOrBranch);
        }
      }
      return Success(());
    }

    /** `AddCondition(expression, inOrBranch)`. */
    method AddCondition(e: Expr, inOrBranch: bool) returns (r: Result<(), Error>)
      requires e.Binary? || e.Call?
      modifies this
      ensures r.Failure? <==> Traverse(Properties, e, inOrBranch, old(State())).Failure?
      ensures r.Failure? ==> r.error == Traverse(Properties, e, inOrBranch, old(State())).error
      ensures r.Success? ==> State() == Traverse(Properties, e, inOrBranch, old(State())).value
    {
      match e
      case Binary(node, lhs, rhs) =>
        var operation := NodeName(node);
        if lhs.Member? && rhs.Const? {
          r := AddConditionInternal(Some(lhs.name), Some(rhs.value), operation, inOrBranch, false);
        } else if lhs.Const? && rhs.Member? {
          operation := MirrorOperation(operation);
          r := AddConditionInternal(Some(rhs.name), Some(lhs.value), operation, inOrBranch, false);
        } else {
          r := Success(());
        }
      case Call(onString, name, receiver, arg, more) =>
        if onString && IsStringMethod(name) {
          var left := if receiver.Member? then Some(receiver.name) else None;
          var right := if arg.Const? then Some(arg.value) else None;
          var caseSensitive := true;
          if |more| > 0 && more[0].Const? && more[0].value.Comparison? {
            var comparisonValue := more[0].value.c;
            caseSensitive := comparisonValue == Ordinal || comparisonValue == CurrentCulture;
          }
          r := AddConditionInternal(left, right, StringOperation(name), inOrBranch, caseSensitive);
        } else {
          r := Success(());
        }
    }

    /** `TraverseExpression(expression, inOrBranch)`. */
    method TraverseExpression(e: Expr, inOrBranch: bool) returns (r: Result<(), Error>)
      modifies this
      decreases e
      ensures r.Failure? <==> Traverse(Properties, e, inOrBranch, old(State())).Failure?
      ensures r.Failure? ==> r.error == Traverse(Properties, e, inOrBranch, old(State())).error
      ensures r.Success? ==> State() == Traverse(Properties, e, inOrBranch, old(State())).value
    {
      match e
      case AndAlso(left, right) =>
        r := TraverseExpression(left, inOrBranch);
        if r.Success? {
          r := TraverseExpression(right, inOrBranch);
        }
      case OrElse(left, right) =>
        if inOrBranch {
          return Failure(NestedOrNotSupported);
        }
        r := TraverseExpression(left, !inOrBranch);
        if r.Success? {
          r := TraverseExpression(right, !inOrBranch);
        }
      case Binary(_, _, _) =>
        r := AddCondition(e, inOrBranch);
      case Call(_, _, _, _, _) =>
        r := AddCondition(e, inOrBranch);
      case BoolMember(_) =>
        r := Success(());
      case Unknown =>
        r := Success(());
    }
  }

  /** `GetJsonQueryFromExpression(predicate)`, with the JSON serialisation left out. */
  method GetJsonQueryFromExpression(props: seq<Property>, e: Expr) returns (r: Result<Entry, Error>)
    ensures r == JsonQuery(props, e)
  {
    var builder := new QueryBuilder(props);
    var traversed := builder.TraverseExpression(e, false);
    ghost var expected := Traverse(props, e, false, Lists([], []));
    if traversed.Failure? {
      assert expected.Failure?;
      return Failure(traversed.error);
    }
    if |builder.conditions| != 0 {
      builder.orConditions := builder.orConditions + [builder.conditions];
    }
    assert Finish(expected.value) == builder.orConditions;
    return Success(builder.orConditions);
  }
}
