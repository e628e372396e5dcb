/**
 * The correlation table of `IndexedDbManager`: every boundary call carries a
 * fresh transaction token, and the completion the browser side reports back
 * for that token is routed to the callback or future registered under it, or,
 * failing both, raised as an `ActionCompleted` event.
 */
module Correlation {
  import opened Wrappers
  import opened Guids

  /** An `Action<BlazorDbEvent>` a caller registered, by identity. */
  type ActionId = nat

  /** `WeakReference<Action<BlazorDbEvent>>`: `target` is what `TryGetTarget` yields, `None` once it fails. */
  datatype WeakCallback = WeakCallback(target: Option<ActionId>)

  /** `BlazorDbEvent`. */
  datatype BlazorDbEvent = BlazorDbEvent(Transaction: Guid, Message: string, Failed: bool)

  /** What a completion did: invoked a callback, resolved the future of its token, or raised `ActionCompleted`. */
  datatype Delivery =
    | Invoked(action: ActionId, event: BlazorDbEvent)
    | Resolved(event: BlazorDbEvent)
    | Raised(event: BlazorDbEvent)

  /** The manager's two tables and the deliveries made so far. */
  datatype Table = Table(callbacks: map<Guid, WeakCallback>, futures: set<Guid>, log: seq<Delivery>)

  /** The index of the first draw of the random source that `used` does not already hold. */
  function FirstFresh(draws: seq<Guid>, used: set<Guid>): (k: nat)
    requires exists i :: 0 <= i < |draws| && draws[i] !in used
    ensures k < |draws| && draws[k] !in used
    ensures forall j :: 0 <= j < k ==> draws[j] in used
  {
    if draws[0] !in used then 0
    else
      assert exists i :: 0 <= i < |draws[1..]| && draws[1..][i] !in used by {
        var i :| 0 <= i < |draws| && draws[i] !in used;
        assert draws[1..][i - 1] == draws[i];
      }
      1 + FirstFresh(draws[1..], used)
  }

  /** What `CalledFromJS(transaction, failed, message)` makes of the tables. */
  function Dispatch(st: Table, transaction: Guid, failed: bool, message: string): Table {
    if transaction == Empty then st
    else
      var event := BlazorDbEvent(transaction, message, failed);
      if transaction in st.callbacks && st.callbacks[transaction].target.Some? then
        Table(st.callbacks - {transaction}, st.futures, st.log + [Invoked(st.callbacks[transaction].target.value, event)])
      else if transaction in st.futures then
        Table(st.callbacks, st.futures - {transaction}, st.log + [Resolved(event)])
      else
        Table(st.callbacks, st.futures, st.log + [Raised(event)])
  }

  /** A completion for `Guid.Empty` changes nothing. */
  lemma DispatchIgnoresEmpty(st: Table, failed: bool, message: string)
    ensures Dispatch(st, Empty, failed, message) == st
  {
  }

  /** Any other completion makes exactly one delivery, and which one is decided by the tables. */
  lemma DispatchDeliversOnce(st: Table, transaction: Guid, failed: bool, message: string)
    requires transaction != Empty
    ensures var st' := Dispatch(st, transaction, failed, message);
      && |st'.log| == |st.log| + 1
      && st'.log[..|st.log|] == st.log
      && st'.log[|st.log|].event == BlazorDbEvent(transaction, message, failed)
      && (st'.log[|st.log|].Invoked? <==> transaction in st.callbacks && st.callbacks[transaction].target.Some?)
      && (st'.log[|st.log|].Resolved? <==>
            !(transaction in st.callbacks && st.callbacks[transaction].target.Some?) && transaction in st.futures)
      && (st'.log[|st.log|].Raised? <==>
            !(transaction in st.callbacks && st.callbacks[transaction].target.Some?) && transaction !in st.futures)
      && (st'.log[|st.log|].Invoked? ==> st'.log[|st.log|].action == st.callbacks[transaction].target.value)
  {
    var st' := Dispatch(st, transaction, failed, message);
    assert st'.log[..|st.log|] == st.log;
  }

  /** A completion removes at most its own token, from the table that served it, and nothing else. */
  lemma DispatchRemovesOnlyItsToken(st: Table, transaction: Guid, failed: bool, message: string)
    ensures var st' := Dispatch(st, transaction, failed, message);
      && st'.callbacks.Keys <= st.callbacks.Keys && st'.futures <= st.futures
      && (forall u :: u in st.callbacks && u != transaction ==> u in st'.callbacks && st'.callbacks[u] == st.callbacks[u])
      && (forall u :: u in st.futures && u != transaction ==> u in st'.futures)
      && !(transaction in st.callbacks && transaction !in st'.callbacks && transaction in st.futures && transaction !in st'.futures)
  {
  }

  /** An entry whose callback has been collected is never removed, and its token's future, if any, is served instead. */
  lemma DeadEntryKept(st: Table, transaction: Guid, failed: bool, message: string)
    requires transaction in st.callbacks && st.callbacks[transaction].target.None?
    ensures var st' := Dispatch(st, transaction, failed, message);
      transaction in st'.callbacks && st'.callbacks[transaction] == st.callbacks[transaction]
    ensures transaction != Empty ==>
      (Dispatch(st, transaction, failed, message).log[|st.log|] ==
        if transaction in st.futures then Resolved(BlazorDbEvent(transaction, message, failed))
        else Raised(BlazorDbEvent(transaction, message, failed)))
  {
  }

  /** The argument array a boundary call sends: the manager's object reference, the token, then the caller's arguments. */
  datatype InteropArg<A> = ObjectReference | TransactionArg(id: Guid) | Passed(value: A)

  class IndexedDbManager {
    var Transactions: map<Guid, WeakCallback>
    var TaskTransactions: set<Guid>
    var Log: seq<Delivery>

    function State(): Table
      reads this
    {
      Table(Transactions, TaskTransactions, Log)
    }

    /** A new manager: both tables empty, nothing delivered. */
    constructor ()
      ensures State() == Table(map[], {}, [])
    {
      Transactions := map[];
      TaskTransactions := {};
      Log := [];
    }

    /**
     * `GenerateTransaction(action)`: draws from the random source until a
     * token is absent from the callback table, and registers the action under it.
     */
    method GenerateTransaction(action: Option<ActionId>, draws: seq<Guid>) returns (transaction: Guid)
      requires exists i :: 0 <= i < |draws| && draws[i] !in Transactions.Keys
      modifies this
      ensures transaction == draws[FirstFresh(draws, old(Transactions).Keys)]
      ensures transaction !in old(Transactions)
      ensures Transactions == old(Transactions)[transaction := WeakCallback(action)]
      ensures TaskTransactions == old(TaskTransactions) && Log == old(Log)
    {
      var generated := false;
      var i := 0;
      ghost var k := FirstFresh(draws, Transactions.Keys);
      transaction := draws[0];
      while !generated
        invariant 0 <= i <= k + 1
        invariant TaskTransactions == old(TaskTransactions) && Log == old(Log)
        invariant !generated ==> i <= k && Transactions == old(Transactions)
        invariant generated ==> (i == k + 1 && transaction == draws[k] && Transactions == old(Transactions)[transaction := WeakCallback(action)])
        decreases k + 1 - i
      {
        transaction := draws[i];
        if transaction !in Transactions {
          generated := true;
          Transactions := Transactions[transaction := WeakCallback(action)];
        }
        i := i + 1;
      }
    }

    /**
     * `GenerateTransaction()`: draws until `TryAdd` succeeds on the future
     * table; the future is the one now pending under the returned token.
     */
    method GenerateTaskTransaction(draws: seq<Guid>) returns (transaction: Guid)
      requires exists i :: 0 <= i < |draws| && draws[i] !in TaskTransactions
      modifies this
      ensures transaction == draws[FirstFresh(draws, old(TaskTransactions))]
      ensures transaction !in old(TaskTransactions)
      ensures TaskTransactions == old(TaskTransactions) + {transaction}
      ensures Transactions == old(Transactions) && Log == old(Log)
    {
      var generated := false;
      var i := 0;
      ghost var k := FirstFresh(draws, TaskTransactions);
      transaction := draws[0];
      while !generated
        invariant 0 <= i <= k + 1
        invariant Transactions == old(Transactions) && Log == old(Log)
        invariant !generated ==> i <= k && TaskTransactions == old(TaskTransactions)
        invariant generated ==> (i == k + 1 && transaction == draws[k] && TaskTransactions == old(TaskTransactions) + {transaction})
        decreases k + 1 - i
      {
        transaction := draws[i];
        if transaction !in TaskTransactions {
          TaskTransactions := TaskTransactions + {transaction};
          generated := true;
        }
        i := i + 1;
      }
    }

    /** `RaiseEvent(transaction, failed, message)`. */
    method RaiseEvent(transaction: Guid, failed: bool, message: string)
      modifies this
      ensures Log == old(Log) + [Raised(BlazorDbEvent(transaction, message, failed))]
      ensures Transactions == old(Transactions) && TaskTransactions == old(TaskTransactions)
    {
      Log := Log + [Raised(BlazorDbEvent(transaction, message, failed))];
    }

    /** `CalledFromJS(transaction, failed, message)`, the completion callback the browser side invokes. */
    method CalledFromJS(transaction: Guid, failed: bool, message: string)
      modifies this
      ensures State() == Dispatch(old(State()), transaction, failed, message)
    {
      if transaction != Empty {
        var r := if transaction in Transactions then Some(Transactions[transaction]) else None;
        var t := transaction in TaskTransactions;
        if r.Some? && r.value.target.Some? {
          var action := r.value.target.value;
          Log := Log + [Invoked(action, BlazorDbEvent(transaction, message, failed))];
          Transactions := Transactions - {transaction};
        } else if t {
          Log := Log + [Resolved(BlazorDbEvent(transaction, message, failed))];
          TaskTransactions := TaskTransactions - {transaction};
        } else {
          RaiseEvent(transaction, failed, message);
        }
      }
    }

    /** `GetNewArgs(transaction, args)`. */
    method GetNewArgs<A>(transaction: Guid, args: array<A>) returns (newArgs: array<InteropArg<A>>)
      ensures fresh(newArgs)
      ensures newArgs.Length == args.Length + 2
      ensures newArgs[0] == ObjectReference && newArgs[1] == TransactionArg(transaction)
      ensures forall i :: 0 <= i < args.Length ==> newArgs[i + 2] == Passed(args[i])
    {
      newArgs := new InteropArg<A>[args.Length + 2](_ => ObjectReference);
      newArgs[0] := ObjectReference;
      newArgs[1] := TransactionArg(transaction);
      for i := 0 to args.Length
        invariant newArgs[0] == ObjectReference && newArgs[1] == TransactionArg(transaction)
        invariant forall j :: 0 <= j < i ==> newArgs[j + 2] == Passed(args[j])
      {
        newArgs[i + 2] := Passed(args[i]);
      }
    }
  }

  /** Issuing a callback token and then completing it invokes that callback exactly once and frees the token. */
  lemma IssueThenComplete(st: Table, transaction: Guid, action: ActionId, failed: bool, message: string)
    requires transaction != Empty && transaction !in st.callbacks
    ensures var st' := Dispatch(st.(callbacks := st.callbacks[transaction := WeakCallback(Some(action))]), transaction, failed, message);
      && st'.callbacks == st.callbacks
      && st'.futures == st.futures
      && st'.log == st.log + [Invoked(action, BlazorDbEvent(transaction, message, failed))]
  {
    var st1 := st.(callbacks := st.callbacks[transaction := WeakCallback(Some(action))]);
    assert st1.callbacks - {transaction} == st.callbacks;
  }
}
