/** What the executer and the synchronizer do to the outside world, as a
    trace of actions, and the answers the outside world gives. The
    relational store and the document store are parameters: each answer is
    a function of the call and of everything that happened before it. */
module Effects {
  import opened JsValues
  import opened SqlConstructor

  /** A call into the relational store: `execute(sql, values)` or
      `executeMany(sql, rows)`, both with auto-commit. */
  datatype Call =
    | Single(sql: string, values: seq<Bound>)
    | Batch(sql: string, rows: seq<seq<Bound>>)

  /** The warnings the core logs. */
  datatype Warning =
    | UpdateMissed(st: Statement)       // an update changed no row; an insert follows
    | UpdateMany(st: Statement)         // an update changed more than one row
    | DeleteNone(st: Statement)         // a delete removed no row
    | DeleteMany(st: Statement)         // a delete removed more than one row
    | CollectionDropped(table: string)  // an `invalidate` change event
    | UnknownOperation(change: Value)   // any other operation type

  datatype Action =
    | Db(call: Call)
    | Warn(warning: Warning)
    | Logged(error: Error)                                   // `Logger.error`
    | Find(collection: string, filter: Value)                // `find(filter).toArray()`
    | Watch(collection: string, pipeline: Value, resumeAfter: Value)
    | Callback(change: Value)                                // the caller's `onChangeCallback`

  /** The result of a step and the trace after it. */
  datatype Outcome<T> = Outcome(result: Result<T>, trace: seq<Action>)

  /** The relational store: rows affected, or the error it raises. */
  type Store = (seq<Action>, Call) -> Result<nat>

  /** The document store's answer to a `find` on a collection with a filter. */
  type Documents = (seq<Action>, string, Value) -> Result<seq<Value>>

  /** The store calls in a trace, in order. */
  function Calls(t: seq<Action>): (r: seq<Call>)
    ensures |r| <= |t|
  {
    if |t| == 0 then []
    else (if t[0].Db? then [t[0].call] else []) + Calls(t[1..])
  }

  lemma {:induction false} CallsAppend(a: seq<Action>, b: seq<Action>)
    ensures Calls(a + b) == Calls(a) + Calls(b)
  {
    if |a| == 0 {
      assert a + b == b;
    } else {
      var head := if a[0].Db? then [a[0].call] else [];
      assert (a + b)[0] == a[0];
      assert (a + b)[1..] == a[1..] + b;
      assert Calls(a + b) == head + Calls(a[1..] + b);
      CallsAppend(a[1..], b);
      assert Calls(a) == head + Calls(a[1..]);
      assert head + (Calls(a[1..]) + Calls(b)) == (head + Calls(a[1..])) + Calls(b);
    }
  }
}
