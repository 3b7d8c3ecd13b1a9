/** The executer (`OracleExecuter`): runs statement trees against the
    relational store, catches and logs the errors of the single-change
    operations, warns about updates and deletes that do not touch exactly
    one row, and batches statement trees by their SQL text. */
module OracleExecuter {
  import opened JsValues
  import opened PairsCommon
  import opened SqlConstructor
  import opened Effects

  // ---------------------------------------------------------------------
  // Statement trees

  /** The statements of a tree in pre-order: the statement, then the trees
      of its sub-statements in order. */
  function Nodes(st: Statement): (r: seq<Statement>)
    ensures |r| >= 1 && r[0] == st
    decreases st, 1
  {
    [st] + NodesOf(st.subStatements)
  }

  function NodesOf(sts: seq<Statement>): seq<Statement>
    decreases sts, 0
  {
    if |sts| == 0 then [] else Nodes(sts[0]) + NodesOf(sts[1..])
  }

  lemma {:induction false} NodesOfAppend(a: seq<Statement>, b: seq<Statement>)
    ensures NodesOf(a + b) == NodesOf(a) + NodesOf(b)
  {
    if |a| == 0 {
      assert a + b == b;
    } else {
      assert (a + b)[0] == a[0];
      assert (a + b)[1..] == a[1..] + b;
      NodesOfAppend(a[1..], b);
    }
  }

  /** The store call that runs one statement. */
  function CallOf(st: Statement): Call {
    Single(st.Sql(), st.values)
  }

  function CallsOf(nodes: seq<Statement>): (r: seq<Call>)
    ensures |r| == |nodes| && forall i | 0 <= i < |nodes| :: r[i] == CallOf(nodes[i])
  {
    seq(|nodes|, i requires 0 <= i < |nodes| => CallOf(nodes[i]))
  }

  // ---------------------------------------------------------------------
  // execute

  /** `execute`: the statement is run, then each sub-statement's tree in
      order; the first error ends the run. The result is the rows affected
      by the statement itself. */
  function Exec(db: Store, t: seq<Action>, st: Statement): Outcome<nat>
    decreases st, 1
  {
    var answer := db(t, CallOf(st));
    var t1 := t + [Db(CallOf(st))];
    if answer.Err? then Outcome(answer, t1)
    else
      var rest := ExecAll(db, t1, st.subStatements);
      Outcome(if rest.result.Err? then Err(rest.result.error) else answer, rest.trace)
  }

  function ExecAll(db: Store, t: seq<Action>, sts: seq<Statement>): Outcome<()>
    decreases sts, 0
  {
    if |sts| == 0 then Outcome(Ok(()), t)
    else
      var first := Exec(db, t, sts[0]);
      if first.result.Err? then Outcome(Err(first.result.error), first.trace)
      else ExecAll(db, first.trace, sts[1..])
  }

  /** Reference run: the calls one after the other, stopping after the
      first that fails. */
  function RunCalls(db: Store, t: seq<Action>, calls: seq<Call>): Outcome<()>
    decreases |calls|
  {
    if |calls| == 0 then Outcome(Ok(()), t)
    else
      var answer := db(t, calls[0]);
      var t1 := t + [Db(calls[0])];
      if answer.Err? then Outcome(Err(answer.error), t1)
      else RunCalls(db, t1, calls[1..])
  }

  /** The reference run only adds store calls to the trace; they are a
      prefix of `calls`, all of them when the run succeeds, and otherwise
      the last one is the call that failed, with the error reported. */
  predicate RunShaped(db: Store, t: seq<Action>, calls: seq<Call>) {
    var o := RunCalls(db, t, calls);
    && |t| <= |o.trace| && o.trace[..|t|] == t
    && (forall i | |t| <= i < |o.trace| :: o.trace[i].Db?)
    && Calls(o.trace[|t|..]) <= calls
    && (o.result.Ok? ==> Calls(o.trace[|t|..]) == calls)
    && (o.result.Err? ==>
          |t| < |o.trace| && db(o.trace[..|o.trace| - 1], o.trace[|o.trace| - 1].call) == Err(o.result.error))
  }

  lemma {:induction false} RunShape(db: Store, t: seq<Action>, calls: seq<Call>)
    ensures RunShaped(db, t, calls)
    decreases |calls|
  {
    var o := RunCalls(db, t, calls);
    if |calls| == 0 {
      assert o.trace[|t|..] == [];
    } else if db(t, calls[0]).Err? {
      var t1 := t + [Db(calls[0])];
      assert o.trace == t1;
      assert o.trace[|t|..] == [Db(calls[0])];
      assert o.trace[..|o.trace| - 1] == t;
    } else {
      RunShape(db, t + [Db(calls[0])], calls[1..]);
      RunShapeStep(db, t, calls);
    }
  }

  /** A first call that succeeds, followed by the rest of the run. */
  lemma RunShapeStep(db: Store, t: seq<Action>, calls: seq<Call>)
    requires |calls| > 0 && db(t, calls[0]).Ok?
    requires RunShaped(db, t + [Db(calls[0])], calls[1..])
    ensures RunShaped(db, t, calls)
  {
    var t1 := t + [Db(calls[0])];
    var o := RunCalls(db, t, calls);
    assert o == RunCalls(db, t1, calls[1..]);
    assert o.trace[..|t1|][..|t|] == o.trace[..|t|];
    assert o.trace[|t|..] == [Db(calls[0])] + o.trace[|t1|..];
    CallsAppend([Db(calls[0])], o.trace[|t1|..]);
    assert Calls([Db(calls[0])]) == [calls[0]];
    assert calls == [calls[0]] + calls[1..];
  }

  lemma {:induction false} RunAppend(db: Store, t: seq<Action>, a: seq<Call>, b: seq<Call>)
    ensures RunCalls(db, t, a + b) ==
      var o := RunCalls(db, t, a);
      if o.result.Err? then o else RunCalls(db, o.trace, b)
    decreases |a|
  {
    if |a| == 0 {
      assert a + b == b;
    } else {
      assert (a + b)[0] == a[0];
      assert (a + b)[1..] == a[1..] + b;
      if db(t, a[0]).Ok? {
        RunAppend(db, t + [Db(a[0])], a[1..], b);
      }
    }
  }

  /** Running a statement tree is running its pre-order calls one after
      the other: the same trace and the same error, and on success the
      rows affected by the root statement. */
  lemma {:induction false} ExecIsFlat(db: Store, t: seq<Action>, st: Statement)
    ensures var o := Exec(db, t, st); var f := RunCalls(db, t, CallsOf(Nodes(st)));
      && o.trace == f.trace
      && o.result.Err? == f.result.Err?
      && (o.result.Err? ==> o.result.error == f.result.error)
      && (o.result.Ok? ==> o.result == db(t, CallOf(st)))
    decreases st, 1
  {
    var calls := CallsOf(Nodes(st));
    var subs := CallsOf(NodesOf(st.subStatements));
    assert calls == [CallOf(st)] + subs;
    RunAppend(db, t, [CallOf(st)], subs);
    if db(t, CallOf(st)).Ok? {
      ExecAllIsFlat(db, t + [Db(CallOf(st))], st.subStatements);
    }
  }

  lemma {:induction false} ExecAllIsFlat(db: Store, t: seq<Action>, sts: seq<Statement>)
    ensures ExecAll(db, t, sts) == RunCalls(db, t, CallsOf(NodesOf(sts)))
    decreases sts, 0
  {
    if |sts| > 0 {
      var first := CallsOf(Nodes(sts[0]));
      var rest := CallsOf(NodesOf(sts[1..]));
      assert CallsOf(NodesOf(sts)) == first + rest;
      RunAppend(db, t, first, rest);
      ExecIsFlat(db, t, sts[0]);
      var o := Exec(db, t, sts[0]);
      if o.result.Ok? {
        ExecAllIsFlat(db, o.trace, sts[1..]);
      }
    }
  }

  // ---------------------------------------------------------------------
  // The single-change operations

  /** A statement as built (a building error counts as thrown before any
      store call) and then executed. */
  function Run(db: Store, t: seq<Action>, built: Result<Statement>): Outcome<nat> {
    if built.Err? then Outcome(Err(built.error), t) else Exec(db, t, built.value)
  }

  /** `try { ... } catch (err) { Logger.error(err) }`. */
  function Caught(o: Outcome<nat>): seq<Action> {
    if o.result.Err? then o.trace + [Logged(o.result.error)] else o.trace
  }

  function InsertTrace(db: Store, t: seq<Action>, p: Param): seq<Action>
    requires Aligned(p.src, p.dest)
  {
    Caught(Run(db, t, Insert(p)))
  }

  function UpsertTrace(db: Store, t: seq<Action>, p: Param): seq<Action>
    requires Aligned(p.src, p.dest)
  {
    Caught(Run(db, t, Upsert(p)))
  }

  /** `update`: no row changed gives a warning and then an insert of the
      same parameter; more than one row changed gives a warning. */
  function UpdateTrace(db: Store, t: seq<Action>, p: Param): seq<Action>
    requires Aligned(p.src, p.dest)
  {
    Updated(db, t, Update(p), Insert(p))
  }

  /** `update` with the update statement and the insert statement as built. */
  function Updated(db: Store, t: seq<Action>, update: Result<Statement>, insert: Result<Statement>): seq<Action> {
    var o := Run(db, t, update);
    if o.result.Err? then Caught(o)
    else if o.result.value == 0 then Caught(Run(db, o.trace + [Warn(UpdateMissed(update.value))], insert))
    else if o.result.value > 1 then o.trace + [Warn(UpdateMany(update.value))]
    else o.trace
  }

  /** `delete`: a warning when no row or more than one row was removed. */
  function DeleteTrace(db: Store, t: seq<Action>, p: Param): seq<Action>
    requires Aligned(p.src, p.dest)
  {
    Deleted(db, t, Delete(p))
  }

  function Deleted(db: Store, t: seq<Action>, delete: Result<Statement>): seq<Action> {
    var o := Run(db, t, delete);
    if o.result.Err? then Caught(o)
    else if o.result.value == 0 then o.trace + [Warn(DeleteNone(delete.value))]
    else if o.result.value > 1 then o.trace + [Warn(DeleteMany(delete.value))]
    else o.trace
  }

  function DeleteAllTrace(db: Store, t: seq<Action>, p: Param): seq<Action> {
    Caught(Exec(db, t, DeleteAll(p)))
  }

  /** The store calls a built statement issues, in order, when every one
      of them succeeds. */
  function TreeCalls(built: Result<Statement>): seq<Call> {
    if built.Err? then [] else CallsOf(Nodes(built.value))
  }

  /** What a statement run adds to the trace: a prefix of the statement
      tree's pre-order calls, all of them exactly when it succeeds. */
  lemma RunIssues(db: Store, t: seq<Action>, built: Result<Statement>)
    ensures var o := Run(db, t, built);
      && |t| <= |o.trace| && o.trace[..|t|] == t
      && (forall i | |t| <= i < |o.trace| :: o.trace[i].Db?)
      && Calls(o.trace[|t|..]) <= TreeCalls(built)
      && (o.result.Ok? ==> Calls(o.trace[|t|..]) == TreeCalls(built))
      && (o.result.Ok? ==> o.result == db(t, CallOf(built.value)))
  {
    if built.Err? {
      assert t[|t|..] == [];
    } else {
      ExecIsFlat(db, t, built.value);
      RunShape(db, t, CallsOf(Nodes(built.value)));
    }
  }

  /** The actions an operation adds after the trace `t`. */
  function Added(t: seq<Action>, t': seq<Action>): seq<Action>
    requires |t| <= |t'|
  {
    t'[|t|..]
  }

  /** `insert` issues a prefix of its statement tree's calls, all of them
      when nothing fails; it never warns, and logs exactly one error when
      building or a call fails. */
  lemma InsertIssues(db: Store, t: seq<Action>, p: Param)
    requires Aligned(p.src, p.dest)
    ensures var t' := InsertTrace(db, t, p); var o := Run(db, t, Insert(p));
      && |t| <= |t'| && t'[..|t|] == t
      && Calls(Added(t, t')) <= TreeCalls(Insert(p))
      && (forall a <- Added(t, t') :: !a.Warn?)
      && (o.result.Ok? ==> Calls(Added(t, t')) == TreeCalls(Insert(p)) && forall a <- Added(t, t') :: a.Db?)
      && (o.result.Err? ==> t'[|t'| - 1] == Logged(o.result.error))
  {
    CaughtIssues(db, t, Insert(p));
  }

  lemma CaughtIssues(db: Store, t: seq<Action>, built: Result<Statement>)
    ensures var t' := Caught(Run(db, t, built)); var o := Run(db, t, built);
      && |t| <= |t'| && t'[..|t|] == t
      && Calls(Added(t, t')) <= TreeCalls(built)
      && (forall a <- Added(t, t') :: !a.Warn?)
      && (o.result.Ok? ==> Calls(Added(t, t')) == TreeCalls(built) && forall a <- Added(t, t') :: a.Db?)
      && (o.result.Err? ==> t'[|t'| - 1] == Logged(o.result.error))
  {
    var o := Run(db, t, built);
    RunIssues(db, t, built);
    LoggedAfter(t, o);
  }

  /** Appending the logged error keeps the prefix, adds no store call and
      no warning. */
  lemma LoggedAfter(t: seq<Action>, o: Outcome<nat>)
    requires |t| <= |o.trace| && o.trace[..|t|] == t
    requires forall i | |t| <= i < |o.trace| :: o.trace[i].Db?
    ensures var t' := Caught(o);
      && |t| <= |t'| && t'[..|t|] == t
      && Calls(t'[|t|..]) == Calls(o.trace[|t|..])
      && (forall a <- t'[|t|..] :: !a.Warn?)
      && (o.result.Ok? ==> t' == o.trace)
  {
    if o.result.Err? {
      var t' := Caught(o);
      assert t'[|t|..] == o.trace[|t|..] + [Logged(o.result.error)];
      CallsAppend(o.trace[|t|..], [Logged(o.result.error)]);
      assert Calls([Logged(o.result.error)]) == [];
      assert t'[..|t|] == o.trace[..|t|];
    }
  }

  /** `update` warns exactly when it ran and did not change exactly one
      row. When it changed no row, its own calls are followed by a prefix
      of the insert's calls; otherwise it issues a prefix of its own. */
  lemma UpdateIssues(db: Store, t: seq<Action>, p: Param)
    requires Aligned(p.src, p.dest)
    ensures var t' := UpdateTrace(db, t, p); var o := Run(db, t, Update(p));
      && |t| <= |t'| && t'[..|t|] == t
      && ((exists a <- Added(t, t') :: a.Warn?) <==> o.result.Ok? && o.result.value != 1)
      && (o.result.Ok? && o.result.value == 0 ==>
            && |TreeCalls(Update(p))| <= |Calls(Added(t, t'))|
            && Calls(Added(t, t'))[..|TreeCalls(Update(p))|] == TreeCalls(Update(p))
            && Calls(Added(t, t'))[|TreeCalls(Update(p))|..] <= TreeCalls(Insert(p)))
      && (!(o.result.Ok? && o.result.value == 0) ==> Calls(Added(t, t')) <= TreeCalls(Update(p)))
  {
    UpdatedIssues(db, t, Update(p), Insert(p));
  }

  predicate UpdatedShaped(db: Store, t: seq<Action>, update: Result<Statement>, insert: Result<Statement>) {
    var t' := Updated(db, t, update, insert); var o := Run(db, t, update);
    && |t| <= |t'| && t'[..|t|] == t
    && ((exists a <- Added(t, t') :: a.Warn?) <==> o.result.Ok? && o.result.value != 1)
    && (o.result.Ok? && o.result.value == 0 ==>
          && |TreeCalls(update)| <= |Calls(Added(t, t'))|
          && Calls(Added(t, t'))[..|TreeCalls(update)|] == TreeCalls(update)
          && Calls(Added(t, t'))[|TreeCalls(update)|..] <= TreeCalls(insert))
    && (!(o.result.Ok? && o.result.value == 0) ==> Calls(Added(t, t')) <= TreeCalls(update))
  }

  lemma UpdatedIssues(db: Store, t: seq<Action>, update: Result<Statement>, insert: Result<Statement>)
    ensures UpdatedShaped(db, t, update, insert)
  {
    var o := Run(db, t, update);
    if o.result.Ok? && o.result.value == 0 {
      UpdatedMissedIssues(db, t, update, insert);
    } else {
      UpdatedOtherIssues(db, t, update, insert);
    }
  }

  /** No row changed: a warning, then the insert. */
  lemma UpdatedMissedIssues(db: Store, t: seq<Action>, update: Result<Statement>, insert: Result<Statement>)
    requires Run(db, t, update).result == Ok(0)
    ensures UpdatedShaped(db, t, update, insert)
  {
    var o := Run(db, t, update);
    var t' := Updated(db, t, update, insert);
    RunIssues(db, t, update);
    var w := Warn(UpdateMissed(update.value));
    CaughtIssues(db, o.trace + [w], insert);
    WarnedBetween(t, o.trace, w, t');
  }

  /** The update failed or changed at least one row. */
  lemma UpdatedOtherIssues(db: Store, t: seq<Action>, update: Result<Statement>, insert: Result<Statement>)
    requires Run(db, t, update).result != Ok(0)
    ensures UpdatedShaped(db, t, update, insert)
  {
    var o := Run(db, t, update);
    var t' := Updated(db, t, update, insert);
    RunIssues(db, t, update);
    if o.result.Err? {
      LoggedAfter(t, o);
    } else if o.result.value > 1 {
      var w := Warn(UpdateMany(update.value));
      WarnedAfter(t, o.trace, w);
    } else {
      assert t' == o.trace;
      assert forall a <- Added(t, t') :: a.Db?;
    }
  }

  /** A warning after store calls, then more actions without warnings:
      the warning is the only one, and the calls are those before it
      followed by those after it. */
  lemma WarnedBetween(t: seq<Action>, t0: seq<Action>, w: Action, t': seq<Action>)
    requires |t| <= |t0| && t0[..|t|] == t && w.Warn?
    requires forall i | |t| <= i < |t0| :: t0[i].Db?
    requires |t0| + 1 <= |t'| && t'[..|t0| + 1] == t0 + [w]
    ensures t'[..|t|] == t
    ensures Calls(Added(t, t')) == Calls(t0[|t|..]) + Calls(Added(t0 + [w], t'))
    ensures Added(t, t')[|t0| - |t|] == w
  {
    var t1 := t0 + [w];
    assert t'[..|t|] == t1[..|t|];
    assert Added(t, t') == t0[|t|..] + [w] + Added(t1, t');
    CallsAppend(t0[|t|..] + [w], Added(t1, t'));
    CallsAppend(t0[|t|..], [w]);
    assert Calls([w]) == [];
  }

  /** A warning appended after store calls is the only warning and adds no call. */
  lemma WarnedAfter(t: seq<Action>, t1: seq<Action>, w: Action)
    requires |t| <= |t1| && t1[..|t|] == t && w.Warn?
    requires forall i | |t| <= i < |t1| :: t1[i].Db?
    ensures var t' := t1 + [w];
      && t'[..|t|] == t
      && (exists a <- Added(t, t') :: a.Warn?)
      && Calls(Added(t, t')) == Calls(t1[|t|..])
  {
    var t' := t1 + [w];
    assert Added(t, t') == t1[|t|..] + [w];
    CallsAppend(t1[|t|..], [w]);
    assert Calls([w]) == [];
    assert Added(t, t')[|t1| - |t|] == w;
  }

  /** `delete` warns exactly when it ran and did not remove exactly one
      row, and never issues anything but a prefix of its own calls. */
  lemma DeleteIssues(db: Store, t: seq<Action>, p: Param)
    requires Aligned(p.src, p.dest)
    ensures var t' := DeleteTrace(db, t, p); var o := Run(db, t, Delete(p));
      && |t| <= |t'| && t'[..|t|] == t
      && ((exists a <- Added(t, t') :: a.Warn?) <==> o.result.Ok? && o.result.value != 1)
      && Calls(Added(t, t')) <= TreeCalls(Delete(p))
      && (o.result.Ok? ==> Calls(Added(t, t')) == TreeCalls(Delete(p)))
  {
    DeletedIssues(db, t, Delete(p));
  }

  lemma DeletedIssues(db: Store, t: seq<Action>, delete: Result<Statement>)
    ensures var t' := Deleted(db, t, delete); var o := Run(db, t, delete);
      && |t| <= |t'| && t'[..|t|] == t
      && ((exists a <- Added(t, t') :: a.Warn?) <==> o.result.Ok? && o.result.value != 1)
      && Calls(Added(t, t')) <= TreeCalls(delete)
      && (o.result.Ok? ==> Calls(Added(t, t')) == TreeCalls(delete))
  {
    var o := Run(db, t, delete);
    var t' := Deleted(db, t, delete);
    RunIssues(db, t, delete);
    if o.result.Err? {
      LoggedAfter(t, o);
    } else if o.result.value != 1 {
      var w := Warn(if o.result.value == 0 then DeleteNone(delete.value) else DeleteMany(delete.value));
      WarnedAfter(t, o.trace, w);
    } else {
      assert t' == o.trace;
      assert forall a <- Added(t, t') :: a.Db?;
    }
  }

  /** `deleteAll` issues one call that empties the destination table, with
      no values; a failure is logged. */
  lemma DeleteAllIssues(db: Store, t: seq<Action>, p: Param)
    ensures var call := Single("DELETE FROM " + p.dest.table, []);
      var answer := db(t, call);
      DeleteAllTrace(db, t, p) == t + [Db(call)] + (if answer.Err? then [Logged(answer.error)] else [])
  {
    var st := DeleteAll(p);
    var t1 := t + [Db(CallOf(st))];
    assert ExecAll(db, t1, []) == Outcome(Ok(()), t1);
  }

  // ---------------------------------------------------------------------
  // groupSqlStatements

  /** The grouping dictionary: SQL texts in insertion order (the order in
      which `Object.entries` lists non-numeric keys) and the value rows
      collected for each. */
  datatype Grouping = Grouping(keys: seq<string>, rows: map<string, seq<seq<Bound>>>)

  /** The keys are distinct and are exactly the dictionary's entries. */
  predicate WellGrouped(g: Grouping) {
    && (forall k <- g.keys :: k in g.rows)
    && (forall k <- g.rows :: k in g.keys)
    && (forall i, j | 0 <= i < j < |g.keys| :: g.keys[i] != g.keys[j])
  }

  /** One statement: a new entry for an unseen SQL text, then its values
      appended to the entry. */
  function AddRow(g: Grouping, sql: string, values: seq<Bound>): Grouping {
    if sql in g.rows then Grouping(g.keys, g.rows[sql := g.rows[sql] + [values]])
    else Grouping(g.keys + [sql], g.rows[sql := [values]])
  }

  /** The statements one after the other. */
  function GroupNodes(g: Grouping, nodes: seq<Statement>): Grouping
    decreases |nodes|
  {
    if |nodes| == 0 then g else GroupNodes(AddRow(g, nodes[0].Sql(), nodes[0].values), nodes[1..])
  }

  /** The value rows of the statements with SQL text `sql`, in order. */
  function RowsWith(nodes: seq<Statement>, sql: string): (r: seq<seq<Bound>>)
    ensures |r| <= |nodes|
  {
    if |nodes| == 0 then []
    else (if nodes[0].Sql() == sql then [nodes[0].values] else []) + RowsWith(nodes[1..], sql)
  }

  /** The number of value rows over all entries. */
  function TotalRows(keys: seq<string>, rows: map<string, seq<seq<Bound>>>): nat
    requires forall k <- keys :: k in rows
  {
    if |keys| == 0 then 0 else |rows[keys[0]]| + TotalRows(keys[1..], rows)
  }

  lemma {:induction false} GroupAppend(g: Grouping, a: seq<Statement>, b: seq<Statement>)
    ensures GroupNodes(g, a + b) == GroupNodes(GroupNodes(g, a), b)
    decreases |a|
  {
    if |a| == 0 {
      assert a + b == b;
    } else {
      assert (a + b)[0] == a[0];
      assert (a + b)[1..] == a[1..] + b;
      GroupAppend(AddRow(g, a[0].Sql(), a[0].values), a[1..], b);
    }
  }

  /** Grouping keeps the dictionary well formed. */
  lemma {:induction false} GroupWell(g: Grouping, nodes: seq<Statement>)
    requires WellGrouped(g)
    ensures WellGrouped(GroupNodes(g, nodes))
    decreases |nodes|
  {
    if |nodes| > 0 {
      var g1 := AddRow(g, nodes[0].Sql(), nodes[0].values);
      assert WellGrouped(g1);
      GroupWell(g1, nodes[1..]);
    }
  }

  /** The entry for `sql` after grouping: present exactly when it was
      before or some statement has that text, holding the rows it had
      followed by those of the statements with that text, in order. */
  predicate GroupedEntry(g: Grouping, nodes: seq<Statement>, sql: string) {
    GroupedHas(g, nodes, sql) && GroupedRows(g, nodes, sql)
  }

  predicate GroupedHas(g: Grouping, nodes: seq<Statement>, sql: string) {
    sql in GroupNodes(g, nodes).rows <==> sql in g.rows || exists n <- nodes :: n.Sql() == sql
  }

  predicate GroupedRows(g: Grouping, nodes: seq<Statement>, sql: string) {
    var r := GroupNodes(g, nodes);
    sql in r.rows ==> r.rows[sql] == (if sql in g.rows then g.rows[sql] else []) + RowsWith(nodes, sql)
  }

  lemma {:induction false} GroupRows(g: Grouping, nodes: seq<Statement>, sql: string)
    ensures GroupedEntry(g, nodes, sql)
    decreases |nodes|
  {
    if |nodes| > 0 {
      GroupRows(AddRow(g, nodes[0].Sql(), nodes[0].values), nodes[1..], sql);
      GroupRowsStep(g, nodes, sql);
    } else {
      assert RowsWith(nodes, sql) == [];
    }
  }

  /** The first statement's row, followed by the grouping of the rest. */
  lemma GroupRowsStep(g: Grouping, nodes: seq<Statement>, sql: string)
    requires |nodes| > 0
    requires GroupedEntry(AddRow(g, nodes[0].Sql(), nodes[0].values), nodes[1..], sql)
    ensures GroupedEntry(g, nodes, sql)
  {
    GroupHasStep(g, nodes, sql);
    GroupRowsValueStep(g, nodes, sql);
  }

  lemma GroupHasStep(g: Grouping, nodes: seq<Statement>, sql: string)
    requires |nodes| > 0
    requires GroupedHas(AddRow(g, nodes[0].Sql(), nodes[0].values), nodes[1..], sql)
    ensures GroupedHas(g, nodes, sql)
  {
    var key := nodes[0].Sql();
    var g1 := AddRow(g, key, nodes[0].values);
    assert GroupNodes(g, nodes) == GroupNodes(g1, nodes[1..]);
    assert sql in g1.rows <==> sql in g.rows || key == sql;
    assert (exists n <- nodes :: n.Sql() == sql) <==> key == sql || exists n <- nodes[1..] :: n.Sql() == sql by {
      assert forall n <- nodes :: n == nodes[0] || n in nodes[1..];
      assert forall n <- nodes[1..] :: n in nodes;
    }
  }

  lemma GroupRowsValueStep(g: Grouping, nodes: seq<Statement>, sql: string)
    requires |nodes| > 0
    requires GroupedRows(AddRow(g, nodes[0].Sql(), nodes[0].values), nodes[1..], sql)
    ensures GroupedRows(g, nodes, sql)
  {
    var key := nodes[0].Sql();
    var g1 := AddRow(g, key, nodes[0].values);
    var r := GroupNodes(g, nodes);
    assert r == GroupNodes(g1, nodes[1..]);
    if sql in r.rows {
      var before := if sql in g.rows then g.rows[sql] else [];
      var here := if key == sql then [nodes[0].values] else [];
      assert (if sql in g1.rows then g1.rows[sql] else []) == before + here;
      assert RowsWith(nodes, sql) == here + RowsWith(nodes[1..], sql);
      assert before + here + RowsWith(nodes[1..], sql) == before + (here + RowsWith(nodes[1..], sql));
    }
  }

  /** Adding a row to a well-formed dictionary adds one to the total. */
  lemma AddRowTotal(g: Grouping, sql: string, values: seq<Bound>)
    requires WellGrouped(g)
    ensures var g1 := AddRow(g, sql, values);
      WellGrouped(g1) && TotalRows(g1.keys, g1.rows) == TotalRows(g.keys, g.rows) + 1
  {
    var g1 := AddRow(g, sql, values);
    if sql in g.rows {
      TotalBump(g.keys, g.rows, sql, values);
    } else {
      TotalUnchanged(g.keys, g.rows, g1.rows);
      TotalAppend(g.keys, [sql], g1.rows);
    }
  }

  lemma {:induction false} TotalBump(keys: seq<string>, rows: map<string, seq<seq<Bound>>>, sql: string, values: seq<Bound>)
    requires forall k <- keys :: k in rows
    requires sql in keys && forall i, j | 0 <= i < j < |keys| :: keys[i] != keys[j]
    ensures TotalRows(keys, rows[sql := rows[sql] + [values]]) == TotalRows(keys, rows) + 1
  {
    var rows1 := rows[sql := rows[sql] + [values]];
    if keys[0] == sql {
      assert sql !in keys[1..] by {
        forall j | 0 <= j < |keys[1..]| ensures keys[1..][j] != sql {
          assert keys[1..][j] == keys[j + 1];
        }
      }
      TotalUnchanged(keys[1..], rows, rows1);
    } else {
      TotalBump(keys[1..], rows, sql, values);
    }
  }

  lemma {:induction false} TotalUnchanged(keys: seq<string>, rows: map<string, seq<seq<Bound>>>, rows1: map<string, seq<seq<Bound>>>)
    requires forall k <- keys :: k in rows && k in rows1 && rows1[k] == rows[k]
    ensures TotalRows(keys, rows1) == TotalRows(keys, rows)
  {
    if |keys| > 0 {
      TotalUnchanged(keys[1..], rows, rows1);
    }
  }

  lemma {:induction false} TotalAppend(a: seq<string>, b: seq<string>, rows: map<string, seq<seq<Bound>>>)
    requires forall k <- a + b :: k in rows
    ensures TotalRows(a + b, rows) == TotalRows(a, rows) + TotalRows(b, rows)
  {
    if |a| == 0 {
      assert a + b == b;
    } else {
      assert (a + b)[0] == a[0];
      assert (a + b)[1..] == a[1..] + b;
      TotalAppend(a[1..], b, rows);
    }
  }

  /** Every statement lands in exactly one row: grouping adds as many rows
      as there are statements. */
  lemma {:induction false} GroupTotal(g: Grouping, nodes: seq<Statement>)
    requires WellGrouped(g)
    ensures var r := GroupNodes(g, nodes);
      WellGrouped(r) && TotalRows(r.keys, r.rows) == TotalRows(g.keys, g.rows) + |nodes|
    decreases |nodes|
  {
    if |nodes| > 0 {
      var g1 := AddRow(g, nodes[0].Sql(), nodes[0].values);
      AddRowTotal(g, nodes[0].Sql(), nodes[0].values);
      GroupTotal(g1, nodes[1..]);
    }
  }

  /** The dictionary `executeMany` builds from a list of statement trees. */
  function Grouped(sts: seq<Statement>): Grouping {
    GroupNodes(Grouping([], map[]), NodesOf(sts))
  }

  /** Batch mode groups every statement of every tree: one entry per
      distinct SQL text, holding the values of the statements with that
      text in pre-order, and as many rows in all as there are statements. */
  lemma GroupedCovers(sts: seq<Statement>)
    ensures var g := Grouped(sts);
      && WellGrouped(g)
      && TotalRows(g.keys, g.rows) == |NodesOf(sts)|
      && (forall sql :: sql in g.rows <==> exists n <- NodesOf(sts) :: n.Sql() == sql)
      && (forall sql <- g.rows :: g.rows[sql] == RowsWith(NodesOf(sts), sql))
  {
    var g0 := Grouping([], map[]);
    GroupTotal(g0, NodesOf(sts));
    forall sql ensures var g := Grouped(sts);
      && (sql in g.rows <==> exists n <- NodesOf(sts) :: n.Sql() == sql)
      && (sql in g.rows ==> g.rows[sql] == RowsWith(NodesOf(sts), sql))
    {
      GroupRows(g0, NodesOf(sts), sql);
    }
  }

  // ---------------------------------------------------------------------
  // executeMany

  /** The sum of the rows affected. */
  function Sum(ns: seq<nat>): nat {
    if |ns| == 0 then 0 else ns[0] + Sum(ns[1..])
  }

  /** Debug mode: the trees one after the other, summing the rows affected
      by each root statement; the first error ends the run. */
  function Debugged(db: Store, t: seq<Action>, sts: seq<Statement>): Outcome<nat>
    decreases |sts|
  {
    if |sts| == 0 then Outcome(Ok(0), t)
    else
      var first := Exec(db, t, sts[0]);
      if first.result.Err? then first
      else
        var rest := Debugged(db, first.trace, sts[1..]);
        Outcome(if rest.result.Err? then rest.result else Ok(first.result.value + rest.result.value), rest.trace)
  }

  /** One `executeMany` call per dictionary entry, in key order. */
  function BatchCalls(g: Grouping): (r: seq<Call>)
    requires forall k <- g.keys :: k in g.rows
    ensures |r| == |g.keys|
  {
    seq(|g.keys|, i requires 0 <= i < |g.keys| => Batch(g.keys[i], g.rows[g.keys[i]]))
  }

  /** The store's answers to calls issued one after the other, each
      without waiting for the previous one's outcome. */
  function Answers(db: Store, t: seq<Action>, calls: seq<Call>): (r: seq<Result<nat>>)
    ensures |r| == |calls|
    decreases |calls|
  {
    if |calls| == 0 then [] else [db(t, calls[0])] + Answers(db, t + [Db(calls[0])], calls[1..])
  }

  function Issued(calls: seq<Call>): (r: seq<Action>)
    ensures |r| == |calls| && forall i | 0 <= i < |calls| :: r[i] == Db(calls[i])
  {
    seq(|calls|, i requires 0 <= i < |calls| => Db(calls[i]))
  }

  /** `Promise.all` over the answers: the sum of the rows, or an error. */
  function AllSettled(answers: seq<Result<nat>>): Result<nat> {
    var all :- Collect(answers);
    Ok(Sum(all))
  }

  /** `executeMany`. */
  function ExecMany(db: Store, t: seq<Action>, sts: seq<Statement>, isDebug: bool): Outcome<nat> {
    if isDebug then Debugged(db, t, sts)
    else
      var g := Grouped(sts);
      GroupedCovers(sts);
      var calls := BatchCalls(g);
      Outcome(AllSettled(Answers(db, t, calls)), t + Issued(calls))
  }

  /** In batch mode every entry's call is issued, even when some of them
      fail: the run fails exactly when one of the answers is an error, and
      otherwise returns the sum of the rows the answers report. */
  lemma BatchIssuesAll(db: Store, t: seq<Action>, sts: seq<Statement>)
    ensures var o := ExecMany(db, t, sts, false); var g := Grouped(sts);
      && WellGrouped(g)
      && |t| <= |o.trace| && o.trace[..|t|] == t
      && Calls(o.trace[|t|..]) == BatchCalls(g)
      && (o.result.Err? <==> exists a <- Answers(db, t, BatchCalls(g)) :: a.Err?)
      && (o.result.Ok? ==>
            && Collect(Answers(db, t, BatchCalls(g))).Ok?
            && o.result.value == Sum(Collect(Answers(db, t, BatchCalls(g))).value))
  {
    GroupedCovers(sts);
    var g := Grouped(sts);
    var o := ExecMany(db, t, sts, false);
    assert o.trace[|t|..] == Issued(BatchCalls(g));
    IssuedCalls(BatchCalls(g));
    var answers := Answers(db, t, BatchCalls(g));
    if exists a <- answers :: a.Err? {
      var a :| a in answers && a.Err?;
      var i :| 0 <= i < |answers| && answers[i] == a;
    }
  }

  lemma {:induction false} IssuedCalls(calls: seq<Call>)
    ensures Calls(Issued(calls)) == calls
  {
    if |calls| > 0 {
      assert Issued(calls) == [Db(calls[0])] + Issued(calls[1..]);
      CallsAppend([Db(calls[0])], Issued(calls[1..]));
      IssuedCalls(calls[1..]);
    }
  }

  /** Debug mode issues the same calls as executing the trees' statements
      one after the other, stopping at the first failure. */
  lemma {:induction false} DebugIsFlat(db: Store, t: seq<Action>, sts: seq<Statement>)
    ensures var o := Debugged(db, t, sts); var f := RunCalls(db, t, CallsOf(NodesOf(sts)));
      && o.trace == f.trace
      && o.result.Err? == f.result.Err?
      && (o.result.Err? ==> o.result.error == f.result.error)
    decreases |sts|
  {
    if |sts| > 0 {
      var first := CallsOf(Nodes(sts[0]));
      var rest := CallsOf(NodesOf(sts[1..]));
      assert CallsOf(NodesOf(sts)) == first + rest;
      RunAppend(db, t, first, rest);
      ExecIsFlat(db, t, sts[0]);
      var o := Exec(db, t, sts[0]);
      if o.result.Ok? {
        DebugIsFlat(db, o.trace, sts[1..]);
      }
    }
  }

  // ---------------------------------------------------------------------
  // The executer object

  /** The plain object `groupSqlStatements` fills. */
  class SqlDictionary {
    var keys: seq<string>
    var rows: map<string, seq<seq<Bound>>>

    function Contents(): Grouping
      reads this
    {
      Grouping(keys, rows)
    }

    constructor()
      ensures Contents() == Grouping([], map[])
    {
      keys := [];
      rows := map[];
    }

    /** `if (!dict[sql]) dict[sql] = []; dict[sql].push(values)`. */
    method Push(sql: string, values: seq<Bound>)
      modifies this
      ensures Contents() == AddRow(old(Contents()), sql, values)
    {
      if sql !in rows {
        keys := keys + [sql];
        rows := rows[sql := []];
        assert [] + [values] == [values];
      }
      rows := rows[sql := rows[sql] + [values]];
    }
  }

  /** `groupSqlStatements`: each statement's values under its SQL text,
      then its sub-statements, recursively. */
  method GroupSqlStatements(dict: SqlDictionary, sts: seq<Statement>)
    modifies dict
    ensures dict.Contents() == GroupNodes(old(dict.Contents()), NodesOf(sts))
    decreases sts
  {
    for i := 0 to |sts|
      invariant GroupNodes(old(dict.Contents()), NodesOf(sts)) == GroupNodes(dict.Contents(), NodesOf(sts[i..]))
    {
      GroupStep(dict.Contents(), sts, i);
      dict.Push(sts[i].Sql(), sts[i].values);
      GroupSqlStatements(dict, sts[i].subStatements);
    }
    assert sts[|sts|..] == [];
  }

  lemma GroupStep(g: Grouping, sts: seq<Statement>, i: nat)
    requires i < |sts|
    ensures GroupNodes(g, NodesOf(sts[i..])) ==
      GroupNodes(GroupNodes(AddRow(g, sts[i].Sql(), sts[i].values), NodesOf(sts[i].subStatements)), NodesOf(sts[i + 1..]))
  {
    assert sts[i..][0] == sts[i] && sts[i..][1..] == sts[i + 1..];
    assert NodesOf(sts[i..]) == [sts[i]] + (NodesOf(sts[i].subStatements) + NodesOf(sts[i + 1..]));
    GroupAppend(AddRow(g, sts[i].Sql(), sts[i].values), NodesOf(sts[i].subStatements), NodesOf(sts[i + 1..]));
  }

  /** `OracleExecuter`: the connection is the store `db`; `trace` records
      what the executer has done to the outside world. */
  class Executer {
    var trace: seq<Action>
    const db: Store

    constructor(db: Store)
      ensures this.db == db && trace == []
    {
      this.db := db;
      trace := [];
    }

    /** `execute`. */
    method Execute(st: Statement) returns (r: Result<nat>)
      modifies this
      ensures Outcome(r, trace) == Exec(db, old(trace), st)
      decreases st
    {
      var answer := db(trace, CallOf(st));
      trace := trace + [Db(CallOf(st))];
      if answer.Err? {
        return answer;
      }
      ghost var t1 := trace;
      var subs := st.subStatements;
      for i := 0 to |subs|
        invariant ExecAll(db, t1, subs) == ExecAll(db, trace, subs[i..])
      {
        assert subs[i..][0] == subs[i] && subs[i..][1..] == subs[i + 1..];
        var sub := Execute(subs[i]);
        if sub.Err? {
          return Err(sub.error);
        }
      }
      assert subs[|subs|..] == [];
      return answer;
    }

    method Insert(p: Param)
      requires Aligned(p.src, p.dest)
      modifies this
      ensures trace == InsertTrace(db, old(trace), p)
    {
      var built := SqlConstructor.Insert(p);
      if built.Err? {
        trace := trace + [Logged(built.error)];
        return;
      }
      var r := Execute(built.value);
      if r.Err? {
        trace := trace + [Logged(r.error)];
      }
    }

    method Upsert(p: Param)
      requires Aligned(p.src, p.dest)
      modifies this
      ensures trace == UpsertTrace(db, old(trace), p)
    {
      var built := SqlConstructor.Upsert(p);
      if built.Err? {
        trace := trace + [Logged(built.error)];
        return;
      }
      var r := Execute(built.value);
      if r.Err? {
        trace := trace + [Logged(r.error)];
      }
    }

    method Update(p: Param)
      requires Aligned(p.src, p.dest)
      modifies this
      ensures trace == UpdateTrace(db, old(trace), p)
    {
      var built := SqlConstructor.Update(p);
      if built.Err? {
        trace := trace + [Logged(built.error)];
        return;
      }
      var r := Execute(built.value);
      if r.Err? {
        trace := trace + [Logged(r.error)];
      } else if r.value == 0 {
        trace := trace + [Warn(UpdateMissed(built.value))];
        Insert(p);
      } else if r.value > 1 {
        trace := trace + [Warn(UpdateMany(built.value))];
      }
    }

    method Delete(p: Param)
      requires Aligned(p.src, p.dest)
      modifies this
      ensures trace == DeleteTrace(db, old(trace), p)
    {
      var built := SqlConstructor.Delete(p);
      if built.Err? {
        trace := trace + [Logged(built.error)];
        return;
      }
      var r := Execute(built.value);
      if r.Err? {
        trace := trace + [Logged(r.error)];
      } else if r.value == 0 {
        trace := trace + [Warn(DeleteNone(built.value))];
      } else if r.value > 1 {
        trace := trace + [Warn(DeleteMany(built.value))];
      }
    }

    method DeleteAll(p: Param)
      modifies this
      ensures trace == DeleteAllTrace(db, old(trace), p)
    {
      var r := Execute(SqlConstructor.DeleteAll(p));
      if r.Err? {
        trace := trace + [Logged(r.error)];
      }
    }

    /** `executeMany`: in debug mode the trees one by one; otherwise one
      `executeMany` call per distinct SQL text, all issued before any
      answer is awaited. */
    method ExecuteMany(sts: seq<Statement>, isDebug: bool) returns (r: Result<nat>)
      modifies this
      ensures Outcome(r, trace) == ExecMany(db, old(trace), sts, isDebug)
    {
      if isDebug {
        r := ExecuteEach(sts);
      } else {
        r := ExecuteBatches(sts);
      }
    }

    /** Debug mode of `executeMany`. */
    method ExecuteEach(sts: seq<Statement>) returns (r: Result<nat>)
      modifies this
      ensures Outcome(r, trace) == Debugged(db, old(trace), sts)
    {
      var rowsAffected := 0;
      if Debugged(db, trace, sts).result.Ok? {
        assert 0 + Debugged(db, trace, sts).result.value == Debugged(db, trace, sts).result.value;
      }
      for i := 0 to |sts|
        invariant Debugged(db, old(trace), sts) == Plus(rowsAffected, Debugged(db, trace, sts[i..]))
      {
        assert sts[i..][0] == sts[i] && sts[i..][1..] == sts[i + 1..];
        var result := Execute(sts[i]);
        if result.Err? {
          return Err(result.error);
        }
        PlusTwice(rowsAffected, result.value, Debugged(db, trace, sts[i + 1..]));
        rowsAffected := rowsAffected + result.value;
      }
      assert sts[|sts|..] == [];
      return Ok(rowsAffected);
    }

    /** Batch mode of `executeMany`. */
    method ExecuteBatches(sts: seq<Statement>) returns (r: Result<nat>)
      modifies this
      ensures Outcome(r, trace) == ExecMany(db, old(trace), sts, false)
    {
      var dict := new SqlDictionary();
      GroupSqlStatements(dict, sts);
      GroupedCovers(sts);
      var answers := IssueBatches(dict);
      var all := Collect(answers);
      if all.Err? {
        return Err(all.error);
      }
      var rowsAffected := SumOf(all.value);
      return Ok(rowsAffected);
    }

    /** One `executeMany` call per dictionary entry, in key order, each
      issued without awaiting the previous one. */
    method IssueBatches(dict: SqlDictionary) returns (answers: seq<Result<nat>>)
      requires WellGrouped(dict.Contents())
      modifies this
      ensures trace == old(trace) + Issued(BatchCalls(dict.Contents()))
      ensures answers == Answers(db, old(trace), BatchCalls(dict.Contents()))
    {
      ghost var calls := BatchCalls(dict.Contents());
      answers := [];
      for i := 0 to |dict.keys|
        invariant trace == old(trace) + Issued(calls[..i])
        invariant Answers(db, old(trace), calls) == answers + Answers(db, trace, calls[i..])
      {
        var call := Batch(dict.keys[i], dict.rows[dict.keys[i]]);
        assert call == calls[i];
        IssueStep(db, old(trace), trace, calls, i, answers);
        answers := answers + [db(trace, call)];
        trace := trace + [Db(call)];
      }
      assert calls[..|calls|] == calls && calls[|calls|..] == [];
    }
  }

  /** One more call issued by the batch loop. */
  lemma IssueStep(db: Store, t0: seq<Action>, t: seq<Action>, calls: seq<Call>, i: nat, answers: seq<Result<nat>>)
    requires i < |calls| && t == t0 + Issued(calls[..i])
    requires Answers(db, t0, calls) == answers + Answers(db, t, calls[i..])
    ensures t + [Db(calls[i])] == t0 + Issued(calls[..i + 1])
    ensures Answers(db, t0, calls) == (answers + [db(t, calls[i])]) + Answers(db, t + [Db(calls[i])], calls[i + 1..])
  {
    assert calls[i..][0] == calls[i] && calls[i..][1..] == calls[i + 1..];
    assert Issued(calls[..i + 1]) == Issued(calls[..i]) + [Db(calls[i])];
    assert answers + ([db(t, calls[i])] + Answers(db, t + [Db(calls[i])], calls[i + 1..]))
      == (answers + [db(t, calls[i])]) + Answers(db, t + [Db(calls[i])], calls[i + 1..]);
  }

  /** `n` added to the rows of an outcome. */
  function Plus(n: nat, o: Outcome<nat>): Outcome<nat> {
    if o.result.Err? then o else Outcome(Ok(n + o.result.value), o.trace)
  }

  lemma PlusTwice(a: nat, b: nat, o: Outcome<nat>)
    ensures Plus(a, Plus(b, o)) == Plus(a + b, o)
  {
    if o.result.Ok? {
      assert Plus(b, o) == Outcome(Ok(b + o.result.value), o.trace);
      assert a + (b + o.result.value) == (a + b) + o.result.value;
    }
  }

  /** `results.map(r => r.rowsAffected).reduce((a, b) => a + b, 0)`. */
  method SumOf(ns: seq<nat>) returns (total: nat)
    ensures total == Sum(ns)
  {
    total := 0;
    for i := 0 to |ns|
      invariant total + Sum(ns[i..]) == Sum(ns)
    {
      assert ns[i..][0] == ns[i] && ns[i..][1..] == ns[i + 1..];
      total := total + ns[i];
    }
    assert ns[|ns|..] == [];
  }
}
