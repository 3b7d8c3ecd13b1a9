/** The synchronizer (`Synchronizer`): builds the source/destination pairs
    from the configuration, copies every configured collection into its
    table on start (one batched run of upserts), then watches the
    collections that are synchronised in real time and turns each change
    event into an insert, update, upsert or delete. */
module Synchronizing {
  import opened JsValues
  import opened PairsCommon
  import opened SrcObjects
  import opened SqlConstructor
  import opened Effects
  import opened OracleExecuter
  import opened SyncPairing

  /** `ISynchronizerConfig`: the database name, the "mongo->oracle" table
      list and the default options. */
  datatype SyncConfig = SyncConfig(db: string, tables: seq<Value>, defaultOptions: Value)

  /** A flag of a pair's options, read for truthiness (`options.isSyncOnStart`). */
  function Flag(options: Value, name: string): (r: Result<bool>)
    ensures r.Err? <==> options == Undefined || options == Null
  {
    var v :- Get(options, name);
    Ok(Truthy(v))
  }

  /** `src.query || {}`. */
  function FilterOf(src: Table): Value {
    if Truthy(src.query) then src.query else Obj(map[])
  }

  /** `src.pipeline || []`. */
  function PipelineOf(src: Table): Value {
    if Truthy(src.pipeline) then src.pipeline else Arr([])
  }

  /** `resumeTokens ? resumeTokens[table] : null`. */
  function ResumeAfter(tokens: Value, table: string): Value {
    if Truthy(tokens) then Get(tokens, table).value else Null
  }

  /** Every pair's descriptors are aligned, as the pair builder makes them. */
  predicate AlignedPairs(pairs: seq<SrcDestPair>) {
    forall p <- pairs :: Aligned(p.src, p.dest)
  }

  // ---------------------------------------------------------------------
  // synOnStart

  /** The upserts for the documents of a collection, each document the
      root context. */
  function UpsertsFor(p: SrcDestPair, docs: seq<Value>): (r: Result<seq<Statement>>)
    requires Aligned(p.src, p.dest)
    ensures r.Ok? <==> forall k | 0 <= k < |docs| :: Upsert(Param(p.src, p.dest, SrcObject(docs[k], None))).Ok?
    ensures r.Ok? ==> |r.value| == |docs| && forall k | 0 <= k < |docs| ::
      Upsert(Param(p.src, p.dest, SrcObject(docs[k], None))) == Ok(r.value[k])
  {
    var rs := seq(|docs|, i requires 0 <= i < |docs| => Upsert(Param(p.src, p.dest, SrcObject(docs[i], None))));
    assert |rs| == |docs| && forall k | 0 <= k < |docs| :: rs[k] == Upsert(Param(p.src, p.dest, SrcObject(docs[k], None)));
    Collect(rs)
  }

  /** `acc` followed by the statements of `o`, or the failure of `o`. */
  function After(acc: seq<Statement>, o: Outcome<seq<Statement>>): Outcome<seq<Statement>> {
    if o.result.Err? then o else Outcome(Ok(acc + o.result.value), o.trace)
  }

  /** The gathering loop of `synOnStart` from pair `i` on: a pair without
      `isSyncOnStart` is skipped; otherwise its collection is read with the
      source query (or `{}`) and an upsert is built per document. */
  function Gather(docs: Documents, t: seq<Action>, pairs: seq<SrcDestPair>, i: nat): Outcome<seq<Statement>>
    requires AlignedPairs(pairs) && i <= |pairs|
    decreases |pairs| - i
  {
    if i == |pairs| then Outcome(Ok([]), t)
    else
      var p := pairs[i];
      var flag := Flag(p.options, "isSyncOnStart");
      if flag.Err? then Outcome(Err(flag.error), t)
      else if !flag.value then Gather(docs, t, pairs, i + 1)
      else
        var found := docs(t, p.src.table, FilterOf(p.src));
        var t1 := t + [Find(p.src.table, FilterOf(p.src))];
        if found.Err? then Outcome(Err(found.error), t1)
        else
          var here := UpsertsFor(p, found.value);
          if here.Err? then Outcome(Err(here.error), t1)
          else After(here.value, Gather(docs, t1, pairs, i + 1))
  }

  /** The pairs `synOnStart` copies, from pair `i` on: those whose options
      say `isSyncOnStart`, in order. */
  function SyncedOnStart(pairs: seq<SrcDestPair>, i: nat): (r: seq<SrcDestPair>)
    requires i <= |pairs|
    ensures forall p <- r :: p in pairs && Flag(p.options, "isSyncOnStart") == Ok(true)
    decreases |pairs| - i
  {
    if i == |pairs| then []
    else
      (if Flag(pairs[i].options, "isSyncOnStart") == Ok(true) then [pairs[i]] else [])
      + SyncedOnStart(pairs, i + 1)
  }

  /** The read of a pair's collection, with its source query or `{}`. */
  function FindOf(p: SrcDestPair): Action {
    Find(p.src.table, FilterOf(p.src))
  }

  function FindsOf(ps: seq<SrcDestPair>): (r: seq<Action>)
    ensures |r| == |ps| && forall k | 0 <= k < |ps| :: r[k] == FindOf(ps[k])
  {
    seq(|ps|, k requires 0 <= k < |ps| => FindOf(ps[k]))
  }

  /** The upserts for the documents returned by the reads at positions
      `base`, `base + 1`, ... of the trace `tr`, one read per pair of `ps`
      and one upsert per document, concatenated in order. */
  function UpsertsAlong(docs: Documents, tr: seq<Action>, base: nat, ps: seq<SrcDestPair>): Result<seq<Statement>>
    requires AlignedPairs(ps) && base + |ps| <= |tr|
    decreases |ps|
  {
    if |ps| == 0 then Ok([])
    else
      assert forall p <- ps[1..] :: p in ps;
      var found :- docs(tr[..base], ps[0].src.table, FilterOf(ps[0].src));
      var here :- UpsertsFor(ps[0], found);
      var rest :- UpsertsAlong(docs, tr, base + 1, ps[1..]);
      Ok(here + rest)
  }

  /** `synOnStart`: the gathered upserts in one batch-mode `executeMany`. */
  function SynOnStartSpec(db: Store, docs: Documents, t: seq<Action>, pairs: seq<SrcDestPair>): Outcome<()>
    requires AlignedPairs(pairs)
  {
    var g := Gather(docs, t, pairs, 0);
    if g.result.Err? then Outcome(Err(g.result.error), g.trace)
    else
      var m := ExecMany(db, g.trace, g.result.value, false);
      Outcome(if m.result.Err? then Err(m.result.error) else Ok(()), m.trace)
  }

  // ---------------------------------------------------------------------
  // listen

  /** The watch `listen` opens for a pair. */
  function WatchOf(p: SrcDestPair, tokens: Value): Action {
    Watch(p.src.table, PipelineOf(p.src), ResumeAfter(tokens, p.src.table))
  }

  /** The loop of `listen` from pair `i` on: a pair without
      `isSyncInRealTime` is skipped, any other gets a change stream. */
  function Listening(t: seq<Action>, pairs: seq<SrcDestPair>, tokens: Value, i: nat): Outcome<()>
    requires i <= |pairs|
    decreases |pairs| - i
  {
    if i == |pairs| then Outcome(Ok(()), t)
    else
      var flag := Flag(pairs[i].options, "isSyncInRealTime");
      if flag.Err? then Outcome(Err(flag.error), t)
      else if !flag.value then Listening(t, pairs, tokens, i + 1)
      else Listening(t + [WatchOf(pairs[i], tokens)], pairs, tokens, i + 1)
  }

  // ---------------------------------------------------------------------
  // start

  /** `start`: build the pairs, run `synOnStart`, then `listen`; a failure
      of either of the first two ends it. */
  function StartSpec(db: Store, docs: Documents, t: seq<Action>, config: SyncConfig, tokens: Value): Outcome<()>
    requires forall v <- config.tables :: DecodeTable(v).Some?
  {
    PairsAligned(config.tables, config.defaultOptions);
    StartWith(db, docs, t, OptionPairs(config.tables, config.defaultOptions), tokens)
  }

  /** `start` once the pairs are built (or have failed to build). */
  function StartWith(db: Store, docs: Documents, t: seq<Action>, pairs: Result<seq<SrcDestPair>>, tokens: Value): Outcome<()>
    requires pairs.Ok? ==> AlignedPairs(pairs.value)
  {
    if pairs.Err? then Outcome(Err(pairs.error), t)
    else
      var s := SynOnStartSpec(db, docs, t, pairs.value);
      if s.result.Err? then s
      else Listening(s.trace, pairs.value, tokens, 0)
  }

  lemma PairsAligned(tables: seq<Value>, defaultOptions: Value)
    requires forall v <- tables :: DecodeTable(v).Some?
    ensures OptionPairs(tables, defaultOptions).Ok? ==> AlignedPairs(OptionPairs(tables, defaultOptions).value)
  {
    OptionPairsOnePerTable(tables, defaultOptions);
    var r := OptionPairs(tables, defaultOptions);
    if r.Ok? {
      forall p <- r.value ensures Aligned(p.src, p.dest) {
        var i :| 0 <= i < |r.value| && r.value[i] == p;
      }
    }
  }

  // ---------------------------------------------------------------------
  // onChange

  /** The parameter for a change: the event's document as the root context. */
  function ChangeParam(change: Value, key: string, src: Table, dest: Table): Param
    requires change != Undefined && change != Null
  {
    Param(src, dest, SrcObject(Get(change, key).value, None))
  }

  /** `onChange` followed by the caller's callback, if there is one. Reading
      the operation type of a null or undefined event throws before
      anything happens. */
  function Handled(db: Store, t: seq<Action>, change: Value, src: Table, dest: Table, hasCallback: bool): Outcome<()>
    requires Aligned(src, dest)
  {
    var op := Get(change, "operationType");
    if op.Err? then Outcome(Err(op.error), t)
    else
      var t' := Dispatched(db, t, change, op.value, src, dest);
      Outcome(Ok(()), if hasCallback then t' + [Callback(change)] else t')
  }

  /** The `switch` on the operation type, before the callback. */
  function Dispatched(db: Store, t: seq<Action>, change: Value, op: Value, src: Table, dest: Table): seq<Action>
    requires Aligned(src, dest) && change != Undefined && change != Null
  {
    if op == Str("insert") then InsertTrace(db, t, ChangeParam(change, "fullDocument", src, dest))
    else if op == Str("update") then UpdateTrace(db, t, ChangeParam(change, "fullDocument", src, dest))
    else if op == Str("replace") then UpsertTrace(db, t, ChangeParam(change, "fullDocument", src, dest))
    else if op == Str("delete") then DeleteTrace(db, t, ChangeParam(change, "documentKey", src, dest))
    else if op == Str("invalidate") then t + [Warn(CollectionDropped(src.table))]
    else t + [Warn(UnknownOperation(change))]
  }

  // ---------------------------------------------------------------------
  // Properties

  /** The watches for the pairs synchronised in real time, in order. */
  function RealtimeWatches(pairs: seq<SrcDestPair>, tokens: Value): seq<Action> {
    if |pairs| == 0 then []
    else
      (if Flag(pairs[0].options, "isSyncInRealTime") == Ok(true) then [WatchOf(pairs[0], tokens)] else [])
      + RealtimeWatches(pairs[1..], tokens)
  }

  /** `listen` only opens change streams: exactly one per pair whose
      options say `isSyncInRealTime`, in order, unless reading an options
      object throws, which ends the loop. */
  lemma {:induction false} ListeningWatches(t: seq<Action>, pairs: seq<SrcDestPair>, tokens: Value, i: nat)
    requires i <= |pairs|
    ensures var o := Listening(t, pairs, tokens, i);
      && |t| <= |o.trace| && o.trace[..|t|] == t
      && (forall k | |t| <= k < |o.trace| :: o.trace[k].Watch?)
      && (o.result.Ok? ==> o.trace[|t|..] == RealtimeWatches(pairs[i..], tokens))
      && (o.result.Err? <==> exists k | i <= k < |pairs| :: Flag(pairs[k].options, "isSyncInRealTime").Err?)
    decreases |pairs| - i
  {
    var o := Listening(t, pairs, tokens, i);
    if i == |pairs| {
      assert t[|t|..] == [];
      assert pairs[i..] == [];
    } else {
      var flag := Flag(pairs[i].options, "isSyncInRealTime");
      assert pairs[i..][0] == pairs[i] && pairs[i..][1..] == pairs[i + 1..];
      if flag.Err? {
      } else if !flag.value {
        ListeningWatches(t, pairs, tokens, i + 1);
      } else {
        var t1 := t + [WatchOf(pairs[i], tokens)];
        ListeningWatches(t1, pairs, tokens, i + 1);
        assert o.trace[..|t1|][..|t|] == o.trace[..|t|];
        assert o.trace[|t|] == o.trace[..|t1|][|t|] == WatchOf(pairs[i], tokens);
        assert o.trace[|t|..] == [o.trace[|t|]] + o.trace[|t1|..];
      }
    }
  }

  /** The gathering loop only reads collections, and every statement it
      gathers is a MERGE into the destination table of one of the pairs. */
  predicate FindsAndMerges(pairs: seq<SrcDestPair>, t: seq<Action>, o: Outcome<seq<Statement>>) {
    && |t| <= |o.trace| && o.trace[..|t|] == t
    && (forall k | |t| <= k < |o.trace| :: o.trace[k].Find?)
    && (o.result.Ok? ==> forall st <- o.result.value ::
          st.text.MergeInto? && exists p <- pairs :: st.text.table == p.dest.table)
  }

  lemma {:induction false} GatherFindsAndUpserts(docs: Documents, t: seq<Action>, pairs: seq<SrcDestPair>, i: nat)
    requires AlignedPairs(pairs) && i <= |pairs|
    ensures FindsAndMerges(pairs, t, Gather(docs, t, pairs, i))
    decreases |pairs| - i
  {
    if i == |pairs| {
      assert t[..|t|] == t;
    } else {
      var p := pairs[i];
      var flag := Flag(p.options, "isSyncOnStart");
      if flag.Ok? && !flag.value {
        GatherFindsAndUpserts(docs, t, pairs, i + 1);
      } else if flag.Ok? {
        var t1 := t + [Find(p.src.table, FilterOf(p.src))];
        var found := docs(t, p.src.table, FilterOf(p.src));
        if found.Ok? && UpsertsFor(p, found.value).Ok? {
          GatherFindsAndUpserts(docs, t1, pairs, i + 1);
          GatherFindStep(pairs, i, t, t1, found.value, Gather(docs, t1, pairs, i + 1));
        } else {
          assert t1[..|t|] == t;
        }
      }
    }
  }

  /** One pair read and its upserts put in front of the rest. */
  lemma GatherFindStep(pairs: seq<SrcDestPair>, i: nat, t: seq<Action>, t1: seq<Action>, found: seq<Value>, o: Outcome<seq<Statement>>)
    requires AlignedPairs(pairs) && i < |pairs|
    requires t1 == t + [Find(pairs[i].src.table, FilterOf(pairs[i].src))]
    requires UpsertsFor(pairs[i], found).Ok?
    requires FindsAndMerges(pairs, t1, o)
    ensures FindsAndMerges(pairs, t, After(UpsertsFor(pairs[i], found).value, o))
  {
    var p := pairs[i];
    UpsertsMerge(p, found);
    assert o.trace[..|t1|][..|t|] == o.trace[..|t|];
    assert o.trace[|t|] == o.trace[..|t1|][|t|];
  }

  /** The gathering loop reads exactly the collections of the pairs with
      `isSyncOnStart`, in order, up to its first failure, and on success
      gathers one upsert per document of each collection read, in the
      order of the reads. */
  predicate GatheredAsSynced(docs: Documents, pairs: seq<SrcDestPair>, i: nat, t: seq<Action>, o: Outcome<seq<Statement>>)
    requires AlignedPairs(pairs) && i <= |pairs|
  {
    var ps := SyncedOnStart(pairs, i);
    && |t| <= |o.trace| && o.trace[..|t|] == t
    && o.trace[|t|..] <= FindsOf(ps)
    && (o.result.Ok? ==>
          && o.trace[|t|..] == FindsOf(ps)
          && o.result == UpsertsAlong(docs, o.trace, |t|, ps))
  }

  lemma {:induction false} GatherSynced(docs: Documents, t: seq<Action>, pairs: seq<SrcDestPair>, i: nat)
    requires AlignedPairs(pairs) && i <= |pairs|
    ensures GatheredAsSynced(docs, pairs, i, t, Gather(docs, t, pairs, i))
    decreases |pairs| - i
  {
    if i == |pairs| {
      assert t[..|t|] == t && t[|t|..] == [];
    } else {
      var p := pairs[i];
      var flag := Flag(p.options, "isSyncOnStart");
      if flag.Err? {
        assert t[..|t|] == t && t[|t|..] == [];
      } else if !flag.value {
        GatherSynced(docs, t, pairs, i + 1);
        assert SyncedOnStart(pairs, i) == SyncedOnStart(pairs, i + 1);
      } else {
        var t1 := t + [FindOf(p)];
        var found := docs(t, p.src.table, FilterOf(p.src));
        if found.Ok? && UpsertsFor(p, found.value).Ok? {
          GatherSynced(docs, t1, pairs, i + 1);
          GatherSyncedStep(docs, pairs, i, t, found.value, Gather(docs, t1, pairs, i + 1));
        } else {
          GatherSyncedFails(pairs, i, t);
        }
      }
    }
  }

  /** A read that fails, or whose documents do not all build, ends the loop
      right after that read. */
  lemma GatherSyncedFails(pairs: seq<SrcDestPair>, i: nat, t: seq<Action>)
    requires i < |pairs| && Flag(pairs[i].options, "isSyncOnStart") == Ok(true)
    ensures var t1 := t + [FindOf(pairs[i])];
      t1[..|t|] == t && t1[|t|..] <= FindsOf(SyncedOnStart(pairs, i))
  {
    var t1 := t + [FindOf(pairs[i])];
    assert t1[|t|..] == [FindOf(pairs[i])];
    assert SyncedOnStart(pairs, i)[0] == pairs[i];
  }

  /** One collection read and its upserts put in front of the rest. */
  lemma GatherSyncedStep(docs: Documents, pairs: seq<SrcDestPair>, i: nat, t: seq<Action>, found: seq<Value>,
                         o1: Outcome<seq<Statement>>)
    requires AlignedPairs(pairs) && i < |pairs| && Flag(pairs[i].options, "isSyncOnStart") == Ok(true)
    requires docs(t, pairs[i].src.table, FilterOf(pairs[i].src)) == Ok(found)
    requires UpsertsFor(pairs[i], found).Ok?
    requires GatheredAsSynced(docs, pairs, i + 1, t + [FindOf(pairs[i])], o1)
    ensures GatheredAsSynced(docs, pairs, i, t, After(UpsertsFor(pairs[i], found).value, o1))
  {
    var p := pairs[i];
    var t1 := t + [FindOf(p)];
    var here := UpsertsFor(p, found).value;
    var ps := SyncedOnStart(pairs, i);
    var ps1 := SyncedOnStart(pairs, i + 1);
    SyncedHead(pairs, i);
    ReadInFront(t, FindOf(p), o1.trace, FindsOf(ps1));
    if o1.result.Ok? {
      UpsertsAlongStep(docs, o1.trace, |t|, ps);
    }
  }

  /** A pair with `isSyncOnStart` heads the pairs copied from it on. */
  lemma {:induction false} SyncedHead(pairs: seq<SrcDestPair>, i: nat)
    requires i < |pairs| && Flag(pairs[i].options, "isSyncOnStart") == Ok(true)
    ensures SyncedOnStart(pairs, i) == [pairs[i]] + SyncedOnStart(pairs, i + 1)
    ensures SyncedOnStart(pairs, i)[0] == pairs[i] && SyncedOnStart(pairs, i)[1..] == SyncedOnStart(pairs, i + 1)
    ensures FindsOf(SyncedOnStart(pairs, i)) == [FindOf(pairs[i])] + FindsOf(SyncedOnStart(pairs, i + 1))
  {
    assert SyncedOnStart(pairs, i) == [pairs[i]] + SyncedOnStart(pairs, i + 1);
    FindsCons(pairs[i], SyncedOnStart(pairs, i + 1));
  }

  lemma {:induction false} FindsCons(x: SrcDestPair, ys: seq<SrcDestPair>)
    ensures FindsOf([x] + ys) == [FindOf(x)] + FindsOf(ys)
  {
    var fs := FindsOf([x] + ys);
    assert forall k | 0 <= k < |fs| :: fs[k] == ([FindOf(x)] + FindsOf(ys))[k];
  }

  /** A trace that extends `t` with the read `x` and then a prefix of
      `rest` extends `t` with a prefix of `[x] + rest`. */
  lemma ReadInFront(t: seq<Action>, x: Action, tr: seq<Action>, rest: seq<Action>)
    requires |t| + 1 <= |tr| && tr[..|t| + 1] == t + [x] && tr[|t| + 1..] <= rest
    ensures tr[..|t|] == t && tr[|t|..] <= [x] + rest
    ensures tr[|t| + 1..] == rest ==> tr[|t|..] == [x] + rest
  {
    assert tr[..|t| + 1][..|t|] == tr[..|t|];
    assert tr[|t|] == tr[..|t| + 1][|t|];
    assert tr[|t|..] == [x] + tr[|t| + 1..];
  }

  /** The upserts along a trace: those of the first read, then the rest. */
  lemma UpsertsAlongStep(docs: Documents, tr: seq<Action>, base: nat, ps: seq<SrcDestPair>)
    requires AlignedPairs(ps) && |ps| > 0 && base + |ps| <= |tr|
    requires docs(tr[..base], ps[0].src.table, FilterOf(ps[0].src)).Ok?
    requires UpsertsFor(ps[0], docs(tr[..base], ps[0].src.table, FilterOf(ps[0].src)).value).Ok?
    ensures AlignedPairs(ps[1..])
    ensures UpsertsAlong(docs, tr, base, ps)
      == Prefixed(UpsertsFor(ps[0], docs(tr[..base], ps[0].src.table, FilterOf(ps[0].src)).value).value,
                  UpsertsAlong(docs, tr, base + 1, ps[1..]))
  {
    assert forall q <- ps[1..] :: q in ps;
  }

  /** `here` in front of the statements of `r`, or the failure of `r`. */
  function Prefixed(here: seq<Statement>, r: Result<seq<Statement>>): Result<seq<Statement>> {
    if r.Err? then r else Ok(here + r.value)
  }

  /** The upserts built for a collection's documents are MERGE statements
      into the pair's destination table. */
  lemma UpsertsMerge(p: SrcDestPair, docs: seq<Value>)
    requires Aligned(p.src, p.dest) && UpsertsFor(p, docs).Ok?
    ensures forall st <- UpsertsFor(p, docs).value :: st.text.MergeInto? && st.text.table == p.dest.table
  {
    var rs := seq(|docs|, i requires 0 <= i < |docs| => Upsert(Param(p.src, p.dest, SrcObject(docs[i], None))));
    var sts := Collect(rs).value;
    forall st <- sts ensures st.text.MergeInto? && st.text.table == p.dest.table {
      var i :| 0 <= i < |sts| && sts[i] == st;
      UpsertBinds(Param(p.src, p.dest, SrcObject(docs[i], None)));
    }
  }

  /** `synOnStart` first reads the collections and then calls the store:
      once gathering succeeds, one batch-mode `executeMany` issues the
      calls for the statements gathered, and nothing else follows. */
  lemma SynOnStartActions(db: Store, docs: Documents, t: seq<Action>, pairs: seq<SrcDestPair>)
    requires AlignedPairs(pairs)
    ensures var o := SynOnStartSpec(db, docs, t, pairs); var g := Gather(docs, t, pairs, 0);
      && |t| <= |o.trace| && o.trace[..|t|] == t
      && (forall k | |t| <= k < |o.trace| :: o.trace[k].Find? || o.trace[k].Db?)
      && (forall j, k | |t| <= j < k < |o.trace| :: o.trace[j].Db? ==> o.trace[k].Db?)
      && (g.result.Err? ==> o.trace == g.trace)
      && (g.result.Ok? ==>
            && WellGrouped(Grouped(g.result.value))
            && o.trace == g.trace + Issued(BatchCalls(Grouped(g.result.value))))
  {
    GatherFindsAndUpserts(docs, t, pairs, 0);
    var g := Gather(docs, t, pairs, 0);
    var o := SynOnStartSpec(db, docs, t, pairs);
    if g.result.Ok? {
      GroupedCovers(g.result.value);
      var calls := BatchCalls(Grouped(g.result.value));
      assert o.trace == g.trace + Issued(calls);
      ThenCalls(t, g.trace, Issued(calls));
    } else {
      ThenCalls(t, g.trace, []);
      assert g.trace + [] == g.trace;
    }
  }

  /** Store calls appended to a trace that only read collections since `t`. */
  lemma ThenCalls(t: seq<Action>, s: seq<Action>, calls: seq<Action>)
    requires |t| <= |s| && s[..|t|] == t
    requires forall k | |t| <= k < |s| :: s[k].Find?
    requires forall a <- calls :: a.Db?
    ensures var o := s + calls;
      && |t| <= |o| && o[..|t|] == t
      && (forall k | |t| <= k < |o| :: o[k].Find? || o[k].Db?)
      && (forall j, k | |t| <= j < k < |o| :: o[j].Db? ==> o[k].Db?)
  {
    var o := s + calls;
    assert o[..|s|] == s;
    assert o[..|s|][..|t|] == o[..|t|];
    forall k | |s| <= k < |o| ensures o[k].Db? {
      assert o[k] == calls[k - |s|];
    }
    forall k | |t| <= k < |s| ensures o[k].Find? {
      assert o[k] == s[k];
    }
  }

  /** `start` copies before it listens: after the trace it started from,
      it only reads collections, calls the store and opens change
      streams, and once a change stream is open nothing else happens. */
  lemma StartSyncsBeforeListening(db: Store, docs: Documents, t: seq<Action>, config: SyncConfig, tokens: Value)
    requires forall v <- config.tables :: DecodeTable(v).Some?
    ensures var o := StartSpec(db, docs, t, config, tokens);
      && |t| <= |o.trace| && o.trace[..|t|] == t
      && (forall k | |t| <= k < |o.trace| :: o.trace[k].Find? || o.trace[k].Db? || o.trace[k].Watch?)
      && (forall j, k | |t| <= j < k < |o.trace| :: o.trace[j].Watch? ==> o.trace[k].Watch?)
  {
    PairsAligned(config.tables, config.defaultOptions);
    StartWithOrder(db, docs, t, OptionPairs(config.tables, config.defaultOptions), tokens);
  }

  lemma StartWithOrder(db: Store, docs: Documents, t: seq<Action>, pairs: Result<seq<SrcDestPair>>, tokens: Value)
    requires pairs.Ok? ==> AlignedPairs(pairs.value)
    ensures var o := StartWith(db, docs, t, pairs, tokens);
      && |t| <= |o.trace| && o.trace[..|t|] == t
      && (forall k | |t| <= k < |o.trace| :: o.trace[k].Find? || o.trace[k].Db? || o.trace[k].Watch?)
      && (forall j, k | |t| <= j < k < |o.trace| :: o.trace[j].Watch? ==> o.trace[k].Watch?)
  {
    if pairs.Ok? {
      SynOnStartActions(db, docs, t, pairs.value);
      var s := SynOnStartSpec(db, docs, t, pairs.value);
      if s.result.Ok? {
        ListeningWatches(s.trace, pairs.value, tokens, 0);
        ThenWatches(t, s.trace, Listening(s.trace, pairs.value, tokens, 0).trace);
      }
    }
  }

  /** Store and read actions followed by watches only. */
  lemma ThenWatches(t: seq<Action>, s: seq<Action>, o: seq<Action>)
    requires |t| <= |s| && s[..|t|] == t
    requires forall k | |t| <= k < |s| :: s[k].Find? || s[k].Db?
    requires |s| <= |o| && o[..|s|] == s
    requires forall k | |s| <= k < |o| :: o[k].Watch?
    ensures |t| <= |o| && o[..|t|] == t
    ensures forall k | |t| <= k < |o| :: o[k].Find? || o[k].Db? || o[k].Watch?
    ensures forall j, k | |t| <= j < k < |o| :: o[j].Watch? ==> o[k].Watch?
  {
    assert o[..|s|][..|t|] == o[..|t|];
    forall k | |t| <= k < |s| ensures o[k] == s[k] {
      assert o[..|s|][k] == o[k];
    }
  }

  /** When the initial copy fails, `start` fails without opening any
      change stream. */
  lemma NoListeningAfterFailedSync(db: Store, docs: Documents, t: seq<Action>, pairs: seq<SrcDestPair>, tokens: Value)
    requires AlignedPairs(pairs)
    requires SynOnStartSpec(db, docs, t, pairs).result.Err?
    ensures var o := StartWith(db, docs, t, Ok(pairs), tokens);
      o.result.Err? && forall k | |t| <= k < |o.trace| :: !o.trace[k].Watch?
  {
    SynOnStartActions(db, docs, t, pairs);
  }

  /** The calls of `update` for `p` after the trace `t`: a prefix of the
      update's own calls, and, when the update ran and changed no row, all
      of them followed by a prefix of the insert's calls with the same
      parameter. */
  predicate UpdateFallback(db: Store, t: seq<Action>, p: Param, calls: seq<Call>)
    requires Aligned(p.src, p.dest)
  {
    var own := TreeCalls(Update(p));
    if Run(db, t, Update(p)).result == Ok(0) then
      |own| <= |calls| && calls[..|own|] == own && calls[|own|..] <= TreeCalls(Insert(p))
    else calls <= own
  }

  /** The store calls a change event leads to: a prefix of the calls of
      the insert, upsert or delete statement it builds, the update's calls
      with the insert fallback for an update, and none for an
      `invalidate` or unknown event, which log exactly one warning. A
      handled event ends with the callback when there is one. */
  lemma HandledCalls(db: Store, t: seq<Action>, change: Value, src: Table, dest: Table, hasCallback: bool)
    requires Aligned(src, dest)
    ensures var o := Handled(db, t, change, src, dest, hasCallback);
      && |t| <= |o.trace| && o.trace[..|t|] == t
      && (o.result.Err? <==> change == Undefined || change == Null)
      && (o.result.Err? ==> o.trace == t)
      && (o.result.Ok? && hasCallback ==> o.trace[|o.trace| - 1] == Callback(change))
      && (o.result.Ok? ==>
            var op := Get(change, "operationType").value;
            && (op == Str("insert") ==> Calls(o.trace[|t|..]) <= TreeCalls(Insert(ChangeParam(change, "fullDocument", src, dest))))
            && (op == Str("update") ==> UpdateFallback(db, t, ChangeParam(change, "fullDocument", src, dest), Calls(o.trace[|t|..])))
            && (op == Str("replace") ==> Calls(o.trace[|t|..]) <= TreeCalls(Upsert(ChangeParam(change, "fullDocument", src, dest))))
            && (op == Str("delete") ==> Calls(o.trace[|t|..]) <= TreeCalls(Delete(ChangeParam(change, "documentKey", src, dest))))
            && (op !in {Str("insert"), Str("update"), Str("replace"), Str("delete")} ==>
                  Calls(o.trace[|t|..]) == [] && o.trace[|t|].Warn?))
  {
    var op := Get(change, "operationType");
    if op.Ok? {
      var t' := Dispatched(db, t, change, op.value, src, dest);
      DispatchedCalls(db, t, change, op.value, src, dest);
      CallbackAfter(t, t', change, hasCallback);
      var t2 := if hasCallback then t' + [Callback(change)] else t';
      if op.value !in {Str("insert"), Str("update"), Str("replace"), Str("delete")} {
        assert t2[..|t'|][|t|] == t2[|t|];
      }
    }
  }

  /** The calls of the `switch` alone. */
  lemma DispatchedCalls(db: Store, t: seq<Action>, change: Value, op: Value, src: Table, dest: Table)
    requires Aligned(src, dest) && change != Undefined && change != Null
    ensures var t' := Dispatched(db, t, change, op, src, dest);
      && |t| <= |t'| && t'[..|t|] == t
      && (op == Str("insert") ==> Calls(t'[|t|..]) <= TreeCalls(Insert(ChangeParam(change, "fullDocument", src, dest))))
      && (op == Str("update") ==> UpdateFallback(db, t, ChangeParam(change, "fullDocument", src, dest), Calls(t'[|t|..])))
      && (op == Str("replace") ==> Calls(t'[|t|..]) <= TreeCalls(Upsert(ChangeParam(change, "fullDocument", src, dest))))
      && (op == Str("delete") ==> Calls(t'[|t|..]) <= TreeCalls(Delete(ChangeParam(change, "documentKey", src, dest))))
      && (op !in {Str("insert"), Str("update"), Str("replace"), Str("delete")} ==>
            |t| < |t'| && Calls(t'[|t|..]) == [] && t'[|t|].Warn?)
  {
    var t' := Dispatched(db, t, change, op, src, dest);
    if op == Str("insert") {
      InsertIssues(db, t, ChangeParam(change, "fullDocument", src, dest));
    } else if op == Str("update") {
      UpdateIssues(db, t, ChangeParam(change, "fullDocument", src, dest));
    } else if op == Str("replace") {
      CaughtIssues(db, t, Upsert(ChangeParam(change, "fullDocument", src, dest)));
    } else if op == Str("delete") {
      DeleteIssues(db, t, ChangeParam(change, "documentKey", src, dest));
    } else {
      assert t'[..|t|] == t;
      assert t'[|t|..] == [t'[|t|]];
      assert Calls([t'[|t|]]) == [];
    }
  }

  lemma CallbackAfter(t: seq<Action>, t': seq<Action>, change: Value, hasCallback: bool)
    requires |t| <= |t'| && t'[..|t|] == t
    ensures var t2 := if hasCallback then t' + [Callback(change)] else t';
      && t2[..|t|] == t && |t'| <= |t2| && t2[..|t'|] == t'
      && Calls(t2[|t|..]) == Calls(t'[|t|..])
  {
    if hasCallback {
      var t2 := t' + [Callback(change)];
      assert t2[|t|..] == t'[|t|..] + [Callback(change)];
      CallsAppend(t'[|t|..], [Callback(change)]);
      assert Calls([Callback(change)]) == [];
      assert t2[..|t'|] == t';
      assert t2[..|t|] == t'[..|t|];
    }
  }

  // ---------------------------------------------------------------------
  // The synchronizer object

  lemma AfterTwice(a: seq<Statement>, b: seq<Statement>, o: Outcome<seq<Statement>>)
    ensures After(a, After(b, o)) == After(a + b, o)
  {
    if o.result.Ok? {
      assert a + (b + o.result.value) == (a + b) + o.result.value;
    }
  }

  /** The inner loop of `synOnStart`: one upsert per document, in order; a
      document whose upsert cannot be built ends the loop with its error. */
  method UpsertDocuments(p: SrcDestPair, documents: seq<Value>) returns (r: Result<seq<Statement>>)
    requires Aligned(p.src, p.dest)
    ensures r == UpsertsFor(p, documents)
  {
    ghost var rs := seq(|documents|, i requires 0 <= i < |documents| => Upsert(Param(p.src, p.dest, SrcObject(documents[i], None))));
    assert UpsertsFor(p, documents) == Collect(rs);
    var statements: seq<Statement> := [];
    for i := 0 to |documents|
      invariant Collect(rs[..i]) == Ok(statements)
    {
      var statement := Upsert(Param(p.src, p.dest, SrcObject(documents[i], None)));
      assert rs[i] == statement;
      if statement.Err? {
        CollectAt(rs, i);
        return Err(statement.error);
      }
      CollectPush(rs, i);
      statements := statements + [statement.value];
    }
    assert rs[..|documents|] == rs;
    return Ok(statements);
  }

  /** `Synchronizer`: an executer (the class the source extends) together
      with the configuration, the resume tokens and the document store. */
  class Synchronizer {
    const executer: Executer
    const config: SyncConfig
    const resumeTokens: Value
    const docs: Documents

    constructor(db: Store, docs: Documents, config: SyncConfig, resumeTokens: Value)
      ensures fresh(executer) && executer.db == db && executer.trace == []
      ensures this.docs == docs && this.config == config && this.resumeTokens == resumeTokens
    {
      executer := new Executer(db);
      this.docs := docs;
      this.config := config;
      this.resumeTokens := resumeTokens;
    }

    /** `start`: builds the pairs, copies, then listens. */
    method Start() returns (r: Result<()>)
      requires forall v <- config.tables :: DecodeTable(v).Some?
      modifies executer
      ensures Outcome(r, executer.trace) == StartSpec(executer.db, docs, old(executer.trace), config, resumeTokens)
    {
      PairsAligned(config.tables, config.defaultOptions);
      var built := SyncPairs.Build(config.tables, config.defaultOptions);
      if built.Err? {
        return Err(built.error);
      }
      var pairs := built.value.pairs;
      var synced := SynOnStart(pairs);
      if synced.Err? {
        return synced;
      }
      r := Listen(pairs);
    }

    /** `listen`: one change stream per pair synchronised in real time. */
    method Listen(pairs: seq<SrcDestPair>) returns (r: Result<()>)
      modifies executer
      ensures Outcome(r, executer.trace) == Listening(old(executer.trace), pairs, resumeTokens, 0)
    {
      ghost var t0 := executer.trace;
      for i := 0 to |pairs|
        invariant Listening(t0, pairs, resumeTokens, 0) == Listening(executer.trace, pairs, resumeTokens, i)
      {
        var flag := Flag(pairs[i].options, "isSyncInRealTime");
        if flag.Err? {
          return Err(flag.error);
        }
        if flag.value {
          var p := pairs[i];
          var resumeAfter := ResumeAfter(resumeTokens, p.src.table);
          executer.trace := executer.trace + [Watch(p.src.table, PipelineOf(p.src), resumeAfter)];
        }
      }
      r := Ok(());
    }

    /** `synOnStart`: gathers an upsert per document of every collection
        synchronised on start, then runs them all in one batch. */
    method SynOnStart(pairs: seq<SrcDestPair>) returns (r: Result<()>)
      requires AlignedPairs(pairs)
      modifies executer
      ensures Outcome(r, executer.trace) == SynOnStartSpec(executer.db, docs, old(executer.trace), pairs)
    {
      ghost var t0 := executer.trace;
      var statements: seq<Statement> := [];
      ghost var g := Gather(docs, t0, pairs, 0);
      assert g.result.Ok? ==> [] + g.result.value == g.result.value;
      for i := 0 to |pairs|
        invariant Gather(docs, t0, pairs, 0) == After(statements, Gather(docs, executer.trace, pairs, i))
      {
        var p := pairs[i];
        var flag := Flag(p.options, "isSyncOnStart");
        if flag.Err? {
          return Err(flag.error);
        }
        if flag.value {
          ghost var t1 := executer.trace;
          var filter := FilterOf(p.src);
          var collection := docs(executer.trace, p.src.table, filter);
          executer.trace := executer.trace + [Find(p.src.table, filter)];
          if collection.Err? {
            return Err(collection.error);
          }
          var upserts := UpsertDocuments(p, collection.value);
          if upserts.Err? {
            return Err(upserts.error);
          }
          assert Gather(docs, t1, pairs, i) == After(upserts.value, Gather(docs, executer.trace, pairs, i + 1));
          AfterTwice(statements, upserts.value, Gather(docs, executer.trace, pairs, i + 1));
          statements := statements + upserts.value;
        }
      }
      assert Gather(docs, executer.trace, pairs, |pairs|) == Outcome(Ok([]), executer.trace);
      assert statements + [] == statements;
      var total := executer.ExecuteMany(statements, false);
      r := if total.Err? then Err(total.error) else Ok(());
    }

    /** The handler of a change event (`onChange`), followed by the
        caller's callback when there is one. */
    method OnChange(change: Value, src: Table, dest: Table, hasCallback: bool) returns (r: Result<()>)
      requires Aligned(src, dest)
      modifies executer
      ensures Outcome(r, executer.trace) == Handled(executer.db, old(executer.trace), change, src, dest, hasCallback)
    {
      var op := Get(change, "operationType");
      if op.Err? {
        return Err(op.error);
      }
      if op.value == Str("insert") {
        executer.Insert(ChangeParam(change, "fullDocument", src, dest));
      } else if op.value == Str("update") {
        executer.Update(ChangeParam(change, "fullDocument", src, dest));
      } else if op.value == Str("replace") {
        executer.Upsert(ChangeParam(change, "fullDocument", src, dest));
      } else if op.value == Str("delete") {
        executer.Delete(ChangeParam(change, "documentKey", src, dest));
      } else if op.value == Str("invalidate") {
        executer.trace := executer.trace + [Warn(CollectionDropped(src.table))];
      } else {
        executer.trace := executer.trace + [Warn(UnknownOperation(change))];
      }
      if hasCallback {
        executer.trace := executer.trace + [Callback(change)];
      }
      r := Ok(());
    }
  }
}
