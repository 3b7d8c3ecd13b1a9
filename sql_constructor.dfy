/** The statement builder (`SqlConstructor`): from a source descriptor, a
    destination descriptor and a context, a parameterised SQL statement
    with its bound values and the statements for the child tables. */
module SqlConstructor {
  import opened Strings
  import opened JsValues
  import opened PairsCommon
  import opened SrcObjects

  // ---------------------------------------------------------------------
  // Values

  /** A value as it is bound to a placeholder after `getValues`' coercion:
      numbers become their decimal text (the text itself is not modelled),
      date-like strings become a `Date`, everything else is kept. */
  datatype Bound =
    | Plain(v: Value)
    | NumberText(n: real)
    | DateOf(text: string)

  predicate Digit(c: char) { '0' <= c <= '9' }

  predicate DigitsAt(s: string, i: int, n: nat) {
    0 <= i && i + n <= |s| && forall k | i <= k < i + n :: Digit(s[k])
  }

  /** The character class `[:\d{2}]`: a colon, a digit or a brace. */
  predicate TimeRun(s: string, a: int, b: int) {
    0 <= a <= b <= |s| && forall q | a <= q < b :: s[q] == ':' || Digit(s[q]) || s[q] == '{' || s[q] == '}'
  }

  /** The character class `[.\d{3}]`: a dot, a digit or a brace. */
  predicate FractionRun(s: string, a: int, b: int) {
    0 <= a <= b <= |s| && forall q | a <= q < b :: s[q] == '.' || Digit(s[q]) || s[q] == '{' || s[q] == '}'
  }

  /** `dateFormat` matches starting at index `i`. */
  predicate DateAt(s: string, i: int) {
    && DigitsAt(s, i, 4) && i + 13 <= |s|
    && s[i + 4] == '-' && DigitsAt(s, i + 5, 2) && s[i + 7] == '-' && DigitsAt(s, i + 8, 2)
    && s[i + 10] == 'T' && DigitsAt(s, i + 11, 2)
    && exists k, m | i + 13 <= k <= m < |s| :: TimeRun(s, i + 13, k) && FractionRun(s, k, m) && s[m] == 'Z'
  }

  /** The unanchored match of `dateFormat` anywhere in the string. */
  predicate IsDateText(s: string) {
    exists i | 0 <= i < |s| :: DateAt(s, i)
  }

  /** `strConverter`: a date-like string becomes a date, any other stays text. */
  function StrConverter(s: string): (b: Bound)
    ensures b.DateOf? <==> IsDateText(s)
    ensures b.DateOf? ==> b.text == s
    ensures !b.DateOf? ==> b == Plain(Str(s))
  {
    if IsDateText(s) then DateOf(s) else Plain(Str(s))
  }

  /** The four formats the source documents for `dateFormat` are dates:
      with milliseconds, with seconds, with minutes and with hours only. */
  lemma MillisecondsDate()
    ensures IsDateText("1234-12-12T12:00:00.000Z")
  {
    var s := "1234-12-12T12:00:00.000Z";
    assert TimeRun(s, 13, 19) && FractionRun(s, 19, 23) && s[23] == 'Z';
    assert DateAt(s, 0);
  }

  lemma SecondsDate()
    ensures IsDateText("1234-12-12T00:00:00Z")
  {
    var s := "1234-12-12T00:00:00Z";
    assert TimeRun(s, 13, 19) && FractionRun(s, 19, 19) && s[19] == 'Z';
    assert DateAt(s, 0);
  }

  lemma MinutesDate()
    ensures IsDateText("1234-12-12T00:00Z")
  {
    var s := "1234-12-12T00:00Z";
    assert TimeRun(s, 13, 16) && FractionRun(s, 16, 16) && s[16] == 'Z';
    assert DateAt(s, 0);
  }

  lemma HoursDate()
    ensures IsDateText("1234-12-12T00Z")
  {
    var s := "1234-12-12T00Z";
    assert TimeRun(s, 13, 13) && FractionRun(s, 13, 13) && s[13] == 'Z';
    assert DateAt(s, 0);
  }

  /** The bracketed runs are character classes, so braces pass for a date. */
  lemma BracedDate()
    ensures IsDateText("1234-12-12T12{}Z")
  {
    var s := "1234-12-12T12{}Z";
    assert TimeRun(s, 13, 15) && FractionRun(s, 15, 15) && s[15] == 'Z';
    assert DateAt(s, 0);
  }

  /** The match is unanchored: a date text stays one behind any prefix. */
  lemma DateAfterPrefix(p: string, s: string)
    requires IsDateText(s)
    ensures IsDateText(p + s)
  {
    var i :| 0 <= i < |s| && DateAt(s, i);
    var k, m :| i + 13 <= k <= m < |s| && TimeRun(s, i + 13, k) && FractionRun(s, k, m) && s[m] == 'Z';
    var t := p + s;
    var n := |p|;
    DigitsShift(p, s, i, 4);
    DigitsShift(p, s, i + 5, 2);
    DigitsShift(p, s, i + 8, 2);
    DigitsShift(p, s, i + 11, 2);
    RunsShift(p, s, i + 13, k, m);
    assert t[i + n + 4] == s[i + 4] && t[i + n + 7] == s[i + 7] && t[i + n + 10] == s[i + 10];
    assert t[m + n] == s[m];
    assert DateAt(t, i + n);
  }

  lemma DigitsShift(p: string, s: string, i: int, len: nat)
    requires DigitsAt(s, i, len)
    ensures DigitsAt(p + s, i + |p|, len)
  {
    forall q | i + |p| <= q < i + |p| + len ensures Digit((p + s)[q]) {
      assert (p + s)[q] == s[q - |p|];
    }
  }

  lemma RunsShift(p: string, s: string, a: int, k: int, m: int)
    requires TimeRun(s, a, k) && FractionRun(s, k, m)
    ensures TimeRun(p + s, a + |p|, k + |p|) && FractionRun(p + s, k + |p|, m + |p|)
  {
    forall q | a + |p| <= q < m + |p| ensures (p + s)[q] == s[q - |p|] {
    }
  }

  /** A date text holds at least fourteen characters. */
  lemma ShortTextNoDate(s: string)
    requires |s| < 14
    ensures !IsDateText(s)
  {
  }

  /** A text without a digit, such as a plain word, is no date. */
  lemma NoDigitNoDate(s: string)
    requires forall q | 0 <= q < |s| :: !Digit(s[q])
    ensures !IsDateText(s)
    ensures StrConverter(s) == Plain(Str(s))
  {
    if IsDateText(s) {
      var i :| 0 <= i < |s| && DateAt(s, i);
      DateStartsWithDigit(s, i);
      assert false;
    }
  }

  lemma DateStartsWithDigit(s: string, i: int)
    requires DateAt(s, i)
    ensures 0 <= i < |s| && Digit(s[i])
  {
    assert DigitsAt(s, i, 4);
  }

  /** The `switch (typeof value)` of `getValues`. */
  function Coerce(v: Value): (b: Bound)
    ensures b.Plain? ==> !b.v.Num? && !b.v.NaN? && !b.v.Bool?
    ensures b.NumberText? <==> v.Num?
    ensures b.DateOf? ==> v == Str(b.text) && IsDateText(b.text)
    ensures v.Num? ==> b == NumberText(v.n)
    ensures v.Str? ==> b == StrConverter(v.s)
    ensures v.Bool? ==> b == Plain(Str(if v.b then "1" else "0"))
    ensures v == NaN ==> b == Plain(Null)
    ensures v.Undefined? || v.Null? || v.Arr? || v.Obj? ==> b == Plain(v)
  {
    match v
    case Num(n) => NumberText(n)
    case NaN => Plain(Null)
    case Bool(x) => Plain(Str(if x then "1" else "0"))
    case Str(s) => StrConverter(s)
    case _ => Plain(v)
  }

  function ResolveBound(ctx: SrcObject, property: string): Result<Bound> {
    var v :- GetPropertyValue(ctx, property);
    Ok(Coerce(v))
  }

  /** `getValues`: one coerced value per property, in order; the first path
      that throws makes the whole call throw. */
  function Values(ctx: SrcObject, properties: seq<string>): (r: Result<seq<Bound>>)
    ensures r.Ok? <==> forall i | 0 <= i < |properties| :: GetPropertyValue(ctx, properties[i]).Ok?
    ensures r.Ok? ==> |r.value| == |properties|
    ensures r.Ok? ==> forall i | 0 <= i < |properties| ::
      r.value[i] == Coerce(GetPropertyValue(ctx, properties[i]).value)
  {
    var rs := seq(|properties|, i requires 0 <= i < |properties| => ResolveBound(ctx, properties[i]));
    assert forall i | 0 <= i < |properties| :: rs[i].Ok? <==> GetPropertyValue(ctx, properties[i]).Ok?;
    Collect(rs)
  }

  /** The `forEach` loop of `getValues`, pushing one value at a time. */
  method GetValues(ctx: SrcObject, properties: seq<string>) returns (r: Result<seq<Bound>>)
    ensures r == Values(ctx, properties)
  {
    ghost var rs := seq(|properties|, i requires 0 <= i < |properties| => ResolveBound(ctx, properties[i]));
    var values: seq<Bound> := [];
    for i := 0 to |properties|
      invariant |values| == i
      invariant forall j | 0 <= j < i :: rs[j] == Ok(values[j])
    {
      var value := ResolvePath(ctx, properties[i]);
      if value.Err? {
        CollectFirstError(rs, i);
        return Err(value.error);
      }
      values := values + [Coerce(value.value)];
    }
    var collected := Collect(rs);
    assert collected.Ok?;
    assert forall j | 0 <= j < |properties| :: collected.value[j] == values[j];
    assert collected.value == values;
    return Ok(values);
  }

  // ---------------------------------------------------------------------
  // SQL text

  /** `column = :param`. */
  datatype Assign = Assign(column: string, param: nat)

  /** The five statement shapes the builders produce. */
  datatype SqlText =
    | InsertInto(table: string, columns: seq<string>, count: nat)
    | UpdateSet(table: string, sets: seq<Assign>, conditions: seq<Assign>)
    | MergeInto(table: string, on: seq<Assign>, sets: seq<Assign>, columns: seq<string>, count: nat)
    | DeleteFrom(table: string, conditions: seq<Assign>)
    | DeleteAllFrom(table: string)

  function Placeholder(i: nat): string {
    ":" + NatToString(i)
  }

  function Placeholders(n: nat): seq<string> {
    seq(n, i requires 0 <= i < n => Placeholder(i))
  }

  function AssignTexts(assigns: seq<Assign>): seq<string> {
    seq(|assigns|, i requires 0 <= i < |assigns| => assigns[i].column + " = " + Placeholder(assigns[i].param))
  }

  /** The SQL text exactly as the builders' template literals spell it. */
  function Render(t: SqlText): string {
    match t
    case InsertInto(table, columns, count) =>
      "INSERT INTO " + table + " (" + Join(columns, ", ") + ") VALUES (" + Join(Placeholders(count), ", ") + ") "
    case UpdateSet(table, sets, conditions) =>
      "UPDATE " + table + " SET " + Join(AssignTexts(sets), ", ") + " WHERE " + Join(AssignTexts(conditions), " AND ")
    case MergeInto(table, on, sets, columns, count) =>
      "MERGE INTO " + table + " USING dual ON (" + Join(AssignTexts(on), " AND ") + ") "
      + (if |sets| > 0 then "WHEN MATCHED THEN UPDATE SET " + Join(AssignTexts(sets), ", ") + " " else "")
      + "WHEN NOT MATCHED THEN INSERT (" + Join(columns, ", ") + ") "
      + "VALUES (" + Join(Placeholders(count), ", ") + ")"
    case DeleteFrom(table, conditions) =>
      "DELETE FROM " + table + " WHERE " + Join(AssignTexts(conditions), " AND ")
    case DeleteAllFrom(table) =>
      "DELETE FROM " + table
  }

  /** The column paired with the `i`-th entry of a positional VALUES list. */
  function ColumnAt(columns: seq<string>, i: nat): string {
    if i < |columns| then columns[i] else ""
  }

  function Positional(columns: seq<string>, count: nat): seq<Assign> {
    seq(count, i requires 0 <= i < count => Assign(ColumnAt(columns, i), i))
  }

  /** The placeholders of the text in the order `Render` writes them, each
      with the column it fills. */
  function Slots(t: SqlText): seq<Assign> {
    match t
    case InsertInto(_, columns, count) => Positional(columns, count)
    case UpdateSet(_, sets, conditions) => sets + conditions
    case MergeInto(_, on, sets, columns, count) => on + sets + Positional(columns, count)
    case DeleteFrom(_, conditions) => conditions
    case DeleteAllFrom(_) => []
  }

  /** A statement: its text, the values bound to it and its child statements. */
  datatype Statement = Statement(text: SqlText, values: seq<Bound>, subStatements: seq<Statement>) {
    function Sql(): string {
      Render(text)
    }
  }

  /** The statement binds column `D[q]` to `V[q]` at every placeholder `:q`,
      and the value list lines up with the placeholders in text order, so
      binding by position and binding by number agree. */
  predicate Binds(st: Statement, D: seq<string>, V: seq<Bound>) {
    var slots := Slots(st.text);
    && |slots| == |st.values|
    && forall i | 0 <= i < |slots| ::
         && slots[i].param < |D| && slots[i].param < |V|
         && slots[i].column == D[slots[i].param]
         && st.values[i] == V[slots[i].param]
  }

  // ---------------------------------------------------------------------
  // Builders

  /** `SqlConstructorParam`. */
  datatype Param = Param(src: Table, dest: Table, ctx: SrcObject)

  /** The builder passed down as `operation`. */
  datatype Op = InsertOp | UpdateOp | UpsertOp | DeleteOp

  /** Assignments `columns[i] = :(offset + i)`. */
  function Numbered(columns: seq<string>, offset: nat): (r: seq<Assign>)
    ensures |r| == |columns|
    ensures forall i | 0 <= i < |columns| :: r[i] == Assign(columns[i], offset + i)
  {
    seq(|columns|, i requires 0 <= i < |columns| => Assign(columns[i], offset + i))
  }

  /** Key narrowing of `delete`: entry `i` of `ks` is kept when the context
      is the root or `guide[i]` (the source key) starts with "../". */
  function Narrow(ks: seq<string>, guide: seq<string>, root: bool): (r: seq<string>)
    requires |ks| == |guide|
  {
    if |ks| == 0 then []
    else (if root || StartsWith(guide[0], "../") then [ks[0]] else []) + Narrow(ks[1..], guide[1..], root)
  }

  function Build(op: Op, p: Param): Result<Statement>
    requires Aligned(p.src, p.dest)
    decreases p.src, 6
  {
    match op
    case InsertOp => Insert(p)
    case UpdateOp => Update(p)
    case UpsertOp => Upsert(p)
    case DeleteOp => Delete(p)
  }

  /** `insert`: keys then columns, bound to `:0 .. :n-1`. */
  function Insert(p: Param): Result<Statement>
    requires Aligned(p.src, p.dest)
    decreases p.src, 4
  {
    var values :- Values(p.ctx, p.src.keys + p.src.columns);
    var subs :- SubStatements(p, InsertOp, false);
    Ok(Statement(InsertInto(p.dest.table, p.dest.keys + p.dest.columns, |values|), values, subs))
  }

  /** `update`: SET the columns, WHERE the keys; a destination without
      columns makes it an upsert. */
  function Update(p: Param): Result<Statement>
    requires Aligned(p.src, p.dest)
    decreases p.src, 5
  {
    if |p.dest.columns| == 0 then Upsert(p)
    else
      var sets := Numbered(p.dest.columns, 0);
      var conditions := Numbered(p.dest.keys, |p.dest.columns|);
      var values :- Values(p.ctx, p.src.columns + p.src.keys);
      var subs :- SubStatements(p, UpdateOp, false);
      Ok(Statement(UpdateSet(p.dest.table, sets, conditions), values, subs))
  }

  /** `upsert`: a MERGE on the keys; the value list is bound twice, once
      for the ON and SET placeholders and once for the VALUES list. */
  function Upsert(p: Param): Result<Statement>
    requires Aligned(p.src, p.dest)
    decreases p.src, 4
  {
    var values :- Values(p.ctx, p.src.keys + p.src.columns);
    var on := Numbered(p.dest.keys, 0);
    var sets := Numbered(p.dest.columns, |p.dest.keys|);
    var subs :- SubStatements(p, UpsertOp, false);
    Ok(Statement(MergeInto(p.dest.table, on, sets, p.dest.keys + p.dest.columns, |values|), values + values, subs))
  }

  /** `delete`: WHERE the keys that survive narrowing; children are built
      even for empty data. */
  function Delete(p: Param): Result<Statement>
    requires Aligned(p.src, p.dest)
    decreases p.src, 4
  {
    var root := p.ctx.IsRoot();
    var destKeys := Narrow(p.dest.keys, p.src.keys, root);
    var srcKeys := Narrow(p.src.keys, p.src.keys, root);
    var conditions := Numbered(destKeys, 0);
    var values :- Values(p.ctx, srcKeys);
    var subs :- SubStatements(p, DeleteOp, true);
    Ok(Statement(DeleteFrom(p.dest.table, conditions), values, subs))
  }

  /** `deleteAll`: every row of the destination table. */
  function DeleteAll(p: Param): (st: Statement)
    ensures st.Sql() == "DELETE FROM " + p.dest.table
    ensures st.values == [] && st.subStatements == []
  {
    Statement(DeleteAllFrom(p.dest.table), [], [])
  }

  /** `getSubStatements`: for each child table, the statements for its data. */
  function SubStatements(p: Param, op: Op, allow: bool): Result<seq<Statement>>
    requires Aligned(p.src, p.dest)
    decreases p.src, 3, 0
  {
    if p.src.embedded.Absent? || p.dest.embedded.Absent? then Ok([])
    else SubFrom(p, op, allow, 0)
  }

  /** The child tables from index `i` on, in order. */
  function SubFrom(p: Param, op: Op, allow: bool, i: nat): Result<seq<Statement>>
    requires Aligned(p.src, p.dest) && p.src.embedded.Present? && p.dest.embedded.Present?
    requires i <= |p.src.embedded.tables|
    decreases p.src, 2, |p.src.embedded.tables| - i, 1
  {
    if i == |p.src.embedded.tables| then Ok([])
    else
      var here :- AtTable(p, op, allow, i);
      var rest :- SubFrom(p, op, allow, i + 1);
      Ok(here + rest)
  }

  /** Child table `i`: its data is read with the child table's source name,
      then one statement is built per child parameter (see `DataTargets`). */
  function AtTable(p: Param, op: Op, allow: bool, i: nat): Result<seq<Statement>>
    requires Aligned(p.src, p.dest) && p.src.embedded.Present? && p.dest.embedded.Present?
    requires i < |p.src.embedded.tables|
    decreases p.src, 2, |p.src.embedded.tables| - i, 0
  {
    var srcCol := p.src.embedded.tables[i];
    var destCol := p.dest.embedded.tables[i];
    var data :- GetPropertyValue(p.ctx, srcCol.table);
    var ts := DataTargets(srcCol, destCol, p.ctx, data, allow);
    Collect(seq(|ts|, k requires 0 <= k < |ts| => Child(op, ts[k], allow)))
  }

  /** The child parameters for one child table's data: nothing for falsy
      data unless empty data is allowed, one per element of array data, or
      one for other data, each parented to the current context. */
  function DataTargets(srcCol: Table, destCol: Table, parent: SrcObject, data: Value, allow: bool): (r: seq<Param>)
    ensures forall t <- r :: t.src == srcCol && t.dest == destCol && t.ctx.parent == Some(parent)
    ensures !Truthy(data) && !allow ==> r == []
    ensures (Truthy(data) || allow) && data.Arr? ==>
      |r| == |data.items| && forall k | 0 <= k < |r| :: r[k].ctx.src == data.items[k]
    ensures (Truthy(data) || allow) && !data.Arr? ==> |r| == 1 && r[0].ctx.src == data
  {
    if !Truthy(data) && !allow then []
    else if data.Arr? then
      seq(|data.items|, k requires 0 <= k < |data.items| => Param(srcCol, destCol, SrcObject(data.items[k], Some(parent))))
    else [Param(srcCol, destCol, SrcObject(data, Some(parent)))]
  }

  /** `operation(param)` with its `subStatements` then recomputed with the
      caller's operation. */
  function Child(op: Op, cp: Param, allow: bool): Result<Statement>
    requires Aligned(cp.src, cp.dest)
    decreases cp.src, 7
  {
    var st :- Build(op, cp);
    var subs :- SubStatements(cp, op, allow);
    Ok(st.(subStatements := subs))
  }

  /** `acc` followed by the statements of `r`, or the error of `r`. */
  function Prepend(acc: seq<Statement>, r: Result<seq<Statement>>): Result<seq<Statement>> {
    if r.Ok? then Ok(acc + r.value) else r
  }

  /** `getSubStatements` as the source runs it: a loop over the child tables
      that reads each one's data, skips falsy data unless empty data is
      allowed, and otherwise builds, for each array element or for the data
      itself, the statement of `op` with its sub-statements recomputed,
      pushing it onto the list. An exception ends the loop. */
  method GetSubStatements(p: Param, op: Op, allow: bool) returns (r: Result<seq<Statement>>)
    requires Aligned(p.src, p.dest)
    ensures r == SubStatements(p, op, allow)
    decreases p.src, 2
  {
    if p.src.embedded.Absent? || p.dest.embedded.Absent? {
      return Ok([]);
    }
    var tables := p.src.embedded.tables;
    var subStatements: seq<Statement> := [];
    SubFromStart(p, op, allow);
    for i := 0 to |tables|
      invariant SubStatements(p, op, allow) == Prepend(subStatements, SubFrom(p, op, allow, i))
    {
      var here := TableStatements(p, op, allow, i);
      if here.Err? {
        SubFromFails(p, op, allow, i, subStatements);
        return Err(here.error);
      }
      SubFromAdvance(p, op, allow, i, subStatements, here.value);
      subStatements := subStatements + here.value;
    }
    SubFromEnd(p, op, allow, subStatements);
    return Ok(subStatements);
  }

  /** One pass of the loop over the child tables. */
  method TableStatements(p: Param, op: Op, allow: bool, i: nat) returns (r: Result<seq<Statement>>)
    requires Aligned(p.src, p.dest) && p.src.embedded.Present? && p.dest.embedded.Present?
    requires i < |p.src.embedded.tables|
    ensures r == AtTable(p, op, allow, i)
    decreases p.src, 1
  {
    var srcCol := p.src.embedded.tables[i];
    var destCol := p.dest.embedded.tables[i];
    assert Aligned(srcCol, destCol);
    var values := ResolvePath(p.ctx, srcCol.table);
    if values.Err? {
      return Err(values.error);
    }
    var data := values.value;
    ghost var ts := DataTargets(srcCol, destCol, p.ctx, data, allow);
    ghost var built := seq(|ts|, k requires 0 <= k < |ts| => Child(op, ts[k], allow));
    var here: seq<Statement> := [];
    if !Truthy(data) && !allow {
    } else if data.Arr? {
      for j := 0 to |data.items|
        invariant |here| == j
        invariant forall k | 0 <= k < j :: built[k] == Ok(here[k])
      {
        var subStatement := BuildChild(op, Param(srcCol, destCol, SrcObject(data.items[j], Some(p.ctx))), allow);
        if subStatement.Err? {
          CollectFirstError(built, j);
          return Err(subStatement.error);
        }
        here := here + [subStatement.value];
      }
    } else {
      var subStatement := BuildChild(op, Param(srcCol, destCol, SrcObject(data, Some(p.ctx))), allow);
      if subStatement.Err? {
        CollectFirstError(built, 0);
        return Err(subStatement.error);
      }
      here := [subStatement.value];
    }
    CollectAll(built, here);
    return Ok(here);
  }

  /** One child statement: `operation(param)`, then its `subStatements`
      replaced by those `getSubStatements` builds for it. */
  method BuildChild(op: Op, cp: Param, allow: bool) returns (r: Result<Statement>)
    requires Aligned(cp.src, cp.dest)
    ensures r == Child(op, cp, allow)
    decreases cp.src, 3
  {
    var subStatement := Build(op, cp);
    if subStatement.Err? {
      return Err(subStatement.error);
    }
    var subs := GetSubStatements(cp, op, allow);
    if subs.Err? {
      return Err(subs.error);
    }
    return Ok(subStatement.value.(subStatements := subs.value));
  }

  /** Before the first child table nothing has been gathered. */
  lemma SubFromStart(p: Param, op: Op, allow: bool)
    requires Aligned(p.src, p.dest) && p.src.embedded.Present? && p.dest.embedded.Present?
    ensures SubStatements(p, op, allow) == Prepend([], SubFrom(p, op, allow, 0))
  {
    var r := SubFrom(p, op, allow, 0);
    if r.Ok? {
      assert [] + r.value == r.value;
    }
  }

  /** One more child table gathered. */
  lemma SubFromAdvance(p: Param, op: Op, allow: bool, i: nat, acc: seq<Statement>, here: seq<Statement>)
    requires Aligned(p.src, p.dest) && p.src.embedded.Present? && p.dest.embedded.Present?
    requires i < |p.src.embedded.tables| && AtTable(p, op, allow, i) == Ok(here)
    ensures Prepend(acc, SubFrom(p, op, allow, i)) == Prepend(acc + here, SubFrom(p, op, allow, i + 1))
  {
    SubFromStep(p, op, allow, i);
    PrependTwice(acc, here, SubFrom(p, op, allow, i + 1));
  }

  /** A child table that throws ends the loop with its error. */
  lemma SubFromFails(p: Param, op: Op, allow: bool, i: nat, acc: seq<Statement>)
    requires Aligned(p.src, p.dest) && p.src.embedded.Present? && p.dest.embedded.Present?
    requires i < |p.src.embedded.tables| && AtTable(p, op, allow, i).Err?
    ensures Prepend(acc, SubFrom(p, op, allow, i)) == Err(AtTable(p, op, allow, i).error)
  {
    SubFromStep(p, op, allow, i);
  }

  /** After the last child table everything has been gathered. */
  lemma SubFromEnd(p: Param, op: Op, allow: bool, acc: seq<Statement>)
    requires Aligned(p.src, p.dest) && p.src.embedded.Present? && p.dest.embedded.Present?
    ensures Prepend(acc, SubFrom(p, op, allow, |p.src.embedded.tables|)) == Ok(acc)
  {
    assert acc + [] == acc;
  }

  lemma SubFromStep(p: Param, op: Op, allow: bool, i: nat)
    requires Aligned(p.src, p.dest) && p.src.embedded.Present? && p.dest.embedded.Present?
    requires i < |p.src.embedded.tables|
    ensures SubFrom(p, op, allow, i) ==
      if AtTable(p, op, allow, i).Err? then Err(AtTable(p, op, allow, i).error)
      else Prepend(AtTable(p, op, allow, i).value, SubFrom(p, op, allow, i + 1))
  {
  }

  lemma PrependTwice(acc: seq<Statement>, here: seq<Statement>, r: Result<seq<Statement>>)
    ensures Prepend(acc, Prepend(here, r)) == Prepend(acc + here, r)
  {
    if r.Ok? {
      assert acc + (here + r.value) == (acc + here) + r.value;
    }
  }

  // ---------------------------------------------------------------------
  // Properties of the builders

  /** `insert` names the destination keys then columns and binds, at
      placeholder `:j`, the value of the `j`-th source key or column. */
  lemma InsertBinds(p: Param)
    requires Aligned(p.src, p.dest) && Insert(p).Ok?
    ensures var st := Insert(p).value;
      && st.text == InsertInto(p.dest.table, p.dest.keys + p.dest.columns, |st.values|)
      && Values(p.ctx, p.src.keys + p.src.columns).Ok?
      && st.values == Values(p.ctx, p.src.keys + p.src.columns).value
      && Binds(st, p.dest.keys + p.dest.columns, st.values)
      && st.subStatements == SubStatements(p, InsertOp, false).value
  {
    var st := Insert(p).value;
    var D := p.dest.keys + p.dest.columns;
    assert |st.values| == |D|;
    assert forall i | 0 <= i < |D| :: Slots(st.text)[i] == Assign(D[i], i);
  }

  /** `update` with a destination without columns is exactly `upsert`. */
  lemma UpdateWithoutColumns(p: Param)
    requires Aligned(p.src, p.dest) && |p.dest.columns| == 0
    ensures Update(p) == Upsert(p)
  {
  }

  /** Otherwise `update` sets column `i` from placeholder `:i` and matches
      key `j` against `:(c + j)`, with the source columns' values followed
      by the source keys' values. */
  lemma UpdateBinds(p: Param)
    requires Aligned(p.src, p.dest) && |p.dest.columns| > 0 && Update(p).Ok?
    ensures var st := Update(p).value;
      && st.text.UpdateSet? && st.text.table == p.dest.table
      && |st.text.sets| == |p.dest.columns| && |st.text.conditions| == |p.dest.keys|
      && (forall i | 0 <= i < |p.dest.columns| :: st.text.sets[i] == Assign(p.dest.columns[i], i))
      && (forall j | 0 <= j < |p.dest.keys| ::
            st.text.conditions[j] == Assign(p.dest.keys[j], |p.dest.columns| + j))
      && Values(p.ctx, p.src.columns + p.src.keys).Ok?
      && st.values == Values(p.ctx, p.src.columns + p.src.keys).value
      && Binds(st, p.dest.columns + p.dest.keys, st.values)
      && st.subStatements == SubStatements(p, UpdateOp, false).value
  {
    var st := Update(p).value;
    var D := p.dest.columns + p.dest.keys;
    var slots := Slots(st.text);
    assert slots == st.text.sets + st.text.conditions;
    assert forall i | 0 <= i < |D| :: slots[i] == Assign(D[i], i);
  }

  /** `upsert` binds the resolved list twice: the ON and SET placeholders
      read the first copy by number, the VALUES list reads the second copy
      by position; WHEN MATCHED appears exactly when there are columns. */
  lemma UpsertBinds(p: Param)
    requires Aligned(p.src, p.dest) && Upsert(p).Ok?
    ensures var st := Upsert(p).value;
      var V := Values(p.ctx, p.src.keys + p.src.columns);
      && V.Ok?
      && st.values == V.value + V.value
      && |st.values| == 2 * (|p.dest.keys| + |p.dest.columns|)
      && st.text.MergeInto? && st.text.table == p.dest.table
      && st.text.columns == p.dest.keys + p.dest.columns
      && (st.text.sets == [] <==> p.dest.columns == [])
      && Binds(st, p.dest.keys + p.dest.columns, V.value)
      && st.subStatements == SubStatements(p, UpsertOp, false).value
  {
    var st := Upsert(p).value;
    var V := Values(p.ctx, p.src.keys + p.src.columns).value;
    assert st == Statement(MergeInto(p.dest.table, Numbered(p.dest.keys, 0), Numbered(p.dest.columns, |p.dest.keys|),
                                     p.dest.keys + p.dest.columns, |V|), V + V, st.subStatements);
    MergeBinds(p.dest.table, p.dest.keys, p.dest.columns, V, st.subStatements);
  }

  /** A MERGE over keys `K` and columns `C` with the values `V + V` binds
      `K + C` to `V`. */
  lemma MergeBinds(table: string, K: seq<string>, C: seq<string>, V: seq<Bound>, subs: seq<Statement>)
    requires |V| == |K| + |C|
    ensures Binds(Statement(MergeInto(table, Numbered(K, 0), Numbered(C, |K|), K + C, |V|), V + V, subs), K + C, V)
  {
    var st := Statement(MergeInto(table, Numbered(K, 0), Numbered(C, |K|), K + C, |V|), V + V, subs);
    var D := K + C;
    var n := |D|;
    var A, B, P := Numbered(K, 0), Numbered(C, |K|), Positional(D, n);
    var slots := Slots(st.text);
    assert slots == A + B + P;
    forall i | 0 <= i < 2 * n
      ensures slots[i].param < n && slots[i].column == D[slots[i].param] && st.values[i] == V[slots[i].param]
    {
      if i < |K| {
        assert slots[i] == A[i] == Assign(D[i], i);
      } else if i < n {
        assert slots[i] == B[i - |K|] == Assign(D[i], i);
      } else {
        assert slots[i] == P[i - n] == Assign(D[i - n], i - n);
      }
    }
  }

  /** Narrowing keeps everything at the root. */
  lemma {:induction false} NarrowAtRoot(ks: seq<string>, guide: seq<string>)
    requires |ks| == |guide|
    ensures Narrow(ks, guide, true) == ks
  {
    if |ks| > 0 {
      NarrowAtRoot(ks[1..], guide[1..]);
    }
  }

  /** The destination and source keys are narrowed by the same test, so the
      WHERE clause and the value list have equal lengths. */
  lemma {:induction false} NarrowSameCount(a: seq<string>, b: seq<string>, guide: seq<string>, root: bool)
    requires |a| == |guide| && |b| == |guide|
    ensures |Narrow(a, guide, root)| == |Narrow(b, guide, root)|
  {
    if |guide| > 0 {
      NarrowSameCount(a[1..], b[1..], guide[1..], root);
    }
  }

  /** Below the root only keys that reach up with "../" survive. */
  lemma {:induction false} NarrowBelowRoot(guide: seq<string>)
    ensures forall x <- Narrow(guide, guide, false) :: StartsWith(x, "../")
  {
    if |guide| > 0 {
      NarrowBelowRoot(guide[1..]);
    }
  }

  /** Below the root, keys without "../" are all dropped. */
  lemma {:induction false} NarrowNothing(ks: seq<string>, guide: seq<string>)
    requires |ks| == |guide| && forall g <- guide :: !StartsWith(g, "../")
    ensures Narrow(ks, guide, false) == []
  {
    if |ks| > 0 {
      assert guide[0] in guide;
      NarrowNothing(ks[1..], guide[1..]);
    }
  }

  /** `delete` matches the surviving destination keys against `:0 .. :m-1`,
      bound to the values of the surviving source keys. */
  lemma DeleteBinds(p: Param)
    requires Aligned(p.src, p.dest) && Delete(p).Ok?
    ensures var st := Delete(p).value;
      var D := Narrow(p.dest.keys, p.src.keys, p.ctx.IsRoot());
      var S := Narrow(p.src.keys, p.src.keys, p.ctx.IsRoot());
      && |D| == |S|
      && st.text == DeleteFrom(p.dest.table, Numbered(D, 0))
      && Values(p.ctx, S).Ok?
      && st.values == Values(p.ctx, S).value
      && Binds(st, D, st.values)
      && st.subStatements == SubStatements(p, DeleteOp, true).value
  {
    var root := p.ctx.IsRoot();
    NarrowSameCount(p.dest.keys, p.src.keys, p.src.keys, root);
  }

  /** At the root `delete` matches every key. */
  lemma DeleteAtRoot(p: Param)
    requires Aligned(p.src, p.dest) && p.ctx.IsRoot() && Delete(p).Ok?
    ensures Delete(p).value.text == DeleteFrom(p.dest.table, Numbered(p.dest.keys, 0))
    ensures Values(p.ctx, p.src.keys).Ok? && Delete(p).value.values == Values(p.ctx, p.src.keys).value
  {
    DeleteBinds(p);
    NarrowAtRoot(p.dest.keys, p.src.keys);
    NarrowAtRoot(p.src.keys, p.src.keys);
    var st := Delete(p).value;
    assert st.text == DeleteFrom(p.dest.table, Numbered(Narrow(p.dest.keys, p.src.keys, true), 0));
  }

  /** Below the root, with no key reaching up, the WHERE clause is empty. */
  lemma DeleteEmptyWhere(p: Param)
    requires Aligned(p.src, p.dest) && !p.ctx.IsRoot() && Delete(p).Ok?
    requires forall k <- p.src.keys :: !StartsWith(k, "../")
    ensures Delete(p).value.Sql() == "DELETE FROM " + p.dest.table + " WHERE "
    ensures Delete(p).value.values == []
  {
    NarrowNothing(p.dest.keys, p.src.keys);
    NarrowNothing(p.src.keys, p.src.keys);
    assert AssignTexts(Numbered([], 0)) == [];
  }

  // ---------------------------------------------------------------------
  // Child tables

  /** The child parameters `getSubStatements` builds statements for, in
      order: nothing when either side has no child tables; for each child
      table, nothing for falsy data unless empty data is allowed, one per
      element of array data, or one for other data; every child context is
      parented to the current one. */
  function Targets(p: Param, allow: bool): (r: Result<seq<Param>>)
    requires Aligned(p.src, p.dest)
    ensures r.Ok? ==> forall t <- r.value :: Aligned(t.src, t.dest) && t.ctx.parent == Some(p.ctx)
  {
    if p.src.embedded.Absent? || p.dest.embedded.Absent? then Ok([])
    else TargetsFrom(p, allow, 0)
  }

  function TargetsFrom(p: Param, allow: bool, i: nat): (r: Result<seq<Param>>)
    requires Aligned(p.src, p.dest) && p.src.embedded.Present? && p.dest.embedded.Present?
    requires i <= |p.src.embedded.tables|
    ensures r.Ok? ==> forall t <- r.value :: Aligned(t.src, t.dest) && t.ctx.parent == Some(p.ctx)
    decreases |p.src.embedded.tables| - i
  {
    if i == |p.src.embedded.tables| then Ok([])
    else
      var data :- GetPropertyValue(p.ctx, p.src.embedded.tables[i].table);
      var here := DataTargets(p.src.embedded.tables[i], p.dest.embedded.tables[i], p.ctx, data, allow);
      var rest :- TargetsFrom(p, allow, i + 1);
      Ok(here + rest)
  }

  /** The child statement for each child parameter, in order. */
  function Built(op: Op, allow: bool, targets: seq<Param>): (r: seq<Result<Statement>>)
    requires forall t <- targets :: Aligned(t.src, t.dest)
    ensures |r| == |targets|
  {
    seq(|targets|, k requires 0 <= k < |targets| => Child(op, targets[k], allow))
  }

  lemma BuiltAppend(op: Op, allow: bool, ts: seq<Param>, rest: seq<Param>)
    requires forall t <- ts + rest :: Aligned(t.src, t.dest)
    ensures Built(op, allow, ts + rest) == Built(op, allow, ts) + Built(op, allow, rest)
  {
    assert forall t <- ts :: t in ts + rest;
    assert forall t <- rest :: t in ts + rest;
  }

  /** `subs` are the statements built, with the caller's operation, for the
      child parameters `targets`, one each and in order. */
  predicate BuiltFor(op: Op, allow: bool, targets: seq<Param>, subs: seq<Statement>)
    requires forall t <- targets :: Aligned(t.src, t.dest)
  {
    Collect(Built(op, allow, targets)) == Ok(subs)
  }

  /** From child table `i` on, the gathered statements are those built for
      the child parameters of `TargetsFrom`. */
  predicate SubFromMatches(p: Param, op: Op, allow: bool, i: nat)
    requires Aligned(p.src, p.dest) && p.src.embedded.Present? && p.dest.embedded.Present?
    requires i <= |p.src.embedded.tables|
  {
    && (SubFrom(p, op, allow, i).Ok? <==>
         TargetsFrom(p, allow, i).Ok? && Collect(Built(op, allow, TargetsFrom(p, allow, i).value)).Ok?)
    && (SubFrom(p, op, allow, i).Ok? ==>
         BuiltFor(op, allow, TargetsFrom(p, allow, i).value, SubFrom(p, op, allow, i).value))
  }

  lemma {:induction false} SubFromBuiltFor(p: Param, op: Op, allow: bool, i: nat)
    requires Aligned(p.src, p.dest) && p.src.embedded.Present? && p.dest.embedded.Present?
    requires i <= |p.src.embedded.tables|
    ensures SubFromMatches(p, op, allow, i)
    decreases |p.src.embedded.tables| - i
  {
    if i < |p.src.embedded.tables| {
      SubFromBuiltFor(p, op, allow, i + 1);
      SubFromMatchesStep(p, op, allow, i);
    }
  }

  lemma SubFromMatchesStep(p: Param, op: Op, allow: bool, i: nat)
    requires Aligned(p.src, p.dest) && p.src.embedded.Present? && p.dest.embedded.Present?
    requires i < |p.src.embedded.tables|
    requires SubFromMatches(p, op, allow, i + 1)
    ensures SubFromMatches(p, op, allow, i)
  {
    var srcCol := p.src.embedded.tables[i];
    var destCol := p.dest.embedded.tables[i];
    var data := GetPropertyValue(p.ctx, srcCol.table);
    if data.Ok? {
      var ts := DataTargets(srcCol, destCol, p.ctx, data.value, allow);
      assert Aligned(srcCol, destCol);
      var here := Built(op, allow, ts);
      assert seq(|ts|, k requires 0 <= k < |ts| => Child(op, ts[k], allow)) == here;
      var restT := TargetsFrom(p, allow, i + 1);
      if restT.Ok? {
        assert TargetsFrom(p, allow, i) == Ok(ts + restT.value);
        BuiltAppend(op, allow, ts, restT.value);
        CollectAppend(here, Built(op, allow, restT.value));
      }
    }
  }

  /** `getSubStatements` builds, with the caller's operation, exactly one
      statement per child parameter of `Targets`, in order; it succeeds
      exactly when every path read and every child build succeeds. */
  lemma SubStatementsBuiltFor(p: Param, op: Op, allow: bool)
    requires Aligned(p.src, p.dest)
    ensures SubStatements(p, op, allow).Ok? <==>
      Targets(p, allow).Ok? && Collect(Built(op, allow, Targets(p, allow).value)).Ok?
    ensures SubStatements(p, op, allow).Ok? ==>
      BuiltFor(op, allow, Targets(p, allow).value, SubStatements(p, op, allow).value)
  {
    if p.src.embedded.Present? && p.dest.embedded.Present? {
      SubFromBuiltFor(p, op, allow, 0);
    }
  }

  // ---------------------------------------------------------------------
  // The shipped sample configuration

  /** The sample table of the shipped configuration, as its object literal
      reads: table "user->USER", key "_id->USER_ID" and columns
      "name->NAME", "'type'->TYPE" and "'0'->VERSION". */
  const UserEntry: Value := Obj(map[
    "table" := Str("user" + "->" + "USER"),
    "keys" := Arr([Str("_id" + "->" + "USER_ID")]),
    "columns" := Arr([Str("name" + "->" + "NAME"), Str("'type'" + "->" + "TYPE"), Str("'0'" + "->" + "VERSION")])])

  /** The source and destination halves of the sample table. */
  const UserSrc := Table("user", ["_id"], ["name", "'type'", "'0'"], Absent, Undefined, Undefined)
  const UserDest := Table("USER", ["USER_ID"], ["NAME", "TYPE", "VERSION"], Absent, Undefined, Undefined)

  /** A document of the sample collection becomes this INSERT, with no
      child statements. */
  lemma SampleInsert(ctx: SrcObject)
    requires Insert(Param(UserSrc, UserDest, ctx)).Ok?
    ensures Insert(Param(UserSrc, UserDest, ctx)).value.Sql()
         == "INSERT INTO " + "USER" + " (" + "USER_ID, NAME, TYPE, VERSION" + ") VALUES (" + ":0, :1, :2, :3" + ") "
    ensures Insert(Param(UserSrc, UserDest, ctx)).value.subStatements == []
  {
    var p := Param(UserSrc, UserDest, ctx);
    InsertBinds(p);
    var st := Insert(p).value;
    assert p.dest.keys + p.dest.columns == ["USER_ID", "NAME", "TYPE", "VERSION"];
    assert st.text == InsertInto("USER", ["USER_ID", "NAME", "TYPE", "VERSION"], 4);
    SampleText();
  }

  lemma SampleText()
    ensures Render(InsertInto("USER", ["USER_ID", "NAME", "TYPE", "VERSION"], 4))
         == "INSERT INTO " + "USER" + " (" + "USER_ID, NAME, TYPE, VERSION" + ") VALUES (" + ":0, :1, :2, :3" + ") "
  {
    SampleColumns();
    SamplePlaceholders();
  }

  lemma SampleColumns()
    ensures Join(["USER_ID", "NAME", "TYPE", "VERSION"], ", ") == "USER_ID, NAME, TYPE, VERSION"
  {
    var c := ["USER_ID", "NAME", "TYPE", "VERSION"];
    assert c[1..] == ["NAME", "TYPE", "VERSION"] && c[1..][1..] == ["TYPE", "VERSION"];
    assert c[1..][1..][1..] == ["VERSION"];
  }

  lemma SamplePlaceholders()
    ensures Join(Placeholders(4), ", ") == ":0, :1, :2, :3"
  {
    var h := Placeholders(4);
    assert NatToString(0) == "0" && NatToString(1) == "1" && NatToString(2) == "2" && NatToString(3) == "3";
    assert h[0] == ":0" && h[1] == ":1" && h[2] == ":2" && h[3] == ":3";
    assert h == [":0", ":1", ":2", ":3"];
    assert h[1..] == [":1", ":2", ":3"] && h[1..][1..] == [":2", ":3"] && h[1..][1..][1..] == [":3"];
  }

  /** The sample table reads as a descriptor, and splitting it on its
      arrows gives exactly `UserSrc` and `UserDest`. */
  lemma SampleTableSplits()
    ensures DecodeTable(UserEntry).Some?
    ensures SplitTable(UserEntry) == Ok((UserSrc, UserDest))
  {
    SampleDecodes();
    SampleHasNoNull();
    SamplePlainNames();
    SplitsPlain(UserEntry, UserTable, "user", "USER",
      ["_id"], ["USER_ID"], ["name", "'type'", "'0'"], ["NAME", "TYPE", "VERSION"]);
  }

  lemma SamplePlainNames()
    ensures PlainName("user") && PlainName("USER") && PlainName("_id") && PlainName("USER_ID")
    ensures PlainName("name") && PlainName("'type'") && PlainName("'0'")
    ensures PlainName("NAME") && PlainName("TYPE") && PlainName("VERSION")
  {
  }

  /** A configuration entry without null that reads as a flat descriptor
      whose names are all written `l->r` with plain halves splits into the
      lefts and the rights. */
  lemma SplitsPlain(v: Value, c: Table, tl: string, tr: string,
                    kl: seq<string>, kr: seq<string>, cl: seq<string>, cr: seq<string>)
    requires |kl| == |kr| && |cl| == |cr|
    requires c == Table(tl + "->" + tr, Arrowed(kl, kr), Arrowed(cl, cr), Absent, Undefined, Undefined)
    requires DecodeTable(v) == Some(c) && !HasNull(v)
    requires PlainName(tl) && PlainName(tr)
    requires forall i | 0 <= i < |kl| :: PlainName(kl[i]) && PlainName(kr[i])
    requires forall i | 0 <= i < |cl| :: PlainName(cl[i]) && PlainName(cr[i])
    ensures SplitTable(v) == Ok((Table(tl, kl, cl, Absent, Undefined, Undefined), Table(tr, kr, cr, Absent, Undefined, Undefined)))
  {
    var r := SplitTable(v);
    PlainTableHalves(c, r.value.0, r.value.1, tl, tr, kl, kr, cl, cr);
  }

  /** The sample table as a descriptor, names still joined by arrows. */
  const UserTable := Table("user" + "->" + "USER", Arrowed(["_id"], ["USER_ID"]),
    Arrowed(["name", "'type'", "'0'"], ["NAME", "TYPE", "VERSION"]), Absent, Undefined, Undefined)

  /** The names `lefts[i]->rights[i]`, position by position. */
  function Arrowed(lefts: seq<string>, rights: seq<string>): (r: seq<string>)
    requires |lefts| == |rights|
    ensures |r| == |lefts| && forall i | 0 <= i < |r| :: r[i] == lefts[i] + "->" + rights[i]
  {
    seq(|lefts|, i requires 0 <= i < |lefts| => lefts[i] + "->" + rights[i])
  }

  /** A name the arrow split leaves whole: no space and no dash. */
  predicate PlainName(w: string) {
    ' ' !in w && '-' !in w
  }

  lemma SampleDecodes()
    ensures DecodeTable(UserEntry) == Some(UserTable)
  {
    var f := UserEntry.fields;
    assert "embeddedColumns" !in f && "query" !in f && "pipeline" !in f;
    StringListOf(f["keys"], UserTable.keys);
    StringListOf(f["columns"], UserTable.columns);
  }

  lemma SampleHasNoNull()
    ensures !HasNull(UserEntry)
  {
    var f := UserEntry.fields;
    forall k | k in f ensures !HasNull(f[k]) {
      var items := f["columns"].items;
      assert !HasNull(items[0]) && !HasNull(items[1]) && !HasNull(items[2]);
      assert !HasNull(f["keys"].items[0]);
    }
  }

  /** A flat descriptor whose names are all written `l->r` with plain
      halves splits into the lefts and the rights. */
  lemma PlainTableHalves(c: Table, s: Table, d: Table, tl: string, tr: string,
                         kl: seq<string>, kr: seq<string>, cl: seq<string>, cr: seq<string>)
    requires |kl| == |kr| && |cl| == |cr|
    requires c == Table(tl + "->" + tr, Arrowed(kl, kr), Arrowed(cl, cr), Absent, Undefined, Undefined)
    requires PlainName(tl) && PlainName(tr)
    requires forall i | 0 <= i < |kl| :: PlainName(kl[i]) && PlainName(kr[i])
    requires forall i | 0 <= i < |cl| :: PlainName(cl[i]) && PlainName(cr[i])
    requires Halves(c, s, d)
    ensures s == Table(tl, kl, cl, Absent, Undefined, Undefined)
    ensures d == Table(tr, kr, cr, Absent, Undefined, Undefined)
  {
    StrSplitterPlain(tl, tr);
    ArrowedHalves(kl, kr, s.keys, d.keys);
    ArrowedHalves(cl, cr, s.columns, d.columns);
  }

  /** Names written `l->r` with plain halves split into the lefts and the
      rights. */
  lemma ArrowedHalves(lefts: seq<string>, rights: seq<string>, s: seq<string>, d: seq<string>)
    requires |lefts| == |rights|
    requires forall i | 0 <= i < |lefts| :: PlainName(lefts[i]) && PlainName(rights[i])
    requires ListHalves(Arrowed(lefts, rights), s, d)
    ensures s == lefts && d == rights
  {
    forall i | 0 <= i < |lefts| ensures s[i] == lefts[i] && d[i] == rights[i] {
      StrSplitterPlain(lefts[i], rights[i]);
    }
  }

  /** A document `{_id, name}` of the sample collection binds its `_id`
      and `name`, converted, then the literals `'type'` and `'0'` without
      their quotes: text that is no date stays text. */
  lemma SampleValues(id: Value, name: Value)
    ensures var p := Param(UserSrc, UserDest, SrcObject(Obj(map["_id" := id, "name" := name]), None));
      && Insert(p).Ok?
      && Insert(p).value.values == [Coerce(id), Coerce(name), Plain(Str("type")), Plain(Str("0"))]
  {
    var ctx := SrcObject(Obj(map["_id" := id, "name" := name]), None);
    var p := Param(UserSrc, UserDest, ctx);
    assert UserSrc.keys + UserSrc.columns == ["_id", "name", "'type'", "'0'"];
    SampleBound(ctx, id, name);
    assert SubStatements(p, InsertOp, false) == Ok([]);
  }

  lemma SampleBound(ctx: SrcObject, id: Value, name: Value)
    requires ctx.src == Obj(map["_id" := id, "name" := name])
    ensures Values(ctx, ["_id", "name", "'type'", "'0'"])
         == Ok([Coerce(id), Coerce(name), Plain(Str("type")), Plain(Str("0"))])
  {
    SampleKeyPaths(ctx, id, name);
    SampleLiteralPaths(ctx);
    SampleLiteralsPlain();
    ValuesOfFour(ctx, "_id", "name", "'type'", "'0'", id, name, Str("type"), Str("0"));
  }

  /** The sample's literals are no dates and bind as text. */
  lemma SampleLiteralsPlain()
    ensures Coerce(Str("type")) == Plain(Str("type")) && Coerce(Str("0")) == Plain(Str("0"))
  {
    ShortTextNoDate("type");
    ShortTextNoDate("0");
  }

  /** Four properties that resolve to values bind the conversions of
      those values, in order. */
  lemma ValuesOfFour(ctx: SrcObject, p0: string, p1: string, p2: string, p3: string,
                     v0: Value, v1: Value, v2: Value, v3: Value)
    requires GetPropertyValue(ctx, p0) == Ok(v0) && GetPropertyValue(ctx, p1) == Ok(v1)
    requires GetPropertyValue(ctx, p2) == Ok(v2) && GetPropertyValue(ctx, p3) == Ok(v3)
    ensures Values(ctx, [p0, p1, p2, p3]) == Ok([Coerce(v0), Coerce(v1), Coerce(v2), Coerce(v3)])
  {
    ResolvesFour(ctx, p0, p1, p2, p3, v0, v1, v2, v3);
    ValuesOf(ctx, [p0, p1, p2, p3], [v0, v1, v2, v3]);
    CoercedFour(v0, v1, v2, v3);
  }

  /** Every property resolves to the value at its position. */
  predicate Resolves(ctx: SrcObject, props: seq<string>, vals: seq<Value>) {
    |props| == |vals| && forall i | 0 <= i < |props| :: GetPropertyValue(ctx, props[i]) == Ok(vals[i])
  }

  lemma ResolvesFour(ctx: SrcObject, p0: string, p1: string, p2: string, p3: string,
                     v0: Value, v1: Value, v2: Value, v3: Value)
    requires GetPropertyValue(ctx, p0) == Ok(v0) && GetPropertyValue(ctx, p1) == Ok(v1)
    requires GetPropertyValue(ctx, p2) == Ok(v2) && GetPropertyValue(ctx, p3) == Ok(v3)
    ensures Resolves(ctx, [p0, p1, p2, p3], [v0, v1, v2, v3])
  {
  }

  lemma CoercedFour(v0: Value, v1: Value, v2: Value, v3: Value)
    ensures Coerced([v0, v1, v2, v3]) == [Coerce(v0), Coerce(v1), Coerce(v2), Coerce(v3)]
  {
  }

  /** The conversions of `vals`, in order. */
  function Coerced(vals: seq<Value>): (r: seq<Bound>)
    ensures |r| == |vals| && forall i | 0 <= i < |vals| :: r[i] == Coerce(vals[i])
  {
    seq(|vals|, i requires 0 <= i < |vals| => Coerce(vals[i]))
  }

  /** Properties that resolve to `vals` bind the conversions of `vals`. */
  lemma ValuesOf(ctx: SrcObject, props: seq<string>, vals: seq<Value>)
    requires Resolves(ctx, props, vals)
    ensures Values(ctx, props) == Ok(Coerced(vals))
  {
    var vs := Values(ctx, props).value;
    assert vs == Coerced(vals);
  }

  lemma SampleKeyPaths(ctx: SrcObject, id: Value, name: Value)
    requires ctx.src == Obj(map["_id" := id, "name" := name])
    ensures GetPropertyValue(ctx, "_id") == Ok(id) && GetPropertyValue(ctx, "name") == Ok(name)
  {
    NotQuoted("_id");
    NotQuoted("name");
    SegmentPath(ctx, "_id");
    SegmentPath(ctx, "name");
  }

  lemma SampleLiteralPaths(ctx: SrcObject)
    requires !ctx.src.Arr?
    ensures GetPropertyValue(ctx, "'type'") == Ok(Str("type")) && GetPropertyValue(ctx, "'0'") == Ok(Str("0"))
  {
    assert QuotedAt("'type'", 0, 5) && QuotedAt("'0'", 0, 2);
    LiteralPath(ctx, "'type'");
    LiteralPath(ctx, "'0'");
    Unquoted();
  }

  lemma Unquoted()
    ensures RemoveAll("'type'", '\'') == "type" && RemoveAll("'0'", '\'') == "0"
  {
    assert "'type'"[1..] == "type'" && "type'"[1..] == "ype'" && "ype'"[1..] == "pe'";
    assert "pe'"[1..] == "e'" && "e'"[1..] == "'" && "'"[1..] == "";
    assert "'0'"[1..] == "0'" && "0'"[1..] == "'";
  }
}
