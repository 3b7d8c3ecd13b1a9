/** The mapping compiler: a configuration tree whose strings read
    "source->destination" becomes two trees of the same shape, one naming
    the source fields and one naming the destination columns. */
module PairsCommon {
  import opened Strings
  import opened JsValues

  /** The `table.replace(" ", "")` step: only the FIRST space goes. */
  function StripFirstSpace(s: string): string {
    RemoveFirst(s, ' ')
  }

  /** `strSplitter`: split "a->b" into its two sides; a string without an
      arrow names the same thing on both sides. Either the tokens join back
      into the stripped string, or there was no arrow and both sides are it. */
  function StrSplitter(str: string): (r: seq<string>)
    ensures |r| >= 2
    ensures forall i | 0 <= i < |r| :: !Contains(r[i], "->")
    ensures Join(r, "->") == StripFirstSpace(str)
         || (r == [StripFirstSpace(str), StripFirstSpace(str)] && !Contains(StripFirstSpace(str), "->"))
  {
    var t := StripFirstSpace(str);
    var tokens := Split(t, "->");
    SplitPieces(t, "->");
    JoinSplit(t, "->");
    if |tokens| < 2 then
      assert tokens == [t] by { SplitSingle(t, "->"); }
      [tokens[0], tokens[0]]
    else tokens
  }

  /** A split with one piece found no separator. */
  lemma SplitSingle(s: string, sep: string)
    requires |sep| > 0 && |Split(s, sep)| < 2
    ensures Split(s, sep) == [s] && !Contains(s, sep)
  {
  }

  /** "->" has no border, so the split of "a->b" is found at the written arrow. */
  lemma ArrowBorderless()
    ensures Borderless("->")
  {
    forall m | 0 < m < 2 ensures "->"[m..] != "->"[..2 - m] {
      assert "->"[m..][0] == '>' && "->"[..2 - m][0] == '-';
    }
  }

  /** A string without an arrow names the same thing on both sides. */
  lemma StrSplitterNoArrow(str: string)
    requires !Contains(StripFirstSpace(str), "->")
    ensures StrSplitter(str) == [StripFirstSpace(str), StripFirstSpace(str)]
  {
    SplitWithout(StripFirstSpace(str), "->");
  }

  /** "a->b" (no spaces, one arrow) yields exactly `a` and `b`. */
  lemma StrSplitterArrow(a: string, b: string)
    requires ' ' !in a && ' ' !in b
    requires !Contains(a, "->") && !Contains(b, "->")
    ensures StrSplitter(a + "->" + b) == [a, b]
  {
    assert ' ' !in a + "->" + b;
    ArrowBorderless();
    SplitAt(a, "->", b);
    SplitWithout(b, "->");
  }

  /** With several arrows the first two tokens are the text before the first
      arrow and the text between the first and the second. */
  lemma StrSplitterFirstTwo(a: string, b: string, rest: string)
    requires ' ' !in a + "->" + b + "->" + rest
    requires !Contains(a, "->") && !Contains(b, "->")
    ensures StrSplitter(a + "->" + b + "->" + rest)[..2] == [a, b]
  {
    ArrowBorderless();
    assert a + "->" + b + "->" + rest == a + "->" + (b + "->" + rest);
    SplitAt(a, "->", b + "->" + rest);
    SplitAt(b, "->", rest);
  }

  /** Removing the first occurrence of `c` from a string where it first
      appears after `a` gives back the rest around it. */
  lemma {:induction false} RemoveFirstAfter(a: string, c: char, rest: string)
    requires forall i | 0 <= i < |a| :: a[i] != c
    ensures RemoveFirst(a + [c] + rest, c) == a + rest
  {
    var s := a + [c] + rest;
    if |a| == 0 {
      assert s == [c] + rest;
      assert s[0] == c && s[1..] == rest;
    } else {
      var s1 := a[1..] + [c] + rest;
      assert s[0] == a[0] && a[0] != c;
      assert s[1..] == s1;
      RemoveFirstAfter(a[1..], c, rest);
      assert RemoveFirst(s, c) == [a[0]] + RemoveFirst(s1, c);
      assert a + rest == [a[0]] + (a[1..] + rest);
    }
  }

  /** Only the first space goes: "a -> b" yields `a` and " b", keeping the
      space that follows the arrow. */
  lemma StrSplitterOneSpace(a: string, b: string)
    requires ' ' !in a && ' ' !in b
    requires !Contains(a, "->") && !Contains(b, "->")
    ensures StrSplitter(a + " -> " + b) == [a, " " + b]
  {
    assert a + " -> " + b == a + [' '] + ("-> " + b);
    RemoveFirstAfter(a, ' ', "-> " + b);
    assert StripFirstSpace(a + " -> " + b) == a + "->" + (" " + b);
    ArrowBorderless();
    SplitAt(a, "->", " " + b);
    NoArrowAfterSpace(b);
    SplitWithout(" " + b, "->");
  }

  /** A string without a dash has no arrow. */
  lemma NoDashNoArrow(s: string)
    requires '-' !in s
    ensures !Contains(s, "->")
  {
    var k := IndexOf(s, "->");
    if k >= 0 {
      DashAt(s, k);
      assert false;
    }
  }

  lemma DashAt(s: string, k: int)
    requires OccursAt(s, "->", k)
    ensures 0 <= k < |s| && s[k] == '-'
  {
    assert s[k..k + 2][0] == s[k];
  }

  /** "a->b" where neither side has a space or a dash yields `a` and `b`. */
  lemma StrSplitterPlain(a: string, b: string)
    requires ' ' !in a && ' ' !in b && '-' !in a && '-' !in b
    ensures StrSplitter(a + "->" + b) == [a, b]
  {
    NoDashNoArrow(a);
    NoDashNoArrow(b);
    StrSplitterArrow(a, b);
  }

  lemma NoArrowAfterSpace(b: string)
    requires !Contains(b, "->")
    ensures !Contains(" " + b, "->")
  {
    var k := IndexOf(" " + b, "->");
    if k >= 0 {
      ArrowAfterSpace(b, k);
      assert false;
    }
  }

  lemma ArrowAfterSpace(b: string, k: int)
    requires OccursAt(" " + b, "->", k)
    ensures k >= 1 && OccursAt(b, "->", k - 1)
  {
    assert (" " + b)[k..k + 2][0] == '-';
    assert (" " + b)[k..k + 2] == b[k - 1..k + 1];
  }

  /** `splitPair`: the two halves of a configuration value. Strings are
      split on the arrow; arrays and objects element by element and key by
      key; other values are copied to both sides. `null` takes the object
      branch, where `Object.entries(null)` throws. */
  function SplitPair(p: Value): (r: Result<(Value, Value)>)
    ensures r.Err? <==> HasNull(p)
    ensures p.Str? ==> r == Ok((Str(StrSplitter(p.s)[0]), Str(StrSplitter(p.s)[1])))
    ensures p.Undefined? || p.Bool? || p.Num? || p.NaN? ==> r == Ok((p, p))
  {
    match p
    case Str(s) =>
      var t := StrSplitter(s);
      Ok((Str(t[0]), Str(t[1])))
    case Arr(items) =>
      var halves := seq(|items|, i requires 0 <= i < |items| => SplitPair(items[i]));
      assert forall i | 0 <= i < |items| :: halves[i].Err? <==> HasNull(items[i]);
      if exists i | 0 <= i < |items| :: halves[i].Err? then Err(CannotConvertNull)
      else
        Ok((Arr(seq(|items|, i requires 0 <= i < |items| => halves[i].value.0)),
            Arr(seq(|items|, i requires 0 <= i < |items| => halves[i].value.1))))
    case Obj(fields) =>
      var halves := map k | k in fields :: SplitPair(fields[k]);
      assert forall k | k in fields :: halves[k].Err? <==> HasNull(fields[k]);
      if exists k | k in fields :: halves[k].Err? then Err(CannotConvertNull)
      else
        Ok((Obj(map k | k in fields :: halves[k].value.0),
            Obj(map k | k in fields :: halves[k].value.1)))
    case Null => Err(CannotConvertNull)
    case _ => Ok((p, p))
  }

  /** `q` has the shape of `p`: strings where `p` has strings, arrays of the
      same length, objects with the same keys, and every other value equal. */
  predicate SameShape(p: Value, q: Value) {
    match p
    case Str(_) => q.Str?
    case Arr(a) =>
      q.Arr? && |a| == |q.items| && forall i | 0 <= i < |a| :: SameShape(a[i], q.items[i])
    case Obj(f) =>
      q.Obj? && f.Keys == q.fields.Keys && forall k | k in f :: SameShape(f[k], q.fields[k])
    case _ => q == p
  }

  /** Both halves of a split have the shape of the configuration value. */
  lemma {:induction false} SplitPairShape(p: Value)
    requires SplitPair(p).Ok?
    ensures SameShape(p, SplitPair(p).value.0) && SameShape(p, SplitPair(p).value.1)
  {
    var r := SplitPair(p).value;
    match p
    case Arr(items) =>
      forall i | 0 <= i < |items|
        ensures SameShape(items[i], r.0.items[i]) && SameShape(items[i], r.1.items[i])
      {
        SplitPairShape(items[i]);
      }
    case Obj(fields) =>
      forall k | k in fields
        ensures SameShape(fields[k], r.0.fields[k]) && SameShape(fields[k], r.1.fields[k])
      {
        SplitPairShape(fields[k]);
      }
    case _ =>
  }

  /** A table descriptor (`ITable`) once split: its name, ordered key and
      column paths, optional child tables and, on the source side, the
      filters handed to the document store. An absent `columns` reads as
      the empty list, since every use of it is `columns || []`. */
  datatype Table = Table(
    table: string,
    keys: seq<string>,
    columns: seq<string>,
    embedded: EmbeddedColumns,
    query: Value,
    pipeline: Value)

  datatype EmbeddedColumns = Absent | Present(tables: seq<Table>)

  /** A list of strings, as a configuration spells `keys` and `columns`. */
  function StringList(v: Value): (r: Option<seq<string>>)
    ensures r.Some? ==> v.Arr? && |r.value| == |v.items|
  {
    if v.Arr? && forall i | 0 <= i < |v.items| :: v.items[i].Str? then
      Some(seq(|v.items|, i requires 0 <= i < |v.items| => v.items[i].s))
    else None
  }

  function Field(f: map<string, Value>, k: string): Value {
    if k in f then f[k] else Undefined
  }

  /** Reads a configuration object as a table descriptor: `table` a string,
      `keys` a list of strings, `columns` absent or a list of strings,
      `embeddedColumns` absent or a list of table descriptors. */
  function DecodeTable(v: Value): Option<Table> {
    match v
    case Obj(f) =>
      var keys := StringList(Field(f, "keys"));
      var columns := OptionalList(Field(f, "columns"));
      var embedded := if "embeddedColumns" in f then DecodeEmbedded(f["embeddedColumns"]) else Some(Absent);
      if Field(f, "table").Str? && keys.Some? && columns.Some? && embedded.Some? then
        Some(Table(Field(f, "table").s, keys.value, columns.value, embedded.value,
                   Field(f, "query"), Field(f, "pipeline")))
      else None
    case _ => None
  }

  /** An optional list of strings; absent reads as the empty list. */
  function OptionalList(v: Value): Option<seq<string>> {
    if v == Undefined then Some([]) else StringList(v)
  }

  function DecodeEmbedded(e: Value): Option<EmbeddedColumns> {
    match e
    case Undefined => Some(Absent)
    case Arr(items) =>
      if forall i | 0 <= i < |items| :: DecodeTable(items[i]).Some? then
        Some(Present(seq(|items|, i requires 0 <= i < |items| => DecodeTable(items[i]).value)))
      else None
    case _ => None
  }

  /** `s` and `d` are the halves of the descriptor `c`: every name is
      split on its arrow, position by position, and child tables likewise. */
  predicate Halves(c: Table, s: Table, d: Table) {
    && s.table == StrSplitter(c.table)[0] && d.table == StrSplitter(c.table)[1]
    && ListHalves(c.keys, s.keys, d.keys)
    && ListHalves(c.columns, s.columns, d.columns)
    && SplitPair(c.query) == Ok((s.query, d.query))
    && SplitPair(c.pipeline) == Ok((s.pipeline, d.pipeline))
    && EmbeddedHalves(c.embedded, s.embedded, d.embedded)
  }

  predicate EmbeddedHalves(c: EmbeddedColumns, s: EmbeddedColumns, d: EmbeddedColumns) {
    match c
    case Absent => s.Absent? && d.Absent?
    case Present(ts) =>
      && s.Present? && d.Present?
      && |s.tables| == |ts| == |d.tables|
      && forall i | 0 <= i < |ts| :: Halves(ts[i], s.tables[i], d.tables[i])
  }

  predicate ListHalves(c: seq<string>, s: seq<string>, d: seq<string>) {
    |s| == |c| == |d|
    && forall i | 0 <= i < |c| :: s[i] == StrSplitter(c[i])[0] && d[i] == StrSplitter(c[i])[1]
  }

  /** The invariant of a mapping pair: keys, columns and child tables of the
      source and destination sides have equal lengths, position by position. */
  predicate Aligned(s: Table, d: Table) {
    && |s.keys| == |d.keys|
    && |s.columns| == |d.columns|
    && match s.embedded
       case Absent => d.embedded.Absent?
       case Present(ts) =>
         && d.embedded.Present? && |ts| == |d.embedded.tables|
         && forall i | 0 <= i < |ts| :: Aligned(ts[i], d.embedded.tables[i])
  }

  lemma {:induction false} HalvesAligned(c: Table, s: Table, d: Table)
    requires Halves(c, s, d)
    ensures Aligned(s, d)
  {
    match c.embedded
    case Absent =>
    case Present(ts) =>
      forall i | 0 <= i < |ts| ensures Aligned(s.embedded.tables[i], d.embedded.tables[i]) {
        HalvesAligned(ts[i], s.embedded.tables[i], d.embedded.tables[i]);
      }
  }

  /** An array splits element by element into two arrays of its length. */
  lemma SplitArray(items: seq<Value>)
    requires SplitPair(Arr(items)).Ok?
    ensures var r := SplitPair(Arr(items)).value;
            && r.0.Arr? && r.1.Arr? && |r.0.items| == |items| == |r.1.items|
            && forall i | 0 <= i < |items| :: SplitPair(items[i]) == Ok((r.0.items[i], r.1.items[i]))
  {
    forall i | 0 <= i < |items| ensures !HasNull(items[i]) {
    }
  }

  /** An object splits key by key into two objects with its key set. */
  lemma SplitObject(f: map<string, Value>)
    requires SplitPair(Obj(f)).Ok?
    ensures var r := SplitPair(Obj(f)).value;
            && r.0.Obj? && r.1.Obj? && r.0.fields.Keys == f.Keys == r.1.fields.Keys
            && forall k | k in f :: SplitPair(f[k]) == Ok((r.0.fields[k], r.1.fields[k]))
  {
    forall k | k in f ensures !HasNull(f[k]) {
    }
  }

  /** Each field of a split object is the split of the original field
      (absent fields stay absent, and read as undefined on both sides). */
  lemma SplitField(f: map<string, Value>, k: string)
    requires SplitPair(Obj(f)).Ok?
    ensures SplitPair(Field(f, k)) ==
      Ok((Field(SplitPair(Obj(f)).value.0.fields, k), Field(SplitPair(Obj(f)).value.1.fields, k)))
  {
    SplitObject(f);
  }

  /** The strings of a list of strings, position by position. */
  lemma StringListItems(v: Value, c: seq<string>)
    requires StringList(v) == Some(c)
    ensures v.Arr? && |v.items| == |c|
    ensures forall i | 0 <= i < |c| :: v.items[i] == Str(c[i])
  {
  }

  /** An array whose elements are the strings `c`, in order, lists `c`. */
  lemma StringListOf(v: Value, c: seq<string>)
    requires v.Arr? && |v.items| == |c|
    requires forall i | 0 <= i < |c| :: v.items[i] == Str(c[i])
    ensures StringList(v) == Some(c)
  {
    assert forall i | 0 <= i < |v.items| :: v.items[i].Str?;
    assert seq(|v.items|, i requires 0 <= i < |v.items| => v.items[i].s) == c;
  }

  /** Splitting a list of strings splits each string. */
  lemma SplitStringList(v: Value, c: seq<string>)
    requires StringList(v) == Some(c)
    ensures SplitPair(v).Ok?
    ensures StringList(SplitPair(v).value.0).Some? && StringList(SplitPair(v).value.1).Some?
    ensures ListHalves(c, StringList(SplitPair(v).value.0).value, StringList(SplitPair(v).value.1).value)
  {
    StringListItems(v, c);
    var items := v.items;
    assert forall i | 0 <= i < |items| :: !HasNull(items[i]);
    assert !HasNull(v);
    SplitArray(items);
    var r := SplitPair(v).value;
    var s := seq(|c|, i requires 0 <= i < |c| => StrSplitter(c[i])[0]);
    var d := seq(|c|, i requires 0 <= i < |c| => StrSplitter(c[i])[1]);
    forall i | 0 <= i < |items|
      ensures r.0.items[i] == Str(s[i]) && r.1.items[i] == Str(d[i])
    {
      assert SplitPair(items[i]) == SplitPair(Str(c[i]));
    }
    StringListOf(r.0, s);
    StringListOf(r.1, d);
  }

  /** Splitting an optional list of strings: absent stays absent. */
  lemma SplitOptionalList(v: Value, c: seq<string>)
    requires OptionalList(v) == Some(c)
    ensures SplitPair(v).Ok?
    ensures OptionalList(SplitPair(v).value.0).Some? && OptionalList(SplitPair(v).value.1).Some?
    ensures ListHalves(c, OptionalList(SplitPair(v).value.0).value, OptionalList(SplitPair(v).value.1).value)
  {
    if v != Undefined {
      SplitStringList(v, c);
    }
  }

  /** The name, key list, column list and filters of a split descriptor are
      the halves of the original ones. */
  lemma SplitScalars(f: map<string, Value>, c: Table)
    requires DecodeTable(Obj(f)) == Some(c) && SplitPair(Obj(f)).Ok?
    ensures var a := SplitPair(Obj(f)).value.0;
            var b := SplitPair(Obj(f)).value.1;
            && a.Obj? && b.Obj?
            && Field(a.fields, "table") == Str(StrSplitter(c.table)[0])
            && Field(b.fields, "table") == Str(StrSplitter(c.table)[1])
            && SplitPair(c.query) == Ok((Field(a.fields, "query"), Field(b.fields, "query")))
            && SplitPair(c.pipeline) == Ok((Field(a.fields, "pipeline"), Field(b.fields, "pipeline")))
  {
    SplitObject(f);
    SplitField(f, "table");
    SplitField(f, "query");
    SplitField(f, "pipeline");
    var t := StrSplitter(c.table);
    assert Field(f, "table") == Str(c.table);
    assert SplitPair(Str(c.table)) == Ok((Str(t[0]), Str(t[1])));
  }

  lemma SplitLists(f: map<string, Value>, c: Table)
    requires DecodeTable(Obj(f)) == Some(c) && SplitPair(Obj(f)).Ok?
    ensures var a := SplitPair(Obj(f)).value.0;
            var b := SplitPair(Obj(f)).value.1;
            && a.Obj? && b.Obj?
            && StringList(Field(a.fields, "keys")).Some? && StringList(Field(b.fields, "keys")).Some?
            && ListHalves(c.keys, StringList(Field(a.fields, "keys")).value, StringList(Field(b.fields, "keys")).value)
            && OptionalList(Field(a.fields, "columns")).Some? && OptionalList(Field(b.fields, "columns")).Some?
            && ListHalves(c.columns, OptionalList(Field(a.fields, "columns")).value,
                          OptionalList(Field(b.fields, "columns")).value)
  {
    SplitObject(f);
    SplitField(f, "keys");
    SplitField(f, "columns");
    SplitStringList(Field(f, "keys"), c.keys);
    SplitOptionalList(Field(f, "columns"), c.columns);
  }

  /** Splitting a well-formed descriptor yields two well-formed descriptors
      that are its halves. */
  lemma {:induction false} SplitDescriptor(v: Value, c: Table)
    requires DecodeTable(v) == Some(c) && SplitPair(v).Ok?
    ensures DecodeTable(SplitPair(v).value.0).Some? && DecodeTable(SplitPair(v).value.1).Some?
    ensures Halves(c, DecodeTable(SplitPair(v).value.0).value, DecodeTable(SplitPair(v).value.1).value)
    decreases v
  {
    var f := v.fields;
    SplitObject(f);
    SplitScalars(f, c);
    SplitLists(f, c);
    var a := SplitPair(v).value.0.fields;
    var b := SplitPair(v).value.1.fields;
    var ea, eb;
    if "embeddedColumns" in f {
      SplitEmbedded(f["embeddedColumns"], c.embedded);
      ea := DecodeEmbedded(a["embeddedColumns"]).value;
      eb := DecodeEmbedded(b["embeddedColumns"]).value;
    } else {
      ea, eb := Absent, Absent;
    }
    var t := StrSplitter(c.table);
    var sa := Table(t[0], StringList(Field(a, "keys")).value, OptionalList(Field(a, "columns")).value, ea,
                    Field(a, "query"), Field(a, "pipeline"));
    var sb := Table(t[1], StringList(Field(b, "keys")).value, OptionalList(Field(b, "columns")).value, eb,
                    Field(b, "query"), Field(b, "pipeline"));
    DecodeParts(a, sa);
    DecodeParts(b, sb);
    assert EmbeddedHalves(c.embedded, ea, eb);
    assert Halves(c, sa, sb);
  }

  /** An object whose parts decode to those of `t` decodes to `t`. */
  lemma DecodeParts(g: map<string, Value>, t: Table)
    requires Field(g, "table") == Str(t.table)
    requires StringList(Field(g, "keys")) == Some(t.keys)
    requires OptionalList(Field(g, "columns")) == Some(t.columns)
    requires (if "embeddedColumns" in g then DecodeEmbedded(g["embeddedColumns"]) else Some(Absent)) == Some(t.embedded)
    requires Field(g, "query") == t.query && Field(g, "pipeline") == t.pipeline
    ensures DecodeTable(Obj(g)) == Some(t)
  {
  }

  /** The child tables of a split descriptor are the halves of its children. */
  lemma {:induction false} SplitEmbedded(e: Value, c: EmbeddedColumns)
    requires DecodeEmbedded(e) == Some(c) && SplitPair(e).Ok?
    ensures DecodeEmbedded(SplitPair(e).value.0).Some? && DecodeEmbedded(SplitPair(e).value.1).Some?
    ensures EmbeddedHalves(c, DecodeEmbedded(SplitPair(e).value.0).value, DecodeEmbedded(SplitPair(e).value.1).value)
    decreases e
  {
    match e
    case Undefined =>
    case Arr(items) =>
      var r := SplitPair(e).value;
      SplitArray(items);
      assert c.tables == seq(|items|, i requires 0 <= i < |items| => DecodeTable(items[i]).value);
      forall i | 0 <= i < |items|
        ensures DecodeTable(r.0.items[i]).Some? && DecodeTable(r.1.items[i]).Some?
        ensures Halves(c.tables[i], DecodeTable(r.0.items[i]).value, DecodeTable(r.1.items[i]).value)
      {
        assert c.tables[i] == DecodeTable(items[i]).value;
        SplitDescriptor(items[i], c.tables[i]);
      }
      assert DecodeEmbedded(r.0).value.tables == seq(|items|, i requires 0 <= i < |items| => DecodeTable(r.0.items[i]).value);
      assert DecodeEmbedded(r.1).value.tables == seq(|items|, i requires 0 <= i < |items| => DecodeTable(r.1.items[i]).value);
  }

  /** The source and destination descriptors of one configured table
      (`pair = splitPair(table)`, `src = pair[0]`, `dest = pair[1]`). They
      are its halves and therefore aligned; the split fails exactly when a
      `null` sits anywhere in the configuration entry. */
  function SplitTable(v: Value): (r: Result<(Table, Table)>)
    requires DecodeTable(v).Some?
    ensures r.Err? <==> HasNull(v)
    ensures r.Ok? ==> Halves(DecodeTable(v).value, r.value.0, r.value.1)
    ensures r.Ok? ==> Aligned(r.value.0, r.value.1)
  {
    var halves :- SplitPair(v);
    SplitDescriptor(v, DecodeTable(v).value);
    var src := DecodeTable(halves.0).value;
    var dest := DecodeTable(halves.1).value;
    HalvesAligned(DecodeTable(v).value, src, dest);
    Ok((src, dest))
  }

  /** `ISrcDestPair`: a configured table's source and destination
      descriptors and the options that apply to it. */
  datatype SrcDestPair = SrcDestPair(src: Table, dest: Table, options: Value)

  /** The options of a configured table: its own when they are truthy, the
      defaults otherwise (`table.options || defaultOptions`). */
  function OptionsOf(table: Value, defaultOptions: Value): Value
    requires table.Obj?
  {
    var own := Field(table.fields, "options");
    if Truthy(own) then own else defaultOptions
  }

  /** The pair one pass of the pair-building loop pushes for a table. */
  function OptionPair(table: Value, defaultOptions: Value): (r: Result<SrcDestPair>)
    requires DecodeTable(table).Some?
    ensures r.Err? <==> HasNull(table)
    ensures r.Ok? ==> Halves(DecodeTable(table).value, r.value.src, r.value.dest)
    ensures r.Ok? ==> Aligned(r.value.src, r.value.dest)
  {
    var halves :- SplitTable(table);
    Ok(SrcDestPair(halves.0, halves.1, OptionsOf(table, defaultOptions)))
  }

  /** The pairs built from a list of configured tables, one per table in
      order; the first table whose split throws ends the construction. */
  function OptionPairs(tables: seq<Value>, defaultOptions: Value): Result<seq<SrcDestPair>>
    requires forall t <- tables :: DecodeTable(t).Some?
  {
    Collect(seq(|tables|, i requires 0 <= i < |tables| => OptionPair(tables[i], defaultOptions)))
  }

  /** Building the pairs succeeds exactly when no configured table holds a
      `null`; then there is one pair per table, in order, made of the
      table's halves (so aligned) with its options or the defaults. */
  lemma OptionPairsOnePerTable(tables: seq<Value>, defaultOptions: Value)
    requires forall t <- tables :: DecodeTable(t).Some?
    ensures var r := OptionPairs(tables, defaultOptions);
      && (r.Ok? <==> forall i | 0 <= i < |tables| :: !HasNull(tables[i]))
      && (r.Ok? ==> |r.value| == |tables| && forall i | 0 <= i < |tables| ::
            && Halves(DecodeTable(tables[i]).value, r.value[i].src, r.value[i].dest)
            && Aligned(r.value[i].src, r.value[i].dest)
            && r.value[i].options == OptionsOf(tables[i], defaultOptions))
  {
    var rs := seq(|tables|, i requires 0 <= i < |tables| => OptionPair(tables[i], defaultOptions));
    var r := Collect(rs);
    forall i | 0 <= i < |tables|
      ensures rs[i].Ok? <==> !HasNull(tables[i])
    {
      assert rs[i] == OptionPair(tables[i], defaultOptions);
    }
    if r.Ok? {
      forall i | 0 <= i < |tables|
        ensures Halves(DecodeTable(tables[i]).value, r.value[i].src, r.value[i].dest)
        ensures Aligned(r.value[i].src, r.value[i].dest)
        ensures r.value[i].options == OptionsOf(tables[i], defaultOptions)
      {
        assert rs[i] == OptionPair(tables[i], defaultOptions) == Ok(r.value[i]);
      }
    }
  }

  /** A failure reports the first table holding a `null`. */
  lemma OptionPairsFirstNull(tables: seq<Value>, defaultOptions: Value)
    requires forall t <- tables :: DecodeTable(t).Some?
    ensures var r := OptionPairs(tables, defaultOptions);
      r.Err? ==> exists i | 0 <= i < |tables| ::
        && HasNull(tables[i]) && (forall j | 0 <= j < i :: !HasNull(tables[j]))
        && r.error == OptionPair(tables[i], defaultOptions).error
  {
    var rs := seq(|tables|, i requires 0 <= i < |tables| => OptionPair(tables[i], defaultOptions));
    var r := Collect(rs);
    if r.Err? {
      var i := FirstError(rs);
      assert rs[i] == OptionPair(tables[i], defaultOptions);
      forall j | 0 <= j < i ensures !HasNull(tables[j]) {
        assert rs[j] == OptionPair(tables[j], defaultOptions);
      }
    }
  }

  /** The position of the error `Collect` reports. */
  lemma FirstError<T>(rs: seq<Result<T>>) returns (i: nat)
    requires Collect(rs).Err?
    ensures i < |rs| && rs[i] == Err(Collect(rs).error) && forall j | 0 <= j < i :: rs[j].Ok?
  {
    i :| 0 <= i < |rs| && rs[i] == Err(Collect(rs).error) && forall j | 0 <= j < i :: rs[j].Ok?;
  }
}
