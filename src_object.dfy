/** The path language that reads values out of a source document
    (`SrcObject`): "." or "" for the value itself, 'quoted' literals,
    "a.b.c" navigation, "../x" for the enclosing context, "x?y" fallback,
    and distribution over arrays. */
module SrcObjects {
  import opened Strings
  import opened JsValues

  /** A value together with the context it was reached from. Nothing in the
      source updates a context after construction, so it is a value here. */
  datatype SrcObject = SrcObject(src: Value, parent: Option<SrcObject>) {
    /** `isRoot`: there is no enclosing context. */
    predicate IsRoot() {
      parent.None?
    }
  }

  /** The characters the source's `\w`, `\d`, `-` and `\s` class admits
      between the quotes of a literal (JavaScript's `\s` set). */
  predicate IsSpace(c: char) {
    c == ' ' || '\t' <= c <= '\r' || c == '\U{a0}' || c == '\U{1680}'
    || '\U{2000}' <= c <= '\U{200a}' || c == '\U{2028}' || c == '\U{2029}'
    || c == '\U{202f}' || c == '\U{205f}' || c == '\U{3000}' || c == '\U{feff}'
  }

  predicate LiteralChar(c: char) {
    'a' <= c <= 'z' || 'A' <= c <= 'Z' || '0' <= c <= '9' || c == '_' || c == '-' || IsSpace(c)
  }

  /** A quote at `i`, a quote at `j`, and at least one literal character
      and nothing else between them. */
  predicate QuotedAt(s: string, i: int, j: int) {
    0 <= i && i + 1 < j < |s| && s[i] == '\'' && s[j] == '\''
    && forall k | i < k < j :: LiteralChar(s[k])
  }

  /** The unanchored match of `/'[\w\d-\s]+'/`: the pattern occurs anywhere. */
  predicate IsQuotedLiteral(s: string) {
    exists i, j | 0 <= i < j < |s| :: QuotedAt(s, i, j)
  }

  /** The length of the longest string of a list. */
  function MaxLength(ss: seq<string>): (m: nat)
    ensures forall i | 0 <= i < |ss| :: |ss[i]| <= m
  {
    if |ss| == 0 then 0
    else
      var rest := MaxLength(ss[1..]);
      assert forall i | 1 <= i < |ss| :: ss[i] == ss[1..][i - 1];
      if |ss[0]| < rest then rest else |ss[0]|
  }

  /** A list whose strings are all at most `n` long has a maximum of at most `n`. */
  lemma {:induction false} MaxLengthBound(ss: seq<string>, n: nat)
    requires forall t <- ss :: |t| <= n
    ensures MaxLength(ss) <= n
  {
    if |ss| > 0 {
      MaxLengthBound(ss[1..], n);
    }
  }

  /** The tail of a navigation path is shorter than the path. */
  lemma NavigationTail(prop: string)
    requires |Split(prop, ".")| > 1
    ensures |Join(Split(prop, ".")[1..], ".")| < |prop|
  {
    var tokens := Split(prop, ".");
    JoinSplit(prop, ".");
    assert Join(tokens, ".") == tokens[0] + "." + Join(tokens[1..], ".");
  }

  /** `getPropertyValue`: on an array context, the path is resolved against
      every element (each in a context whose parent is the array context's
      parent) and the results kept in order; otherwise the `?`-separated
      alternatives are tried in turn. */
  function GetPropertyValue(ctx: SrcObject, property: string): (r: Result<Value>)
    decreases |property|, ctx.src, 2, 0
  {
    match ctx.src
    case Arr(items) =>
      var results := seq(|items|, i requires 0 <= i < |items| =>
                         GetPropertyValue(SrcObject(items[i], ctx.parent), property));
      var values :- Collect(results);
      Ok(Arr(values))
    case _ =>
      var tokens := Split(property, "?");
      MaxLengthBound(tokens, |property|);
      FirstDefined(ctx, tokens)
  }

  /** The `?` loop: the first alternative that is not undefined, or the last
      one's value (undefined) when none is. */
  function FirstDefined(ctx: SrcObject, tokens: seq<string>): (r: Result<Value>)
    requires |tokens| > 0
    decreases MaxLength(tokens), ctx.src, 1, |tokens|
  {
    var v :- Alternative(ctx, tokens[0]);
    if v != Undefined || |tokens| == 1 then Ok(v)
    else FirstDefined(ctx, tokens[1..])
  }

  /** `_getPropertyValue`: one alternative of a path. */
  function Alternative(ctx: SrcObject, prop: string): (r: Result<Value>)
    decreases |prop|, ctx.src, 0, 0
  {
    if prop == "." || prop == "" then Ok(ctx.src)
    else if IsQuotedLiteral(prop) then Ok(Str(RemoveAll(prop, '\'')))
    else if StartsWith(prop, "../") then
      match ctx.parent
      case Some(parent) => GetPropertyValue(parent, prop[3..])
      case None => Ok(Null)
    else
      var tokens := Split(prop, ".");
      if |tokens| > 1 then
        var child :- Get(ctx.src, tokens[0]);
        NavigationTail(prop);
        GetPropertyValue(SrcObject(child, Some(ctx)), Join(tokens[1..], "."))
      else Get(ctx.src, prop)
  }

  /** The `getPropertyValue` loops as the source writes them: results pushed
      one element at a time, and an early return from the `?` loop. */
  method ResolvePath(ctx: SrcObject, property: string) returns (r: Result<Value>)
    ensures r == GetPropertyValue(ctx, property)
    decreases ctx.src
  {
    if ctx.src.Arr? {
      var items := ctx.src.items;
      ghost var results := seq(|items|, i requires 0 <= i < |items| =>
                               GetPropertyValue(SrcObject(items[i], ctx.parent), property));
      var values: seq<Value> := [];
      var i := 0;
      while i < |items|
        invariant 0 <= i <= |items| && |values| == i
        invariant forall j | 0 <= j < i :: results[j] == Ok(values[j])
      {
        var value := ResolvePath(SrcObject(items[i], ctx.parent), property);
        if value.Err? {
          CollectFirstError(results, i);
          return Err(value.error);
        }
        values := values + [value.value];
        i := i + 1;
      }
      var collected := Collect(results);
      assert collected.Ok?;
      assert forall j | 0 <= j < |items| :: collected.value[j] == values[j];
      assert collected.value == values;
      return Ok(Arr(values));
    }
    var tokens := Split(property, "?");
    var value := Null;
    var k := 0;
    while k < |tokens|
      invariant 0 <= k <= |tokens|
      invariant k < |tokens| ==> GetPropertyValue(ctx, property) == FirstDefined(ctx, tokens[k..])
      invariant k == |tokens| ==> GetPropertyValue(ctx, property) == Ok(value)
    {
      var v := Alternative(ctx, tokens[k]);
      if v.Err? {
        return Err(v.error);
      }
      value := v.value;
      if value != Undefined {
        return Ok(value);
      }
      assert tokens[k..][1..] == tokens[k + 1..];
      k := k + 1;
    }
    return Ok(value);
  }

  /** On an array context the result is an array of the same length whose
      elements are the paths resolved against the elements, in order, each in
      a context whose parent is the array context's parent; it fails exactly
      when one of them fails. */
  lemma ArrayDistributes(items: seq<Value>, parent: Option<SrcObject>, property: string)
    ensures var r := GetPropertyValue(SrcObject(Arr(items), parent), property);
      && (r.Ok? <==> forall i | 0 <= i < |items| :: GetPropertyValue(SrcObject(items[i], parent), property).Ok?)
      && (r.Ok? ==>
            && r.value.Arr? && |r.value.items| == |items|
            && forall i | 0 <= i < |items| :: GetPropertyValue(SrcObject(items[i], parent), property) == Ok(r.value.items[i]))
  {
    var results := seq(|items|, i requires 0 <= i < |items| => GetPropertyValue(SrcObject(items[i], parent), property));
    assert forall i | 0 <= i < |items| :: results[i] == GetPropertyValue(SrcObject(items[i], parent), property);
    assert GetPropertyValue(SrcObject(Arr(items), parent), property) ==
      if Collect(results).Ok? then Ok(Arr(Collect(results).value)) else Err(Collect(results).error);
  }

  /** "." and "" give back the context value, whatever it is: on an array the
      distribution rebuilds the same array. */
  lemma {:induction false} IdentityPath(v: Value, parent: Option<SrcObject>)
    ensures GetPropertyValue(SrcObject(v, parent), ".") == Ok(v)
    ensures GetPropertyValue(SrcObject(v, parent), "") == Ok(v)
  {
    match v
    case Arr(items) =>
      forall i | 0 <= i < |items|
        ensures GetPropertyValue(SrcObject(items[i], parent), ".") == Ok(items[i])
        ensures GetPropertyValue(SrcObject(items[i], parent), "") == Ok(items[i])
      {
        IdentityPath(items[i], parent);
      }
      ArrayDistributes(items, parent, ".");
      ArrayDistributes(items, parent, "");
      var r := GetPropertyValue(SrcObject(v, parent), ".");
      assert r.value.items == items;
      var r' := GetPropertyValue(SrcObject(v, parent), "");
      assert r'.value.items == items;
    case _ =>
      SingleAlternative(SrcObject(v, parent), ".");
      SingleAlternative(SrcObject(v, parent), "");
  }

  /** A path without `?` is a single alternative. */
  lemma SingleAlternative(ctx: SrcObject, prop: string)
    requires !ctx.src.Arr? && '?' !in prop
    ensures GetPropertyValue(ctx, prop) == Alternative(ctx, prop)
  {
    SplitNoChar(prop, '?');
  }

  /** A quoted literal is the literal text with every quote removed,
      whatever the (non-array) context holds. */
  lemma LiteralPath(ctx: SrcObject, lit: string)
    requires !ctx.src.Arr? && IsQuotedLiteral(lit) && '?' !in lit
    ensures GetPropertyValue(ctx, lit) == Ok(Str(RemoveAll(lit, '\'')))
  {
    SingleAlternative(ctx, lit);
  }

  /** On an array of non-array values, a literal is repeated once per element. */
  lemma LiteralOnArray(items: seq<Value>, parent: Option<SrcObject>, lit: string)
    requires forall i | 0 <= i < |items| :: !items[i].Arr?
    requires IsQuotedLiteral(lit) && '?' !in lit
    ensures GetPropertyValue(SrcObject(Arr(items), parent), lit)
         == Ok(Arr(seq(|items|, i => Str(RemoveAll(lit, '\'')))))
  {
    forall i | 0 <= i < |items|
      ensures GetPropertyValue(SrcObject(items[i], parent), lit) == Ok(Str(RemoveAll(lit, '\'')))
    {
      LiteralPath(SrcObject(items[i], parent), lit);
    }
    ArrayDistributes(items, parent, lit);
    var r := GetPropertyValue(SrcObject(Arr(items), parent), lit);
    assert r.value.items == seq(|items|, i => Str(RemoveAll(lit, '\'')));
  }

  /** "../x" resolves x against the enclosing context, or is null at the root. */
  lemma ParentPath(ctx: SrcObject, x: string)
    requires !ctx.src.Arr? && '?' !in x && !IsQuotedLiteral("../" + x)
    ensures GetPropertyValue(ctx, "../" + x) ==
      if ctx.IsRoot() then Ok(Null) else GetPropertyValue(ctx.parent.value, x)
  {
    assert StartsWith("../" + x, "../") && ("../" + x)[3..] == x;
    SingleAlternative(ctx, "../" + x);
  }

  /** "a.rest" reads field `a` of the context value and resolves `rest`
      against it, in a context whose parent is the current one. */
  lemma NavigatePath(ctx: SrcObject, a: string, rest: string)
    requires !ctx.src.Arr? && |a| > 0 && '.' !in a && '?' !in a && '?' !in rest
    requires !IsQuotedLiteral(a + "." + rest) && !StartsWith(a + "." + rest, "../")
    ensures GetPropertyValue(ctx, a + "." + rest) ==
      if Get(ctx.src, a).Err? then Err(Get(ctx.src, a).error)
      else GetPropertyValue(SrcObject(Get(ctx.src, a).value, Some(ctx)), rest)
  {
    var prop := a + "." + rest;
    assert '?' !in prop;
    SingleAlternative(ctx, prop);
    SplitAtChar(a, '.', rest);
    JoinSplit(rest, ".");
    assert Split(prop, ".")[1..] == Split(rest, ".");
  }

  /** A single plain segment is the property read `value[segment]`. */
  lemma SegmentPath(ctx: SrcObject, name: string)
    requires !ctx.src.Arr? && |name| > 0 && '.' !in name && '?' !in name && !IsQuotedLiteral(name)
    ensures GetPropertyValue(ctx, name) == Get(ctx.src, name)
  {
    SingleAlternative(ctx, name);
    SplitNoChar(name, '.');
    assert name[0] != '.';
    assert !StartsWith(name, "../");
    assert name != "." && name != "";
    assert Alternative(ctx, name) == Get(ctx.src, name);
  }

  /** In "first?rest", an alternative that is anything but undefined (null
      included, and errors) decides the result. */
  lemma FallbackStops(ctx: SrcObject, first: string, rest: string)
    requires !ctx.src.Arr? && '?' !in first
    requires Alternative(ctx, first) != Ok(Undefined)
    ensures GetPropertyValue(ctx, first + "?" + rest) == Alternative(ctx, first)
  {
    SplitAtChar(first, '?', rest);
  }

  /** In "first?rest", an undefined first alternative hands over to `rest`. */
  lemma FallbackSkips(ctx: SrcObject, first: string, rest: string)
    requires !ctx.src.Arr? && '?' !in first
    requires Alternative(ctx, first) == Ok(Undefined)
    ensures GetPropertyValue(ctx, first + "?" + rest) == GetPropertyValue(ctx, rest)
  {
    SplitAtChar(first, '?', rest);
    var tokens := Split(first + "?" + rest, "?");
    assert tokens[1..] == Split(rest, "?");
  }

  /** The result is undefined exactly when every alternative is undefined:
      the loop's initial null is never returned. */
  lemma AllUndefined(ctx: SrcObject, property: string)
    requires !ctx.src.Arr?
    ensures GetPropertyValue(ctx, property) == Ok(Undefined) <==>
      forall t <- Split(property, "?") :: Alternative(ctx, t) == Ok(Undefined)
  {
    FirstDefinedUndefined(ctx, Split(property, "?"));
  }

  lemma {:induction false} FirstDefinedUndefined(ctx: SrcObject, tokens: seq<string>)
    requires |tokens| > 0
    ensures FirstDefined(ctx, tokens) == Ok(Undefined) <==>
      forall t <- tokens :: Alternative(ctx, t) == Ok(Undefined)
  {
    assert tokens[0] in tokens;
    assert forall t <- tokens :: t == tokens[0] || t in tokens[1..];
    if |tokens| > 1 && Alternative(ctx, tokens[0]) == Ok(Undefined) {
      FirstDefinedUndefined(ctx, tokens[1..]);
    }
  }

  /** The fallback on a document: "a?b" is null when `a` holds null... */
  lemma FallbackNullStops(b: Value)
    ensures GetPropertyValue(SrcObject(Obj(map["a" := Null, "b" := b]), None), "a?b") == Ok(Null)
  {
    var doc := SrcObject(Obj(map["a" := Null, "b" := b]), None);
    assert "a" + "?" + "b" == "a?b";
    NotQuoted("a");
    SegmentPath(doc, "a");
    FallbackStops(doc, "a", "b");
  }

  /** ... and the value of `b` when `a` is missing. */
  lemma FallbackMissingSkips(b: Value)
    ensures GetPropertyValue(SrcObject(Obj(map["b" := b]), None), "a?b") == Ok(b)
  {
    var doc := SrcObject(Obj(map["b" := b]), None);
    assert "a" + "?" + "b" == "a?b";
    NotQuoted("a");
    NotQuoted("b");
    SegmentPath(doc, "a");
    FallbackSkips(doc, "a", "b");
    SegmentPath(doc, "b");
  }

  lemma NotQuoted(s: string)
    requires '\'' !in s
    ensures !IsQuotedLiteral(s)
  {
  }
}
