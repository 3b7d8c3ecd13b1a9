/** The JavaScript values that flow through the core: mapping
    configurations, source documents, change events and resolved paths.
    `undefined` and `null` are distinct, because the `?` fallback of the
    path language stops on `null` but not on `undefined`. */
module JsValues {
  import opened Strings

  datatype Value =
    | Undefined
    | Null
    | Bool(b: bool)
    | Num(n: real)        // a finite number other than NaN
    | NaN
    | Str(s: string)
    | Arr(items: seq<Value>)
    | Obj(fields: map<string, Value>)

  /** The exceptions the core can raise. */
  datatype Error =
    | CannotReadProperty(key: string)   // `x[key]` with x null or undefined
    | CannotConvertNull                 // `Object.entries(null)`
    | Database(code: int)               // a call into the relational store failed

  datatype Result<+T> = Ok(value: T) | Err(error: Error) {
    predicate IsFailure() { Err? }
    function PropagateFailure<U>(): Result<U>
      requires Err?
    {
      Err(error)
    }
    function Extract(): T
      requires Ok?
    {
      value
    }
  }

  datatype Option<+T> = None | Some(value: T)

  /** All results in order, or the first error (a loop that throws at the
      first failing element). */
  function Collect<T>(rs: seq<Result<T>>): (r: Result<seq<T>>)
    ensures r.Ok? <==> forall i | 0 <= i < |rs| :: rs[i].Ok?
    ensures r.Ok? ==> |r.value| == |rs| && forall i | 0 <= i < |rs| :: rs[i] == Ok(r.value[i])
    ensures r.Err? ==> exists i | 0 <= i < |rs| :: rs[i] == Err(r.error) && forall j | 0 <= j < i :: rs[j].Ok?
  {
    if |rs| == 0 then Ok([])
    else if rs[0].Err? then Err(rs[0].error)
    else
      match Collect(rs[1..])
      case Err(e) =>
        var i :| 0 <= i < |rs[1..]| && rs[1..][i] == Err(e) && forall j | 0 <= j < i :: rs[1..][j].Ok?;
        assert rs[i + 1] == Err(e) && forall j | 0 <= j < i + 1 :: rs[j].Ok?;
        Err(e)
      case Ok(rest) => Ok([rs[0].value] + rest)
  }

  /** The first error is the one reported. */
  lemma {:induction false} CollectFirstError<T>(rs: seq<Result<T>>, i: nat)
    requires i < |rs| && rs[i].Err? && forall j | 0 <= j < i :: rs[j].Ok?
    ensures Collect(rs) == Err(rs[i].error)
  {
    if i > 0 {
      CollectFirstError(rs[1..], i - 1);
    }
  }

  /** Results that are all `Ok` collect to their values. */
  lemma CollectAll<T>(rs: seq<Result<T>>, vs: seq<T>)
    requires |rs| == |vs| && forall k | 0 <= k < |rs| :: rs[k] == Ok(vs[k])
    ensures Collect(rs) == Ok(vs)
  {
    var c := Collect(rs);
    assert c.Ok?;
    assert forall k | 0 <= k < |rs| :: c.value[k] == vs[k];
    assert c.value == vs;
  }

  /** Collecting one more result after a prefix. */
  lemma CollectPush<T>(rs: seq<Result<T>>, i: nat)
    requires i < |rs| && Collect(rs[..i]).Ok? && rs[i].Ok?
    ensures Collect(rs[..i + 1]) == Ok(Collect(rs[..i]).value + [rs[i].value])
  {
    assert rs[..i + 1] == rs[..i] + [rs[i]];
    CollectAppend(rs[..i], [rs[i]]);
    assert [rs[i]][1..] == [];
    assert Collect([rs[i]][1..]) == Ok([]);
    assert [rs[i].value] + [] == [rs[i].value];
    assert Collect([rs[i]]) == Ok([rs[i].value]);
  }

  /** A failure right after a successful prefix is the collected error. */
  lemma CollectAt<T>(rs: seq<Result<T>>, i: nat)
    requires i < |rs| && Collect(rs[..i]).Ok? && rs[i].Err?
    ensures Collect(rs) == Err(rs[i].error)
  {
    assert rs == rs[..i] + rs[i..];
    CollectAppend(rs[..i], rs[i..]);
    assert rs[i..][0] == rs[i];
    assert Collect(rs[i..]) == Err(rs[i].error);
  }

  /** Collecting a concatenation: the first part's error, else the second
      part's error, else both parts' values in order. */
  lemma {:induction false} CollectAppend<T>(a: seq<Result<T>>, b: seq<Result<T>>)
    ensures Collect(a + b) ==
      if Collect(a).Err? then Collect(a)
      else if Collect(b).Err? then Collect(b)
      else Ok(Collect(a).value + Collect(b).value)
  {
    if |a| > 0 {
      assert (a + b)[0] == a[0];
      assert (a + b)[1..] == a[1..] + b;
      CollectAppend(a[1..], b);
      if a[0].Ok? && Collect(a[1..]).Ok? && Collect(b).Ok? {
        var x, r1, r2 := a[0].value, Collect(a[1..]).value, Collect(b).value;
        assert [x] + (r1 + r2) == ([x] + r1) + r2;
      }
    } else {
      assert a + b == b;
      if Collect(b).Ok? {
        assert [] + Collect(b).value == Collect(b).value;
      }
    }
  }

  /** JavaScript truthiness (`if (v)`, `v || d`, `!v`). */
  predicate Truthy(v: Value) {
    match v
    case Undefined => false
    case Null => false
    case NaN => false
    case Bool(b) => b
    case Num(n) => n != 0.0
    case Str(s) => s != ""
    case Arr(_) => true
    case Obj(_) => true
  }

  /** A canonical array index ("0", "17", never "07"), as JavaScript reads a
      property name on an array or string. */
  function ArrayIndex(key: string): (r: Option<nat>)
    ensures r.Some? ==> NatToString(r.value) == key
  {
    if |key| == 0 || (|key| > 1 && key[0] == '0') then None
    else DigitsValue(key)
  }

  function DigitsValue(key: string): (r: Option<nat>)
    requires |key| > 0
    requires |key| > 1 ==> key[0] != '0'
    ensures r.Some? ==> NatToString(r.value) == key
    decreases |key|
  {
    var last := key[|key| - 1];
    if !('0' <= last <= '9') then None
    else
      var d := (last as int) - ('0' as int);
      assert "0123456789"[d] == last;
      if |key| == 1 then Some(d)
      else
        match DigitsValue(key[..|key| - 1])
        case None => None
        case Some(high) =>
          assert (high * 10 + d) / 10 == high && (high * 10 + d) % 10 == d;
          assert key == key[..|key| - 1] + [last];
          Some(high * 10 + d)
  }

  /** The property read `v[key]`: a TypeError on null and undefined, an own
      field of an object, an element or the length of an array or string,
      and undefined on any other primitive. */
  function Get(v: Value, key: string): (r: Result<Value>)
    ensures r.Err? <==> v == Undefined || v == Null
    ensures v.Obj? ==> r == Ok(if key in v.fields then v.fields[key] else Undefined)
  {
    match v
    case Undefined => Err(CannotReadProperty(key))
    case Null => Err(CannotReadProperty(key))
    case Obj(fields) => Ok(if key in fields then fields[key] else Undefined)
    case Arr(items) =>
      if key == "length" then Ok(Num(|items| as real))
      else
        var i := ArrayIndex(key);
        Ok(if i.Some? && i.value < |items| then items[i.value] else Undefined)
    case Str(s) =>
      if key == "length" then Ok(Num(|s| as real))
      else
        var i := ArrayIndex(key);
        Ok(if i.Some? && i.value < |s| then Str([s[i.value]]) else Undefined)
    case _ => Ok(Undefined)
  }

  /** Whether `v` holds a `null` anywhere inside it (where `Object.entries`
      would be applied to it by a generic recursion). */
  predicate HasNull(v: Value) {
    match v
    case Null => true
    case Arr(items) => exists i | 0 <= i < |items| :: HasNull(items[i])
    case Obj(fields) => exists k | k in fields :: HasNull(fields[k])
    case _ => false
  }
}
