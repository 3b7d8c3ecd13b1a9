/** `SyncPairs`: an array of source/destination pairs built from the
    configured tables and the default options. */
module SyncPairing {
  import opened JsValues
  import opened PairsCommon

  class SyncPairs {
    var pairs: seq<SrcDestPair>

    constructor Empty()
      ensures pairs == []
    {
      pairs := [];
    }

    /** `this.push(pair)`. */
    method Push(pair: SrcDestPair)
      modifies this
      ensures pairs == old(pairs) + [pair]
    {
      pairs := pairs + [pair];
    }

    /** The constructor: for each configured table in order, its halves
        and its options (or the defaults) are pushed; a table whose split
        throws ends the construction with that error. */
    static method Build(tables: seq<Value>, defaultOptions: Value) returns (r: Result<SyncPairs>)
      requires forall t <- tables :: DecodeTable(t).Some?
      ensures r.Ok? ==> fresh(r.value) && OptionPairs(tables, defaultOptions) == Ok(r.value.pairs)
      ensures r.Err? ==> OptionPairs(tables, defaultOptions) == Err(r.error)
    {
      ghost var rs := seq(|tables|, i requires 0 <= i < |tables| => OptionPair(tables[i], defaultOptions));
      assert OptionPairs(tables, defaultOptions) == Collect(rs);
      var result := new SyncPairs.Empty();
      for i := 0 to |tables|
        invariant fresh(result)
        invariant Collect(rs[..i]) == Ok(result.pairs)
      {
        var pair := OptionPair(tables[i], defaultOptions);
        assert rs[i] == pair;
        if pair.Err? {
          CollectAt(rs, i);
          return Err(pair.error);
        }
        CollectPush(rs, i);
        result.Push(pair.value);
      }
      assert rs[..|tables|] == rs;
      return Ok(result);
    }
  }
}
