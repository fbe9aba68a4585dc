/** `_bmad/scripts/config_utils.py`: the recursive merge of tables, and layering as a fold. */
module ConfigLayers {
  import opened ConfigMerge

  // ---------- The merge ----------

  function Put(t: Value, key: string, v: Value): Value
    requires t.Table?
  {
    Table(if key in t.at then t.keys else t.keys + [key], t.at[key := v])
  }

  /** Tables merge recursively, arrays by `MergeArrays`; anything else is overridden. */
  function Merge(base: Value, over: Value): Result<Value>
    decreases over, 1, 0
  {
    if base.Table? && over.Table? then MergeFields(base, over, |over.keys|)
    else if base.Array? && over.Array? then
      match MergeArrays(base.items, over.items)
      case Err(e) => Err(e)
      case Ok(items) => Ok(Array(items))
    else Ok(over)
  }

  /** The table after the first `n` override fields, taken in the override's order. */
  function MergeFields(base: Value, over: Value, n: nat): Result<Value>
    requires base.Table? && over.Table? && n <= |over.keys|
    ensures MergeFields(base, over, n).Ok? ==> MergeFields(base, over, n).value.Table?
    decreases over, 0, n
  {
    if n == 0 then Ok(base)
    else
      match MergeFields(base, over, n - 1)
      case Err(e) => Err(e)
      case Ok(result) =>
        var key := over.keys[n - 1];
        if key !in over.at then Ok(result)
        else if key in result.at then
          match Merge(result.at[key], over.at[key])
          case Err(e) => Err(e)
          case Ok(v) => Ok(Put(result, key, v))
        else Ok(Put(result, key, over.at[key]))
  }

  /** `structural_merge`: a loop over the override's fields that recurses on shared keys. */
  method StructuralMerge(base: Value, over: Value) returns (r: Result<Value>)
    requires WellFormed(over)
    ensures r == Merge(base, over)
    decreases over
  {
    if base.Table? && over.Table? {
      var result := base;
      for i := 0 to |over.keys|
        invariant result.Table? && MergeFields(base, over, i) == Ok(result)
      {
        var key, value := over.keys[i], over.at[over.keys[i]];
        if key in result.at {
          var merged := StructuralMerge(result.at[key], value);
          if merged.Err? {
            FieldErrorSticks(base, over, i + 1, |over.keys|);
            return merged;
          }
          value := merged.value;
        }
        result := Put(result, key, value);
      }
      return Ok(result);
    }
    if base.Array? && over.Array? {
      var items := MergeArraysLoop(base.items, over.items);
      return match items case Err(e) => Err(e) case Ok(xs) => Ok(Array(xs));
    }
    r := Ok(over);
  }

  lemma {:induction false} FieldErrorSticks(base: Value, over: Value, n: nat, m: nat)
    requires base.Table? && over.Table? && n <= m <= |over.keys|
    requires MergeFields(base, over, n).Err?
    ensures MergeFields(base, over, m) == MergeFields(base, over, n)
  {
    if n < m {
      FieldErrorSticks(base, over, n, m - 1);
    }
  }

  function MergeLayersFrom(merged: Value, layers: seq<Value>): Result<Value>
    decreases |layers|
  {
    if layers == [] then Ok(merged)
    else
      match Merge(merged, layers[0])
      case Err(e) => Err(e)
      case Ok(m) => MergeLayersFrom(m, layers[1..])
  }

  /** `merge_layers`: folds the layers onto the empty table. */
  method MergeLayers(layers: seq<Value>) returns (r: Result<Value>)
    requires forall l :: l in layers ==> WellFormed(l)
    ensures r == MergeLayersFrom(EMPTY, layers)
  {
    var merged := EMPTY;
    for i := 0 to |layers|
      invariant MergeLayersFrom(EMPTY, layers) == MergeLayersFrom(merged, layers[i..])
    {
      assert layers[i..][0] == layers[i] && layers[i..][1..] == layers[i + 1..];
      var m := StructuralMerge(merged, layers[i]);
      if m.Err? {
        return m;
      }
      merged := m.value;
    }
    r := Ok(merged);
  }
}
