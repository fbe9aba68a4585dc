/** `_bmad/scripts/config_utils.py`: strict structural merging of configuration layers. */
module ConfigMerge {
  import opened Common

  // ---------- Data ----------

  /** A parsed configuration value. `Atom` is any scalar that is not a string. A table keeps its
      keys in insertion order. */
  datatype Value =
    | Text(text: string)
    | Atom(atom: nat)
    | Table(keys: seq<string>, at: map<string, Value>)
    | Array(items: seq<Value>)

  datatype ConfigError = NotAString(field: string) | EmptyIdentifier(field: string)

  datatype Result<+T> = Ok(value: T) | Err(error: ConfigError)

  const EMPTY: Value := Table([], map[])

  /** What the loader yields: each key listed once, at every depth. */
  ghost predicate WellFormed(v: Value) {
    v.Table? ==>
      && Distinct(v.keys)
      && (forall k :: k in v.keys <==> k in v.at)
      && forall k :: k in v.at ==> WellFormed(v.at[k])
  }

  // ---------- Keyed arrays ----------

  /** How two arrays merge: appended, or by the identity each item holds in one field. */
  datatype Mode = Plain | Keyed(field: string)

  predicate AllCarry(items: seq<Value>, field: string) {
    forall x :: x in items ==> x.Table? && field in x.at
  }

  /** The first item whose identifier is not a non-empty string makes the merge fail. */
  function CheckIdentifiers(items: seq<Value>, field: string): Result<Mode>
    requires AllCarry(items, field)
  {
    if items == [] then Ok(Keyed(field))
    else if !items[0].at[field].Text? then Err(NotAString(field))
    else if items[0].at[field].text == "" then Err(EmptyIdentifier(field))
    else CheckIdentifiers(items[1..], field)
  }

  function Detect(items: seq<Value>): Result<Mode> {
    if items == [] || !(forall x :: x in items ==> x.Table?) then Ok(Plain)
    else if AllCarry(items, "code") then CheckIdentifiers(items, "code")
    else if AllCarry(items, "id") then CheckIdentifiers(items, "id")
    else Ok(Plain)
  }

  method CheckIdentifiersLoop(items: seq<Value>, field: string) returns (r: Result<Mode>)
    requires AllCarry(items, field)
    ensures r == CheckIdentifiers(items, field)
  {
    for i := 0 to |items|
      invariant CheckIdentifiers(items, field) == CheckIdentifiers(items[i..], field)
    {
      var value := items[i].at[field];
      assert items[i..][0] == items[i] && items[i..][1..] == items[i + 1..];
      if !value.Text? {
        return Err(NotAString(field));
      }
      if value.text == "" {
        return Err(EmptyIdentifier(field));
      }
    }
    r := Ok(Keyed(field));
  }

  method DetectKeyedMergeField(items: seq<Value>) returns (r: Result<Mode>)
    ensures r == Detect(items)
  {
    if items == [] || !(forall x :: x in items ==> x.Table?) {
      return Ok(Plain);
    }
    if AllCarry(items, "code") {
      r := CheckIdentifiersLoop(items, "code");
    } else if AllCarry(items, "id") {
      r := CheckIdentifiersLoop(items, "id");
    } else {
      r := Ok(Plain);
    }
  }

  predicate IsKeyed(items: seq<Value>, field: string) {
    forall x :: x in items ==> x.Table? && field in x.at && x.at[field].Text? && x.at[field].text != ""
  }

  lemma {:induction false} DetectKeyed(items: seq<Value>, field: string)
    requires AllCarry(items, field)
    ensures CheckIdentifiers(items, field) == Ok(Keyed(field)) <==> IsKeyed(items, field)
    ensures CheckIdentifiers(items, field).Ok? ==> CheckIdentifiers(items, field) == Ok(Keyed(field))
  {
    if items != [] {
      assert items == [items[0]] + items[1..];
      assert forall x :: x in items[1..] ==> x in items;
      DetectKeyed(items[1..], field);
    }
  }

  function Key(item: Value, field: string): string
    requires IsKeyed([item], field)
  {
    assert item in [item];
    item.at[field].text
  }

  /** The last position holding `key`, or -1. */
  function LastIndex(items: seq<Value>, field: string, key: string): (p: int)
    requires IsKeyed(items, field)
    ensures -1 <= p < |items|
    ensures 0 <= p ==> Key(items[p], field) == key
    ensures forall i :: p < i < |items| ==> Key(items[i], field) != key
  {
    if items == [] then -1
    else
      var n := |items| - 1;
      if Key(items[n], field) == key then n else LastIndex(items[..n], field, key)
  }

  /** One override item: in place of the last item with its key, or at the end. */
  function Upsert(items: seq<Value>, field: string, item: Value): (r: seq<Value>)
    requires IsKeyed(items, field) && IsKeyed([item], field)
    ensures IsKeyed(r, field)
  {
    var p := LastIndex(items, field, Key(item, field));
    assert item in [item];
    if p < 0 then items + [item] else items[p := item]
  }

  function UpsertAll(base: seq<Value>, field: string, over: seq<Value>): (r: seq<Value>)
    requires IsKeyed(base, field) && IsKeyed(over, field)
    ensures IsKeyed(r, field)
  {
    if over == [] then base
    else Upsert(UpsertAll(base, field, over[..|over| - 1]), field, over[|over| - 1])
  }

  function MergeArrays(base: seq<Value>, over: seq<Value>): Result<seq<Value>> {
    match Detect(base + over)
    case Err(e) => Err(e)
    case Ok(Plain) => Ok(base + over)
    case Ok(Keyed(field)) =>
      DetectedIsKeyed(base + over);
      assert IsKeyed(base, field) && IsKeyed(over, field) by {
        assert forall x :: x in base || x in over ==> x in base + over;
      }
      Ok(UpsertAll(base, field, over))
  }

  lemma DetectedIsKeyed(items: seq<Value>)
    requires Detect(items).Ok? && Detect(items).value.Keyed?
    ensures IsKeyed(items, Detect(items).value.field)
  {
    if AllCarry(items, "code") {
      DetectKeyed(items, "code");
    } else {
      DetectKeyed(items, "id");
    }
  }

  /** Every key of `items` is indexed by its last position, and nothing else is. */
  ghost predicate IndexesLast(index: map<string, nat>, items: seq<Value>, field: string)
    requires IsKeyed(items, field)
  {
    forall key: string ::
      && (key in index <==> 0 <= LastIndex(items, field, key))
      && (key in index ==> index[key] == LastIndex(items, field, key))
  }

  /** `_merge_arrays`: one pass over each array, with a map from key to position. */
  method MergeArraysLoop(base: seq<Value>, over: seq<Value>) returns (r: Result<seq<Value>>)
    ensures r == MergeArrays(base, over)
  {
    var mode := DetectKeyedMergeField(base + over);
    if mode.Err? {
      return Err(mode.error);
    }
    if mode.value.Plain? {
      return Ok(base + over);
    }
    var field := mode.value.field;
    DetectedIsKeyed(base + over);
    assert IsKeyed(base, field) && IsKeyed(over, field) by {
      assert forall x :: x in base || x in over ==> x in base + over;
    }
    var result, index := IndexBase(base, field);
    result := ApplyOverrides(result, index, field, over);
    r := Ok(result);
  }

  method IndexBase(base: seq<Value>, field: string) returns (result: seq<Value>, indexByKey: map<string, nat>)
    requires IsKeyed(base, field)
    ensures result == base && IndexesLast(indexByKey, base, field)
  {
    result := [];
    indexByKey := map[];
    for i := 0 to |base|
      invariant result == base[..i]
      invariant IndexesLast(indexByKey, result, field)
    {
      indexByKey := indexByKey[Key(base[i], field) := |result|];
      assert (result + [base[i]])[..i] == result;
      result := result + [base[i]];
    }
  }

  lemma UpsertBody(s: seq<Value>, field: string, c: Value)
    requires IsKeyed(s, field) && IsKeyed([c], field)
    ensures
      var p := LastIndex(s, field, Key(c, field));
      Upsert(s, field, c) == if p < 0 then s + [c] else s[p := c]
  {
  }

  /** What one override item does to the list and to its index. */
  lemma UpsertByIndex(items: seq<Value>, index: map<string, nat>, field: string, item: Value)
    requires IsKeyed(items, field) && IsKeyed([item], field) && IndexesLast(index, items, field)
    ensures
      var key := Key(item, field);
      && (key in index ==> index[key] < |items| && Upsert(items, field, item) == items[index[key] := item])
      && (key !in index ==> Upsert(items, field, item) == items + [item])
      && IndexesLast(if key in index then index else index[key := |items|], Upsert(items, field, item), field)
  {
    UpsertIndex(items, field, item);
    UpsertBody(items, field, item);
    hide LastIndex, IsKeyed, Key, Upsert;
    var key, r := Key(item, field), Upsert(items, field, item);
    assert key in index <==> 0 <= LastIndex(items, field, key);
    var index' := if key in index then index else index[key := |items|];
    forall k: string
      ensures (k in index' <==> 0 <= LastIndex(r, field, k)) && (k in index' ==> index'[k] == LastIndex(r, field, k))
    {
      assert k != key ==> LastIndex(r, field, k) == LastIndex(items, field, k);
      assert k in index <==> 0 <= LastIndex(items, field, k);
    }
  }

  method ApplyOverrides(base: seq<Value>, index: map<string, nat>, field: string, over: seq<Value>)
    returns (result: seq<Value>)
    requires IsKeyed(base, field) && IsKeyed(over, field) && IndexesLast(index, base, field)
    ensures result == UpsertAll(base, field, over)
  {
    result := base;
    var indexByKey: map<string, nat> := index;
    for j := 0 to |over|
      invariant IsKeyed(over[..j], field)
      invariant result == UpsertAll(base, field, over[..j])
      invariant IndexesLast(indexByKey, result, field)
    {
      KeyedItem(over, field, j);
      hide IsKeyed, IndexesLast, Upsert, Key;
      assert over[..j + 1][..j] == over[..j];
      UpsertByIndex(result, indexByKey, field, over[j]);
      var key := Key(over[j], field);
      if key in indexByKey {
        result := result[indexByKey[key] := over[j]];
      } else {
        indexByKey := indexByKey[key := |result|];
        result := result + [over[j]];
      }
    }
    assert over[..|over|] == over;
  }

  lemma KeyedItem(items: seq<Value>, field: string, j: nat)
    requires IsKeyed(items, field) && j < |items|
    ensures IsKeyed([items[j]], field) && IsKeyed(items[..j], field) && IsKeyed(items[..j + 1], field)
  {
  }

  /** Where keys stand after an upsert. */
  lemma UpsertIndex(items: seq<Value>, field: string, item: Value)
    requires IsKeyed(items, field) && IsKeyed([item], field)
    ensures
      var r, key := Upsert(items, field, item), Key(item, field);
      && (forall k :: k != key ==> LastIndex(r, field, k) == LastIndex(items, field, k))
      && LastIndex(r, field, key)
         == if LastIndex(items, field, key) < 0 then |items| else LastIndex(items, field, key)
  {
    var r, key := Upsert(items, field, item), Key(item, field);
    forall k
      ensures k != key ==> LastIndex(r, field, k) == LastIndex(items, field, k)
      ensures k == key ==> LastIndex(r, field, k)
                           == if LastIndex(items, field, key) < 0 then |items| else LastIndex(items, field, key)
    {
      var p := LastIndex(items, field, k);
      var q := LastIndex(items, field, key);
      var expected := if k != key then p else if q < 0 then |items| else q;
      LastIndexUnique(r, field, k, expected);
    }
  }

  lemma LastIndexUnique(items: seq<Value>, field: string, key: string, p: int)
    requires IsKeyed(items, field) && -1 <= p < |items|
    requires 0 <= p ==> Key(items[p], field) == key
    requires forall i :: p < i < |items| ==> Key(items[i], field) != key
    ensures LastIndex(items, field, key) == p
  {
  }

  // ---------- The keyed merge, said without loops ----------

  /** The override keys the base lacks, in order of first appearance. */
  function NewKeys(base: seq<Value>, field: string, over: seq<Value>): seq<string>
    requires IsKeyed(base, field) && IsKeyed(over, field)
  {
    if over == [] then []
    else
      var ks := NewKeys(base, field, over[..|over| - 1]);
      var key := Key(over[|over| - 1], field);
      if 0 <= LastIndex(base, field, key) || key in ks then ks else ks + [key]
  }

  /** `x` is the last override of `key`. */
  ghost predicate IsLastOverride(over: seq<Value>, field: string, key: string, x: Value)
    requires IsKeyed(over, field)
  {
    0 <= LastIndex(over, field, key) && x == over[LastIndex(over, field, key)]
  }

  /** What stands at base position `i`: the last override if this is where its key stands last. */
  ghost predicate BaseSlot(base: seq<Value>, field: string, over: seq<Value>, i: nat, x: Value)
    requires IsKeyed(base, field) && IsKeyed(over, field) && i < |base|
  {
    var k := Key(base[i], field);
    if i == LastIndex(base, field, k) && 0 <= LastIndex(over, field, k) then IsLastOverride(over, field, k, x)
    else x == base[i]
  }

  /** The base keeps its order; the last base item of an overridden key becomes that key's last
      override; new keys follow in order of first appearance, each with its last override. */
  ghost predicate IsKeyedMerge(base: seq<Value>, field: string, over: seq<Value>, r: seq<Value>)
    requires IsKeyed(base, field) && IsKeyed(over, field)
  {
    var ks := NewKeys(base, field, over);
    && |r| == |base| + |ks|
    && (forall i :: 0 <= i < |base| ==> BaseSlot(base, field, over, i, r[i]))
    && (forall j :: 0 <= j < |ks| ==> IsLastOverride(over, field, ks[j], r[|base| + j]))
  }

  lemma {:induction false} NewKeysAre(base: seq<Value>, field: string, over: seq<Value>)
    requires IsKeyed(base, field) && IsKeyed(over, field)
    ensures Distinct(NewKeys(base, field, over))
    ensures forall k :: k in NewKeys(base, field, over) <==>
              LastIndex(base, field, k) < 0 && 0 <= LastIndex(over, field, k)
  {
    if over != [] {
      NewKeysAre(base, field, over[..|over| - 1]);
    }
  }

  lemma {:induction false} UpsertAllIsKeyedMerge(base: seq<Value>, field: string, over: seq<Value>)
    requires IsKeyed(base, field) && IsKeyed(over, field)
    ensures IsKeyedMerge(base, field, over, UpsertAll(base, field, over))
  {
    if over != [] {
      hide IsKeyedMerge, LastIndex;
      var n := |over| - 1;
      UpsertAllIsKeyedMerge(base, field, over[..n]);
      assert over[..n] + [over[n]] == over;
      UpsertKeepsMerge(base, field, over[..n], UpsertAll(base, field, over[..n]), over[n]);
    }
  }

  /** What an upsert leaves at each position. */
  lemma UpsertSlots(r: seq<Value>, field: string, item: Value)
    requires IsKeyed(r, field) && IsKeyed([item], field)
    ensures
      var q, r' := LastIndex(r, field, Key(item, field)), Upsert(r, field, item);
      && |r'| == (if q < 0 then |r| + 1 else |r|) && (q < 0 ==> r'[|r|] == item)
      && forall i :: 0 <= i < |r| ==> r'[i] == if i == q then item else r[i]
  {
  }

  /** Where an overriding key stands in a keyed merge: in the base, among the new keys, or nowhere. */
  lemma MergePosition(base: seq<Value>, field: string, over: seq<Value>, r: seq<Value>, key: string)
    requires IsKeyed(base, field) && IsKeyed(over, field) && IsKeyed(r, field) && IsKeyedMerge(base, field, over, r)
    ensures
      var p, q, ks := LastIndex(base, field, key), LastIndex(r, field, key), NewKeys(base, field, over);
      && (0 <= p ==> q == p) && (p < 0 ==> q < 0 || |base| <= q)
      && (forall j :: 0 <= j < |ks| ==> (|base| + j == q <==> ks[j] == key))
      && (q < 0 <==> p < 0 && key !in ks)
  {
    KeyPosition(base, field, over, r, key);
    NewKeysAre(base, field, over);
    hide NewKeys, LastIndex, IsKeyed, Key;
    var p, q, ks := LastIndex(base, field, key), LastIndex(r, field, key), NewKeys(base, field, over);
    if key in ks {
      var m :| 0 <= m < |ks| && ks[m] == key;
      assert q == |base| + m && p < 0;
    }
  }

  lemma UpsertKeepsMerge(base: seq<Value>, field: string, over: seq<Value>, r: seq<Value>, item: Value)
    requires IsKeyed(base, field) && IsKeyed(over, field) && IsKeyed(r, field) && IsKeyed([item], field)
    requires IsKeyed(over + [item], field)
    requires IsKeyedMerge(base, field, over, r)
    ensures IsKeyedMerge(base, field, over + [item], Upsert(r, field, item))
  {
    var key, longer := Key(item, field), over + [item];
    MergePosition(base, field, over, r, key);
    UpsertSlots(r, field, item);
    NewKeysAppended(base, field, over, item);
    hide NewKeys, LastIndex, BaseSlot, IsLastOverride, IsKeyed, Key, Upsert;
    var r', ks' := Upsert(r, field, item), NewKeys(base, field, longer);
    forall i | 0 <= i < |base|
      ensures BaseSlot(base, field, longer, i, r'[i])
    {
      assert BaseSlot(base, field, over, i, r[i]);
      BaseSlotAppended(base, field, over, item, i, r[i]);
    }
    forall j | 0 <= j < |ks'|
      ensures IsLastOverride(longer, field, ks'[j], r'[|base| + j])
    {
      NewSlot(base, field, over, r, item, j);
    }
  }

  lemma NewSlot(base: seq<Value>, field: string, over: seq<Value>, r: seq<Value>, item: Value, j: nat)
    requires IsKeyed(base, field) && IsKeyed(over, field) && IsKeyed(r, field) && IsKeyed([item], field)
    requires IsKeyed(over + [item], field)
    requires IsKeyedMerge(base, field, over, r) && j < |NewKeys(base, field, over + [item])|
    ensures |base| + j < |Upsert(r, field, item)|
    ensures IsLastOverride(over + [item], field, NewKeys(base, field, over + [item])[j],
        Upsert(r, field, item)[|base| + j])
  {
    var key, ks := Key(item, field), NewKeys(base, field, over);
    MergePosition(base, field, over, r, key);
    UpsertSlots(r, field, item);
    NewKeysAppended(base, field, over, item);
    hide NewKeys, LastIndex, BaseSlot, IsLastOverride, IsKeyed, Key, Upsert;
    if j < |ks| {
      assert IsLastOverride(over, field, ks[j], r[|base| + j]);
      LastOverrideAppended(over, field, item, ks[j], r[|base| + j]);
    } else {
      LastOverrideAppended(over, field, item, key, item);
    }
  }

  lemma NewKeysAppended(base: seq<Value>, field: string, over: seq<Value>, item: Value)
    requires IsKeyed(base, field) && IsKeyed(over, field) && IsKeyed(over + [item], field) && IsKeyed([item], field)
    ensures
      var ks, key := NewKeys(base, field, over), Key(item, field);
      NewKeys(base, field, over + [item]) == if 0 <= LastIndex(base, field, key) || key in ks then ks else ks + [key]
  {
    assert (over + [item])[..|over|] == over;
  }

  lemma LastOverrideAppended(over: seq<Value>, field: string, item: Value, k: string, x: Value)
    requires IsKeyed(over, field) && IsKeyed([item], field)
    requires k == Key(item, field) || IsLastOverride(over, field, k, x)
    ensures IsKeyed(over + [item], field)
    ensures IsLastOverride(over + [item], field, k, if k == Key(item, field) then item else x)
  {
    LastIndexAppended(over, field, item);
    hide LastIndex;
  }

  lemma BaseSlotAppended(base: seq<Value>, field: string, over: seq<Value>, item: Value, i: nat, x: Value)
    requires IsKeyed(base, field) && IsKeyed(over, field) && IsKeyed([item], field) && i < |base|
    requires BaseSlot(base, field, over, i, x)
    ensures IsKeyed(over + [item], field)
    ensures BaseSlot(base, field, over + [item], i, if i == LastIndex(base, field, Key(item, field)) then item else x)
  {
    LastIndexAppended(over, field, item);
    hide LastIndex;
  }

  lemma LastIndexAppended(items: seq<Value>, field: string, item: Value)
    requires IsKeyed(items, field) && IsKeyed([item], field)
    ensures IsKeyed(items + [item], field)
    ensures forall k :: LastIndex(items + [item], field, k)
                     == if k == Key(item, field) then |items| else LastIndex(items, field, k)
  {
    assert item in [item];
    forall k
      ensures LastIndex(items + [item], field, k)
           == if k == Key(item, field) then |items| else LastIndex(items, field, k)
    {
      LastIndexUnique(items + [item], field, k, if k == Key(item, field) then |items| else LastIndex(items, field, k));
    }
  }

  lemma MergedKeys(base: seq<Value>, field: string, over: seq<Value>, r: seq<Value>)
    requires IsKeyed(base, field) && IsKeyed(over, field) && IsKeyed(r, field)
    requires IsKeyedMerge(base, field, over, r)
    ensures forall i :: 0 <= i < |base| ==> Key(r[i], field) == Key(base[i], field)
    ensures forall i :: |base| <= i < |r| ==> Key(r[i], field) == NewKeys(base, field, over)[i - |base|]
  {
    var ks := NewKeys(base, field, over);
    forall i | 0 <= i < |base|
      ensures Key(r[i], field) == Key(base[i], field)
    {
      assert BaseSlot(base, field, over, i, r[i]);
    }
    forall i | |base| <= i < |r|
      ensures Key(r[i], field) == ks[i - |base|]
    {
      var j := i - |base|;
      assert IsLastOverride(over, field, ks[j], r[|base| + j]);
    }
  }

  /** `r` has the base's keys, then the keys `ks`. */
  ghost predicate HasKeys(base: seq<Value>, field: string, ks: seq<string>, r: seq<Value>)
    requires IsKeyed(base, field) && IsKeyed(r, field)
  {
    && |r| == |base| + |ks|
    && (forall i :: 0 <= i < |base| ==> Key(r[i], field) == Key(base[i], field))
    && (forall i :: |base| <= i < |r| ==> Key(r[i], field) == ks[i - |base|])
  }

  lemma OldKeyPosition(base: seq<Value>, field: string, ks: seq<string>, r: seq<Value>, key: string)
    requires IsKeyed(base, field) && IsKeyed(r, field) && HasKeys(base, field, ks, r)
    requires key !in ks
    ensures LastIndex(r, field, key) == LastIndex(base, field, key)
  {
    hide LastIndex, Key;
    LastIndexUnique(r, field, key, LastIndex(base, field, key));
  }

  lemma NewKeyPosition(base: seq<Value>, field: string, ks: seq<string>, r: seq<Value>, j: nat)
    requires IsKeyed(base, field) && IsKeyed(r, field) && HasKeys(base, field, ks, r)
    requires Distinct(ks) && j < |ks|
    ensures LastIndex(r, field, ks[j]) == |base| + j
  {
    hide LastIndex, Key;
    LastIndexUnique(r, field, ks[j], |base| + j);
  }

  /** In a keyed merge, a base key stands last at its last base position, a new key at its own. */
  lemma KeyPosition(base: seq<Value>, field: string, over: seq<Value>, r: seq<Value>, key: string)
    requires IsKeyed(base, field) && IsKeyed(over, field) && IsKeyed(r, field)
    requires IsKeyedMerge(base, field, over, r)
    ensures
      var p, ks := LastIndex(base, field, key), NewKeys(base, field, over);
      && (0 <= p ==> LastIndex(r, field, key) == p)
      && (forall j :: 0 <= j < |ks| && ks[j] == key ==> LastIndex(r, field, key) == |base| + j)
      && (p < 0 && key !in ks ==> LastIndex(r, field, key) < 0)
  {
    NewKeysAre(base, field, over);
    MergedKeys(base, field, over, r);
    hide NewKeys, BaseSlot, IsLastOverride, LastIndex, Key, IsKeyed;
    var ks := NewKeys(base, field, over);
    assert HasKeys(base, field, ks, r);
    hide HasKeys, IsKeyedMerge;
    if key in ks {
      forall j | 0 <= j < |ks| && ks[j] == key
        ensures LastIndex(r, field, key) == |base| + j
      {
        NewKeyPosition(base, field, ks, r, j);
      }
    } else {
      OldKeyPosition(base, field, ks, r, key);
    }
  }

  ghost predicate UniqueKeys(items: seq<Value>, field: string)
    requires IsKeyed(items, field)
  {
    forall i :: 0 <= i < |items| ==> LastIndex(items, field, Key(items[i], field)) == i
  }

  /** Unique base keys give unique result keys, whatever the override repeats. */
  lemma {:induction false} UniqueKeysKept(base: seq<Value>, field: string, over: seq<Value>)
    requires IsKeyed(base, field) && IsKeyed(over, field) && UniqueKeys(base, field)
    ensures UniqueKeys(UpsertAll(base, field, over), field)
  {
    if over != [] {
      UniqueKeysKept(base, field, over[..|over| - 1]);
      UpsertIndex(UpsertAll(base, field, over[..|over| - 1]), field, over[|over| - 1]);
    }
  }
}
