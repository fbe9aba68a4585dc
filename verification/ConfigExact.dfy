/** Merging said outright for every pair of values: which arrays are appended, which are keyed and
    which are refused, what replaces what, and whose error is reported. */
module ConfigExact {
  import opened ConfigMerge
  import opened ConfigLayers

  // ---------- The mode of an array ----------

  ghost predicate Carry(items: seq<Value>, field: string) {
    items != [] && forall v :: v in items ==> v.Table? && field in v.at
  }

  /** `field` is the one the items are told apart by: `code` before `id`. */
  ghost predicate KeyField(items: seq<Value>, field: string) {
    || (field == "code" && Carry(items, "code"))
    || (field == "id" && Carry(items, "id") && !Carry(items, "code"))
  }

  ghost predicate GoodIdentifier(v: Value, field: string)
    requires v.Table? && field in v.at
  {
    v.at[field].Text? && v.at[field].text != ""
  }

  /** Item `i` is the first whose identifier is no good. */
  ghost predicate FirstBad(items: seq<Value>, field: string, i: nat)
    requires Carry(items, field) && i < |items|
  {
    !GoodIdentifier(items[i], field) && forall j :: 0 <= j < i ==> GoodIdentifier(items[j], field)
  }

  function BadIdentifier(v: Value, field: string): ConfigError {
    if v.Table? && field in v.at && v.at[field].Text? then EmptyIdentifier(field) else NotAString(field)
  }

  lemma {:induction false} IdentifiersExactly(items: seq<Value>, field: string)
    requires Carry(items, field)
    ensures CheckIdentifiers(items, field) == Ok(Keyed(field)) <==> forall v :: v in items ==> GoodIdentifier(v, field)
    ensures forall i :: 0 <= i < |items| && FirstBad(items, field, i) ==>
              CheckIdentifiers(items, field) == Err(BadIdentifier(items[i], field))
    ensures CheckIdentifiers(items, field).Ok? ==> CheckIdentifiers(items, field) == Ok(Keyed(field))
  {
    var rest := items[1..];
    assert items == [items[0]] + rest && items[0] in items;
    if rest != [] {
      assert forall v :: v in rest ==> v in items;
      IdentifiersExactly(rest, field);
      forall i | 1 <= i < |items| && FirstBad(items, field, i)
        ensures FirstBad(rest, field, i - 1) && items[i] == rest[i - 1]
      {
      }
    }
  }

  lemma {:induction false} HasFirstBad(items: seq<Value>, field: string, n: nat) returns (i: nat)
    requires Carry(items, field) && n <= |items|
    requires exists j :: 0 <= j < n && !GoodIdentifier(items[j], field)
    ensures i < |items| && FirstBad(items, field, i)
  {
    if exists j :: 0 <= j < n - 1 && !GoodIdentifier(items[j], field) {
      i := HasFirstBad(items, field, n - 1);
    } else {
      i := n - 1;
    }
  }

  lemma DetectIs(items: seq<Value>)
    ensures forall f :: KeyField(items, f) ==> Detect(items) == CheckIdentifiers(items, f)
    ensures !KeyField(items, "code") && !KeyField(items, "id") ==> Detect(items) == Ok(Plain)
  {
    if items != [] {
      assert items[0] in items;
    }
  }

  // ---------- Arrays ----------

  /** Two arrays are appended exactly when their items do not all carry `code` and do not all carry
      `id`, whatever each of them is on its own. */
  lemma AppendedExactly(x: seq<Value>, y: seq<Value>)
    requires !Carry(x + y, "code") && !Carry(x + y, "id")
    ensures MergeArrays(x, y) == Ok(x + y)
  {
    DetectIs(x + y);
  }

  /** Otherwise they are merged by the first of those fields that all carry, when every identifier is
      a string that is not empty, and refused for the first that is not. */
  lemma KeyedExactly(x: seq<Value>, y: seq<Value>, field: string)
    requires KeyField(x + y, field)
    ensures (forall v :: v in x + y ==> GoodIdentifier(v, field)) ==>
              IsKeyed(x, field) && IsKeyed(y, field) && MergeArrays(x, y) == Ok(UpsertAll(x, field, y))
    ensures forall i :: 0 <= i < |x + y| && FirstBad(x + y, field, i) ==>
              MergeArrays(x, y) == Err(BadIdentifier((x + y)[i], field))
    ensures MergeArrays(x, y).Err? ==> exists i :: 0 <= i < |x + y| && FirstBad(x + y, field, i)
  {
    DetectIs(x + y);
    IdentifiersExactly(x + y, field);
    if forall v :: v in x + y ==> GoodIdentifier(v, field) {
      assert forall v :: v in x || v in y ==> v in x + y;
    } else {
      var i := HasFirstBad(x + y, field, |x + y|);
    }
  }

  // ---------- Values ----------

  /** Unless both are tables or both are arrays, the override replaces the base. */
  lemma ReplacedExactly(base: Value, over: Value)
    requires !(base.Table? && over.Table?) && !(base.Array? && over.Array?)
    ensures Merge(base, over) == Ok(over)
  {
  }

  /** Two tables that do not merge fail with the error of the first shared key, in the override's
      order, whose values do not. */
  lemma {:induction false} FirstError(a: Value, b: Value, n: nat) returns (i: nat)
    requires a.Table? && b.Table? && WellFormed(b) && n <= |b.keys| && MergeFields(a, b, n).Err?
    ensures i < n && b.keys[i] in a.at && b.keys[i] in b.at
    ensures Merge(a.at[b.keys[i]], b.at[b.keys[i]]) == MergeFields(a, b, n)
    ensures MergeFields(a, b, i).Ok?
  {
    if MergeFields(a, b, n - 1).Err? {
      i := FirstError(a, b, n - 1);
    } else {
      i := n - 1;
      Untouched(a, b, i);
    }
  }

  /** A key the override has not come to holds what the base holds. */
  lemma {:induction false} Untouched(a: Value, b: Value, n: nat)
    requires a.Table? && b.Table? && WellFormed(b) && n < |b.keys| && MergeFields(a, b, n).Ok?
    ensures
      var t, key := MergeFields(a, b, n).value, b.keys[n];
      (key in t.at <==> key in a.at) && (key in a.at ==> t.at[key] == a.at[key])
  {
    UntouchedBy(a, b, n, n);
  }

  lemma {:induction false} UntouchedBy(a: Value, b: Value, m: nat, n: nat)
    requires a.Table? && b.Table? && WellFormed(b) && m <= n < |b.keys| && MergeFields(a, b, m).Ok?
    ensures
      var t, key := MergeFields(a, b, m).value, b.keys[n];
      (key in t.at <==> key in a.at) && (key in a.at ==> t.at[key] == a.at[key])
  {
    if m > 0 {
      UntouchedBy(a, b, m - 1, n);
      assert b.keys[m - 1] != b.keys[n];
    }
  }
}
