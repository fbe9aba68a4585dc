/** The algebra of merging: its identity, and exactly when three layers may be grouped at will. */
module ConfigAlgebra {
  import opened Common
  import opened ConfigMerge
  import opened ConfigArrays
  import opened ConfigLayers

  // ---------- The merge of two tables, said key by key ----------

  /** The keys of `ks` outside `have`, in order. */
  function Fresh(have: set<string>, ks: seq<string>): seq<string> {
    if ks == [] then []
    else
      var k := ks[|ks| - 1];
      Fresh(have, ks[..|ks| - 1]) + if k in have then [] else [k]
  }

  /** What `t` holds at key `k` after the fields of `b` named in `ks`. */
  ghost predicate FieldAt(a: Value, b: Value, ks: seq<string>, t: Value, k: string)
    requires a.Table? && b.Table? && t.Table?
  {
    && (k in t.at <==> k in a.at || k in ks)
    && (k in t.at ==>
          && (k !in ks ==> t.at[k] == a.at[k])
          && (k in ks && k in b.at && k !in a.at ==> t.at[k] == b.at[k])
          && (k in ks && k in b.at && k in a.at ==> Merge(a.at[k], b.at[k]) == Ok(t.at[k])))
  }

  /** `t` is `a` merged with the fields of `b` named in `ks`: a's order, then the new keys. */
  ghost predicate Pointwise(a: Value, b: Value, ks: seq<string>, t: Value)
    requires a.Table? && b.Table?
  {
    && t.Table?
    && t.keys == a.keys + Fresh(a.at.Keys, ks)
    && forall k :: FieldAt(a, b, ks, t, k)
  }

  /** The loop over the override's fields merges exactly when every shared key merges. */
  lemma {:induction false} FieldsMerge(a: Value, b: Value, n: nat)
    requires a.Table? && b.Table? && WellFormed(a) && WellFormed(b) && n <= |b.keys|
    ensures MergeFields(a, b, n).Ok? <==>
              forall k :: k in b.keys[..n] && k in a.at ==> Merge(a.at[k], b.at[k]).Ok?
    ensures MergeFields(a, b, n).Ok? ==> Pointwise(a, b, b.keys[..n], MergeFields(a, b, n).value)
  {
    if n == 0 {
      assert a.keys + Fresh(a.at.Keys, []) == a.keys;
    } else {
      FieldsMerge(a, b, n - 1);
      var ks, key := b.keys[..n - 1], b.keys[n - 1];
      assert b.keys[..n] == ks + [key];
      assert key in b.keys && key in b.at && key !in ks;
      assert forall k :: k in b.keys[..n] <==> k in ks || k == key;
      hide WellFormed, Distinct;
      if MergeFields(a, b, n - 1).Ok? {
        var t := MergeFields(a, b, n - 1).value;
        assert FieldAt(a, b, ks, t, key);
        hide Pointwise, Fresh;
        if key in t.at && Merge(t.at[key], b.at[key]).Ok? {
          PutPointwise(a, b, ks, key, t, Merge(t.at[key], b.at[key]).value);
        } else if key !in t.at {
          PutPointwise(a, b, ks, key, t, b.at[key]);
        }
      }
    }
  }

  lemma PutPointwise(a: Value, b: Value, ks: seq<string>, key: string, t: Value, v: Value)
    requires a.Table? && b.Table? && t.Table? && Pointwise(a, b, ks, t) && key !in ks && key in b.at
    requires if key in a.at then Merge(a.at[key], b.at[key]) == Ok(v) else v == b.at[key]
    ensures Pointwise(a, b, ks + [key], Put(t, key, v))
  {
    assert FieldAt(a, b, ks, t, key);
    PutKeys(a.keys, a.at.Keys, ks, key);
    hide Merge, Fresh, FieldAt;
    forall k
      ensures FieldAt(a, b, ks + [key], Put(t, key, v), k)
    {
      assert FieldAt(a, b, ks, t, k);
      PutFieldAt(a, b, ks, key, t, v, k);
    }
    assert key in t.at <==> key in a.at by { FieldPresent(a, b, ks, t, key); }
  }

  lemma FieldPresent(a: Value, b: Value, ks: seq<string>, t: Value, k: string)
    requires a.Table? && b.Table? && t.Table? && FieldAt(a, b, ks, t, k)
    ensures k in t.at <==> k in a.at || k in ks
  {
  }

  lemma PutKeys(ak: seq<string>, have: set<string>, ks: seq<string>, key: string)
    ensures ak + Fresh(have, ks + [key]) == if key in have then ak + Fresh(have, ks) else (ak + Fresh(have, ks)) + [key]
  {
    assert (ks + [key])[..|ks|] == ks;
  }

  lemma PutFieldAt(a: Value, b: Value, ks: seq<string>, key: string, t: Value, v: Value, k: string)
    requires a.Table? && b.Table? && t.Table? && FieldAt(a, b, ks, t, k) && key in b.at && key !in ks
    requires if key in a.at then Merge(a.at[key], b.at[key]) == Ok(v) else v == b.at[key]
    ensures FieldAt(a, b, ks + [key], Put(t, key, v), k)
  {
    hide Merge;
    assert k in ks + [key] <==> k in ks || k == key;
  }

  lemma TablesMerge(a: Value, b: Value)
    requires a.Table? && b.Table? && WellFormed(a) && WellFormed(b)
    ensures Merge(a, b).Ok? <==> forall k :: k in b.at && k in a.at ==> Merge(a.at[k], b.at[k]).Ok?
    ensures Merge(a, b).Ok? ==> Pointwise(a, b, b.keys, Merge(a, b).value)
  {
    FieldsMerge(a, b, |b.keys|);
    assert b.keys[..|b.keys|] == b.keys;
  }

  // ---------- Identity ----------

  /** The empty table is a two-sided identity on tables. */
  lemma EmptyIsIdentity(t: Value)
    requires t.Table? && WellFormed(t)
    ensures Merge(EMPTY, t) == Ok(t) && Merge(t, EMPTY) == Ok(t)
  {
    assert Merge(t, EMPTY) == Ok(t);
    TablesMerge(EMPTY, t);
    hide Merge, MergeFields, WellFormed;
    PointwiseOverEmpty(t, Merge(EMPTY, t).value);
  }

  lemma PointwiseOverEmpty(t: Value, r: Value)
    requires t.Table? && WellFormed(t) && Pointwise(EMPTY, t, t.keys, r)
    ensures r == t
  {
    hide *;
    FreshOfNothing(t.keys);
    WellFormedKeys(t);
    OverEmptyAt(t, r);
    assert r.at.Keys == t.at.Keys;
    assert r.at == t.at;
  }

  lemma OverEmptyAt(t: Value, r: Value)
    requires t.Table? && WellFormed(t) && Pointwise(EMPTY, t, t.keys, r) && Fresh({}, t.keys) == t.keys
    ensures r.Table? && r.keys == t.keys
    ensures forall k :: k in r.at <==> k in t.keys
    ensures forall k :: k in r.at && k in t.at ==> r.at[k] == t.at[k]
  {
    hide WellFormed, Merge, Fresh;
    assert EMPTY.at.Keys == {};
    assert EMPTY.keys + Fresh({}, t.keys) == t.keys;
    forall k
      ensures k in r.at <==> k in t.keys
      ensures k in r.at && k in t.at ==> r.at[k] == t.at[k]
    {
      assert FieldAt(EMPTY, t, t.keys, r, k);
    }
  }

  lemma WellFormedKeys(t: Value)
    requires t.Table? && WellFormed(t)
    ensures Distinct(t.keys)
    ensures forall k :: k in t.keys <==> k in t.at
    ensures forall k :: k in t.at ==> WellFormed(t.at[k])
  {
  }

  lemma {:induction false} FreshOfNothing(ks: seq<string>)
    ensures Fresh({}, ks) == ks
  {
    if ks != [] {
      FreshOfNothing(ks[..|ks| - 1]);
    }
  }

  // ---------- Agreement between layers ----------

  predicate SameContainer(a: Value, b: Value) { (a.Table? && b.Table?) || (a.Array? && b.Array?) }

  /** At each path the two share, arrays use one merge mode. */
  ghost predicate OneMode(a: Value, b: Value) {
    && (a.Table? && b.Table? ==> forall k :: k in a.at && k in b.at ==> OneMode(a.at[k], b.at[k]))
    && (a.Array? && b.Array? ==> exists m :: HasMode(a.items, m) && HasMode(b.items, m))
  }

  lemma CommonMode(x: seq<Value>, y: seq<Value>, z: seq<Value>) returns (m: Mode)
    requires exists m :: HasMode(x, m) && HasMode(y, m)
    requires exists m :: HasMode(x, m) && HasMode(z, m)
    requires exists m :: HasMode(y, m) && HasMode(z, m)
    ensures HasMode(x, m) && HasMode(y, m) && HasMode(z, m)
  {
    if x != [] {
      m :| HasMode(x, m) && HasMode(y, m);
    } else {
      m :| HasMode(y, m) && HasMode(z, m);
    }
  }

  /** Layers of one mode always merge, into a well-formed value. */
  lemma {:induction false} OneModeMerges(a: Value, b: Value)
    requires WellFormed(a) && WellFormed(b) && OneMode(a, b)
    ensures Merge(a, b).Ok? && WellFormed(Merge(a, b).value)
    decreases a
  {
    if a.Table? && b.Table? {
      forall k | k in a.at && k in b.at
        ensures Merge(a.at[k], b.at[k]).Ok? && WellFormed(Merge(a.at[k], b.at[k]).value)
      {
        OneModeMerges(a.at[k], b.at[k]);
      }
      TablesMerge(a, b);
      var t := Merge(a, b).value;
      FreshKeys(a.at.Keys, b.keys);
      DistinctJoin(a.keys, Fresh(a.at.Keys, b.keys));
      hide Distinct, Merge, MergeFields;
      forall k
        ensures k in t.at <==> k in t.keys
        ensures k in t.at ==> WellFormed(t.at[k])
      {
        assert FieldAt(a, b, b.keys, t, k);
      }
    } else if a.Array? && b.Array? {
      var m :| HasMode(a.items, m) && HasMode(b.items, m);
      MergeOfOneMode(a.items, b.items, m);
    }
  }

  lemma DistinctJoin(x: seq<string>, y: seq<string>)
    requires Distinct(x) && Distinct(y) && forall k :: k in x ==> k !in y
    ensures Distinct(x + y)
  {
    forall i, j | 0 <= i < j < |x + y|
      ensures (x + y)[i] != (x + y)[j]
    {
      if i < |x| && |x| <= j {
        assert x[i] in x && y[j - |x|] in y;
      }
    }
  }

  lemma {:induction false} FreshKeys(have: set<string>, ks: seq<string>)
    ensures forall k :: k in Fresh(have, ks) <==> k in ks && k !in have
    ensures Distinct(ks) ==> Distinct(Fresh(have, ks))
  {
    if ks != [] {
      FreshKeys(have, ks[..|ks| - 1]);
    }
  }

  // ---------- Associativity ----------

  lemma {:induction false} FreshConcat(have: set<string>, x: seq<string>, y: seq<string>)
    ensures Fresh(have, x + y) == Fresh(have, x) + Fresh(have, y)
  {
    if y == [] {
      assert x + y == x;
    } else {
      assert (x + y)[..|x + y| - 1] == x + y[..|y| - 1];
      FreshConcat(have, x, y[..|y| - 1]);
    }
  }

  lemma {:induction false} FreshTwice(a: set<string>, b: set<string>, ks: seq<string>)
    ensures Fresh(a, Fresh(b, ks)) == Fresh(a + b, ks)
  {
    if ks != [] {
      var n := |ks| - 1;
      FreshTwice(a, b, ks[..n]);
      if ks[n] in b {
        assert Fresh(b, ks) == Fresh(b, ks[..n]);
      } else {
        FreshConcat(a, Fresh(b, ks[..n]), [ks[n]]);
        assert Fresh(a, [ks[n]]) == if ks[n] in a then [] else [ks[n]] by { FreshOne(a, ks[n]); }
      }
    }
  }

  lemma FreshOne(have: set<string>, k: string)
    ensures Fresh(have, [k]) == if k in have then [] else [k]
  {
    assert [k][..0] == [];
    assert Fresh(have, []) == [];
  }

  /** Key order is the same however three tables are grouped. */
  lemma KeysAssociative(a: Value, b: Value, c: Value, ab: Value, bc: Value)
    requires a.Table? && b.Table? && c.Table?
    requires Pointwise(a, b, b.keys, ab) && Pointwise(b, c, c.keys, bc)
    requires forall k :: k in b.keys <==> k in b.at
    ensures ab.keys + Fresh(ab.at.Keys, c.keys) == a.keys + Fresh(a.at.Keys, bc.keys)
  {
    forall k
      ensures k in ab.at <==> k in a.at || k in b.at
    {
      assert FieldAt(a, b, b.keys, ab, k);
    }
    assert ab.at.Keys == a.at.Keys + b.at.Keys;
    FreshGroups(a.at.Keys, b.at.Keys, a.keys, b.keys, c.keys);
    hide Merge, Fresh;
  }

  lemma FreshGroups(x: set<string>, y: set<string>, ak: seq<string>, bk: seq<string>, ck: seq<string>)
    ensures (ak + Fresh(x, bk)) + Fresh(x + y, ck) == ak + Fresh(x, bk + Fresh(y, ck))
  {
    FreshConcat(x, bk, Fresh(y, ck));
    FreshTwice(x, y, ck);
  }

  /** What a grouping of three tables holds at one key. */
  ghost predicate HoldsAt(a: Value, b: Value, t: Value, k: string)
    requires a.Table? && b.Table? && t.Table?
  {
    && (k in t.at <==> k in a.at || k in b.at)
    && (k in t.at ==>
          && (k !in b.at ==> t.at[k] == a.at[k])
          && (k !in a.at ==> t.at[k] == b.at[k])
          && (k in a.at && k in b.at ==> Merge(a.at[k], b.at[k]) == Ok(t.at[k])))
  }

  lemma PointwiseHolds(a: Value, b: Value, t: Value, k: string)
    requires a.Table? && b.Table? && WellFormed(b) && Pointwise(a, b, b.keys, t)
    ensures HoldsAt(a, b, t, k)
  {
    hide Merge;
    assert FieldAt(a, b, b.keys, t, k);
  }

  /** One key of two groupings of three tables. */
  lemma ValuesAssociative(a: Value, b: Value, c: Value, ab: Value, bc: Value, l: Value, r: Value, k: string)
    requires a.Table? && b.Table? && c.Table? && ab.Table? && bc.Table? && l.Table? && r.Table?
    requires HoldsAt(a, b, ab, k) && HoldsAt(b, c, bc, k) && HoldsAt(ab, c, l, k) && HoldsAt(a, bc, r, k)
    requires k in a.at && k in b.at && k in c.at ==> Merge(ab.at[k], c.at[k]) == Merge(a.at[k], bc.at[k])
    ensures k in l.at <==> k in r.at
    ensures k in l.at ==> l.at[k] == r.at[k]
  {
    hide Merge;
  }

  /** When the grouping of three values does not matter: tables say so at every key all three have,
      arrays of one mode as `GroupsAlike` has it, and where `b` hides one container from another of
      its kind, `c` must be what they merge to. */
  ghost predicate GroupingFree(a: Value, b: Value, c: Value) {
    if a.Table? && b.Table? && c.Table? then
      forall k :: k in a.at && k in b.at && k in c.at ==> GroupingFree(a.at[k], b.at[k], c.at[k])
    else if a.Array? && b.Array? && c.Array? then
      exists m :: AllHaveMode(a.items, b.items, c.items, m) && GroupsAlike(a.items, b.items, c.items, m)
    else
      SameContainer(a, c) ==> Merge(a, c) == Ok(c)
  }

  ghost predicate AllHaveMode(x: seq<Value>, y: seq<Value>, z: seq<Value>, m: Mode) {
    HasMode(x, m) && HasMode(y, m) && HasMode(z, m)
  }

  /** Both groupings of three values merge, to the same. */
  ghost predicate Groups(a: Value, b: Value, c: Value) {
    && Merge(a, b).Ok? && Merge(b, c).Ok?
    && Merge(Merge(a, b).value, c).Ok?
    && Merge(Merge(a, b).value, c) == Merge(a, Merge(b, c).value)
  }

  /** Layers whose arrays agree on modes always merge pairwise, and may be grouped at will exactly
      when nothing is masked for good and no array loses its mode. */
  lemma {:induction false} AssociativeIff(a: Value, b: Value, c: Value)
    requires WellFormed(a) && WellFormed(b) && WellFormed(c)
    requires OneMode(a, b) && OneMode(a, c) && OneMode(b, c)
    ensures Merge(a, b).Ok? && Merge(b, c).Ok?
    ensures Groups(a, b, c) <==> GroupingFree(a, b, c)
    decreases a
  {
    OneModeMerges(a, b);
    OneModeMerges(b, c);
    if a.Table? && b.Table? && c.Table? {
      forall k | k in a.at && k in b.at && k in c.at
        ensures Groups(a.at[k], b.at[k], c.at[k]) <==> GroupingFree(a.at[k], b.at[k], c.at[k])
      {
        AssociativeIff(a.at[k], b.at[k], c.at[k]);
      }
      hide Merge, WellFormed, OneMode, Groups;
      TablesGroup(a, b, c);
    } else if a.Array? && b.Array? && c.Array? {
      hide WellFormed, HasMode, GroupsAlike;
      ArraysGroup(a.items, b.items, c.items);
    } else {
      hide HasMode, MergeFields, MergeArrays;
      OneModeMerges(a, c);
    }
  }

  lemma ArraysGroup(x: seq<Value>, y: seq<Value>, z: seq<Value>)
    requires OneMode(Array(x), Array(y)) && OneMode(Array(x), Array(z)) && OneMode(Array(y), Array(z))
    ensures Groups(Array(x), Array(y), Array(z))
       <==> exists m :: AllHaveMode(x, y, z, m) && GroupsAlike(x, y, z, m)
  {
    hide HasMode, GroupsAlike, MergeArrays;
    var m := CommonMode(x, y, z);
    ArraysAssociativeIff(x, y, z, m);
    assert AllHaveMode(x, y, z, m);
    forall n | AllHaveMode(x, y, z, n) && GroupsAlike(x, y, z, n)
      ensures Groups(Array(x), Array(y), Array(z))
    {
      ArraysAssociativeIff(x, y, z, n);
    }
  }

  /** Tables group exactly when they do at every key all three have. */
  lemma TablesGroup(a: Value, b: Value, c: Value)
    requires a.Table? && b.Table? && c.Table? && WellFormed(a) && WellFormed(b) && WellFormed(c)
    requires OneMode(a, b) && OneMode(a, c) && OneMode(b, c)
    ensures Groups(a, b, c) <==> AssociativeByKey(a, b, c)
  {
    if AssociativeByKey(a, b, c) {
      TablesAssociative(a, b, c);
    }
    if Groups(a, b, c) {
      hide *;
      OneModeMerges(a, b);
      OneModeMerges(b, c);
      GroupsParts(a, b, c);
      forall k | k in a.at && k in b.at && k in c.at
        ensures Groups(a.at[k], b.at[k], c.at[k])
      {
        TablesGroupAt(a, b, c, k);
      }
      ByKey(a, b, c);
    }
  }

  lemma GroupsParts(a: Value, b: Value, c: Value)
    requires Groups(a, b, c)
    ensures Merge(a, b).Ok? && Merge(b, c).Ok? && Merge(Merge(a, b).value, c).Ok?
    ensures Merge(Merge(a, b).value, c) == Merge(a, Merge(b, c).value)
  {
  }

  lemma ByKey(a: Value, b: Value, c: Value)
    requires a.Table? && b.Table? && c.Table?
    requires forall k :: k in a.at && k in b.at && k in c.at ==> Groups(a.at[k], b.at[k], c.at[k])
    ensures AssociativeByKey(a, b, c)
  {
  }

  lemma TablesGroupAt(a: Value, b: Value, c: Value, k: string)
    requires a.Table? && b.Table? && c.Table? && WellFormed(a) && WellFormed(b) && WellFormed(c)
    requires OneMode(a, b) && OneMode(b, c) && Groups(a, b, c)
    requires k in a.at && k in b.at && k in c.at
    ensures Groups(a.at[k], b.at[k], c.at[k])
  {
    hide *;
    GroupsParts(a, b, c);
    OneModeMerges(a, b);
    OneModeMerges(b, c);
    var ab, bc := Merge(a, b).value, Merge(b, c).value;
    TablesMerge(a, b);
    TablesMerge(b, c);
    PointwiseTable(a, b, ab);
    PointwiseTable(b, c, bc);
    TablesMerge(ab, c);
    TablesMerge(a, bc);
    var l := Merge(ab, c).value;
    PointwiseTable(ab, c, l);
    PointwiseHolds(a, b, ab, k);
    PointwiseHolds(b, c, bc, k);
    PointwiseHolds(ab, c, l, k);
    PointwiseHolds(a, bc, l, k);
    HeldGroups(a, b, c, ab, bc, l, k);
  }

  lemma HeldGroups(a: Value, b: Value, c: Value, ab: Value, bc: Value, l: Value, k: string)
    requires a.Table? && b.Table? && c.Table? && ab.Table? && bc.Table? && l.Table?
    requires HoldsAt(a, b, ab, k) && HoldsAt(b, c, bc, k) && HoldsAt(ab, c, l, k) && HoldsAt(a, bc, l, k)
    requires k in a.at && k in b.at && k in c.at
    ensures Groups(a.at[k], b.at[k], c.at[k])
  {
    hide Merge;
  }

  lemma TablesAssociative(a: Value, b: Value, c: Value)
    requires a.Table? && b.Table? && c.Table? && WellFormed(a) && WellFormed(b) && WellFormed(c)
    requires OneMode(a, b) && OneMode(a, c) && OneMode(b, c)
    requires AssociativeByKey(a, b, c)
    ensures Merge(a, b).Ok? && Merge(b, c).Ok?
    ensures Merge(Merge(a, b).value, c).Ok?
    ensures Merge(Merge(a, b).value, c) == Merge(a, Merge(b, c).value)
  {
    hide *;
    OneModeMerges(a, b);
    OneModeMerges(b, c);
    TablesMerge(a, b);
    TablesMerge(b, c);
    var ab, bc := Merge(a, b).value, Merge(b, c).value;
    PointwiseTable(a, b, ab);
    PointwiseTable(b, c, bc);
    GroupingsMerge(a, b, c, ab, bc);
    TablesMerge(ab, c);
    TablesMerge(a, bc);
    GroupingsAgree(a, b, c, ab, bc, Merge(ab, c).value, Merge(a, bc).value);
  }

  ghost predicate AssociativeByKey(a: Value, b: Value, c: Value)
    requires a.Table? && b.Table? && c.Table?
  {
    forall k :: k in a.at && k in b.at && k in c.at ==> Groups(a.at[k], b.at[k], c.at[k])
  }

  lemma PointwiseTable(a: Value, b: Value, t: Value)
    requires a.Table? && b.Table? && Pointwise(a, b, b.keys, t)
    ensures t.Table? && t.keys == a.keys + Fresh(a.at.Keys, b.keys)
  {
  }

  lemma GroupingsMerge(a: Value, b: Value, c: Value, ab: Value, bc: Value)
    requires a.Table? && b.Table? && c.Table? && WellFormed(a) && WellFormed(b) && WellFormed(c)
    requires OneMode(a, b) && OneMode(a, c) && OneMode(b, c)
    requires AssociativeByKey(a, b, c)
    requires Pointwise(a, b, b.keys, ab) && Pointwise(b, c, c.keys, bc) && WellFormed(ab) && WellFormed(bc)
    ensures Merge(ab, c).Ok? && Merge(a, bc).Ok?
  {
    hide *;
    PointwiseTable(a, b, ab);
    PointwiseTable(b, c, bc);
    TablesMerge(ab, c);
    TablesMerge(a, bc);
    forall k
      ensures k in ab.at && k in c.at ==> Merge(ab.at[k], c.at[k]).Ok?
      ensures k in a.at && k in bc.at ==> Merge(a.at[k], bc.at[k]).Ok?
    {
      GroupingsMergeAt(a, b, c, ab, bc, k);
    }
  }

  lemma GroupingsMergeAt(a: Value, b: Value, c: Value, ab: Value, bc: Value, k: string)
    requires a.Table? && b.Table? && c.Table? && WellFormed(a) && WellFormed(b) && WellFormed(c)
    requires OneMode(a, b) && OneMode(a, c) && OneMode(b, c)
    requires AssociativeByKey(a, b, c)
    requires Pointwise(a, b, b.keys, ab) && Pointwise(b, c, c.keys, bc) && ab.Table? && bc.Table?
    ensures k in ab.at && k in c.at ==> Merge(ab.at[k], c.at[k]).Ok?
    ensures k in a.at && k in bc.at ==> Merge(a.at[k], bc.at[k]).Ok?
  {
    hide Merge, MergeFields, Pointwise, WellFormed, OneMode;
    PointwiseHolds(a, b, ab, k);
    PointwiseHolds(b, c, bc, k);
    PairsMerge(a, b, c, k);
  }

  lemma GroupingsAgree(a: Value, b: Value, c: Value, ab: Value, bc: Value, l: Value, r: Value)
    requires a.Table? && b.Table? && c.Table? && WellFormed(b) && WellFormed(c)
    requires ab.Table? && bc.Table? && WellFormed(bc)
    requires AssociativeByKey(a, b, c)
    requires Pointwise(a, b, b.keys, ab) && Pointwise(b, c, c.keys, bc)
    requires Pointwise(ab, c, c.keys, l) && Pointwise(a, bc, bc.keys, r)
    ensures l == r
  {
    hide *;
    WellFormedKeys(b);
    KeysAssociative(a, b, c, ab, bc);
    PointwiseTable(ab, c, l);
    PointwiseTable(a, bc, r);
    forall k
      ensures k in l.at <==> k in r.at
      ensures k in l.at ==> l.at[k] == r.at[k]
    {
      GroupingsAgreeAt(a, b, c, ab, bc, l, r, k);
    }
    assert l.at == r.at;
  }

  lemma GroupingsAgreeAt(a: Value, b: Value, c: Value, ab: Value, bc: Value, l: Value, r: Value, k: string)
    requires a.Table? && b.Table? && c.Table? && WellFormed(b) && WellFormed(c)
    requires ab.Table? && bc.Table? && l.Table? && r.Table? && WellFormed(bc)
    requires AssociativeByKey(a, b, c)
    requires Pointwise(a, b, b.keys, ab) && Pointwise(b, c, c.keys, bc)
    requires Pointwise(ab, c, c.keys, l) && Pointwise(a, bc, bc.keys, r)
    ensures k in l.at <==> k in r.at
    ensures k in l.at ==> l.at[k] == r.at[k]
  {
    hide Merge, Pointwise, WellFormed;
    PointwiseHolds(a, b, ab, k);
    PointwiseHolds(b, c, bc, k);
    PointwiseHolds(ab, c, l, k);
    PointwiseHolds(a, bc, r, k);
    ValuesAssociative(a, b, c, ab, bc, l, r, k);
  }

  lemma PairsMerge(a: Value, b: Value, c: Value, k: string)
    requires a.Table? && b.Table? && c.Table? && WellFormed(a) && WellFormed(b) && WellFormed(c)
    requires OneMode(a, c) && OneMode(b, c) && OneMode(a, b)
    ensures k in a.at && k in c.at ==> Merge(a.at[k], c.at[k]).Ok?
    ensures k in b.at && k in c.at ==> Merge(b.at[k], c.at[k]).Ok?
    ensures k in a.at && k in b.at ==> Merge(a.at[k], b.at[k]).Ok?
  {
    if k in a.at && k in c.at {
      OneModeMerges(a.at[k], c.at[k]);
    }
    if k in b.at && k in c.at {
      OneModeMerges(b.at[k], c.at[k]);
    }
    if k in a.at && k in b.at {
      OneModeMerges(a.at[k], b.at[k]);
    }
  }
}
