/** The algebra of array merging: exactly when the grouping of three arrays of one mode matters. */
module ConfigArrays {
  import opened ConfigMerge

  // ---------- Keyed merging is associative ----------

  lemma UpsertTwice(s: seq<Value>, field: string, d: Value, c: Value)
    requires IsKeyed(s, field) && IsKeyed([d], field) && IsKeyed([c], field) && Key(d, field) == Key(c, field)
    ensures Upsert(Upsert(s, field, d), field, c) == Upsert(s, field, c)
  {
    UpsertIndex(s, field, d);
    hide LastIndex;
  }

  lemma UpsertsCommute(s: seq<Value>, field: string, c: Value, d: Value)
    requires IsKeyed(s, field) && IsKeyed([d], field) && IsKeyed([c], field) && Key(d, field) != Key(c, field)
    requires 0 <= LastIndex(s, field, Key(c, field))
    ensures Upsert(Upsert(s, field, c), field, d) == Upsert(Upsert(s, field, d), field, c)
  {
    hide *;
    var p, q := LastIndex(s, field, Key(c, field)), LastIndex(s, field, Key(d, field));
    UpsertIndex(s, field, c);
    UpsertIndex(s, field, d);
    UpsertBody(s, field, c);
    UpsertBody(s, field, d);
    UpsertBody(Upsert(s, field, c), field, d);
    UpsertBody(Upsert(s, field, d), field, c);
    if q < 0 {
      assert s[p := c] + [d] == (s + [d])[p := c];
    } else {
      assert s[p := c][q := d] == s[q := d][p := c];
    }
  }

  lemma {:induction false} OverrideKeysPresent(x: seq<Value>, field: string, w: seq<Value>, key: string)
    requires IsKeyed(x, field) && IsKeyed(w, field) && 0 <= LastIndex(w, field, key)
    ensures 0 <= LastIndex(UpsertAll(x, field, w), field, key)
  {
    var n := |w| - 1;
    UpsertIndex(UpsertAll(x, field, w[..n]), field, w[n]);
    if Key(w[n], field) != key {
      OverrideKeysPresent(x, field, w[..n], key);
    }
  }

  lemma KeyedParts(w: seq<Value>, field: string, d: Value)
    ensures IsKeyed(w + [d], field) <==> IsKeyed(w, field) && IsKeyed([d], field)
  {
    assert forall v :: v in w + [d] <==> v in w || v in [d];
  }

  lemma UpsertAllAppended(x: seq<Value>, field: string, w: seq<Value>, d: Value)
    requires IsKeyed(x, field) && IsKeyed(w, field) && IsKeyed([d], field) && IsKeyed(w + [d], field)
    ensures UpsertAll(x, field, w + [d]) == Upsert(UpsertAll(x, field, w), field, d)
  {
    assert (w + [d])[..|w|] == w;
  }

  /** An upsert touches the last item only when it has the key. */
  lemma UpsertAppended(w: seq<Value>, field: string, d: Value, c: Value)
    requires IsKeyed(w, field) && IsKeyed([d], field) && IsKeyed([c], field) && IsKeyed(w + [d], field)
    requires 0 <= LastIndex(w + [d], field, Key(c, field))
    ensures Upsert(w + [d], field, c)
         == if Key(d, field) == Key(c, field) then w + [c] else Upsert(w, field, c) + [d]
    ensures Key(d, field) != Key(c, field) ==> 0 <= LastIndex(w, field, Key(c, field))
  {
    LastIndexAppended(w, field, d);
    UpsertBody(w, field, c);
    UpsertBody(w + [d], field, c);
    hide *;
  }

  /** Upserting into the override, then merging, is merging, then upserting. */
  lemma {:induction false} UpsertIntoOverride(x: seq<Value>, field: string, w: seq<Value>, c: Value)
    requires IsKeyed(x, field) && IsKeyed(w, field) && IsKeyed([c], field)
    ensures UpsertAll(x, field, Upsert(w, field, c)) == Upsert(UpsertAll(x, field, w), field, c)
    decreases |w|
  {
    var key := Key(c, field);
    if LastIndex(w, field, key) < 0 {
      UpsertAllAppended(x, field, w, c);
    } else {
      hide *;
      var v, d := w[..|w| - 1], w[|w| - 1];
      assert w == v + [d];
      KeyedParts(v, field, d);
      var before := UpsertAll(x, field, v);
      UpsertAllAppended(x, field, v, d);
      UpsertAppended(v, field, d, c);
      if Key(d, field) == key {
        KeyedParts(v, field, c);
        UpsertAllAppended(x, field, v, c);
        UpsertTwice(before, field, d, c);
      } else {
        UpsertIntoOverride(x, field, v, c);
        OverrideKeysPresent(x, field, v, key);
        UpsertsCommute(before, field, c, d);
        KeyedParts(Upsert(v, field, c), field, d);
        UpsertAllAppended(x, field, Upsert(v, field, c), d);
      }
    }
  }

  lemma {:induction false} KeyedAssociative(x: seq<Value>, field: string, y: seq<Value>, z: seq<Value>)
    requires IsKeyed(x, field) && IsKeyed(y, field) && IsKeyed(z, field)
    ensures UpsertAll(UpsertAll(x, field, y), field, z) == UpsertAll(x, field, UpsertAll(y, field, z))
  {
    if z != [] {
      var n := |z| - 1;
      KeyedAssociative(x, field, y, z[..n]);
      UpsertIntoOverride(x, field, UpsertAll(y, field, z[..n]), z[n]);
    }
  }

  // ---------- One mode ----------

  /** The array merges in mode `m`; an empty one merges in any. */
  ghost predicate HasMode(items: seq<Value>, m: Mode) { items == [] || Detect(items) == Ok(m) }

  lemma ModeIsKeyed(items: seq<Value>, field: string)
    requires HasMode(items, Keyed(field))
    ensures IsKeyed(items, field)
  {
    if items != [] {
      DetectedIsKeyed(items);
    }
  }

  lemma ModeByField(items: seq<Value>)
    requires items != []
    ensures Detect(items) == Ok(Keyed("code")) <==> IsKeyed(items, "code")
    ensures IsKeyed(items, "id") && !AllCarry(items, "code") <==> Detect(items) == Ok(Keyed("id"))
  {
    if AllCarry(items, "code") {
      DetectKeyed(items, "code");
    } else if AllCarry(items, "id") {
      DetectKeyed(items, "id");
    }
  }

  lemma ModeIsPlain(items: seq<Value>)
    requires items != []
    ensures Detect(items) == Ok(Plain) <==> !AllCarry(items, "code") && !AllCarry(items, "id")
  {
    if AllCarry(items, "code") {
      DetectKeyed(items, "code");
    } else if AllCarry(items, "id") {
      DetectKeyed(items, "id");
    }
  }

  /** The merge of two arrays of one mode. */
  function MergeInMode(m: Mode, x: seq<Value>, y: seq<Value>): seq<Value>
    requires m.Keyed? ==> IsKeyed(x, m.field) && IsKeyed(y, m.field)
  {
    if m.Plain? then x + y else UpsertAll(x, m.field, y)
  }

  lemma JoinedMode(x: seq<Value>, y: seq<Value>, m: Mode)
    requires HasMode(x, m) && HasMode(y, m) && x + y != []
    ensures Detect(x + y) == Ok(m)
  {
    assert x == [] ==> x + y == y;
    assert y == [] ==> x + y == x;
    if x != [] && y != [] {
      assert forall v :: v in x + y <==> v in x || v in y;
      assert AllCarry(x + y, "code") <==> AllCarry(x, "code") && AllCarry(y, "code");
      assert AllCarry(x + y, "id") <==> AllCarry(x, "id") && AllCarry(y, "id");
      ModeByField(x);
      ModeByField(x + y);
      ModeByField(y);
      ModeIsPlain(x);
      ModeIsPlain(x + y);
      hide Detect;
      if m.Keyed? {
        ModeIsKeyed(x, m.field);
        ModeIsKeyed(y, m.field);
        assert IsKeyed(x + y, m.field);
        DetectFields(x);
      }
    }
  }

  lemma DetectFields(items: seq<Value>)
    requires Detect(items).Ok? && Detect(items).value.Keyed?
    ensures Detect(items).value.field == "code" || Detect(items).value.field == "id"
  {
    if AllCarry(items, "code") {
      DetectKeyed(items, "code");
    } else {
      DetectKeyed(items, "id");
    }
  }

  lemma MergeOfOneMode(x: seq<Value>, y: seq<Value>, m: Mode)
    requires HasMode(x, m) && HasMode(y, m)
    ensures m.Keyed? ==> IsKeyed(x, m.field) && IsKeyed(y, m.field)
    ensures MergeArrays(x, y) == Ok(MergeInMode(m, x, y))
  {
    if m.Keyed? {
      ModeIsKeyed(x, m.field);
      ModeIsKeyed(y, m.field);
    }
    if x + y == [] {
      assert MergeArrays(x, y) == Ok([]);
    } else {
      JoinedMode(x, y, m);
    }
  }

  // ---------- When the grouping matters ----------

  /** An array of a keyed mode keeps a keyed neighbour in its mode. */
  lemma KeyedNeighbour(u: seq<Value>, z: seq<Value>, f: string)
    requires IsKeyed(u, f) && z != [] && Detect(z) == Ok(Keyed(f))
    ensures Detect(u + z) == Ok(Keyed(f)) && Detect(z + u) == Ok(Keyed(f))
  {
    DetectFields(z);
    DetectedIsKeyed(z);
    ModeByField(z);
    assert forall v :: v in u + z <==> v in u || v in z;
    assert forall v :: v in z + u <==> v in u || v in z;
    assert IsKeyed(u + z, f) && IsKeyed(z + u, f);
    ModeByField(u + z);
    ModeByField(z + u);
    hide Detect;
    if f == "id" {
      var v :| v in z && !(v.Table? && "code" in v.at);
      assert v in u + z && v in z + u;
    }
  }

  lemma KeyedMerge(x: seq<Value>, y: seq<Value>, f: string)
    requires IsKeyed(x, f) && IsKeyed(y, f)
    requires (x != [] && Detect(x) == Ok(Keyed(f))) || (y != [] && Detect(y) == Ok(Keyed(f)))
    ensures MergeArrays(x, y) == Ok(UpsertAll(x, f, y))
  {
    hide Detect, UpsertAll;
    if x != [] && Detect(x) == Ok(Keyed(f)) {
      KeyedNeighbour(y, x, f);
    } else {
      KeyedNeighbour(x, y, f);
    }
  }

  /** Merging nothing in changes nothing, but fails when the array has a bad identifier. */
  lemma MergeNothing(u: seq<Value>)
    ensures MergeArrays(u, []) == match Detect(u) case Ok(_) => Ok(u) case Err(e) => Err(e)
  {
    assert u + [] == u;
  }

  /** When the grouping of three arrays of mode `m` does not matter. Only an empty array at an end
      can make it matter: it does not hold the others to their mode. What the first two merge to
      must then pass for an array at all, and what the last two merge to must merge onto nothing as
      it does in mode `m`. */
  ghost predicate GroupsAlike(x: seq<Value>, y: seq<Value>, z: seq<Value>, m: Mode) {
    && (m.Keyed? ==> IsKeyed(x, m.field) && IsKeyed(y, m.field) && IsKeyed(z, m.field))
    && (z == [] ==> Detect(MergeInMode(m, x, y)).Ok?)
    && (x == [] ==> MergeArrays([], MergeInMode(m, y, z)) == Ok(MergeInMode(m, [], MergeInMode(m, y, z))))
  }

  /** Three arrays of one mode merge alike in both groupings exactly then. */
  lemma ArraysAssociativeIff(x: seq<Value>, y: seq<Value>, z: seq<Value>, m: Mode)
    requires HasMode(x, m) && HasMode(y, m) && HasMode(z, m)
    ensures MergeArrays(x, y).Ok? && MergeArrays(y, z).Ok?
    ensures
      var left, right := MergeArrays(MergeArrays(x, y).value, z), MergeArrays(x, MergeArrays(y, z).value);
      left.Ok? && left == right <==> GroupsAlike(x, y, z, m)
  {
    MergeOfOneMode(x, y, m);
    MergeOfOneMode(y, z, m);
    if m.Plain? {
      PlainAlike(x, y, z);
    } else {
      ModeIsKeyed(x, m.field);
      ModeIsKeyed(y, m.field);
      ModeIsKeyed(z, m.field);
      KeyedAlike(x, y, z, m.field);
    }
  }

  lemma PlainAlike(x: seq<Value>, y: seq<Value>, z: seq<Value>)
    requires HasMode(x, Plain) && HasMode(y, Plain) && HasMode(z, Plain)
    ensures MergeArrays(x + y, z) == Ok(x + y + z) == MergeArrays(x, y + z)
    ensures GroupsAlike(x, y, z, Plain)
  {
    PlainJoin(x, y);
    PlainJoin(y, z);
    hide HasMode, Detect, MergeArrays;
    MergeOfOneMode(x + y, z, Plain);
    MergeOfOneMode(x, y + z, Plain);
    MergeOfOneMode([], y + z, Plain) by { assert HasMode([], Plain) by { NothingHasMode(Plain); } }
    assert x + (y + z) == x + y + z;
  }

  lemma NothingHasMode(m: Mode)
    ensures HasMode([], m)
  {
  }

  lemma PlainJoin(x: seq<Value>, y: seq<Value>)
    requires HasMode(x, Plain) && HasMode(y, Plain)
    ensures HasMode(x + y, Plain) && Detect(x + y) == Ok(Plain)
  {
    if x + y != [] {
      JoinedMode(x, y, Plain);
    }
  }

  lemma KeyedAlike(x: seq<Value>, y: seq<Value>, z: seq<Value>, f: string)
    requires HasMode(x, Keyed(f)) && HasMode(y, Keyed(f)) && HasMode(z, Keyed(f))
    requires IsKeyed(x, f) && IsKeyed(y, f) && IsKeyed(z, f)
    ensures
      var left, right := MergeArrays(UpsertAll(x, f, y), z), MergeArrays(x, UpsertAll(y, f, z));
      left.Ok? && left == right <==> GroupsAlike(x, y, z, Keyed(f))
  {
    var u, v := UpsertAll(x, f, y), UpsertAll(y, f, z);
    KeyedAssociative(x, f, y, z);
    if z == [] {
      MergeNothing(u);
      UpsertNone(u, f);
      UpsertNone(y, f);
      MergeOfOneMode(x, y, Keyed(f));
    } else {
      KeyedMerge(u, z, f);
    }
    if x != [] {
      KeyedMerge(x, v, f);
    }
    hide MergeArrays, UpsertAll, Detect, IsKeyed;
  }

  /** So arrays that are not empty may be grouped at will, however often they repeat an identity. */
  lemma NonEmptyArraysAssociative(x: seq<Value>, y: seq<Value>, z: seq<Value>, m: Mode)
    requires HasMode(x, m) && HasMode(y, m) && HasMode(z, m) && x != [] && z != []
    ensures MergeArrays(x, y).Ok? && MergeArrays(y, z).Ok?
    ensures MergeArrays(MergeArrays(x, y).value, z).Ok?
    ensures MergeArrays(MergeArrays(x, y).value, z) == MergeArrays(x, MergeArrays(y, z).value)
  {
    ArraysAssociativeIff(x, y, z, m);
    if m.Keyed? {
      ModeIsKeyed(x, m.field);
      ModeIsKeyed(y, m.field);
      ModeIsKeyed(z, m.field);
    }
    hide MergeArrays;
  }

  // ---------- Modes that last ----------

  /** An item without `code` stands last for its `id`, so no merge by `id` loses it. */
  ghost predicate HasUncoded(items: seq<Value>)
    requires IsKeyed(items, "id")
  {
    exists i :: 0 <= i < |items| && Uncoded(items, i)
  }

  ghost predicate Uncoded(items: seq<Value>, i: nat)
    requires IsKeyed(items, "id") && i < |items|
  {
    "code" !in items[i].at && LastIndex(items, "id", Key(items[i], "id")) == i
  }

  /** The array has mode `m` and keeps it under every merge. */
  ghost predicate KeepsMode(items: seq<Value>, m: Mode) {
    HasMode(items, m) && (items != [] && m == Keyed("id") ==> IsKeyed(items, "id") && HasUncoded(items))
  }

  /** Where the last override of each key ends up: last for its key. */
  lemma LastOverrideKept(x: seq<Value>, field: string, y: seq<Value>, i: nat) returns (p: nat)
    requires IsKeyed(x, field) && IsKeyed(y, field) && i < |y|
    requires LastIndex(y, field, Key(y[i], field)) == i
    ensures
      var r := UpsertAll(x, field, y);
      p < |r| && r[p] == y[i] && LastIndex(r, field, Key(r[p], field)) == p
  {
    hide *;
    KeyedItem(y, field, i);
    var r, k := UpsertAll(x, field, y), Key(y[i], field);
    UpsertAllIsKeyedMerge(x, field, y);
    NewKeysAre(x, field, y);
    KeyPosition(x, field, y, r, k);
    var q, ks := LastIndex(x, field, k), NewKeys(x, field, y);
    if 0 <= q {
      p := q;
      LastKeyAt(x, field, k);
      OldSlot(x, field, y, r, i, p);
    } else {
      assert k in ks;
      var j :| 0 <= j < |ks| && ks[j] == k;
      p := |x| + j;
      AddedSlot(x, field, y, r, i, j);
    }
  }

  lemma OldSlot(x: seq<Value>, field: string, y: seq<Value>, r: seq<Value>, i: nat, p: nat)
    requires IsKeyed(x, field) && IsKeyed(y, field) && IsKeyedMerge(x, field, y, r) && i < |y| && p < |x|
    requires Key(x[p], field) == Key(y[i], field) && LastIndex(x, field, Key(y[i], field)) == p
    requires LastIndex(y, field, Key(y[i], field)) == i
    ensures p < |r| && r[p] == y[i]
  {
    hide LastIndex, NewKeys, Key, IsKeyed;
    assert BaseSlot(x, field, y, p, r[p]);
  }

  lemma AddedSlot(x: seq<Value>, field: string, y: seq<Value>, r: seq<Value>, i: nat, j: nat)
    requires IsKeyed(x, field) && IsKeyed(y, field) && IsKeyedMerge(x, field, y, r) && i < |y|
    requires j < |NewKeys(x, field, y)| && NewKeys(x, field, y)[j] == Key(y[i], field)
    requires LastIndex(y, field, Key(y[i], field)) == i
    ensures |x| + j < |r| && r[|x| + j] == y[i]
  {
    hide LastIndex, NewKeys, Key, IsKeyed;
    assert IsLastOverride(y, field, NewKeys(x, field, y)[j], r[|x| + j]);
  }

  lemma LastKeyAt(items: seq<Value>, field: string, k: string)
    requires IsKeyed(items, field) && 0 <= LastIndex(items, field, k)
    ensures Key(items[LastIndex(items, field, k)], field) == k
  {
  }

  lemma MergeKeepsMode(x: seq<Value>, y: seq<Value>, m: Mode)
    requires KeepsMode(x, m) && KeepsMode(y, m)
    ensures m.Keyed? ==> IsKeyed(x, m.field) && IsKeyed(y, m.field)
    ensures KeepsMode(MergeInMode(m, x, y), m)
  {
    MergeOfOneMode(x, y, m);
    if m.Plain? {
      if x + y != [] {
        JoinedMode(x, y, m);
      }
    } else if y == [] {
      UpsertNone(x, m.field);
    } else {
      DetectFields(y);
      var r := UpsertAll(x, m.field, y);
      ModeByField(r);
      if m.field == "id" {
        var i :| 0 <= i < |y| && Uncoded(y, i);
        var p := LastOverrideKept(x, "id", y, i);
        assert Uncoded(r, p) && r[p] in r;
      } else {
        var p := LastOverrideKept(x, "code", y, LastIndex(y, "code", Key(y[0], "code")));
        assert r != [];
      }
    }
  }

  /** Arrays that keep one mode may be grouped at will, empty ones too. */
  lemma ArraysAssociative(x: seq<Value>, y: seq<Value>, z: seq<Value>, m: Mode)
    requires KeepsMode(x, m) && KeepsMode(y, m) && KeepsMode(z, m)
    ensures GroupsAlike(x, y, z, m)
  {
    MergeKeepsMode(x, y, m);
    MergeKeepsMode(y, z, m);
    MergeOfOneMode(y, z, m);
    hide KeepsMode;
    KeptIsAlike(MergeInMode(m, x, y), MergeInMode(m, y, z), m);
  }

  lemma KeptIsAlike(u: seq<Value>, v: seq<Value>, m: Mode)
    requires KeepsMode(u, m) && KeepsMode(v, m)
    ensures Detect(u).Ok?
    ensures m.Keyed? ==> IsKeyed(v, m.field)
    ensures MergeArrays([], v) == Ok(MergeInMode(m, [], v))
  {
    MergeOfOneMode([], v, m);
  }

  /** An array keyed by `id` keeps its mode exactly when merging it onto nothing does. */
  lemma KeptExactly(y: seq<Value>)
    requires y != [] && Detect(y) == Ok(Keyed("id"))
    ensures IsKeyed(y, "id")
    ensures KeepsMode(y, Keyed("id")) <==> Detect(UpsertAll([], "id", y)) == Ok(Keyed("id"))
  {
    DetectedIsKeyed(y);
    hide Detect, UpsertAll, LastIndex;
    if KeepsMode(y, Keyed("id")) {
      MergeKeepsMode([], y, Keyed("id"));
      var i :| 0 <= i < |y| && Uncoded(y, i);
      var p := LastOverrideKept([], "id", y, i);
    }
    if Detect(UpsertAll([], "id", y)) == Ok(Keyed("id")) {
      UncodedBefore(y);
    }
  }

  lemma UncodedBefore(y: seq<Value>)
    requires IsKeyed(y, "id") && Detect(UpsertAll([], "id", y)) == Ok(Keyed("id"))
    ensures HasUncoded(y)
  {
    hide *;
    UpsertNone(y, "id");
    var r := UpsertAll([], "id", y);
    var p := UncodedIn(r);
    UpsertAllIsKeyedMerge([], "id", y);
    var i := OverrideOf(y, r, p);
    StandsLast(y, i, r[p]);
  }

  lemma UncodedIn(r: seq<Value>) returns (p: nat)
    requires Detect(r) == Ok(Keyed("id"))
    ensures p < |r| && r[p].Table? && "code" !in r[p].at
  {
    ModeByField(r);
    var i :| 0 <= i < |r| && !(r[i].Table? && "code" in r[i].at);
    p := i;
    assert r[p] in r;
  }

  /** What merging onto nothing holds are overrides that stand last. */
  lemma OverrideOf(y: seq<Value>, r: seq<Value>, p: nat) returns (i: nat)
    requires IsKeyed([], "id") && IsKeyed(y, "id") && IsKeyedMerge([], "id", y, r) && p < |r|
    ensures i < |y| && y[i] == r[p] && IsKeyed([y[i]], "id") && LastIndex(y, "id", Key(y[i], "id")) == i
  {
    hide LastIndex, NewKeys;
    var k := NewKeys([], "id", y)[p];
    assert IsLastOverride(y, "id", k, r[0 + p]);
    i := LastIndex(y, "id", k);
    LastKeyAt(y, "id", k);
  }

  lemma StandsLast(y: seq<Value>, i: nat, v: Value)
    requires IsKeyed(y, "id") && i < |y| && y[i] == v && v.Table? && "code" !in v.at
    requires IsKeyed([y[i]], "id") && LastIndex(y, "id", Key(y[i], "id")) == i
    ensures HasUncoded(y)
  {
    hide LastIndex;
    assert Uncoded(y, i);
  }

  // ---------- Where an empty array makes grouping matter ----------

  function Item(id: string): Value { Table(["id"], map["id" := Text(id)]) }

  function CodedItem(id: string, code: string): Value {
    Table(["id", "code"], map["id" := Text(id), "code" := Text(code)])
  }

  /** The last two arrays are keyed by `id` and the first is empty, yet grouping matters: merging the
      last two leaves only items that carry `code`, and nothing holds the next merge to `id`. */
  lemma RepeatedIdsChangeMode()
    ensures
      var x, y, z := [], [Item("a"), Item("b")], [Item("b"), CodedItem("b", "q"), Item("a"), CodedItem("a", "q")];
      && Detect(y) == Detect(z) == Ok(Keyed("id"))
      && MergeArrays(x, y).Ok? && MergeArrays(y, z).Ok?
      && MergeArrays(MergeArrays(x, y).value, z) == Ok([CodedItem("a", "q"), CodedItem("b", "q")])
      && MergeArrays(x, MergeArrays(y, z).value) == Ok([CodedItem("b", "q")])
  {
    var a, b, a', b' := Item("a"), Item("b"), CodedItem("a", "q"), CodedItem("b", "q");
    Modes(a, b, a', b');
    assert IsKeyed([a], "id") && IsKeyed([b], "id") && IsKeyed([a'], "id") && IsKeyed([b'], "id");
    assert IsKeyed([a'], "code") && IsKeyed([b'], "code");
    RegroupedByCode(a, b, a', b');
  }

  lemma RegroupedByCode(a: Value, b: Value, a': Value, b': Value)
    requires IsKeyed([a], "id") && IsKeyed([b], "id") && IsKeyed([a'], "id") && IsKeyed([b'], "id")
    requires Key(a, "id") == Key(a', "id") != Key(b, "id") == Key(b', "id")
    requires IsKeyed([a'], "code") && IsKeyed([b'], "code") && Key(a', "code") == Key(b', "code")
    requires Detect([a, b]) == Detect([a, b] + [b, b', a, a']) == Ok(Keyed("id"))
    requires Detect([a', b']) == Ok(Keyed("code"))
    ensures MergeArrays([], [a, b]) == Ok([a, b])
    ensures MergeArrays([a, b], [b, b', a, a']) == Ok([a', b'])
    ensures MergeArrays([], [a', b']) == Ok([b'])
  {
    hide *;
    assert [] + [a, b] == [a, b] && [] + [a', b'] == [a', b'];
    OntoNothing("id", a, b);
    OntoNothing("code", a', b');
    Overrides("id", a, b, a', b');
    MergesByKey([], [a, b], "id", [a, b]);
    MergesByKey([a, b], [b, b', a, a'], "id", [a', b']);
    MergesByKey([], [a', b'], "code", [b']);
  }

  lemma MergesByKey(x: seq<Value>, y: seq<Value>, field: string, r: seq<Value>)
    requires IsKeyed(x, field) && IsKeyed(y, field) && Detect(x + y) == Ok(Keyed(field)) && UpsertAll(x, field, y) == r
    ensures MergeArrays(x, y) == Ok(r)
  {
  }

  lemma Modes(a: Value, b: Value, a': Value, b': Value)
    requires a == Item("a") && b == Item("b") && a' == CodedItem("a", "q") && b' == CodedItem("b", "q")
    ensures Detect([a, b]) == Detect([b, b', a, a']) == Detect([a, b] + [b, b', a, a']) == Ok(Keyed("id"))
    ensures Detect([a', b']) == Ok(Keyed("code"))
  {
    var y, z := [a, b], [b, b', a, a'];
    hide Detect;
    DetectsId(y, a);
    DetectsId(z, b);
    assert y + z == [a, b, b, b', a, a'];
    DetectsId(y + z, a);
    DetectsCode([a', b']);
  }

  lemma OntoNothing(f: string, a: Value, b: Value)
    requires IsKeyed([a], f) && IsKeyed([b], f)
    ensures IsKeyed([], f) && IsKeyed([a, b], f)
    ensures UpsertAll([], f, [a, b]) == if Key(a, f) == Key(b, f) then [b] else [a, b]
  {
    UpsertNone([], f);
    UpsertBody([], f, a);
    UpsertBody([a], f, b);
    LastIndexUnique([a], f, Key(b, f), if Key(a, f) == Key(b, f) then 0 else -1);
    hide *;
    assert [] + [a] == [a] && [a] + [b] == [a, b];
    Step([], f, [], a, [], [a]);
    Step([], f, [a], b, [a], if Key(a, f) == Key(b, f) then [b] else [a, b]);
  }

  lemma Overrides(f: string, a: Value, b: Value, a': Value, b': Value)
    requires IsKeyed([a], f) && IsKeyed([b], f) && IsKeyed([a'], f) && IsKeyed([b'], f)
    requires Key(a, f) == Key(a', f) != Key(b, f) == Key(b', f)
    ensures IsKeyed([a, b], f) && IsKeyed([b, b', a, a'], f)
    ensures UpsertAll([a, b], f, [b, b', a, a']) == [a', b']
  {
    hide *;
    var y := [a, b];
    KeyedParts([a], f, b);
    KeyedParts([a], f, b');
    assert [a] + [b] == y && [a] + [b'] == [a, b'];
    UpsertNone(y, f);
    UpsertAt(y, f, b, 1);
    Step(y, f, [], b, y, y);
    assert [] + [b] == [b];
    UpsertAt(y, f, b', 1);
    Step(y, f, [b], b', y, [a, b']);
    assert [b] + [b'] == [b, b'];
    UpsertAt([a, b'], f, a, 0);
    Step(y, f, [b, b'], a, [a, b'], [a, b']);
    assert [b, b'] + [a] == [b, b', a];
    UpsertAt([a, b'], f, a', 0);
    Step(y, f, [b, b', a], a', [a, b'], [a', b']);
    assert [b, b', a] + [a'] == [b, b', a, a'];
  }

  lemma UpsertAt(s: seq<Value>, field: string, d: Value, p: nat)
    requires IsKeyed(s, field) && IsKeyed([d], field) && p < |s|
    requires Key(s[p], field) == Key(d, field)
    requires forall i :: p < i < |s| ==> Key(s[i], field) != Key(d, field)
    ensures Upsert(s, field, d) == s[p := d]
  {
    LastIndexUnique(s, field, Key(d, field), p);
  }

  lemma UpsertNone(x: seq<Value>, field: string)
    requires IsKeyed(x, field)
    ensures IsKeyed([], field) && UpsertAll(x, field, []) == x
  {
  }

  lemma DetectsId(items: seq<Value>, first: Value)
    requires items != [] && items[0] == first && first.Table? && "code" !in first.at && IsKeyed(items, "id")
    ensures Detect(items) == Ok(Keyed("id"))
  {
    ModeByField(items);
  }

  lemma DetectsCode(items: seq<Value>)
    requires items != [] && IsKeyed(items, "code")
    ensures Detect(items) == Ok(Keyed("code"))
  {
    ModeByField(items);
  }

  lemma Step(x: seq<Value>, field: string, w: seq<Value>, d: Value, before: seq<Value>, after: seq<Value>)
    requires IsKeyed(x, field) && IsKeyed(w, field) && IsKeyed([d], field)
    requires UpsertAll(x, field, w) == before && Upsert(before, field, d) == after
    ensures IsKeyed(w + [d], field)
    ensures UpsertAll(x, field, w + [d]) == after
  {
    KeyedParts(w, field, d);
    UpsertAllAppended(x, field, w, d);
  }
}
