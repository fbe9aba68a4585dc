/** Splitting a list of layers: merging it whole is merging the two merged parts. */
module ConfigFold {
  import opened ConfigMerge
  import opened ConfigArrays
  import opened ConfigLayers
  import opened ConfigAlgebra

  // ---------- Agreement that lasts ----------

  /** At each path the two share, arrays use one merge mode and keep it. */
  ghost predicate KeepOneMode(a: Value, b: Value) {
    && (a.Table? && b.Table? ==> forall k :: k in a.at && k in b.at ==> KeepOneMode(a.at[k], b.at[k]))
    && (a.Array? && b.Array? ==> exists m :: KeepsMode(a.items, m) && KeepsMode(b.items, m))
  }

  /** At no path shared by all three does `b` put another kind between two containers of one kind. */
  ghost predicate NoMask(a: Value, b: Value, c: Value) {
    && (SameContainer(a, c) ==> SameContainer(a, b))
    && (a.Table? && b.Table? && c.Table? ==>
          forall k :: k in a.at && k in b.at && k in c.at ==> NoMask(a.at[k], b.at[k], c.at[k]))
  }

  lemma {:induction false} KeepSymmetric(a: Value, b: Value)
    requires KeepOneMode(a, b)
    ensures KeepOneMode(b, a)
    decreases a
  {
    if a.Table? && b.Table? {
      forall k | k in b.at && k in a.at
        ensures KeepOneMode(b.at[k], a.at[k])
      {
        KeepSymmetric(a.at[k], b.at[k]);
      }
    }
  }

  lemma {:induction false} KeepIsOneMode(a: Value, b: Value)
    requires KeepOneMode(a, b)
    ensures OneMode(a, b)
    decreases a
  {
    if a.Table? && b.Table? {
      forall k | k in a.at && k in b.at
        ensures OneMode(a.at[k], b.at[k])
      {
        KeepIsOneMode(a.at[k], b.at[k]);
      }
    }
  }

  lemma KeptMode(x: seq<Value>, y: seq<Value>, z: seq<Value>) returns (m: Mode)
    requires exists m :: KeepsMode(x, m) && KeepsMode(y, m)
    requires exists m :: KeepsMode(x, m) && KeepsMode(z, m)
    requires exists m :: KeepsMode(y, m) && KeepsMode(z, m)
    ensures KeepsMode(x, m) && KeepsMode(y, m) && KeepsMode(z, m)
  {
    if x != [] {
      m :| KeepsMode(x, m) && KeepsMode(y, m);
    } else {
      m :| KeepsMode(y, m) && KeepsMode(z, m);
    }
  }

  lemma {:induction false} KeepIsGroupingFree(a: Value, b: Value, c: Value)
    requires KeepOneMode(a, b) && KeepOneMode(a, c) && KeepOneMode(b, c) && NoMask(a, b, c)
    ensures GroupingFree(a, b, c)
    decreases a
  {
    if a.Table? && b.Table? && c.Table? {
      forall k | k in a.at && k in b.at && k in c.at
        ensures GroupingFree(a.at[k], b.at[k], c.at[k])
      {
        KeepIsGroupingFree(a.at[k], b.at[k], c.at[k]);
      }
    } else if a.Array? && b.Array? && c.Array? {
      hide GroupsAlike, Merge;
      var m := KeptMode(a.items, b.items, c.items);
      ArraysAssociative(a.items, b.items, c.items, m);
      assert AllHaveMode(a.items, b.items, c.items, m);
    }
  }

  /** Layers whose arrays keep one mode, and that mask nothing, may be grouped at will. */
  lemma Associative(a: Value, b: Value, c: Value)
    requires WellFormed(a) && WellFormed(b) && WellFormed(c)
    requires KeepOneMode(a, b) && KeepOneMode(a, c) && KeepOneMode(b, c) && NoMask(a, b, c)
    ensures Groups(a, b, c)
  {
    hide *;
    KeepIsOneMode(a, b);
    KeepIsOneMode(a, c);
    KeepIsOneMode(b, c);
    KeepIsGroupingFree(a, b, c);
    AssociativeIff(a, b, c);
  }

  lemma KeepMerges(a: Value, b: Value)
    requires WellFormed(a) && WellFormed(b) && KeepOneMode(a, b)
    ensures OneMode(a, b) && Merge(a, b).Ok? && WellFormed(Merge(a, b).value)
  {
    KeepIsOneMode(a, b);
    OneModeMerges(a, b);
  }

  function Merged(a: Value, b: Value): Value
    requires Merge(a, b).Ok?
  {
    Merge(a, b).value
  }

  /** What `t`, the merge of tables `a` and `b`, holds at a key. */
  lemma MergedAt(a: Value, b: Value, k: string)
    requires a.Table? && b.Table? && WellFormed(a) && WellFormed(b) && OneMode(a, b)
    ensures Merge(a, b).Ok? && Merged(a, b).Table? && HoldsAt(a, b, Merged(a, b), k)
  {
    hide *;
    OneModeMerges(a, b);
    TablesMerge(a, b);
    MergedIs(a, b);
    PointwiseTable(a, b, Merged(a, b));
    PointwiseHolds(a, b, Merged(a, b), k);
  }

  lemma MergedIs(a: Value, b: Value)
    requires Merge(a, b).Ok?
    ensures Merged(a, b) == Merge(a, b).value
  {
  }

  lemma MergedKind(a: Value, b: Value)
    requires Merge(a, b).Ok?
    ensures Merged(a, b).Table? <==> b.Table?
    ensures Merged(a, b).Array? <==> b.Array?
    ensures !SameContainer(a, b) ==> Merged(a, b) == b
  {
  }

  lemma {:induction false} KeepClosed(a: Value, b: Value, d: Value)
    requires WellFormed(a) && WellFormed(b)
    requires KeepOneMode(a, b) && KeepOneMode(a, d) && KeepOneMode(b, d)
    ensures Merge(a, b).Ok? && KeepOneMode(Merged(a, b), d)
    decreases a
  {
    KeepMerges(a, b);
    MergedKind(a, b);
    var t := Merged(a, b);
    if a.Table? && b.Table? && d.Table? {
      forall k | k in t.at && k in d.at
        ensures KeepOneMode(t.at[k], d.at[k])
      {
        KeepClosedAt(a, b, d, k);
        if k in a.at && k in b.at {
          KeepClosed(a.at[k], b.at[k], d.at[k]);
        }
      }
    } else if a.Array? && b.Array? && d.Array? {
      var m := KeptMode(a.items, b.items, d.items);
      MergeOfOneMode(a.items, b.items, m);
      MergeKeepsMode(a.items, b.items, m);
    }
  }

  lemma KeepClosedAt(a: Value, b: Value, d: Value, k: string)
    requires a.Table? && b.Table? && d.Table? && WellFormed(a) && WellFormed(b)
    requires KeepOneMode(a, b) && KeepOneMode(a, d) && KeepOneMode(b, d)
    ensures Merge(a, b).Ok? && Merged(a, b).Table?
    ensures k in Merged(a, b).at && k in d.at && !(k in a.at && k in b.at) ==> KeepOneMode(Merged(a, b).at[k], d.at[k])
    ensures k in Merged(a, b).at && k in a.at && k in b.at ==> Merge(a.at[k], b.at[k]) == Ok(Merged(a, b).at[k])
  {
    KeepIsOneMode(a, b);
    MergedAt(a, b, k);
    hide Merge, Merged, WellFormed;
  }

  /** Merging the first two of four layers masks nothing new. */
  lemma {:induction false} NoMaskFirst(a: Value, b: Value, c: Value, d: Value)
    requires WellFormed(a) && WellFormed(b) && KeepOneMode(a, b)
    requires NoMask(a, b, c) && NoMask(a, b, d) && NoMask(a, c, d) && NoMask(b, c, d)
    ensures Merge(a, b).Ok? && NoMask(Merged(a, b), c, d)
    decreases a
  {
    KeepMerges(a, b);
    MergedKind(a, b);
    var t := Merged(a, b);
    if a.Table? && b.Table? && c.Table? && d.Table? {
      forall k | k in t.at && k in c.at && k in d.at
        ensures NoMask(t.at[k], c.at[k], d.at[k])
      {
        MergedAt(a, b, k);
        if k in a.at && k in b.at {
          NoMaskFirst(a.at[k], b.at[k], c.at[k], d.at[k]);
        }
      }
      hide Merge, Merged, WellFormed, OneMode, KeepOneMode;
    }
  }

  /** Merging the middle two of four layers masks nothing new. */
  lemma {:induction false} NoMaskMiddle(a: Value, b: Value, c: Value, d: Value)
    requires WellFormed(b) && WellFormed(c) && KeepOneMode(b, c)
    requires NoMask(a, b, c) && NoMask(a, b, d) && NoMask(a, c, d) && NoMask(b, c, d)
    ensures Merge(b, c).Ok? && NoMask(a, Merged(b, c), d)
    decreases b
  {
    KeepMerges(b, c);
    MergedKind(b, c);
    var t := Merged(b, c);
    if a.Table? && b.Table? && c.Table? && d.Table? {
      forall k | k in a.at && k in t.at && k in d.at
        ensures NoMask(a.at[k], t.at[k], d.at[k])
      {
        MergedAt(b, c, k);
        if k in b.at && k in c.at {
          NoMaskMiddle(a.at[k], b.at[k], c.at[k], d.at[k]);
        }
      }
      hide Merge, Merged, WellFormed, OneMode, KeepOneMode;
    }
  }

  // ---------- Lists of layers ----------

  /** Tables any two of which keep one mode, and no three of which mask. */
  ghost predicate LayersAgree(ls: seq<Value>) {
    && (forall i :: 0 <= i < |ls| ==> ls[i].Table? && WellFormed(ls[i]))
    && (forall i, j :: 0 <= i < j < |ls| ==> KeepOneMode(ls[i], ls[j]))
    && (forall i, j, k :: 0 <= i < j < k < |ls| ==> NoMask(ls[i], ls[j], ls[k]))
  }

  lemma MergeFirstTwo(x: Value, y: Value, rest: seq<Value>)
    requires LayersAgree([x, y] + rest)
    ensures Merge(x, y).Ok? && LayersAgree([Merged(x, y)] + rest)
  {
    hide *;
    var ls := [x, y] + rest;
    FirstTwo(ls);
    var t := Merged(x, y);
    var ms := [t] + rest;
    forall i | 0 <= i < |rest|
      ensures KeepOneMode(t, rest[i])
    {
      AgreeThree(ls, 0, 1, i + 2);
      KeepClosed(x, y, rest[i]);
    }
    forall i, j | 0 <= i < j < |rest|
      ensures NoMask(t, rest[i], rest[j])
    {
      AgreeThree(ls, 0, 1, i + 2);
      AgreeThree(ls, 0, 1, j + 2);
      AgreeThree(ls, 0, i + 2, j + 2);
      AgreeThree(ls, 1, i + 2, j + 2);
      NoMaskFirst(x, y, rest[i], rest[j]);
    }
    AgreeTail(ls, 2);
    AgreeCons(t, rest);
  }

  lemma FirstTwo(ls: seq<Value>)
    requires LayersAgree(ls) && 2 <= |ls|
    ensures KeepOneMode(ls[0], ls[1]) && WellFormed(ls[0]) && WellFormed(ls[1])
    ensures Merge(ls[0], ls[1]).Ok? && Merged(ls[0], ls[1]).Table? && WellFormed(Merged(ls[0], ls[1]))
  {
    KeepMerges(ls[0], ls[1]);
    MergedKind(ls[0], ls[1]);
    hide Merge;
  }

  lemma AgreeThree(ls: seq<Value>, i: nat, j: nat, k: nat)
    requires LayersAgree(ls) && i < j < k < |ls|
    ensures WellFormed(ls[i]) && WellFormed(ls[j]) && WellFormed(ls[k])
    ensures KeepOneMode(ls[i], ls[j]) && KeepOneMode(ls[i], ls[k]) && KeepOneMode(ls[j], ls[k])
    ensures NoMask(ls[i], ls[j], ls[k])
  {
    hide WellFormed, KeepOneMode, NoMask;
  }

  lemma AgreeTail(ls: seq<Value>, n: nat)
    requires LayersAgree(ls) && n <= |ls|
    ensures LayersAgree(ls[n..])
  {
    hide WellFormed, KeepOneMode, NoMask;
  }

  lemma AgreeCons(t: Value, rest: seq<Value>)
    requires LayersAgree(rest) && t.Table? && WellFormed(t)
    requires forall i :: 0 <= i < |rest| ==> KeepOneMode(t, rest[i])
    requires forall i, j :: 0 <= i < j < |rest| ==> NoMask(t, rest[i], rest[j])
    ensures LayersAgree([t] + rest)
  {
    hide *;
    var ls := [t] + rest;
    assert ls[0] == t;
    forall i | 0 <= i < |ls|
      ensures ls[i].Table? && WellFormed(ls[i])
    {
      if 0 < i {
        AgreeTable(rest, i - 1);
      }
    }
    forall i, j | 0 <= i < j < |ls|
      ensures KeepOneMode(ls[i], ls[j])
    {
      ConsPair(t, rest, i, j);
    }
    forall i, j, k | 0 <= i < j < k < |ls|
      ensures NoMask(ls[i], ls[j], ls[k])
    {
      ConsTriple(t, rest, i, j, k);
    }
    AgreeParts(ls);
  }

  lemma ConsPair(t: Value, rest: seq<Value>, i: nat, j: nat)
    requires LayersAgree(rest) && i < j <= |rest|
    requires forall i :: 0 <= i < |rest| ==> KeepOneMode(t, rest[i])
    ensures KeepOneMode(([t] + rest)[i], ([t] + rest)[j])
  {
    hide *;
    if 0 < i {
      AgreeTwo(rest, i - 1, j - 1);
    }
  }

  lemma ConsTriple(t: Value, rest: seq<Value>, i: nat, j: nat, k: nat)
    requires LayersAgree(rest) && i < j < k <= |rest|
    requires forall i, j :: 0 <= i < j < |rest| ==> NoMask(t, rest[i], rest[j])
    ensures NoMask(([t] + rest)[i], ([t] + rest)[j], ([t] + rest)[k])
  {
    hide *;
    if 0 < i {
      AgreeThree(rest, i - 1, j - 1, k - 1);
    }
  }

  lemma AgreeParts(ls: seq<Value>)
    requires forall i :: 0 <= i < |ls| ==> ls[i].Table? && WellFormed(ls[i])
    requires forall i, j :: 0 <= i < j < |ls| ==> KeepOneMode(ls[i], ls[j])
    requires forall i, j, k :: 0 <= i < j < k < |ls| ==> NoMask(ls[i], ls[j], ls[k])
    ensures LayersAgree(ls)
  {
    hide WellFormed, KeepOneMode, NoMask;
  }

  lemma MergeNextTwo(x: Value, y: Value, z: Value, rest: seq<Value>)
    requires LayersAgree([x, y, z] + rest)
    ensures Merge(y, z).Ok? && LayersAgree([x, Merged(y, z)] + rest)
  {
    hide *;
    var ls := [x, y, z] + rest;
    assert ls[1..] == [y, z] + rest;
    AgreeTail(ls, 1);
    MergeFirstTwo(y, z, rest);
    var t := Merged(y, z);
    var tail := [t] + rest;
    AgreeThree(ls, 0, 1, 2);
    AgreeHead(ls);
    KeepSymmetric(x, y);
    KeepSymmetric(x, z);
    KeepClosed(y, z, x);
    KeepSymmetric(t, x);
    forall i | 0 <= i < |tail|
      ensures KeepOneMode(x, tail[i])
    {
      if 0 < i {
        AgreeThree(ls, 0, 1, i + 2);
      }
    }
    forall i, j | 0 <= i < j < |tail|
      ensures NoMask(x, tail[i], tail[j])
    {
      AgreeThree(ls, 0, 1, j + 2);
      AgreeThree(ls, 0, 2, j + 2);
      AgreeThree(ls, 1, 2, j + 2);
      if i == 0 {
        NoMaskMiddle(x, y, z, tail[j]);
      } else {
        AgreeThree(ls, 0, i + 2, j + 2);
      }
    }
    AgreeCons(x, tail);
    assert [x] + tail == [x, t] + rest;
  }

  lemma AgreeHead(ls: seq<Value>)
    requires LayersAgree(ls) && ls != []
    ensures ls[0].Table? && WellFormed(ls[0])
  {
  }

  /** Folding from a merge is merging with the fold. */
  lemma {:induction false} FoldSplits(x: Value, y: Value, ls: seq<Value>)
    requires LayersAgree([x, y] + ls)
    ensures Merge(x, y).Ok? && MergeLayersFrom(y, ls).Ok?
    ensures Merge(x, MergeLayersFrom(y, ls).value).Ok?
    ensures MergeLayersFrom(Merged(x, y), ls) == Merge(x, MergeLayersFrom(y, ls).value)
    decreases |ls|
  {
    hide *;
    FirstTwo([x, y] + ls);
    if ls == [] {
      FoldNothing(y);
      FoldNothing(Merged(x, y));
      MergedIs(x, y);
    } else {
      var z, rest := ls[0], ls[1..];
      assert [x, y] + ls == [x, y, z] + rest;
      AgreeThree([x, y] + ls, 0, 1, 2);
      Associative(x, y, z);
      GroupsParts(x, y, z);
      MergedIs(x, y);
      MergeNextTwo(x, y, z, rest);
      MergedIs(y, z);
      FoldSplits(x, Merged(y, z), rest);
      MergedIs(x, Merged(y, z));
      FoldStep(y, ls);
      FoldStep(Merged(x, y), ls);
    }
  }

  lemma FoldNothing(x: Value)
    ensures MergeLayersFrom(x, []) == Ok(x)
  {
  }

  lemma FoldStep(x: Value, ls: seq<Value>)
    requires ls != []
    ensures Merge(x, ls[0]).Ok? ==> MergeLayersFrom(x, ls) == MergeLayersFrom(Merge(x, ls[0]).value, ls[1..])
    ensures Merge(x, ls[0]).Err? ==> MergeLayersFrom(x, ls).Err?
  {
  }

  /** The last layer is merged last. */
  lemma {:induction false} FoldLast(x: Value, ls: seq<Value>)
    requires ls != []
    ensures
      var before := MergeLayersFrom(x, ls[..|ls| - 1]);
      MergeLayersFrom(x, ls) == match before case Ok(m) => Merge(m, ls[|ls| - 1]) case Err(e) => Err(e)
    decreases |ls|
  {
    hide Merge;
    if |ls| == 1 {
      assert ls[1..] == [];
    } else {
      var init := ls[..|ls| - 1];
      assert init[1..] == ls[1..][..|ls[1..]| - 1];
      if Merge(x, ls[0]).Ok? {
        FoldLast(Merge(x, ls[0]).value, ls[1..]);
      }
    }
  }

  /** No agreement in advance is needed: folding from a merge is merging with the fold as soon as each
      layer groups with what was folded before it. */
  lemma {:induction false} FoldRegroups(x: Value, y: Value, ls: seq<Value>)
    requires Merge(x, y).Ok?
    requires forall i :: 0 <= i < |ls| ==>
               MergeLayersFrom(y, ls[..i]).Ok? && Groups(x, MergeLayersFrom(y, ls[..i]).value, ls[i])
    ensures MergeLayersFrom(y, ls).Ok? && Merge(x, MergeLayersFrom(y, ls).value).Ok?
    ensures MergeLayersFrom(Merged(x, y), ls) == Merge(x, MergeLayersFrom(y, ls).value)
    decreases |ls|
  {
    hide MergeLayersFrom, Merge;
    if ls == [] {
      FoldNothing(y);
      FoldNothing(Merged(x, y));
    } else {
      var n := |ls| - 1;
      forall i | 0 <= i < n
        ensures MergeLayersFrom(y, ls[..n][..i]).Ok?
        ensures Groups(x, MergeLayersFrom(y, ls[..n][..i]).value, ls[..n][i])
      {
        assert ls[..n][..i] == ls[..i];
      }
      FoldRegroups(x, y, ls[..n]);
      FoldLast(y, ls);
      FoldLast(Merged(x, y), ls);
      assert Groups(x, MergeLayersFrom(y, ls[..n]).value, ls[n]);
    }
  }

  /** Agreeing layers fold, and what they fold to agrees with the layers to come. */
  lemma {:induction false} FoldAgrees(x: Value, xs: seq<Value>, ys: seq<Value>)
    requires LayersAgree([x] + xs + ys)
    ensures MergeLayersFrom(x, xs).Ok? && LayersAgree([MergeLayersFrom(x, xs).value] + ys)
    ensures MergeLayersFrom(x, xs + ys) == MergeLayersFrom(MergeLayersFrom(x, xs).value, ys)
    decreases |xs|
  {
    hide *;
    if xs == [] {
      FoldNothing(x);
      assert xs + ys == ys && [x] + xs + ys == [x] + ys;
    } else {
      var y, rest := xs[0], xs[1..];
      assert [x] + xs + ys == [x, y] + (rest + ys);
      assert (xs + ys)[1..] == rest + ys;
      MergeFirstTwo(x, y, rest + ys);
      MergedIs(x, y);
      assert [Merged(x, y)] + (rest + ys) == [Merged(x, y)] + rest + ys;
      FoldAgrees(Merged(x, y), rest, ys);
      FoldStep(x, xs);
      FoldStep(x, xs + ys);
    }
  }

  lemma EmptyAgrees(t: Value)
    requires t.Table?
    ensures KeepOneMode(EMPTY, t) && KeepOneMode(t, EMPTY) && WellFormed(EMPTY)
    ensures forall u: Value :: u.Table? ==> NoMask(EMPTY, t, u) && NoMask(t, EMPTY, u)
  {
  }

  lemma AgreeAfterEmpty(ls: seq<Value>)
    requires LayersAgree(ls)
    ensures LayersAgree([EMPTY] + ls)
  {
    hide WellFormed, KeepOneMode, NoMask;
    forall i | 0 <= i < |ls|
      ensures KeepOneMode(EMPTY, ls[i])
      ensures forall j :: i < j < |ls| ==> NoMask(EMPTY, ls[i], ls[j])
    {
      EmptyAgrees(ls[i]);
    }
    EmptyAgrees(EMPTY);
    hide LayersAgree;
    AgreeCons(EMPTY, ls);
  }

  lemma AgreeAroundEmpty(x: Value, ls: seq<Value>)
    requires LayersAgree([x] + ls)
    ensures LayersAgree([x, EMPTY] + ls)
  {
    hide *;
    AgreeHead([x] + ls);
    AgreeFirst(x, ls);
    EmptyAgrees(x);
    assert ([x] + ls)[1..] == ls;
    AgreeTail([x] + ls, 1);
    AgreeAfterEmpty(ls);
    var tail := [EMPTY] + ls;
    forall i | 0 <= i < |tail|
      ensures KeepOneMode(x, tail[i])
    {
      assert 0 < i ==> tail[i] == ls[i - 1];
    }
    forall i, j | 0 <= i < j < |tail|
      ensures NoMask(x, tail[i], tail[j])
    {
      assert tail[j] == ls[j - 1] && (0 < i ==> tail[i] == ls[i - 1]);
      AgreeTable([x] + ls, j);
    }
    AgreeCons(x, tail);
    assert [x] + tail == [x, EMPTY] + ls;
  }

  lemma AgreeTable(ls: seq<Value>, i: nat)
    requires LayersAgree(ls) && i < |ls|
    ensures ls[i].Table? && WellFormed(ls[i])
  {
  }

  lemma AgreeFirst(x: Value, ls: seq<Value>)
    requires LayersAgree([x] + ls)
    ensures forall i :: 0 <= i < |ls| ==> KeepOneMode(x, ls[i])
    ensures forall i, j :: 0 <= i < j < |ls| ==> NoMask(x, ls[i], ls[j])
  {
    hide *;
    var all := [x] + ls;
    forall i | 0 <= i < |ls|
      ensures KeepOneMode(x, ls[i])
    {
      AgreeTwo(all, 0, i + 1);
    }
    forall i, j | 0 <= i < j < |ls|
      ensures NoMask(x, ls[i], ls[j])
    {
      AgreeThree(all, 0, i + 1, j + 1);
    }
  }

  lemma AgreeTwo(ls: seq<Value>, i: nat, j: nat)
    requires LayersAgree(ls) && i < j < |ls|
    ensures KeepOneMode(ls[i], ls[j])
  {
  }

  /** `merge_layers` of a concatenation is the merge of the two `merge_layers`. */
  lemma LayersSplit(xs: seq<Value>, ys: seq<Value>)
    requires LayersAgree(xs + ys)
    ensures MergeLayersFrom(EMPTY, xs).Ok? && MergeLayersFrom(EMPTY, ys).Ok?
    ensures MergeLayersFrom(EMPTY, xs + ys)
         == Merge(MergeLayersFrom(EMPTY, xs).value, MergeLayersFrom(EMPTY, ys).value)
    ensures MergeLayersFrom(EMPTY, xs + ys).Ok?
  {
    hide *;
    AgreeAfterEmpty(xs + ys);
    assert [EMPTY] + (xs + ys) == [EMPTY] + xs + ys;
    FoldAgrees(EMPTY, xs, ys);
    var x := MergeLayersFrom(EMPTY, xs).value;
    AgreeAroundEmpty(x, ys);
    FoldSplits(x, EMPTY, ys);
    AgreeHead([x] + ys);
    EmptyIsIdentity(x);
    MergedIs(x, EMPTY);
  }

  // ---------- Why a middle layer must not mask ----------

  function One(key: string, v: Value): Value { Table([key], map[key := v]) }

  /** A scalar between two tables hides the first from the last only when merged left to right. */
  lemma MaskedTableReappears()
    ensures
      var a, b, c := One("k", One("x", Atom(1))), One("k", Atom(0)), One("k", One("y", Atom(2)));
      && Merge(a, b).Ok? && Merge(b, c).Ok?
      && Merge(Merged(a, b), c) == Ok(c)
      && Merge(a, Merged(b, c)) == Ok(One("k", Table(["x", "y"], map["x" := Atom(1), "y" := Atom(2)])))
  {
    var x, y := One("x", Atom(1)), One("y", Atom(2));
    assert MergeFields(x, y, 1) == Ok(Put(x, "y", Atom(2)));
    assert Put(x, "y", Atom(2)).keys == ["x", "y"];
    assert Put(x, "y", Atom(2)).at == map["x" := Atom(1), "y" := Atom(2)];
    assert Merge(x, y) == Ok(Table(["x", "y"], map["x" := Atom(1), "y" := Atom(2)]));
    MergeOnes(x, Atom(0));
    MergeOnes(Atom(0), y);
    MergeOnes(x, y);
  }

  lemma MergeOnes(v: Value, w: Value)
    requires Merge(v, w).Ok?
    ensures Merge(One("k", v), One("k", w)) == Ok(One("k", Merge(v, w).value))
  {
    var r := Merge(v, w).value;
    assert MergeFields(One("k", v), One("k", w), 0) == Ok(One("k", v));
    assert map["k" := v]["k" := r] == map["k" := r];
    assert Put(One("k", v), "k", r) == One("k", r);
  }
}
