/** What setting a field does to the rest of the memory log, for any key and value: exactly when it
    adds entries, and what every other field reads back as. */
module MemlogSet {
  import opened Common
  import opened Memlog
  import opened MemlogText
  import opened MemlogResults
  import opened MemlogKeys

  // ---------- The entries ----------

  lemma OldKeysAreOneLine(meta: seq<Field>, key: string)
    requires Tidy(meta) && !OneLine(key)
    ensures (forall f :: f in meta ==> f.key != key) && key != "updated" && OneLineKeys(meta)
  {
    hide Strip;
    TidyKeyUpdated();
  }

  /** The frontmatter a set writes spills entries exactly when its key does. */
  lemma SetSpills(meta: seq<Field>, key: string, value: string, now: string)
    requires Tidy(meta)
    ensures EntriesOf(Spilled(FrontLines(Touch(Assign(meta, key, value), now)))) == [] <==> !SpillsEntries(key)
  {
    hide Strip, FrontLines, Spilled, Touch, Assign, EntriesOf, SpillsIn, FieldBlock, IsEntry, FieldLine;
    if OneLine(key) {
      AssignKeeps(meta, key, value);
      TouchKeeps(Assign(meta, key, value), now);
      FrontOfOneLineKeys(Touch(Assign(meta, key, value), now));
      EntriesOfOne("");
      FenceIsNoEntry();
      OneLineSpillsNothing(key);
    } else {
      OldKeysAreOneLine(meta, key);
      var others, f := Remove(meta, "updated"), Field(key, value);
      FrontWithNewKey(meta, key, value, now);
      OthersOneLine(meta);
      LinesHaveColons(others);
      StampBlock(now);
      SpilledExactly(FrontLines(Touch(Assign(meta, key, value), now)));
      SpillsInside(FieldLines(others), FieldBlock(f), FieldLine(Field("updated", now)));
      BlockSpills(f);
    }
  }

  lemma OneLineSpillsNothing(key: string)
    requires OneLine(key)
    ensures !SpillsEntries(key)
  {
    KeyLinesOneLine(key);
  }

  /** Setting a field adds entries exactly when a line of its key is the fence and a later line of it
      starts an entry, whatever the log held and the value is. Otherwise it changes none. */
  lemma SetKeepsEntries(text: string, key: string, value: string, now: string)
    requires Split(text).Ok?
    ensures
      var p := Split(text).value;
      var r := Execute(text, Set(key, value), now);
      && r.Ok? && Split(r.value).Ok?
      && (Entries(Split(r.value).value.body) == Entries(p.body) <==> !SpillsEntries(key))
  {
    hide Split, Render, Touch, Assign, Entries, EntriesOf, Written, FrontLines, Spilled, ParseFields, Filled,
         RStrip, Join, DropTrail, Strip;
    hide SpillsEntries;
    var p := Split(text).value;
    var meta := Touch(Assign(p.meta, key, value), now);
    EntriesAfterRender(meta, p.body);
    var ls := BodyLines(text);
    WrittenJoined(p.body, DropTrail(ls));
    EntriesFilled(DropTrail(ls));
    ParsedMetaIsTidy(text);
    SetSpills(p.meta, key, value, now);
    var spilled := EntriesOf(Spilled(FrontLines(meta)));
    assert |spilled + Entries(p.body)| == |spilled| + |Entries(p.body)|;
    if spilled == [] {
      assert spilled + Entries(p.body) == Entries(p.body);
    }
  }

  lemma ThreeLineKey(a: string, b: string, c: string)
    requires OneLine(a) && OneLine(b) && OneLine(c)
    ensures KeyLines(a + "\n" + b + "\n" + c) == [a, b, c + ":"]
  {
    hide SplitLines, KeyLead, KeyLast;
    var key := a + "\n" + b + "\n" + c;
    LinesWithTail(key, ":");
    SplitOneLine(c + ":");
    var r2 := c + ":" + "\n";
    var r1 := b + "\n" + r2;
    SplitHead(b, r2);
    SplitHead(a, r1);
    assert key + ":" + "\n" == a + "\n" + r1;
  }

  /** A key forges an entry when it is anything, a fence and the entry, each on a line. */
  lemma FenceInKeyForgesEntry(a: string, entry: string)
    requires OneLine(a) && OneLine(entry) && IsEntry(entry)
    ensures SpillsEntries(a + "\n" + FENCE + "\n" + entry)
  {
    assert OneLine(FENCE);
    ThreeLineKey(a, FENCE, entry);
    var ls := [a, FENCE, entry + ":"];
    hide KeyLines, OneLine;
    assert (entry + ":")[..2] == entry[..2];
    assert ls[1] == FENCE && IsEntry(ls[2]);
  }

  // ---------- The fields, for a key that reads back as itself ----------

  lemma {:induction false} ReadBackAssign(meta: seq<Field>, key: string, value: string)
    ensures ReadBackAll(Assign(meta, key, value)) == Assign(ReadBackAll(meta), key, ReadBack(value))
  {
    hide ReadBack;
    if meta != [] && meta[0].key != key {
      ReadBackAssign(meta[1..], key, value);
      assert ReadBackAll(meta)[1..] == ReadBackAll(meta[1..]);
    } else if meta != [] {
      assert ReadBackAll(meta)[1..] == ReadBackAll(meta[1..]);
    }
  }

  lemma {:induction false} ReadBackRemove(meta: seq<Field>, key: string)
    ensures ReadBackAll(Remove(meta, key)) == Remove(ReadBackAll(meta), key)
  {
    hide ReadBack;
    if meta != [] {
      ReadBackRemove(meta[1..], key);
      assert ReadBackAll(meta)[1..] == ReadBackAll(meta[1..]);
    }
  }

  lemma ReadBackTouch(meta: seq<Field>, now: string)
    ensures ReadBackAll(Touch(meta, now)) == Touch(ReadBackAll(meta), ReadBack(now))
  {
    hide ReadBack;
    ReadBackRemove(meta, "updated");
  }

  /** A rewrite reads back with its fields in order, each value as it reads back. */
  lemma FieldsReadBack(meta: seq<Field>, body: string)
    requires TidyKeys(meta)
    ensures Split(Render(meta, body)).Ok? && Split(Render(meta, body)).value.meta == ReadBackAll(meta)
  {
    hide SplitLines, Render, ParseFields, FindFence, Join, DropLead, FrontLines, FieldLines, Split, Filled, Strip,
         Written, Spilled;
    hide ReadBack;
    SplitRender(meta, body);
    FrontOfOneLineKeys(meta);
    FilledParses(FieldLines(meta));
    TidyFieldsParse(meta);
    var front := FrontLines(meta);
    assert front[..|front|] == front;
  }

  /** Every command whose key is on one line, stripped and without a colon leaves all other fields as
      they were, in their order, whatever the file held and whatever the value is. */
  lemma FieldsKept(text: string, c: Command, now: string)
    requires Split(text).Ok? && (c.Set? ==> TidyKey(c.key))
    ensures
      var p := Split(text).value;
      var r := Execute(text, c, now);
      && r.Ok? && Split(r.value).Ok?
      && Split(r.value).value.meta
         == Touch(if c.Set? then Assign(p.meta, c.key, ReadBack(c.value)) else p.meta, ReadBack(now))
  {
    hide Split, Render, Touch, Assign, AppendBody, EntryLine, Strip, DistinctKeys, ReadBack, ReadBackAll;
    var p := Split(text).value;
    ParsedMetaIsTidy(text);
    TidyReadsBack(p.meta);
    if c.Set? {
      AssignKeeps(p.meta, c.key, c.value);
      TouchKeeps(Assign(p.meta, c.key, c.value), now);
      FieldsReadBack(Touch(Assign(p.meta, c.key, c.value), now), p.body);
      ReadBackTouch(Assign(p.meta, c.key, c.value), now);
      ReadBackAssign(p.meta, c.key, c.value);
    } else {
      TouchKeeps(p.meta, now);
      FieldsReadBack(Touch(p.meta, now), AppendBody(p.body, EntryLine(c.text, c.kind, c.who)));
      ReadBackTouch(p.meta, now);
    }
  }

  // ---------- The fields, for any key ----------

  /** The fields of the log after a set. */
  function FieldsAfter(text: string, key: string, value: string, now: string): seq<Field> {
    match Execute(text, Set(key, value), now)
    case Ok(t) => (match Split(t) case Ok(p) => p.meta case _ => [])
    case _ => []
  }

  lemma FieldsAfterAre(text: string, key: string, value: string, now: string)
    requires Split(text).Ok?
    ensures
      var front := FrontLines(Touch(Assign(Split(text).value.meta, key, value), now));
      FieldsAfter(text, key, value, now) == ParseFields(UpToFence(front))
  {
    hide Split, Render, Touch, Assign, FrontLines, ParseFields, FindFence, Join, DropLead, Spilled, Written;
    var p := Split(text).value;
    SplitRender(Touch(Assign(p.meta, key, value), now), p.body);
  }

  lemma {:induction false} LookupRemove(meta: seq<Field>, key: string, n: string)
    requires n != key
    ensures Lookup(Remove(meta, key), n) == Lookup(meta, n)
  {
    if meta != [] {
      LookupRemove(meta[1..], key, n);
      assert ([meta[0]] + Remove(meta[1..], key))[1..] == Remove(meta[1..], key);
    }
  }

  lemma {:induction false} LookupAppended(meta: seq<Field>, f: Field, n: string)
    requires n != f.key
    ensures Lookup(meta + [f], n) == Lookup(meta, n)
  {
    if meta == [] {
      assert [f][1..] == [];
      assert [] + [f] == [f];
      assert Lookup([f][1..], n) == None;
    } else {
      assert (meta + [f])[1..] == meta[1..] + [f];
      LookupAppended(meta[1..], f, n);
    }
  }

  lemma LookupTouch(meta: seq<Field>, now: string, n: string)
    requires n != "updated"
    ensures Lookup(Touch(meta, now), n) == Lookup(meta, n)
  {
    LookupRemove(meta, "updated", n);
    LookupAppended(Remove(meta, "updated"), Field("updated", now), n);
  }

  lemma OneLineNames(f: Field)
    requires TidyKey(f.key)
    ensures NameOf(FieldLine(f)) == Some(f.key)
  {
    hide Strip, FieldLine;
    TidyFieldParses(f);
  }

  lemma GivenOne(line: string, n: string)
    ensures Given([line], n) == if NameOf(line) == Some(n) then Some(ValueAt(line)) else None
  {
    hide NameOf, ValueAt;
    assert [line][..0] == [];
    assert Given([], n) == None;
  }

  /** What a field other than the one set and the stamp reads back as: what the last line of the new
      field that names it gives it, and else what it was. */
  lemma SetReads(text: string, key: string, value: string, now: string, n: string)
    requires Split(text).Ok? && n != key && n != "updated"
    ensures
      var given := Given(UpToFence(FieldBlock(Field(key, value))), n);
      Lookup(FieldsAfter(text, key, value, now), n)
      == if given.Some? then given else Lookup(Split(text).value.meta, n)
  {
    hide Split, FieldsAfter, Strip, Given, UpToFence, FieldBlock, Lookup, Touch, Assign, FrontLines, Render, ReadBack;
    ParsedMetaIsTidy(text);
    var meta := Split(text).value.meta;
    if key == "updated" || exists f :: f in meta && f.key == key {
      assert TidyKey(key) by { TidyKeyUpdated(); }
      FieldsKept(text, Set(key, value), now);
      KeptIsAfter(text, key, value, now);
      LookupTouch(Assign(meta, key, ReadBack(value)), ReadBack(now), n);
      LookupAssign(meta, key, ReadBack(value), n);
      TidyBlockNames(Field(key, value), n);
    } else {
      FieldsAfterAre(text, key, value, now);
      NewKeyReads(meta, key, value, now, n);
    }
  }

  lemma KeptIsAfter(text: string, key: string, value: string, now: string)
    requires Split(text).Ok? && Execute(text, Set(key, value), now).Ok?
    requires Split(Execute(text, Set(key, value), now).value).Ok?
    ensures FieldsAfter(text, key, value, now) == Split(Execute(text, Set(key, value), now).value).value.meta
  {
    hide Split, Execute;
  }

  lemma TidyBlockNames(f: Field, n: string)
    requires TidyKey(f.key) && n != f.key
    ensures Given(UpToFence(FieldBlock(f)), n) == None
  {
    hide Strip, FieldLine, Given;
    FieldLineOneLine(f);
    SplitOneLine(FieldLine(f));
    NotCut(FieldBlock(f));
    OneLineNames(f);
    GivenOne(FieldLine(f), n);
  }

  lemma NewKeyReads(meta: seq<Field>, key: string, value: string, now: string, n: string)
    requires Tidy(meta) && (forall f :: f in meta ==> f.key != key) && key != "updated" && n != "updated"
    ensures
      var given := Given(UpToFence(FieldBlock(Field(key, value))), n);
      Lookup(ParseFields(UpToFence(FrontLines(Touch(Assign(meta, key, value), now)))), n)
      == if given.Some? then given else Lookup(meta, n)
  {
    hide Strip, Given, FieldBlock, Lookup, Touch, Assign, FrontLines, FieldLine, ParseFields, ReadBack, UpToFence;
    var others, f, u := Remove(meta, "updated"), Field(key, value), Field("updated", now);
    RemoveKeeps(meta, "updated");
    TidyReadsBack(others);
    TidyFieldsParse(others);
    LookupRemove(meta, "updated", n);
    FrontWithNewKey(meta, key, value, now);
    LinesHaveColons(others);
    StampBlock(now);
    TidyKeyUpdated();
    OneLineNames(u);
    var before, block := FieldLines(others), FieldBlock(f);
    LookupParse(before, n);
    GivenConcat(before, UpToFence(block), n);
    if FENCE in block {
      CutAtFence(before, block, FieldLine(u));
      LookupParse(before + UpToFence(block), n);
    } else {
      NotCut(block);
      NotCut(before + block + [FieldLine(u)]);
      GivenOne(FieldLine(u), n);
      GivenConcat(before + block, [FieldLine(u)], n);
      LookupParse(before + block + [FieldLine(u)], n);
    }
  }

  // ---------- Exactly the keys that leave other fields alone ----------

  /** No line of the key that stays frontmatter names a field but the key itself or the stamp. */
  predicate NamesOnlyItself(key: string) {
    var lines := UpToFence(KeyLines(key));
    forall i :: 0 <= i < |lines| ==> IsOwnName(key, NameOf(lines[i]))
  }

  predicate IsOwnName(key: string, name: Option<string>) {
    name == None || name == Some(key) || name == Some("updated")
  }

  lemma NameWithTail(last: string, tail: string)
    requires tail != "" && tail[0] == ':'
    ensures NameOf(last + tail) == NameOf(last + ":") && last + tail != FENCE
  {
    hide Strip;
    var a, b := last + tail, last + ":";
    var i, j := IndexOf(a, ':'), IndexOf(b, ':');
    assert a[|last|] == ':' && b[|last|] == ':';
    assert forall k :: 0 <= k < |last| ==> a[k] == last[k] == b[k];
    assert i <= |last| && j <= |last| && i == j;
    assert a[..i] == b[..i];
  }

  /** The value does not matter: a field's lines name what its key's lines do. */
  lemma SameNames(f: Field)
    ensures
      var lines, named := UpToFence(KeyLines(f.key)), UpToFence(FieldBlock(f));
      |lines| == |named| && forall i :: 0 <= i < |lines| ==> NameOf(lines[i]) == NameOf(named[i])
  {
    hide NameOf, FindFence, FieldBlock, SplitLines, Join, KeyLead, KeyLast;
    var lead, last, tail := KeyLead(f.key), KeyLast(f.key), ": " + Join(" ", SplitLines(f.value));
    BlockLines(f);
    NameWithTail(last, tail);
    NameWithTail(last, ":");
    var a, b := KeyLines(f.key), FieldBlock(f);
    assert a == lead + [last + ":"] && b == lead + [last + tail];
    assert forall i :: 0 <= i < |lead| ==> a[i] == lead[i] == b[i];
    FirstFence(a, FindFence(b, 0));
  }

  /** A set leaves every other field of every log as it was. */
  ghost predicate KeepsOthers(key: string, value: string, now: string) {
    forall text, n :: Split(text).Ok? && n != key && n != "updated" ==>
      Lookup(FieldsAfter(text, key, value, now), n) == Lookup(Split(text).value.meta, n)
  }

  /** That holds exactly when the key names only itself. */
  lemma KeepsOthersExactly(key: string, value: string, now: string)
    ensures KeepsOthers(key, value, now) <==> NamesOnlyItself(key)
  {
    hide Split, FieldsAfter, Given, UpToFence, FieldBlock, Lookup, NameOf, KeyLines;
    var f := Field(key, value);
    SameNames(f);
    var named := UpToFence(FieldBlock(f));
    if NamesOnlyItself(key) {
      forall text, n | Split(text).Ok? && n != key && n != "updated"
        ensures Lookup(FieldsAfter(text, key, value, now), n) == Lookup(Split(text).value.meta, n)
      {
        SetReads(text, key, value, now, n);
        GivenNone(named, n);
      }
    } else {
      var lines := UpToFence(KeyLines(key));
      var i :| 0 <= i < |lines| && !IsOwnName(key, NameOf(lines[i]));
      var n := NameOf(lines[i]).value;
      GivenNone(named, n);
      NameIsTidy(key, i);
      var text := LogOtherwise(n, Given(named, n).value);
      SetReads(text, key, value, now, n);
    }
  }

  /** A log whose field `n` is not `v`. */
  lemma LogOtherwise(n: string, v: string) returns (text: string)
    requires TidyKey(n)
    ensures Split(text).Ok? && Lookup(Split(text).value.meta, n).Some? && Lookup(Split(text).value.meta, n) != Some(v)
  {
    hide Split, Render;
    var w := if v == "x" then "y" else "x";
    text := Render([Field(n, w)], "");
    assert Strip("x") == "x" && Strip("y") == "y";
    RoundTrip([Field(n, w)], "");
  }

  /** A line of a key names a tidy field. */
  lemma NameIsTidy(key: string, i: nat)
    requires i < |UpToFence(KeyLines(key))| && NameOf(UpToFence(KeyLines(key))[i]).Some?
    ensures TidyKey(NameOf(UpToFence(KeyLines(key))[i]).value)
  {
    hide Strip, FindFence, KeyLead, KeyLast;
    KeyLinesOneLine(key);
    var line := UpToFence(KeyLines(key))[i];
    assert line == KeyLines(key)[i];
    assert i < |KeyLead(key)| ==> KeyLines(key)[i] in KeyLead(key);
    assert OneLine(line);
    var c := IndexOf(line, ':');
    StripOneLine(line[..c]);
    StripIdempotent(line[..c]);
    ColonFree(line);
  }

  /** A key on one line names only itself exactly when what stands before its first colon, stripped,
      is the whole key, or the stamp's. */
  lemma OneLineKeyNames(key: string)
    requires OneLine(key)
    ensures
      var name := Strip(key[..IndexOf(key, ':')]);
      NamesOnlyItself(key) <==> name == key || name == "updated"
  {
    hide Strip;
    KeyLinesOneLine(key);
    var line := key + ":";
    var i := IndexOf(line, ':');
    assert line[|key|] == ':' && forall k :: 0 <= k < |key| ==> line[k] == key[k];
    assert i == IndexOf(key, ':') && line[..i] == key[..i];
    NameWithTail(key, ":");
    hide NameOf;
    assert KeyLines(key) == [line];
    NotCut([line]);
    assert NameOf(line) == Some(Strip(key[..i])) by { NameIs(line, i); }
  }

  lemma NameIs(line: string, i: nat)
    requires i == IndexOf(line, ':') < |line|
    ensures NameOf(line) == Some(Strip(line[..i]))
  {
  }

  /** A colon in a key overwrites the field before it, in any log that has one. */
  lemma ColonInKeyOverwrites(text: string, name: string, rest: string, value: string, now: string)
    requires Split(text).Ok? && TidyKey(name) && OneLine(rest) && name != "updated"
    ensures
      Lookup(FieldsAfter(text, name + ":" + rest, value, now), name)
      == Some(Strip(rest + ": " + Join(" ", SplitLines(value))))
  {
    hide Split, FieldsAfter, Strip, SplitLines, Join, FieldLine, Lookup;
    var f := Field(name + ":" + rest, value);
    SetReads(text, f.key, value, now, name);
    var line, v := FieldLine(f), Join(" ", SplitLines(value));
    FieldLineOneLine(f);
    SplitOneLine(line);
    NotCut(FieldBlock(f));
    GivenOne(line, name);
    ColonLine(name, rest, v);
    assert line == name + ":" + rest + ": " + v by { LineIs(f); }
  }

  lemma LineIs(f: Field)
    ensures FieldLine(f) == f.key + ": " + Join(" ", SplitLines(f.value))
  {
  }

  lemma ColonLine(name: string, rest: string, v: string)
    requires ':' !in name && Strip(name) == name
    ensures
      var line := name + ":" + rest + ": " + v;
      NameOf(line) == Some(name) && ValueAt(line) == Strip(rest + ": " + v)
  {
    hide Strip;
    var line := name + ":" + rest + ": " + v;
    assert line[|name|] == ':' && forall k :: 0 <= k < |name| ==> line[k] == name[k];
    assert IndexOf(line, ':') == |name|;
    assert line[..|name|] == name && line[|name| + 1..] == rest + ": " + v;
  }
}
