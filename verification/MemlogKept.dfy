/** What a command leaves as it was: every line of the body, and the order of the fields. */
module MemlogKept {
  import opened Common
  import opened Memlog
  import opened MemlogText
  import opened MemlogResults
  import opened MemlogSet
  import opened MemlogHistory
  import opened MemlogEntries

  // ---------- The body ----------

  lemma {:induction false} JoinBreaks(ls: seq<string>)
    requires AllOneLine(ls)
    ensures forall i :: 0 <= i < |Join("\n", ls)| && IsBreak(Join("\n", ls)[i]) ==> Join("\n", ls)[i] == '\n'
  {
    if ls != [] {
      assert ls[0] in ls && forall l :: l in ls[1..] ==> l in ls;
      JoinBreaks(ls[1..]);
    }
  }

  lemma {:induction false} RStripTail(s: string)
    ensures forall i :: |RStrip(s, IsNewline)| <= i < |s| ==> s[i] == '\n'
    ensures RStrip(RStrip(s, IsNewline), IsNewline) == RStrip(s, IsNewline)
  {
    if s != "" && s[|s| - 1] == '\n' {
      RStripTail(s[..|s| - 1]);
    }
  }

  lemma {:induction false} SpaceStrips(s: string)
    requires AllSpace(s)
    ensures Strip(s) == ""
  {
    if s != "" {
      SpaceStrips(s[..|s| - 1]);
    }
  }

  /** A body the parser returns has newlines for its only breaks, and none in front. */
  lemma ParsedBody(text: string)
    requires Split(text).Ok?
    ensures
      var b := Split(text).value.body;
      && (forall i :: 0 <= i < |b| && IsBreak(b[i]) ==> b[i] == '\n')
      && (b != "" ==> b[0] != '\n')
      && TidyBody(RStrip(b, IsNewline))
  {
    hide SplitLines, RStrip, ParseFields, FindFence, Join;
    var lines := SplitLines(text);
    var rest := lines[FindFence(lines, 1) + 1..];
    assert forall l :: l in rest ==> l in lines;
    JoinBreaks(rest);
    LStripSuffix(Join("\n", rest), IsNewline);
  }

  /** A tidy body comes back from a log with one-line keys. */
  lemma BodyBack(meta: seq<Field>, b: string)
    requires OneLineKeys(meta) && TidyBody(b)
    ensures Split(Render(meta, b)).Ok? && Split(Render(meta, b)).value.body == b
  {
    hide SplitLines, RStrip, Render, ParseFields, FindFence, Join, DropLead, FrontLines, FieldLines, Split, Filled,
         Strip, Written, Spilled;
    TidyBodyLines(b);
    SplitRender(meta, b);
    WrittenJoined(b, SplitLines(b));
    FrontOfOneLineKeys(meta);
  }

  /** The body without the newlines at its end. */
  ghost predicate Trimmed(body: string, kept: string, tail: string) {
    && body == kept + tail && (forall i :: 0 <= i < |tail| ==> tail[i] == '\n')
    && (kept != "" ==> kept[|kept| - 1] != '\n')
  }

  lemma TrimBody(body: string) returns (kept: string, tail: string)
    ensures Trimmed(body, kept, tail) && kept == RStrip(body, IsNewline)
  {
    kept := RStrip(body, IsNewline);
    tail := body[|kept|..];
    RStripTail(body);
  }

  /** Setting a field whose key is on one line keeps the whole body but newlines at its end. */
  lemma SetKeepsBody(text: string, key: string, value: string, now: string) returns (kept: string, tail: string)
    requires Split(text).Ok? && OneLine(key)
    ensures
      var p := Split(text).value;
      var r := Execute(text, Set(key, value), now);
      && Trimmed(p.body, kept, tail)
      && r.Ok? && Split(r.value).Ok? && Split(r.value).value.body == kept
  {
    hide Split, Touch, Assign, RStrip, TidyBody, OneLine, Join, FieldLines, Trimmed;
    var p := Split(text).value;
    var meta := Touch(Assign(p.meta, key, value), now);
    kept, tail := TrimBody(p.body);
    ParsedBody(text);
    RStripTail(p.body);
    assert Render(meta, p.body) == Render(meta, kept);
    KeysStayOneLine(text, key, value, now);
    BodyBack(meta, kept);
  }

  lemma KeysStayOneLine(text: string, key: string, value: string, now: string)
    requires Split(text).Ok? && OneLine(key)
    ensures OneLineKeys(Touch(Assign(Split(text).value.meta, key, value), now))
    ensures OneLineKeys(Touch(Split(text).value.meta, now))
  {
    hide Split, Touch, Assign, Strip;
    var meta := Split(text).value.meta;
    ParsedMetaIsTidy(text);
    AssignKeeps(meta, key, value);
    TouchKeeps(Assign(meta, key, value), now);
    TouchKeeps(meta, now);
  }

  /** Appending an entry with a one-line label puts it on a line of its own after the whole body; a
      body of white space alone is dropped. */
  lemma AppendKeepsBody(text: string, t: string, kind: string, who: string, now: string)
    returns (kept: string, tail: string)
    requires Split(text).Ok? && OneLine(Label(kind, who))
    ensures
      var p := Split(text).value;
      var r := Execute(text, Append(t, kind, who), now);
      var entry := EntryLine(t, kind, who);
      && Trimmed(p.body, kept, tail)
      && r.Ok? && Split(r.value).Ok?
      && Split(r.value).value.body == if AllSpace(p.body) then entry else kept + "\n" + entry
  {
    hide Split, Touch, Render, RStrip, TidyBody, OneLine, Trimmed, EntryLine, Label, Strip, AllSpace;
    var p := Split(text).value;
    kept, tail := TrimBody(p.body);
    var entry := EntryLine(t, kind, who);
    EntryLineOneLine(t, kind, who);
    if Strip(p.body) == "" {
      BlankIsSpace(p.body);
    } else if AllSpace(p.body) {
      SpaceStrips(p.body);
    }
    ParsedBody(text);
    if kept == "" {
      NewlinesAreSpace(kept, tail);
    }
    var body := if AllSpace(p.body) then entry else kept + "\n" + entry;
    EntryIsTidy(kept, entry);
    assert OneLine("") by { EmptyOneLine(); }
    KeysStayOneLine(text, "", "", now);
    BodyBack(Touch(p.meta, now), body);
  }

  /** The body with the entry on a line of its own at its end. */
  ghost predicate EndsWith(before: string, entry: string, after: string) {
    if AllSpace(before) then after == entry
    else exists kept, tail :: Trimmed(before, kept, tail) && after == kept + "\n" + entry
  }

  /** Both at once: the file as it stood, and at its end what was given, to be read back. */
  lemma AppendRecords(text: string, t: string, kind: string, who: string, now: string)
    requires Split(text).Ok? && OneLine(kind) && OneLine(who)
    requires ')' !in kind && ')' !in who && "by" !in Words(kind)
    requires kind != "" || who != "" || !Tagged(Collapse(t))
    ensures
      var p := Split(text).value;
      var r := Execute(text, Append(t, kind, who), now);
      && r.Ok? && Split(r.value).Ok?
      && var entries := Entries(Split(r.value).value.body);
         && |entries| == |Entries(p.body)| + 1 && entries[..|Entries(p.body)|] == Entries(p.body)
         && IsEntry(entries[|Entries(p.body)|])
         && Recall(entries[|Entries(p.body)|]) == Record(Words(kind), Words(who), Words(t))
  {
    hide Split, Execute, Words, Label, Collapse, Entries, EntryLine, IsEntry, Tagged, Recall, OneLine;
    LabelOneLine(kind, who);
    AppendGrows(text, t, kind, who, now);
    EntryReadsBack(t, kind, who);
  }

  lemma LabelOneLine(kind: string, who: string)
    requires OneLine(kind) && OneLine(who)
    ensures OneLine(Label(kind, who))
  {
    hide Strip;
    if who != "" {
      StripOneLine(kind + " by " + who);
    }
  }

  lemma NewlinesAreSpace(kept: string, tail: string)
    requires Trimmed(kept + tail, kept, tail) && kept == ""
    ensures AllSpace(kept + tail)
  {
  }

  lemma EmptyOneLine()
    ensures OneLine("")
  {
  }

  lemma EntryIsTidy(kept: string, entry: string)
    requires OneLine(entry) && IsEntry(entry) && TidyBody(kept)
    ensures TidyBody(entry)
    ensures kept != "" ==> TidyBody(kept + "\n" + entry)
  {
    assert IsBreak('\n');
    assert entry[0] == '-' by { assert entry[..2][0] == '-'; }
    var b := kept + "\n" + entry;
    assert forall i :: |kept| < i < |b| ==> b[i] == entry[i - |kept| - 1];
  }

  // ---------- The order of the fields ----------

  /** Assigning replaces the value of the first field of that key where it stands, or adds the field at
      the end. */
  lemma {:induction false} AssignExactly(meta: seq<Field>, key: string, value: string) returns (i: nat)
    ensures i <= |meta| && (forall j :: 0 <= j < i ==> meta[j].key != key) && (i < |meta| ==> meta[i].key == key)
    ensures Assign(meta, key, value) == meta[..i] + [Field(key, value)] + meta[if i < |meta| then i + 1 else i..]
  {
    if meta == [] || meta[0].key == key {
      i := 0;
    } else {
      var k := AssignExactly(meta[1..], key, value);
      i := k + 1;
    }
  }

  lemma {:induction false} RemoveNone(meta: seq<Field>, key: string)
    requires forall f :: f in meta ==> f.key != key
    ensures Remove(meta, key) == meta
  {
    if meta != [] {
      assert meta[0] in meta;
      RemoveNone(meta[1..], key);
    }
  }

  lemma {:induction false} RemoveExactly(meta: seq<Field>, key: string) returns (i: nat)
    requires DistinctKeys(meta)
    ensures i <= |meta| && (i < |meta| ==> meta[i].key == key)
    ensures i == |meta| ==> forall f :: f in meta ==> f.key != key
    ensures Remove(meta, key) == meta[..i] + meta[if i < |meta| then i + 1 else i..]
  {
    hide DistinctKeys;
    if meta == [] {
      i := 0;
    } else {
      RestDistinct(meta);
      if meta[0].key == key {
        i := 0;
        RemoveNone(meta[1..], key);
      } else {
        var k := RemoveExactly(meta[1..], key);
        i := k + 1;
        assert meta == [meta[0]] + meta[1..];
      }
    }
  }

  lemma RestDistinct(meta: seq<Field>)
    requires DistinctKeys(meta) && meta != []
    ensures DistinctKeys(meta[1..]) && forall f :: f in meta[1..] ==> f.key != meta[0].key
  {
    var rest := meta[1..];
    forall i, j | 0 <= i < j < |rest|
      ensures rest[i].key != rest[j].key
    {
      assert rest[i] == meta[i + 1] && rest[j] == meta[j + 1];
    }
    forall f | f in rest
      ensures f.key != meta[0].key
    {
      var j :| 0 <= j < |rest| && rest[j] == f;
      assert rest[j] == meta[j + 1];
    }
  }

  /** Stamping takes the old stamp out, wherever it stood, and puts the new one last. */
  lemma StampGoesLast(meta: seq<Field>, now: string) returns (i: nat)
    requires DistinctKeys(meta)
    ensures i <= |meta| && (i < |meta| ==> meta[i].key == "updated")
    ensures i == |meta| ==> forall f :: f in meta ==> f.key != "updated"
    ensures Touch(meta, now) == meta[..i] + meta[if i < |meta| then i + 1 else i..] + [Field("updated", now)]
  {
    hide Remove;
    i := RemoveExactly(meta, "updated");
  }

  // ---------- A fresh log ----------

  /** What `init` stores: with keys that are tidy once stripped, the given fields, the last value of
      each key in the place of its first, then the stamp. */
  lemma InitFields(fields: seq<Field>, now: string)
    requires forall f :: f in fields ==> TidyKey(Strip(f.key))
    ensures Split(Init(fields, now)).Ok?
    ensures Split(Init(fields, now)).value.meta == Touch(ReadBackAll(InitMeta(fields)), ReadBack(now))
  {
    hide Split, Render, Touch, Strip, ReadBack, DistinctKeys, TidyKey, InitMeta;
    InitMetaTidy(fields);
    TouchKeeps(InitMeta(fields), now);
    FieldsReadBack(Touch(InitMeta(fields), now), "");
    ReadBackTouch(InitMeta(fields), now);
  }

  lemma {:induction false} InitMetaTidy(fields: seq<Field>)
    requires forall f :: f in fields ==> TidyKey(Strip(f.key))
    ensures TidyKeys(InitMeta(fields))
  {
    hide Strip, Assign, TidyKey;
    if fields != [] {
      var n := |fields| - 1;
      assert fields[n] in fields && forall f :: f in fields[..n] ==> f in fields;
      InitMetaTidy(fields[..n]);
      AssignKeeps(InitMeta(fields[..n]), Strip(fields[n].key), Strip(fields[n].value));
    }
  }

  /** An argument is parted at its first equals sign. */
  lemma PairParts(key: string, value: string)
    requires '=' !in key
    ensures '=' in key + "=" + value && FieldOf(key + "=" + value) == Field(key, value)
  {
    hide IndexOf;
    FirstIndex(key, '=', value);
    var pair := key + ['='] + value;
    assert pair[|key|] == '=' && pair[..|key|] == key && pair[|key| + 1..] == value;
  }

  /** A value on several lines reads back on one, its lines joined by spaces. */
  lemma TwoLinesReadBack(a: string, b: string)
    requires OneLine(a) && OneLine(b) && b != ""
    ensures ReadBack(a + "\n" + b) == Strip(a + " " + b)
  {
    hide SplitLines, Strip;
    SplitHead(a, b);
    SplitOneLine(b);
    assert [a] + [b] == [a, b];
    assert [a, b][1..] == [b];
    assert Join(" ", [b]) == b;
  }

  /** The last pair that names a key gives it its value, stripped. */
  lemma {:induction false} InitMetaGives(fields: seq<Field>, k: nat)
    requires k < |fields| && forall j :: k < j < |fields| ==> Strip(fields[j].key) != Strip(fields[k].key)
    ensures Field(Strip(fields[k].key), Strip(fields[k].value)) in InitMeta(fields)
    ensures forall f :: f in InitMeta(fields) && f.key == Strip(fields[k].key) ==> f.value == Strip(fields[k].value)
  {
    hide Strip, Assign;
    var n := |fields| - 1;
    var meta, key, value := InitMeta(fields[..n]), Strip(fields[n].key), Strip(fields[n].value);
    InitMetaDistinct(fields[..n]);
    AssignGives(meta, key, value);
    if k < n {
      InitMetaGives(fields[..n], k);
    }
  }

  lemma {:induction false} InitMetaDistinct(fields: seq<Field>)
    ensures DistinctKeys(InitMeta(fields))
  {
    hide Strip, Assign;
    if fields != [] {
      var n := |fields| - 1;
      InitMetaDistinct(fields[..n]);
      AssignKeeps(InitMeta(fields[..n]), Strip(fields[n].key), Strip(fields[n].value));
    }
  }

  lemma AssignGives(meta: seq<Field>, key: string, value: string)
    requires DistinctKeys(meta)
    ensures forall f :: f in Assign(meta, key, value) <==> f == Field(key, value) || (f in meta && f.key != key)
  {
    hide Assign;
    var i := AssignExactly(meta, key, value);
    var a, b := meta[..i], meta[if i < |meta| then i + 1 else i..];
    assert meta == a + (if i < |meta| then [meta[i]] else []) + b;
    forall f | f in b
      ensures f.key != key
    {
      var j :| 0 <= j < |b| && b[j] == f;
      assert meta[i + 1 + j] == f && meta[i].key != meta[i + 1 + j].key;
    }
  }

  // ---------- The text itself ----------

  /** A log as it stands in its file. */
  lemma FileText(topic: string, stamp: string, body: string)
    requires OneLine(topic) && topic != "" && OneLine(stamp) && stamp != ""
    requires body != "" && body[|body| - 1] != '\n'
    ensures Render([Field("topic", topic), Field("updated", stamp)], body + "\n")
         == "---\n" + ("topic: " + topic + "\n" + ("updated: " + stamp)) + "\n---\n\n" + body + "\n"
  {
    hide FieldLine, RStrip, Join;
    var f, g := Field("topic", topic), Field("updated", stamp);
    LineOf("topic", topic);
    LineOf("updated", stamp);
    assert "topic" + ": " == "topic: " && "updated" + ": " == "updated: ";
    assert FieldLines([f, g]) == [FieldLine(f), FieldLine(g)];
    JoinTwo(FieldLine(f), FieldLine(g));
    RStripOnce(body);
  }

  lemma LineOf(key: string, value: string)
    requires OneLine(value) && value != ""
    ensures FieldLine(Field(key, value)) == key + ": " + value
  {
    SplitOneLine(value);
  }

  lemma JoinTwo(a: string, b: string)
    ensures Join("\n", [a, b]) == a + "\n" + b
  {
    assert [a, b][1..] == [b];
  }

  lemma RStripOnce(s: string)
    requires s != "" && s[|s| - 1] != '\n'
    ensures RStrip(s + "\n", IsNewline) == s
  {
    assert (s + "\n")[..|s|] == s;
  }
}
