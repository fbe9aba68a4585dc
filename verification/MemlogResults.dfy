/** The memory log's history: appends grow it by one entry, sets leave it alone, and a tidy log
    comes back from its text unchanged. */
module MemlogResults {
  import opened Common
  import opened Memlog
  import opened MemlogText

  // ---------- What a rendered log splits into ----------

  /** The lines the frontmatter is written as. */
  function FrontLines(meta: seq<Field>): seq<string> { SplitLines(Join("\n", FieldLines(meta)) + "\n") }

  /** No lines at all are still written as one empty line. */
  function Filled(ls: seq<string>): seq<string> { if ls == [] then [""] else ls }

  /** Frontmatter lines that a fence among them pushes out into the body. */
  function Spilled(front: seq<string>): seq<string> {
    var g := FindFence(front, 0);
    if g < |front| then front[g + 1..] + [FENCE, ""] else [""]
  }

  lemma FilledJoins(ls: seq<string>)
    requires AllOneLine(ls)
    ensures Join("\n", ls) == Join("\n", Filled(ls)) && Filled(ls) != [] && AllOneLine(Filled(ls))
  {
  }

  /** The lines the body is written as. */
  function Written(body: string): seq<string> { SplitLines(RStrip(body, IsNewline) + "\n") }

  lemma WrittenJoined(body: string, ls: seq<string>)
    requires AllOneLine(ls) && RStrip(body, IsNewline) == Join("\n", ls)
    ensures Written(body) == Filled(ls)
  {
    hide SplitLines, Join, RStrip, Filled;
    FilledJoins(ls);
    SplitJoined(Filled(ls));
  }

  lemma RenderLines(meta: seq<Field>, body: string)
    ensures SplitLines(Render(meta, body)) == [FENCE] + FrontLines(meta) + [FENCE, ""] + Written(body)
  {
    hide SplitLines, RStrip, FieldLines, Join;
    var front := Join("\n", FieldLines(meta));
    var r4 := RStrip(body, IsNewline) + "\n";
    var r3 := "" + "\n" + r4;
    var r2 := FENCE + "\n" + r3;
    var r1 := front + "\n" + r2;
    SplitHead("", r4);
    SplitHead(FENCE, r3);
    SplitAtNewline(front, r2);
    SplitHead(FENCE, r1);
    assert Render(meta, body) == FENCE + "\n" + r1;
  }

  lemma FenceFound(front: seq<string>, tail: seq<string>)
    ensures FindFence([FENCE] + front + [FENCE] + tail, 1) == 1 + FindFence(front, 0)
  {
    hide FindFence;
    var lines := [FENCE] + front + [FENCE] + tail;
    var e, g := FindFence(lines, 1), FindFence(front, 0);
    assert lines[1 + g] == FENCE;
    assert forall k :: 1 <= k <= |front| ==> lines[k] == front[k - 1];
  }

  /** Whatever the fields and the body are, the file splits at the first fence it was given. */
  lemma SplitRender(meta: seq<Field>, body: string)
    ensures
      var front := FrontLines(meta);
      Split(Render(meta, body))
      == Ok(Parsed(ParseFields(front[..FindFence(front, 0)]), Join("\n", DropLead(Spilled(front) + Written(body)))))
  {
    hide SplitLines, RStrip, Render, ParseFields, FindFence, LStrip, Join, DropLead, FrontLines, Written;
    RenderLines(meta, body);
    var front := FrontLines(meta);
    var tail := [""] + Written(body);
    var lines := SplitLines(Render(meta, body));
    assert lines == [FENCE] + front + [FENCE] + tail;
    FenceFound(front, tail);
    var g := FindFence(front, 0);
    assert lines[1..1 + g] == front[..g];
    assert lines[g + 2..] == Spilled(front) + Written(body);
    assert forall l :: l in lines[g + 2..] ==> l in lines;
    LStripJoin(lines[g + 2..]);
  }

  // ---------- Bodies ----------

  /** A body that came out of `Split` is lines joined, so its entries are among those lines. */
  lemma BodyLines(text: string) returns (ls: seq<string>)
    requires Split(text).Ok?
    ensures AllOneLine(ls) && Split(text).value.body == Join("\n", ls)
    ensures Entries(Split(text).value.body) == EntriesOf(ls)
    ensures RStrip(Split(text).value.body, IsNewline) == Join("\n", DropTrail(ls))
    ensures EntriesOf(DropTrail(ls)) == EntriesOf(ls)
  {
    hide SplitLines, RStrip, ParseFields, FindFence, LStrip, Join, DropLead, DropTrail, Entries, EntriesOf;
    var lines := SplitLines(text);
    var rest := lines[FindFence(lines, 1) + 1..];
    assert forall l :: l in rest ==> l in lines;
    LStripJoin(rest);
    ls := DropLead(rest);
    EntriesOfJoined(ls);
    RStripJoin(ls);
    EntriesDropTrail(ls);
  }

  /** The entries of a rewritten file: those of the body, after any the frontmatter spills. */
  lemma EntriesAfterRender(meta: seq<Field>, body: string)
    ensures Split(Render(meta, body)).Ok?
    ensures Entries(Split(Render(meta, body)).value.body)
         == EntriesOf(Spilled(FrontLines(meta))) + EntriesOf(Written(body))
  {
    hide SplitLines, RStrip, Render, ParseFields, FindFence, Join, DropLead, FrontLines, Entries, EntriesOf, Split,
         IsEntry;
    SplitRender(meta, body);
    var all := Spilled(FrontLines(meta)) + Written(body);
    SpilledOneLine(meta);
    assert AllOneLine(all);
    EntriesOfJoined(DropLead(all));
    EntriesDropLead(all);
    EntriesConcat(Spilled(FrontLines(meta)), Written(body));
  }

  lemma SpilledOneLine(meta: seq<Field>)
    ensures AllOneLine(Spilled(FrontLines(meta)))
  {
    hide SplitLines;
    var front := FrontLines(meta);
    assert forall k :: 0 <= k < |front| ==> front[k] in front && OneLine(front[k]);
  }

  lemma EntriesFilled(ls: seq<string>)
    ensures EntriesOf(Filled(ls)) == EntriesOf(ls)
  {
    EntriesOfOne("");
    assert EntriesOf([]) == [];
  }

  // ---------- Tidy frontmatter ----------

  ghost predicate TidyKey(k: string) { OneLine(k) && Strip(k) == k && ':' !in k }

  ghost predicate TidyValue(v: string) { OneLine(v) && Strip(v) == v }

  ghost predicate DistinctKeys(meta: seq<Field>) {
    forall i, j :: 0 <= i < j < |meta| ==> meta[i].key != meta[j].key
  }

  ghost predicate OneLineKeys(meta: seq<Field>) { forall f :: f in meta ==> OneLine(f.key) }

  ghost predicate Tidy(meta: seq<Field>) {
    DistinctKeys(meta) && forall f :: f in meta ==> TidyKey(f.key) && TidyValue(f.value)
  }

  lemma FieldLineOneLine(f: Field)
    requires OneLine(f.key)
    ensures OneLine(FieldLine(f)) && FieldLine(f) != FENCE
  {
    hide SplitLines, Join;
    var v := Join(" ", SplitLines(f.value));
    JoinOneLine(" ", SplitLines(f.value));
    assert FieldLine(f) == f.key + ": " + v;
    assert FieldLine(f)[|f.key|] == ':';
  }

  /** Keys on one line keep the frontmatter to itself: no line of it is a fence. */
  lemma FrontOfOneLineKeys(meta: seq<Field>)
    requires OneLineKeys(meta)
    ensures FrontLines(meta) == Filled(FieldLines(meta)) && FindFence(FrontLines(meta), 0) == |FrontLines(meta)|
    ensures Spilled(FrontLines(meta)) == [""]
  {
    hide SplitLines, FieldLine, FindFence;
    var lines := FieldLines(meta);
    forall k | 0 <= k < |lines|
      ensures OneLine(lines[k]) && lines[k] != FENCE
    {
      assert meta[k] in meta;
      FieldLineOneLine(meta[k]);
    }
    assert AllOneLine(Filled(lines));
    SplitJoined(Filled(lines));
    FilledJoins(lines);
  }

  /** What a value reads back as: its lines joined by spaces, then stripped. */
  function ReadBack(v: string): string { Strip(Join(" ", SplitLines(v))) }

  function ReadBackAll(meta: seq<Field>): (r: seq<Field>)
    ensures |r| == |meta| && forall i :: 0 <= i < |meta| ==> r[i] == Field(meta[i].key, ReadBack(meta[i].value))
  {
    seq(|meta|, i requires 0 <= i < |meta| => Field(meta[i].key, ReadBack(meta[i].value)))
  }

  ghost predicate TidyKeys(meta: seq<Field>) { DistinctKeys(meta) && forall f :: f in meta ==> TidyKey(f.key) }

  lemma TidyValueReadsBack(v: string)
    requires TidyValue(v)
    ensures ReadBack(v) == v
  {
    hide Strip;
    SplitOneLine(v);
    assert Join(" ", []) == "";
  }

  lemma TidyFieldParses(f: Field)
    requires TidyKey(f.key)
    ensures IndexOf(FieldLine(f), ':') == |f.key| < |FieldLine(f)|
    ensures Strip(FieldLine(f)[..|f.key|]) == f.key && Strip(FieldLine(f)[|f.key| + 1..]) == ReadBack(f.value)
  {
    hide Strip, Join, SplitLines;
    var line, v := FieldLine(f), Join(" ", SplitLines(f.value));
    assert line == f.key + ": " + v;
    assert line[|f.key|] == ':' && forall j :: 0 <= j < |f.key| ==> line[j] == f.key[j];
    assert line[..|f.key|] == f.key && line[|f.key| + 1..] == " " + v;
    StripSpaced(v);
  }

  lemma {:induction false} RStripSpaced(v: string)
    ensures RStrip(" " + v, IsSpace) == if RStrip(v, IsSpace) == "" then "" else " " + RStrip(v, IsSpace)
  {
    var s := " " + v;
    if v == "" {
      assert s[..0] == "" && IsSpace(s[0]);
    } else if IsSpace(v[|v| - 1]) {
      assert s[..|s| - 1] == " " + v[..|v| - 1];
      RStripSpaced(v[..|v| - 1]);
    }
  }

  lemma StripSpaced(v: string)
    ensures Strip(" " + v) == Strip(v)
  {
    RStripSpaced(v);
    var r := RStrip(v, IsSpace);
    assert (" " + r)[1..] == r && IsSpace((" " + r)[0]);
  }

  lemma {:induction false} AssignFresh(meta: seq<Field>, key: string, value: string)
    requires forall f :: f in meta ==> f.key != key
    ensures Assign(meta, key, value) == meta + [Field(key, value)]
  {
    if meta != [] {
      assert meta[0] in meta;
      AssignFresh(meta[1..], key, value);
    }
  }

  lemma {:induction false} TidyFieldsParse(meta: seq<Field>)
    requires TidyKeys(meta)
    ensures ParseFields(FieldLines(meta)) == ReadBackAll(meta)
  {
    hide Strip, FieldLine, IndexOf, Assign, ReadBack;
    if meta != [] {
      var n := |meta| - 1;
      var lines := FieldLines(meta);
      assert meta[n] in meta && lines[..n] == FieldLines(meta[..n]);
      TidyFieldsParse(meta[..n]);
      TidyFieldParses(meta[n]);
      var before := ReadBackAll(meta[..n]);
      forall f | f in before
        ensures f.key != meta[n].key
      {
        var i :| 0 <= i < n && before[i] == f;
      }
      AssignFresh(before, meta[n].key, ReadBack(meta[n].value));
      assert ReadBackAll(meta) == before + [Field(meta[n].key, ReadBack(meta[n].value))];
    }
  }

  lemma TidyReadsBack(meta: seq<Field>)
    requires Tidy(meta)
    ensures TidyKeys(meta) && ReadBackAll(meta) == meta
  {
    hide ReadBack, Strip;
    forall i | 0 <= i < |meta|
      ensures ReadBackAll(meta)[i] == meta[i]
    {
      assert meta[i] in meta;
      TidyValueReadsBack(meta[i].value);
    }
  }

  // ---------- Everything a parse returns is tidy ----------

  lemma {:induction false} AssignKeeps(meta: seq<Field>, key: string, value: string)
    ensures DistinctKeys(meta) ==> DistinctKeys(Assign(meta, key, value))
    ensures forall f :: f in Assign(meta, key, value) ==> f == Field(key, value) || f in meta
  {
    if meta != [] && meta[0].key != key {
      var rest := Assign(meta[1..], key, value);
      AssignKeeps(meta[1..], key, value);
      var r := [meta[0]] + rest;
      if DistinctKeys(meta) {
        forall i, j | 0 <= i < j < |r|
          ensures r[i].key != r[j].key
        {
          if i == 0 {
            assert rest[j - 1] in rest;
          } else {
            assert rest[i - 1].key != rest[j - 1].key;
          }
        }
      }
    }
  }

  lemma StripIdempotent(s: string)
    ensures Strip(Strip(s)) == Strip(s)
    ensures forall c :: c in Strip(s) ==> c in s
  {
    var r := RStrip(s, IsSpace);
    var t := LStrip(r, IsSpace);
    LStripSuffix(r, IsSpace);
    assert RStrip(t, IsSpace) == t;
  }

  lemma ColonFree(line: string)
    ensures ':' !in line[..IndexOf(line, ':')]
  {
  }

  lemma {:induction false} ParsedIsTidy(lines: seq<string>)
    requires AllOneLine(lines)
    ensures Tidy(ParseFields(lines))
  {
    hide Strip, IndexOf, Assign;
    if lines != [] {
      var n := |lines| - 1;
      assert forall l :: l in lines[..n] ==> l in lines;
      ParsedIsTidy(lines[..n]);
      var line := lines[n];
      assert line in lines;
      var i := IndexOf(line, ':');
      if i < |line| {
        var k, v := Strip(line[..i]), Strip(line[i + 1..]);
        StripOneLine(line[..i]);
        StripOneLine(line[i + 1..]);
        StripIdempotent(line[..i]);
        StripIdempotent(line[i + 1..]);
        ColonFree(line);
        AssignKeeps(ParseFields(lines[..n]), k, v);
      }
    }
  }

  lemma ParsedMetaIsTidy(text: string)
    requires Split(text).Ok?
    ensures Tidy(Split(text).value.meta)
  {
    hide SplitLines, ParseFields, FindFence, LStrip, Join;
    var lines := SplitLines(text);
    var front := lines[1..FindFence(lines, 1)];
    assert forall l :: l in front ==> l in lines;
    ParsedIsTidy(front);
  }

  lemma {:induction false} RemoveKeeps(meta: seq<Field>, key: string)
    ensures forall f :: f in Remove(meta, key) <==> f in meta && f.key != key
    ensures DistinctKeys(meta) ==> DistinctKeys(Remove(meta, key))
  {
    if meta != [] {
      RemoveKeeps(meta[1..], key);
      assert forall f :: f in meta <==> f == meta[0] || f in meta[1..];
      var rest := Remove(meta[1..], key);
      if DistinctKeys(meta) && meta[0].key != key {
        var r := [meta[0]] + rest;
        forall i, j | 0 <= i < j < |r|
          ensures r[i].key != r[j].key
        {
          if i == 0 {
            assert rest[j - 1] in rest;
          } else {
            assert rest[i - 1].key != rest[j - 1].key;
          }
        }
      }
    }
  }

  /** Stamping keeps the frontmatter tidy, every other field as it was, and the stamp last. */
  lemma TouchKeeps(meta: seq<Field>, now: string)
    ensures forall f :: f in Touch(meta, now) <==> f == Field("updated", now) || (f in meta && f.key != "updated")
    ensures OneLineKeys(meta) ==> OneLineKeys(Touch(meta, now))
    ensures TidyKeys(meta) ==> TidyKeys(Touch(meta, now))
    ensures Tidy(meta) && TidyValue(now) ==> Tidy(Touch(meta, now))
  {
    hide Strip;
    RemoveKeeps(meta, "updated");
    TidyKeyUpdated();
  }

  lemma TidyKeyUpdated()
    ensures TidyKey("updated")
  {
    var s := "updated";
    assert s[0] == 'u' && s[|s| - 1] == 'd';
  }

  // ---------- Round trip ----------

  ghost predicate TidyBody(b: string) {
    && (forall i :: 0 <= i < |b| && IsBreak(b[i]) ==> b[i] == '\n')
    && (b != "" ==> b[0] != '\n' && b[|b| - 1] != '\n')
  }

  lemma TidyBodyLines(b: string)
    requires TidyBody(b)
    ensures Join("\n", SplitLines(b)) == b && RStrip(b, IsNewline) == b
    ensures DropLead([""] + Filled(SplitLines(b))) == SplitLines(b)
  {
    JoinSplit(b);
    var ls := SplitLines(b);
    assert ([""] + Filled(ls))[1..] == Filled(ls);
    if b == "" {
      assert [""][1..] == [];
    } else {
      var i, rest := SplitStep(b);
      assert ls[0] == b[..i];
      FirstIsNoBreak(b);
    }
  }

  lemma FirstIsNoBreak(b: string)
    requires b != "" && !IsBreak(b[0])
    ensures 0 < FirstBreak(b) && SplitLines(b)[0] == b[..FirstBreak(b)]
  {
    assert b[..|b|] == b;
  }

  /** A tidy log comes back from its text exactly. */
  lemma RoundTrip(meta: seq<Field>, body: string)
    requires Tidy(meta) && TidyBody(body)
    ensures Split(Render(meta, body)) == Ok(Parsed(meta, body))
  {
    hide SplitLines, RStrip, Render, ParseFields, FindFence, Join, DropLead, FrontLines, FieldLines, Split, Filled,
         Strip, Written, ReadBack;
    TidyBodyLines(body);
    SplitRender(meta, body);
    WrittenJoined(body, SplitLines(body));
    FrontOfOneLineKeys(meta);
    FilledParses(FieldLines(meta));
    TidyReadsBack(meta);
    TidyFieldsParse(meta);
    var front := FrontLines(meta);
    assert front[..|front|] == front;
  }

  lemma FilledParses(lines: seq<string>)
    ensures ParseFields(Filled(lines)) == ParseFields(lines)
  {
    assert [""][..0] == [];
    assert ParseFields([]) == [];
    assert ParseFields([""]) == [];
  }
}
