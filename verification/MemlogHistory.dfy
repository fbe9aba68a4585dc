/** What a run of commands does to the memory log: an append adds its entry at the end, a set
    changes no entry, and nothing ever rewrites what is already there. */
module MemlogHistory {
  import opened Memlog
  import opened MemlogText
  import opened MemlogResults
  import opened MemlogKeys
  import opened MemlogSet

  // ---------- Appending ----------

  lemma {:induction false} EntriesOneLine(ls: seq<string>)
    requires AllOneLine(ls)
    ensures AllOneLine(EntriesOf(ls))
  {
    if ls != [] {
      var n := |ls| - 1;
      assert ls[n] in ls && forall l :: l in ls[..n] ==> l in ls;
      EntriesOneLine(ls[..n]);
    }
  }

  /** An entry is one line exactly when its label is. */
  lemma EntryLineOneLine(text: string, kind: string, who: string)
    ensures OneLine(EntryLine(text, kind, who)) <==> OneLine(Label(kind, who))
    ensures IsEntry(EntryLine(text, kind, who))
  {
    hide Collapse, Label;
    var tag, rest := Label(kind, who), Collapse(text);
    CollapseOneLine(text);
    var e := EntryLine(text, kind, who);
    if tag == "" {
      assert e == "- " + rest;
    } else {
      assert e == "- (" + tag + ") " + rest;
      assert e[3..3 + |tag|] == tag;
      assert forall i :: 0 <= i < |tag| ==> e[3 + i] == tag[i];
    }
  }

  lemma RStripKeeps(s: string)
    requires s != "" && OneLine(s)
    ensures forall r: string :: RStrip(r + s, IsNewline) == r + s
  {
    assert IsBreak('\n') && !IsBreak(s[|s| - 1]);
  }

  /** The body an append writes, as lines. */
  lemma AppendedLines(text: string, entry: string)
    requires Split(text).Ok? && OneLine(entry) && IsEntry(entry)
    ensures EntriesOf(Written(AppendBody(Split(text).value.body, entry))) == Entries(Split(text).value.body) + [entry]
  {
    hide Split, RStrip, Strip, Join, EntriesOf, Entries, Written, DropTrail;
    var body := Split(text).value.body;
    RStripKeeps(entry);
    EntriesOfOne(entry);
    if Strip(body) == "" {
      BlankIsSpace(body);
      BlankHasNoEntries(body);
      assert "" + entry == entry;
      JoinOne(entry);
      WrittenJoined(entry, [entry]);
    } else {
      var ls := BodyLines(text);
      var kept := Filled(DropTrail(ls));
      EntriesFilled(DropTrail(ls));
      FilledJoins(DropTrail(ls));
      JoinLast(kept, entry);
      WrittenJoined(Join("\n", kept) + "\n" + entry, kept + [entry]);
      EntriesConcat(kept, [entry]);
    }
  }

  lemma JoinOne(l: string)
    ensures Join("\n", [l]) == l
  {
  }

  /** Appending adds exactly its entry, at the end, exactly when the label is on one line. */
  lemma AppendGrows(text: string, t: string, kind: string, who: string, now: string)
    requires Split(text).Ok?
    ensures
      var p := Split(text).value;
      var r := Execute(text, Append(t, kind, who), now);
      && r.Ok? && Split(r.value).Ok?
      && (OneLine(Label(kind, who))
          <==> Entries(Split(r.value).value.body) == Entries(p.body) + [EntryLine(t, kind, who)])
  {
    hide Split, Render, Touch, AppendBody, EntryLine, Label, Entries, EntriesOf, Written, FrontLines, Spilled,
         ParseFields;
    var p := Split(text).value;
    var entry := EntryLine(t, kind, who);
    var meta, body := Touch(p.meta, now), AppendBody(p.body, entry);
    EntriesAfterRender(meta, body);
    EntryLineOneLine(t, kind, who);
    TouchedSpillsNothing(text, p.meta, now);
    if OneLine(entry) {
      AppendedLines(text, entry);
      assert [] + EntriesOf(Written(body)) == EntriesOf(Written(body));
    } else {
      var after := Entries(Split(Render(meta, body)).value.body);
      EntriesAreOneLine(Split(Render(meta, body)).value.body);
      assert entry in Entries(p.body) + [entry];
    }
  }

  lemma EntriesAreOneLine(body: string)
    ensures AllOneLine(Entries(body))
  {
    EntriesOneLine(SplitLines(body));
  }

  lemma TouchedSpillsNothing(text: string, meta: seq<Field>, now: string)
    requires Split(text).Ok? && meta == Split(text).value.meta
    ensures EntriesOf(Spilled(FrontLines(Touch(meta, now)))) == []
  {
    hide Split, Touch, FrontLines, Spilled, Strip;
    ParsedMetaIsTidy(text);
    TouchKeeps(meta, now);
    FrontOfOneLineKeys(Touch(meta, now));
    EntriesOfOne("");
  }

  // ---------- Runs ----------

  datatype Timed = Timed(command: Command, now: string)

  /** The file after a run of commands, stopping at the first that fails. */
  function After(text: string, cs: seq<Timed>): Result<string> {
    if cs == [] then Ok(text)
    else
      var n := |cs| - 1;
      match After(text, cs[..n])
      case Ok(t) => Execute(t, cs[n].command, cs[n].now)
      case NoFrontmatter => NoFrontmatter
      case NotTerminated => NotTerminated
  }

  /** The entries a run appends, in order. */
  function Appended(cs: seq<Timed>): seq<string> {
    if cs == [] then []
    else
      var n := |cs| - 1;
      var c := cs[n].command;
      Appended(cs[..n]) + if c.Append? then [EntryLine(c.text, c.kind, c.who)] else []
  }

  /** Labels stay on one line, and no key forges an entry; a key on one line never does. */
  ghost predicate Clean(c: Command) {
    match c
    case Append(_, kind, who) => OneLine(Label(kind, who))
    case Set(key, _) => !SpillsEntries(key)
  }

  /** Over any run, no command fails and the entries are the old ones followed by exactly those
      appended, in order. */
  lemma {:induction false} History(text: string, cs: seq<Timed>)
    requires Split(text).Ok? && forall c :: c in cs ==> Clean(c.command)
    ensures After(text, cs).Ok? && Split(After(text, cs).value).Ok?
    ensures Entries(Split(After(text, cs).value).value.body) == Entries(Split(text).value.body) + Appended(cs)
    decreases |cs|
  {
    hide Split, Execute, Entries, EntryLine, Label, SpillsEntries;
    if cs == [] {
      assert Entries(Split(text).value.body) + [] == Entries(Split(text).value.body);
    } else {
      var n := |cs| - 1;
      History(text, cs[..n]);
      var before := After(text, cs[..n]).value;
      var c := cs[n];
      assert c in cs;
      match c.command {
        case Append(t, kind, who) => AppendGrows(before, t, kind, who, c.now);
        case Set(key, value) => SetKeepsEntries(before, key, value, c.now);
      }
    }
  }

  lemma {:induction false} InitMetaKeys(fields: seq<Field>)
    ensures forall f :: f in InitMeta(fields) ==> exists g :: g in fields && f.key == Strip(g.key)
  {
    hide Strip, Assign;
    if fields != [] {
      var n := |fields| - 1;
      InitMetaKeys(fields[..n]);
      assert fields[n] in fields && forall g :: g in fields[..n] ==> g in fields;
      AssignKeeps(InitMeta(fields[..n]), Strip(fields[n].key), Strip(fields[n].value));
    }
  }

  /** A log started by `init` is readable, and empty exactly when no line of its keys is the fence with
      a later one that starts an entry. */
  lemma InitEntries(fields: seq<Field>, now: string)
    ensures Split(Init(fields, now)).Ok?
    ensures Entries(Split(Init(fields, now)).value.body) == []
       <==> !SpillsIn(AllKeyLines(Touch(InitMeta(fields), now)))
  {
    hide Split, Render, Remove, Entries, Written, FrontLines, Spilled, InitMeta, EntriesOf, RStrip, Blocks, AllKeyLines,
         SpillsIn, Alike;
    var meta := Touch(InitMeta(fields), now);
    assert meta != [];
    EntriesAfterRender(meta, "");
    EmptyBody();
    SpilledExactly(FrontLines(meta));
    FrontIsBlocks(meta);
    BlocksAlike(meta);
    AlikeSpills(Blocks(meta), AllKeyLines(meta));
    var spilled := EntriesOf(Spilled(FrontLines(meta)));
    assert spilled + [] == spilled;
  }

  /** Keys on one line have no such lines. */
  lemma OneLineKeysSpillNothing(fields: seq<Field>, now: string)
    requires forall f :: f in fields ==> OneLine(f.key)
    ensures !SpillsIn(AllKeyLines(Touch(InitMeta(fields), now)))
  {
    hide Strip, Touch, InitMeta, FrontLines, Spilled, EntriesOf, Entries, Split, AllKeyLines, SpillsIn, Render;
    var meta := Touch(InitMeta(fields), now);
    InitMetaKeys(fields);
    forall f | f in InitMeta(fields)
      ensures OneLine(f.key)
    {
      var g :| g in fields && f.key == Strip(g.key);
      StripOneLine(g.key);
    }
    TouchKeeps(InitMeta(fields), now);
    FrontOfOneLineKeys(meta);
    EntriesAfterRender(meta, "");
    EmptyBody();
    InitEntries(fields, now);
  }

  /** From then on it holds exactly the entries appended since. */
  lemma HistoryFromInit(fields: seq<Field>, now: string, cs: seq<Timed>)
    requires !SpillsIn(AllKeyLines(Touch(InitMeta(fields), now)))
    requires forall c :: c in cs ==> Clean(c.command)
    ensures After(Init(fields, now), cs).Ok? && Split(After(Init(fields, now), cs).value).Ok?
    ensures Entries(Split(After(Init(fields, now), cs).value).value.body) == Appended(cs)
  {
    hide Split, Init, Entries, After, Appended, Clean, SpillsIn, AllKeyLines, Touch;
    InitEntries(fields, now);
    History(Init(fields, now), cs);
    assert [] + Appended(cs) == Appended(cs);
  }

  lemma EmptyBody()
    ensures EntriesOf(Written("")) == [] && EntriesOf([""]) == []
  {
    EntriesOfOne("");
    assert RStrip("", IsNewline) == "" && Join("\n", []) == "";
    WrittenJoined("", []);
  }

  // ---------- Reading the file back ----------

  /** What reading a file in text mode does: carriage returns become newlines. */
  function Universal(s: string): string {
    if s == "" then ""
    else if s[0] == '\r' then "\n" + Universal(s[BreakWidth(s, 0)..])
    else [s[0]] + Universal(s[1..])
  }

  lemma {:induction false} UniversalPrefix(l: string, rest: string)
    requires OneLine(l)
    ensures Universal(l + rest) == l + Universal(rest)
  {
    if l == "" {
      assert l + rest == rest;
    } else {
      assert IsBreak('\r') && !IsBreak(l[0]);
      assert (l + rest)[1..] == l[1..] + rest;
      UniversalPrefix(l[1..], rest);
      assert [l[0]] + (l[1..] + Universal(rest)) == l + Universal(rest);
    }
  }

  lemma UniversalBreak(text: string, i: nat)
    requires i < |text| && OneLine(text[..i]) && IsBreak(text[i])
    ensures
      var c := if text[i] == '\r' then '\n' else text[i];
      Universal(text) == text[..i] + ([c] + Universal(text[i + BreakWidth(text, i)..]))
  {
    hide Universal;
    var tail, width := text[i..], BreakWidth(text, i);
    assert text == text[..i] + tail && width == BreakWidth(tail, 0);
    UniversalPrefix(text[..i], tail);
    UniversalStart(tail);
    assert tail[width..] == text[i + width..];
  }

  lemma UniversalStart(tail: string)
    requires tail != "" && IsBreak(tail[0])
    ensures Universal(tail) == [if tail[0] == '\r' then '\n' else tail[0]] + Universal(tail[BreakWidth(tail, 0)..])
  {
  }

  /** Reading in text mode changes nothing the log's parser sees. */
  lemma {:induction false} UniversalHarmless(text: string)
    ensures SplitLines(Universal(text)) == SplitLines(text)
    decreases |text|
  {
    hide SplitLines, Universal, IsBreak;
    var i := FirstBreak(text);
    if i == |text| {
      UniversalPrefix(text, "");
      UniversalEmpty();
      assert text[..i] == text && text + "" == text;
    } else {
      UniversalBreak(text, i);
      var width := BreakWidth(text, i);
      var rest := text[i + width..];
      UniversalHarmless(rest);
      SplitInside(text, i, width, "");
      assert text + "" == text && rest + "" == rest;
      var c := if text[i] == '\r' then '\n' else text[i];
      assert IsBreak('\n') by { NewlineBreaks(); }
      BreakHead(text[..i], c, Universal(rest));
    }
  }

  lemma NewlineBreaks()
    ensures IsBreak('\n')
  {
  }

  lemma UniversalEmpty()
    ensures Universal("") == ""
  {
  }

  lemma BreakHead(l: string, c: char, rest: string)
    requires OneLine(l) && IsBreak(c) && c != '\r'
    ensures SplitLines(l + ([c] + rest)) == [l] + SplitLines(rest)
  {
    var s := l + ([c] + rest);
    FirstBreakAt(l, [c] + rest);
    assert s[..|l|] == l && s[|l| + 1..] == rest;
  }
}
