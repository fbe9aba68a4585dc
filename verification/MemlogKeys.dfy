/** What a key does to the frontmatter it is written into: which lines it makes, which of them reach
    the body, and which fields they name when the file is read again. */
module MemlogKeys {
  import opened Common
  import opened Memlog
  import opened MemlogText
  import opened MemlogResults

  // ---------- The lines of a key ----------

  function BreakWidth(s: string, i: nat): nat
    requires i < |s|
  {
    if s[i] == '\r' && i + 1 < |s| && s[i + 1] == '\n' then 2 else 1
  }

  /** The lines of a key but the last, and its last. */
  function KeyLead(key: string): seq<string> {
    var i := FirstBreak(key);
    if i == |key| then [] else [key[..i]] + KeyLead(key[i + BreakWidth(key, i)..])
  }

  function KeyLast(key: string): string {
    var i := FirstBreak(key);
    if i == |key| then key else KeyLast(key[i + BreakWidth(key, i)..])
  }

  /** The lines a key makes of a field, up to its colon. */
  function KeyLines(key: string): seq<string> { KeyLead(key) + [KeyLast(key) + ":"] }

  /** The lines a field is written as: its key's, and its value on the last. */
  function FieldBlock(f: Field): seq<string> { SplitLines(FieldLine(f) + "\n") }

  lemma {:induction false} LinesWithTail(key: string, t: string)
    requires t != "" && OneLine(t)
    ensures SplitLines(key + t + "\n") == KeyLead(key) + [KeyLast(key) + t]
    decreases |key|
  {
    hide SplitLines;
    var i := FirstBreak(key);
    if i == |key| {
      assert OneLine(key) by { assert key[..i] == key; }
      SplitOneLine(key + t);
    } else {
      NewlineIsBreak();
      assert key + t + "\n" == key + (t + "\n") && (t + "\n")[0] == t[0];
      var width := BreakWidth(key, i);
      SplitInside(key, i, width, t + "\n");
      var rest := key[i + width..];
      LinesWithTail(rest, t);
      assert rest + (t + "\n") == rest + t + "\n";
    }
  }

  lemma NewlineIsBreak()
    ensures IsBreak('\n')
  {
  }

  lemma {:induction false} KeyLinesOneLine(key: string)
    ensures AllOneLine(KeyLead(key)) && OneLine(KeyLast(key))
    ensures OneLine(key) ==> KeyLead(key) == [] && KeyLast(key) == key
    decreases |key|
  {
    var i := FirstBreak(key);
    assert key[..i] == key || i < |key|;
    if i < |key| {
      KeyLinesOneLine(key[i + BreakWidth(key, i)..]);
    }
  }

  /** A field's lines are its key's, with the value after the colon of the last. */
  lemma BlockLines(f: Field)
    ensures
      var tail := ": " + Join(" ", SplitLines(f.value));
      FieldBlock(f) == KeyLead(f.key) + [KeyLast(f.key) + tail]
  {
    hide SplitLines, Join;
    var v := Join(" ", SplitLines(f.value));
    JoinOneLine(" ", SplitLines(f.value));
    LinesWithTail(f.key, ": " + v);
    assert FieldLine(f) + "\n" == f.key + (": " + v) + "\n";
  }

  // ---------- The frontmatter, field by field ----------

  function Blocks(meta: seq<Field>): seq<string> {
    if meta == [] then [] else Blocks(meta[..|meta| - 1]) + FieldBlock(meta[|meta| - 1])
  }

  lemma {:induction false} FrontIsBlocks(meta: seq<Field>)
    requires meta != []
    ensures FrontLines(meta) == Blocks(meta)
  {
    hide SplitLines, FieldLine;
    var n := |meta| - 1;
    var lines := FieldLines(meta);
    if n == 0 {
      assert Blocks(meta[..0]) == [];
      assert lines == [FieldLine(meta[0])];
    } else {
      FrontIsBlocks(meta[..n]);
      var before := FieldLines(meta[..n]);
      assert lines == before + [FieldLine(meta[n])];
      JoinLast(before, FieldLine(meta[n]));
      var j, l := Join("\n", before), FieldLine(meta[n]) + "\n";
      assert Join("\n", lines) + "\n" == j + "\n" + l;
      SplitAtNewline(j, l);
    }
  }

  lemma {:induction false} BlocksOfOneLineKeys(meta: seq<Field>)
    requires OneLineKeys(meta)
    ensures Blocks(meta) == FieldLines(meta)
  {
    hide SplitLines, FieldLine;
    if meta != [] {
      var n := |meta| - 1;
      BlocksOfOneLineKeys(meta[..n]);
      assert meta[n] in meta;
      FieldLineOneLine(meta[n]);
      SplitOneLine(FieldLine(meta[n]));
    }
  }

  lemma BlocksAppended(meta: seq<Field>, f: Field)
    ensures Blocks(meta + [f]) == Blocks(meta) + FieldBlock(f)
  {
    assert (meta + [f])[..|meta|] == meta;
  }

  /** A new key goes last but for the stamp. */
  lemma NewKeyGoesLast(meta: seq<Field>, key: string, value: string, now: string)
    requires (forall f :: f in meta ==> f.key != key) && key != "updated"
    ensures Touch(Assign(meta, key, value), now)
         == Remove(meta, "updated") + [Field(key, value)] + [Field("updated", now)]
  {
    AssignFresh(meta, key, value);
    RemoveAppended(meta, Field(key, value), "updated");
  }

  lemma {:induction false} RemoveAppended(meta: seq<Field>, f: Field, key: string)
    requires f.key != key
    ensures Remove(meta + [f], key) == Remove(meta, key) + [f]
  {
    if meta == [] {
      assert [f][1..] == [];
      assert Remove([f], key) == [f];
    } else {
      assert (meta + [f])[1..] == meta[1..] + [f];
      RemoveAppended(meta[1..], f, key);
    }
  }

  /** The frontmatter with a new key: the other fields' lines, the new field's, and the stamp's. */
  lemma FrontWithNewKey(meta: seq<Field>, key: string, value: string, now: string)
    requires OneLineKeys(meta) && (forall f :: f in meta ==> f.key != key) && key != "updated"
    ensures FrontLines(Touch(Assign(meta, key, value), now))
         == FieldLines(Remove(meta, "updated")) + FieldBlock(Field(key, value)) + [FieldLine(Field("updated", now))]
  {
    var others, f, u := Remove(meta, "updated"), Field(key, value), Field("updated", now);
    OthersOneLine(meta);
    NewKeyGoesLast(meta, key, value, now);
    hide *;
    FrontIsBlocks(others + [f] + [u]);
    BlocksAppended(others + [f], u);
    BlocksAppended(others, f);
    BlocksOfOneLineKeys(others);
    StampBlock(now);
  }

  lemma StampBlock(now: string)
    ensures FieldBlock(Field("updated", now)) == [FieldLine(Field("updated", now))]
    ensures FieldLine(Field("updated", now)) != FENCE && !IsEntry(FieldLine(Field("updated", now)))
  {
    hide SplitLines, Join;
    var u := Field("updated", now);
    assert OneLine("updated") by { TidyKeyUpdated(); }
    FieldLineOneLine(u);
    SplitOneLine(FieldLine(u));
    assert FieldLine(u)[0] == 'u';
  }

  lemma OthersOneLine(meta: seq<Field>)
    requires OneLineKeys(meta)
    ensures OneLineKeys(Remove(meta, "updated"))
  {
    RemoveKeeps(meta, "updated");
  }

  /** A one-line key's line is no fence, and names a field. */
  lemma LinesHaveColons(meta: seq<Field>)
    requires OneLineKeys(meta)
    ensures forall l :: l in FieldLines(meta) ==> l != FENCE && ':' in l
  {
    hide FieldLine;
    forall l | l in FieldLines(meta)
      ensures l != FENCE && ':' in l
    {
      var i :| 0 <= i < |meta| && FieldLine(meta[i]) == l;
      assert meta[i] in meta;
      FieldLineOneLine(meta[i]);
      HasColon(meta[i]);
    }
  }

  lemma HasColon(f: Field)
    ensures ':' in FieldLine(f)
  {
    hide SplitLines, Join;
    assert FieldLine(f)[|f.key|] == ':';
  }

  // ---------- What reaches the body ----------

  /** A fence, and an entry after it. */
  predicate SpillsIn(lines: seq<string>) {
    exists i, j :: 0 <= i < j < |lines| && lines[i] == FENCE && IsEntry(lines[j])
  }

  /** The key breaks off the frontmatter on one line and makes an entry of a later one. */
  predicate SpillsEntries(key: string) { SpillsIn(KeyLines(key)) }

  lemma {:induction false} NoEntries(ls: seq<string>)
    ensures EntriesOf(ls) == [] <==> forall j :: 0 <= j < |ls| ==> !IsEntry(ls[j])
  {
    hide IsEntry;
    if ls != [] {
      var n := |ls| - 1;
      NoEntries(ls[..n]);
      assert forall j :: 0 <= j < n ==> ls[..n][j] == ls[j];
    }
  }

  lemma FenceIsNoEntry()
    ensures !IsEntry(FENCE) && !IsEntry("")
  {
    assert FENCE[..2][1] == '-';
  }

  lemma SpilledExactly(front: seq<string>)
    ensures EntriesOf(Spilled(front)) == [] <==> !SpillsIn(front)
  {
    var g := FindFence(front, 0);
    NoEntries(Spilled(front));
    hide EntriesOf;
    var spilled := Spilled(front);
    if g < |front| {
      FenceIsNoEntry();
      assert forall j :: g < j < |front| ==> spilled[j - g - 1] == front[j];
      if !SpillsIn(front) {
        forall j | 0 <= j < |spilled|
          ensures !IsEntry(spilled[j])
        {
          assert j < |front| - g - 1 ==> spilled[j] == front[g + 1 + j];
        }
      }
    } else {
      assert forall i :: 0 <= i < |front| ==> front[i] != FENCE;
    }
  }

  /** Lines before that are no fence, and one after that is no entry, spill nothing more. */
  lemma SpillsInside(before: seq<string>, lines: seq<string>, after: string)
    requires (forall l :: l in before ==> l != FENCE) && !IsEntry(after)
    ensures SpillsIn(before + lines + [after]) <==> SpillsIn(lines)
  {
    hide IsEntry;
    var all, n := before + lines + [after], |before|;
    assert forall k :: 0 <= k < n ==> all[k] == before[k] && before[k] in before;
    if SpillsIn(lines) {
      var i, j :| 0 <= i < j < |lines| && lines[i] == FENCE && IsEntry(lines[j]);
      assert all[n + i] == FENCE && IsEntry(all[n + j]);
    }
    if SpillsIn(all) {
      var i, j :| 0 <= i < j < |all| && all[i] == FENCE && IsEntry(all[j]);
      assert lines[i - n] == FENCE && IsEntry(lines[j - n]);
    }
  }

  /** The lines of all keys, field by field. */
  function AllKeyLines(meta: seq<Field>): seq<string> {
    if meta == [] then [] else AllKeyLines(meta[..|meta| - 1]) + KeyLines(meta[|meta| - 1].key)
  }

  /** The same lines are fences, and the same are entries. */
  ghost predicate Alike(a: seq<string>, b: seq<string>) {
    |a| == |b| && forall i :: 0 <= i < |a| ==> (a[i] == FENCE <==> b[i] == FENCE) && (IsEntry(a[i]) <==> IsEntry(b[i]))
  }

  lemma AlikeSpills(a: seq<string>, b: seq<string>)
    requires Alike(a, b)
    ensures SpillsIn(a) <==> SpillsIn(b)
  {
    hide IsEntry;
    if SpillsIn(a) {
      var i, j :| 0 <= i < j < |a| && a[i] == FENCE && IsEntry(a[j]);
      assert b[i] == FENCE && IsEntry(b[j]);
    }
    if SpillsIn(b) {
      var i, j :| 0 <= i < j < |b| && b[i] == FENCE && IsEntry(b[j]);
      assert a[i] == FENCE && IsEntry(a[j]);
    }
  }

  lemma AlikeConcat(a: seq<string>, b: seq<string>, c: seq<string>, d: seq<string>)
    requires Alike(a, b) && Alike(c, d)
    ensures Alike(a + c, b + d)
  {
    hide IsEntry;
  }

  /** The value does not matter: a field's lines spill what its key's lines do. */
  lemma BlockAlike(f: Field)
    ensures Alike(FieldBlock(f), KeyLines(f.key))
  {
    BlockLines(f);
    hide FieldBlock, SplitLines, Join, KeyLead, KeyLast;
    LastLineAlike(KeyLead(f.key), KeyLast(f.key), ": " + Join(" ", SplitLines(f.value)));
  }

  lemma BlockSpills(f: Field)
    ensures SpillsIn(FieldBlock(f)) <==> SpillsEntries(f.key)
  {
    hide FieldBlock, KeyLines;
    BlockAlike(f);
    AlikeSpills(FieldBlock(f), KeyLines(f.key));
  }

  lemma LastLineAlike(lead: seq<string>, last: string, tail: string)
    requires tail != "" && tail[0] == ':'
    ensures Alike(lead + [last + tail], lead + [last + ":"])
  {
    var a, b := lead + [last + tail], lead + [last + ":"];
    assert (last + tail)[|last|] == ':' && (last + ":")[|last|] == ':';
    assert IsEntry(last + tail) <==> IsEntry(last + ":") by {
      if |last| >= 2 {
        assert (last + tail)[..2] == last[..2] == (last + ":")[..2];
      } else if |last| == 1 {
        assert (last + tail)[..2] == last + ":" == (last + ":")[..2];
      }
    }
    hide IsEntry;
    assert forall i :: 0 <= i < |lead| ==> a[i] == b[i];
    assert a[|lead|] == last + tail && b[|lead|] == last + ":";
  }

  lemma NothingAlike()
    ensures Alike([], [])
  {
  }

  lemma {:induction false} BlocksAlike(meta: seq<Field>)
    ensures Alike(Blocks(meta), AllKeyLines(meta))
  {
    hide FieldBlock, KeyLines, Alike;
    if meta == [] {
      NothingAlike();
    } else {
      var n := |meta| - 1;
      BlocksAlike(meta[..n]);
      BlockAlike(meta[n]);
      AlikeConcat(Blocks(meta[..n]), AllKeyLines(meta[..n]), FieldBlock(meta[n]), KeyLines(meta[n].key));
    }
  }

  // ---------- What the fields read back as ----------

  /** The field a line names; `None` for a line without a colon. */
  function NameOf(line: string): Option<string> {
    var i := IndexOf(line, ':');
    if i < |line| then Some(Strip(line[..i])) else None
  }

  function ValueAt(line: string): string {
    var i := IndexOf(line, ':');
    if i < |line| then Strip(line[i + 1..]) else ""
  }

  /** What the last line that names `n` gives it. */
  function Given(lines: seq<string>, n: string): Option<string> {
    if lines == [] then None
    else
      var m := |lines| - 1;
      if NameOf(lines[m]) == Some(n) then Some(ValueAt(lines[m])) else Given(lines[..m], n)
  }

  function Lookup(meta: seq<Field>, n: string): Option<string> {
    if meta == [] then None
    else if meta[0].key == n then Some(meta[0].value)
    else Lookup(meta[1..], n)
  }

  lemma {:induction false} LookupAssign(meta: seq<Field>, key: string, value: string, n: string)
    ensures Lookup(Assign(meta, key, value), n) == if n == key then Some(value) else Lookup(meta, n)
  {
    if meta == [] {
      assert [Field(key, value)][1..] == [];
    } else if meta[0].key == key {
      assert ([Field(key, value)] + meta[1..])[1..] == meta[1..];
    } else {
      LookupAssign(meta[1..], key, value, n);
      assert ([meta[0]] + Assign(meta[1..], key, value))[1..] == Assign(meta[1..], key, value);
    }
  }

  /** Parsing is last line wins. */
  lemma {:induction false} LookupParse(lines: seq<string>, n: string)
    ensures Lookup(ParseFields(lines), n) == Given(lines, n)
  {
    hide Strip, Assign;
    if lines != [] {
      var m := |lines| - 1;
      LookupParse(lines[..m], n);
      var line := lines[m];
      var i := IndexOf(line, ':');
      if i < |line| {
        LookupAssign(ParseFields(lines[..m]), Strip(line[..i]), Strip(line[i + 1..]), n);
      }
    }
  }

  lemma {:induction false} GivenConcat(a: seq<string>, b: seq<string>, n: string)
    ensures Given(a + b, n) == if Given(b, n).Some? then Given(b, n) else Given(a, n)
  {
    hide NameOf, ValueAt;
    if b == [] {
      assert a + b == a;
    } else {
      var m := |b| - 1;
      assert (a + b)[..|a + b| - 1] == a + b[..m];
      GivenConcat(a, b[..m], n);
    }
  }

  lemma {:induction false} GivenNone(lines: seq<string>, n: string)
    ensures Given(lines, n) == None <==> forall i :: 0 <= i < |lines| ==> NameOf(lines[i]) != Some(n)
  {
    hide NameOf, ValueAt;
    if lines != [] {
      GivenNone(lines[..|lines| - 1], n);
    }
  }

  /** The lines before the first fence: those that stay frontmatter. */
  function UpToFence(lines: seq<string>): seq<string> { lines[..FindFence(lines, 0)] }

  lemma CutAtFence(before: seq<string>, lines: seq<string>, after: string)
    requires (forall l :: l in before ==> l != FENCE) && after != FENCE && FENCE in lines
    ensures UpToFence(before + lines + [after]) == before + UpToFence(lines)
  {
    hide FindFence;
    FenceInside(before, lines, after);
    FenceFoundIn(lines);
    TakeInside(before, lines, [after], FindFence(lines, 0));
  }

  lemma NotCut(lines: seq<string>)
    requires FENCE !in lines
    ensures UpToFence(lines) == lines
  {
    hide FindFence;
    FirstFence(lines, |lines|);
    TakeAll(lines);
  }

  lemma FenceFoundIn(lines: seq<string>)
    ensures FindFence(lines, 0) < |lines| <==> FENCE in lines
  {
    hide FindFence;
  }

  lemma TakeInside(a: seq<string>, b: seq<string>, c: seq<string>, h: nat)
    requires h <= |b|
    ensures |a| + h <= |a + b + c| && (a + b + c)[..|a| + h] == a + b[..h]
  {
  }

  lemma TakeAll(s: seq<string>)
    ensures s[..|s|] == s
  {
  }

  lemma FenceInside(before: seq<string>, lines: seq<string>, after: string)
    requires (forall l :: l in before ==> l != FENCE) && after != FENCE
    ensures
      var h := FindFence(lines, 0);
      FindFence(before + lines + [after], 0) == |before| + h + if h < |lines| then 0 else 1
  {
    hide FindFence;
    var all, n, h := before + lines + [after], |before|, FindFence(lines, 0);
    assert forall i :: 0 <= i < n ==> all[i] == before[i] && before[i] in before;
    assert forall i :: n <= i < n + |lines| ==> all[i] == lines[i - n];
    assert all[n + |lines|] == after;
    FirstFence(all, if h < |lines| then n + h else |all|);
  }

  lemma FirstFence(all: seq<string>, k: nat)
    requires k <= |all| && (k < |all| ==> all[k] == FENCE) && forall i :: 0 <= i < k ==> all[i] != FENCE
    ensures FindFence(all, 0) == k
  {
    hide FindFence;
  }
}
