/** `_bmad/scripts/memlog.py`: the append-only memory log, its text form and its commands. */
module Memlog {
  import opened Common

  // ---------- Text ----------

  /** What ends a line for `str.splitlines`. */
  predicate IsBreak(c: char) {
    c as int in {0x0a, 0x0b, 0x0c, 0x0d, 0x1c, 0x1d, 0x1e, 0x85, 0x2028, 0x2029}
  }

  /** What `str.strip` and `str.split` take for whitespace. */
  predicate IsSpace(c: char) {
    || 0x09 <= c as int <= 0x0d || 0x1c <= c as int <= 0x20 || 0x2000 <= c as int <= 0x200a
    || c as int in {0x85, 0xa0, 0x1680, 0x2028, 0x2029, 0x202f, 0x205f, 0x3000}
  }

  predicate OneLine(s: string) { forall i :: 0 <= i < |s| ==> !IsBreak(s[i]) }

  /** The position of the first line break, or the length. */
  function FirstBreak(s: string): (i: nat)
    ensures i <= |s| && OneLine(s[..i]) && (i < |s| ==> IsBreak(s[i]))
  {
    if s == [] || IsBreak(s[0]) then 0
    else
      var i := 1 + FirstBreak(s[1..]);
      assert s[..i] == [s[0]] + s[1..][..i - 1];
      i
  }

  /** `str.splitlines`: a carriage return and newline end one line; a final break ends the last. */
  function SplitLines(s: string): (lines: seq<string>)
    ensures forall l :: l in lines ==> OneLine(l)
  {
    if s == [] then []
    else
      var i := FirstBreak(s);
      if i == |s| then [s]
      else
        var width := if s[i] == '\r' && i + 1 < |s| && s[i + 1] == '\n' then 2 else 1;
        [s[..i]] + SplitLines(s[i + width..])
  }

  function Join(sep: string, parts: seq<string>): string {
    if parts == [] then []
    else if |parts| == 1 then parts[0]
    else parts[0] + sep + Join(sep, parts[1..])
  }

  function LStrip(s: string, drop: char -> bool): (r: string)
    ensures r != [] ==> !drop(r[0])
    ensures s != [] && !drop(s[0]) ==> r == s
  {
    if s != [] && drop(s[0]) then LStrip(s[1..], drop) else s
  }

  function RStrip(s: string, drop: char -> bool): (r: string)
    ensures r <= s
    ensures r != [] ==> !drop(r[|r| - 1])
    ensures s != [] && !drop(s[|s| - 1]) ==> r == s
  {
    if s != [] && drop(s[|s| - 1]) then RStrip(s[..|s| - 1], drop) else s
  }

  function Strip(s: string): string { LStrip(RStrip(s, IsSpace), IsSpace) }

  function IsNewline(c: char): bool { c == '\n' }

  /** `" ".join(s.split())`. */
  function Collapse(s: string): string { Join(" ", Words(s)) }

  function Words(s: string): (ws: seq<string>)
    ensures forall w :: w in ws ==> NoSpaces(w)
    decreases |s|
  {
    if s == [] then []
    else if IsSpace(s[0]) then Words(s[1..])
    else
      var n := WordLength(s);
      [s[..n]] + Words(s[n..])
  }

  predicate NoSpaces(s: string) { forall i :: 0 <= i < |s| ==> !IsSpace(s[i]) }

  function WordLength(s: string): (n: nat)
    ensures n <= |s| && NoSpaces(s[..n])
    ensures s != [] && !IsSpace(s[0]) ==> 0 < n
  {
    if s == [] || IsSpace(s[0]) then 0
    else
      var n := 1 + WordLength(s[1..]);
      assert s[..n] == [s[0]] + s[1..][..n - 1];
      n
  }

  // ---------- Frontmatter ----------

  datatype Field = Field(key: string, value: string)

  /** Assignment into an insertion-ordered dictionary. */
  function Assign(meta: seq<Field>, key: string, value: string): seq<Field> {
    if meta == [] then [Field(key, value)]
    else if meta[0].key == key then [Field(key, value)] + meta[1..]
    else [meta[0]] + Assign(meta[1..], key, value)
  }

  function Remove(meta: seq<Field>, key: string): seq<Field> {
    if meta == [] then []
    else if meta[0].key == key then Remove(meta[1..], key)
    else [meta[0]] + Remove(meta[1..], key)
  }

  /** The fields of frontmatter lines; a line without a colon is passed over. */
  function ParseFields(lines: seq<string>): seq<Field> {
    if lines == [] then []
    else
      var n := |lines| - 1;
      var meta, line := ParseFields(lines[..n]), lines[n];
      var i := IndexOf(line, ':');
      if i < |line| then Assign(meta, Strip(line[..i]), Strip(line[i + 1..])) else meta
  }

  datatype Result<+T> = Ok(value: T) | NoFrontmatter | NotTerminated

  datatype Parsed = Parsed(meta: seq<Field>, body: string)

  const FENCE: string := "---"

  /** The first line from `i` on that is exactly the fence, or the length. */
  function FindFence(lines: seq<string>, i: nat): (r: nat)
    requires i <= |lines|
    ensures i <= r <= |lines| && (r < |lines| ==> lines[r] == FENCE)
    ensures forall j :: i <= j < r ==> lines[j] != FENCE
    decreases |lines| - i
  {
    if i == |lines| || lines[i] == FENCE then i else FindFence(lines, i + 1)
  }

  function Split(text: string): Result<Parsed> {
    var lines := SplitLines(text);
    if lines == [] || lines[0] != FENCE then NoFrontmatter
    else
      var end := FindFence(lines, 1);
      if end == |lines| then NotTerminated
      else Ok(Parsed(ParseFields(lines[1..end]), LStrip(Join("\n", lines[end + 1..]), IsNewline)))
  }

  /** `split`, with the loop that fills the dictionary. */
  method SplitText(text: string) returns (r: Result<Parsed>)
    ensures r == Split(text)
  {
    var lines := SplitLines(text);
    if lines == [] || lines[0] != FENCE {
      return NoFrontmatter;
    }
    var end := FindFence(lines, 1);
    if end == |lines| {
      return NotTerminated;
    }
    var meta: seq<Field> := [];
    var front := lines[1..end];
    for i := 0 to |front|
      invariant meta == ParseFields(front[..i])
    {
      var line := front[i];
      assert front[..i + 1][..i] == front[..i];
      var c := IndexOf(line, ':');
      if c < |line| {
        meta := Assign(meta, Strip(line[..c]), Strip(line[c + 1..]));
      }
    }
    assert front[..|front|] == front;
    r := Ok(Parsed(meta, LStrip(Join("\n", lines[end + 1..]), IsNewline)));
  }

  function FieldLine(f: Field): string { f.key + ": " + Join(" ", SplitLines(f.value)) }

  function FieldLines(meta: seq<Field>): (lines: seq<string>)
    ensures |lines| == |meta| && forall i :: 0 <= i < |meta| ==> lines[i] == FieldLine(meta[i])
  {
    seq(|meta|, i requires 0 <= i < |meta| => FieldLine(meta[i]))
  }

  function Render(meta: seq<Field>, body: string): string {
    "---\n" + Join("\n", FieldLines(meta)) + "\n---\n\n" + RStrip(body, IsNewline) + "\n"
  }

  /** `touch`: the time stamp goes last. */
  function Touch(meta: seq<Field>, now: string): seq<Field> { Remove(meta, "updated") + [Field("updated", now)] }

  // ---------- Entries ----------

  predicate IsEntry(line: string) { 2 <= |line| && line[..2] == "- " }

  function EntriesOf(lines: seq<string>): seq<string> {
    if lines == [] then []
    else EntriesOf(lines[..|lines| - 1]) + if IsEntry(lines[|lines| - 1]) then [lines[|lines| - 1]] else []
  }

  /** The entries of a body, one a line; `entry_count` is their number. */
  function Entries(body: string): seq<string> { EntriesOf(SplitLines(body)) }

  // ---------- Commands ----------

  /** An absent option reads as the empty string. */
  datatype Command =
    | Append(text: string, kind: string, who: string)
    | Set(key: string, value: string)

  function Label(kind: string, who: string): string { if who == "" then kind else Strip(kind + " by " + who) }

  function EntryLine(text: string, kind: string, who: string): string {
    var tag := Label(kind, who);
    "- " + (if tag == "" then "" else "(" + tag + ") ") + Collapse(text)
  }

  function AppendBody(body: string, entry: string): string {
    if Strip(body) == "" then entry else RStrip(body, IsNewline) + "\n" + entry
  }

  /** `cmd_init` on its parsed fields. */
  function Init(fields: seq<Field>, now: string): string { Render(Touch(InitMeta(fields), now), "") }

  /** A `key=value` argument, parted at its first equals sign. */
  function FieldOf(pair: string): Field
    requires '=' in pair
  {
    var i := IndexOf(pair, '=');
    Field(pair[..i], pair[i + 1..])
  }

  function InitMeta(fields: seq<Field>): seq<Field> {
    if fields == [] then []
    else
      var n := |fields| - 1;
      Assign(InitMeta(fields[..n]), Strip(fields[n].key), Strip(fields[n].value))
  }

  /** `cmd_append` and `cmd_set`: read, change, stamp, write back whole. */
  function Execute(text: string, c: Command, now: string): Result<string> {
    match Split(text)
    case NoFrontmatter => NoFrontmatter
    case NotTerminated => NotTerminated
    case Ok(p) =>
      match c
      case Append(t, kind, who) => Ok(Render(Touch(p.meta, now), AppendBody(p.body, EntryLine(t, kind, who))))
      case Set(key, value) => Ok(Render(Touch(Assign(p.meta, key, value), now), p.body))
  }
}
