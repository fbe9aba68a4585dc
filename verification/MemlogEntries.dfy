/** What an entry of the memory log records, read back from its line. */
module MemlogEntries {
  import opened Common
  import opened Memlog
  import opened MemlogText

  // ---------- Words ----------

  function Concat(parts: seq<string>): string { if parts == [] then "" else parts[0] + Concat(parts[1..]) }

  /** The characters that are not white space. */
  function Letters(s: string): string {
    if s == "" then "" else (if IsSpace(s[0]) then "" else [s[0]]) + Letters(s[1..])
  }

  lemma {:induction false} LettersConcat(a: string, b: string)
    ensures Letters(a + b) == Letters(a) + Letters(b)
  {
    hide IsSpace;
    if a == "" {
      assert a + b == b;
    } else {
      assert (a + b)[1..] == a[1..] + b;
      LettersConcat(a[1..], b);
    }
  }

  lemma {:induction false} LettersOfWord(s: string)
    requires NoSpaces(s)
    ensures Letters(s) == s
  {
    if s != "" {
      LettersOfWord(s[1..]);
    }
  }

  /** The words are the text without its white space, none of them empty. */
  lemma {:induction false} WordsKeepLetters(s: string)
    ensures Concat(Words(s)) == Letters(s) && forall w :: w in Words(s) ==> w != ""
    decreases |s|
  {
    hide IsSpace;
    if s != "" {
      if IsSpace(s[0]) {
        WordsKeepLetters(s[1..]);
      } else {
        var n := WordLength(s);
        LettersOfWord(s[..n]);
        assert s == s[..n] + s[n..];
        LettersConcat(s[..n], s[n..]);
        WordsKeepLetters(s[n..]);
        assert Words(s) == [s[..n]] + Words(s[n..]);
      }
    }
  }

  lemma {:induction false} WordLengthIn(a: string, c: char, b: string)
    requires IsSpace(c)
    ensures WordLength(a + [c] + b) == WordLength(a)
    ensures WordLength(a) == |a| || IsSpace(a[WordLength(a)])
  {
    hide IsSpace;
    if a != "" && !IsSpace(a[0]) {
      assert (a + [c] + b)[1..] == a[1..] + [c] + b;
      WordLengthIn(a[1..], c, b);
    }
  }

  /** White space parts the words before it from those after it. */
  lemma {:induction false} WordsPart(a: string, c: char, b: string)
    requires IsSpace(c)
    ensures Words(a + [c] + b) == Words(a) + Words(b)
    decreases |a|
  {
    hide IsSpace;
    var s := a + [c] + b;
    if a == "" {
      assert s[1..] == b;
    } else if IsSpace(a[0]) {
      assert s[1..] == a[1..] + [c] + b;
      WordsPart(a[1..], c, b);
    } else {
      var n := WordLength(a);
      WordLengthIn(a, c, b);
      assert s[..n] == a[..n] && s[n..] == a[n..] + [c] + b;
      WordsPart(a[n..], c, b);
    }
  }

  lemma WordsOfWord(w: string)
    requires w != "" && NoSpaces(w)
    ensures Words(w) == [w]
  {
    WordLengthIn(w, ' ', "");
    assert w[..|w|] == w && Words(w[|w|..]) == [];
  }

  lemma {:induction false} WordsOfJoined(ws: seq<string>)
    requires forall w :: w in ws ==> w != "" && NoSpaces(w)
    ensures Words(Join(" ", ws)) == ws
  {
    hide Words, NoSpaces;
    if ws == [] {
      assert Words("") == [] by { NoWords(); }
    } else {
      assert ws[0] in ws && forall w :: w in ws[1..] ==> w in ws;
      WordsOfWord(ws[0]);
      WordsOfJoined(ws[1..]);
      SpaceIsSpace();
      WordsPart(ws[0], ' ', Join(" ", ws[1..]));
    }
  }

  lemma NoWords()
    ensures Words("") == []
  {
  }

  lemma SpaceIsSpace()
    ensures IsSpace(' ')
  {
  }

  /** Collapsing keeps the words. */
  lemma CollapseKeepsWords(s: string)
    ensures Words(Collapse(s)) == Words(s)
  {
    WordsKeepLetters(s);
    WordsOfJoined(Words(s));
  }

  lemma {:induction false} LStripKeepsWords(s: string)
    ensures Words(LStrip(s, IsSpace)) == Words(s)
  {
    if s != "" && IsSpace(s[0]) {
      LStripKeepsWords(s[1..]);
    }
  }

  lemma {:induction false} RStripKeepsWords(s: string)
    ensures Words(RStrip(s, IsSpace)) == Words(s)
  {
    hide Words, IsSpace;
    if s != "" && IsSpace(s[|s| - 1]) {
      var n := |s| - 1;
      RStripKeepsWords(s[..n]);
      assert s == s[..n] + [s[n]] + "";
      WordsPart(s[..n], s[n], "");
      NoWords();
    }
  }

  lemma StripKeepsWords(s: string)
    ensures Words(Strip(s)) == Words(s)
  {
    LStripKeepsWords(RStrip(s, IsSpace));
    RStripKeepsWords(s);
  }

  // ---------- The label ----------

  /** The label says the kind, and after "by" who it came from. */
  lemma LabelWords(kind: string, who: string)
    ensures Words(Label(kind, who)) == Words(kind) + if who == "" then [] else ["by"] + Words(who)
    ensures Label(kind, who) == "" <==> kind == "" && who == ""
    ensures ')' !in kind && ')' !in who ==> ')' !in Label(kind, who)
  {
    hide IsSpace, Strip, Words;
    if who != "" {
      var s := kind + " by " + who;
      assert s == kind + [' '] + ("by" + [' '] + who);
      assert NoSpaces("by") by { LettersAreNoSpaces(); }
      SpaceIsSpace();
      WordsPart(kind, ' ', "by" + [' '] + who);
      WordsPart("by", ' ', who);
      WordsOfWord("by");
      StripKeepsWords(s);
      NoWords();
      StrippedFrom(s);
    }
  }

  lemma LettersAreNoSpaces()
    ensures !IsSpace('b') && !IsSpace('y') && !IsSpace('-') && !IsSpace('(')
  {
  }

  lemma StrippedFrom(s: string)
    ensures forall c :: c in Strip(s) ==> c in s
  {
    LStripSuffix(RStrip(s, IsSpace), IsSpace);
  }

  // ---------- Reading an entry ----------

  /** An entry taken apart into words: what kind it is, who it came from, and what it says. */
  datatype Record = Record(kind: seq<string>, who: seq<string>, text: seq<string>)

  function PlaceOf(ws: seq<string>, w: string): (i: nat)
    ensures i <= |ws|
  {
    if ws == [] || ws[0] == w then 0 else 1 + PlaceOf(ws[1..], w)
  }

  /** The words up to the first "by", and those after it. */
  function ReadLabel(ws: seq<string>, text: seq<string>): Record {
    var i := PlaceOf(ws, "by");
    Record(ws[..i], if i < |ws| then ws[i + 1..] else [], text)
  }

  predicate Tagged(s: string) { s != "" && s[0] == '(' && ')' in s }

  function Recall(line: string): Record
    requires IsEntry(line)
  {
    RecallRest(line[2..])
  }

  /** A parenthesis at the start is the label; the rest is the text. */
  function RecallRest(rest: string): Record {
    if Tagged(rest) then
      var i := IndexOf(rest, ')');
      ReadLabel(Words(rest[1..i]), Words(rest[i + 1..]))
    else Record([], [], Words(rest))
  }

  lemma {:induction false} PlaceBefore(a: seq<string>, w: string, b: seq<string>)
    requires w !in a
    ensures PlaceOf(a + [w] + b, w) == |a| && PlaceOf(a, w) == |a|
  {
    if a == [] {
      assert a + [w] + b == [w] + b;
    } else {
      assert (a + [w] + b)[1..] == a[1..] + [w] + b;
      PlaceBefore(a[1..], w, b);
    }
  }

  lemma ReadLabelBack(kind: string, who: string, text: seq<string>)
    requires "by" !in Words(kind)
    ensures ReadLabel(Words(Label(kind, who)), text) == Record(Words(kind), Words(who), text)
  {
    hide Words, Label;
    LabelWords(kind, who);
    PlaceBefore(Words(kind), "by", Words(who));
    NoWords();
    var ws := Words(kind) + (["by"] + Words(who));
    assert ws == Words(kind) + ["by"] + Words(who);
    assert Words(kind) + [] == Words(kind);
  }

  lemma {:induction false} FirstIndex(a: string, c: char, b: string)
    requires c !in a
    ensures IndexOf(a + [c] + b, c) == |a|
  {
    if a == "" {
      assert a + [c] + b == [c] + b;
    } else {
      assert (a + [c] + b)[1..] == a[1..] + [c] + b;
      FirstIndex(a[1..], c, b);
    }
  }

  /** For a kind and a writer without a closing parenthesis, and a kind that does not say "by": an
      entry reads back as its kind, its writer and its text, exactly unless it has neither kind nor
      writer and its text starts like a label. */
  lemma EntryReadsBack(t: string, kind: string, who: string)
    requires ')' !in kind && ')' !in who && "by" !in Words(kind)
    ensures IsEntry(EntryLine(t, kind, who))
    ensures Recall(EntryLine(t, kind, who)) == Record(Words(kind), Words(who), Words(t))
       <==> kind != "" || who != "" || !Tagged(Collapse(t))
  {
    hide Words, Label, Collapse, IndexOf, ReadLabel, IsSpace, Recall, IsEntry, Tagged, EntryLine;
    var tag, text := Label(kind, who), Collapse(t);
    LabelWords(kind, who);
    CollapseKeepsWords(t);
    EntryLineIs(t, kind, who);
    if tag != "" {
      RecallTagged(tag, text);
      ReadLabelBack(kind, who, Words(t));
    } else {
      RecallPlain(text);
      NoWords();
      if Tagged(text) {
        TagTakesLetters(text);
      }
    }
  }

  lemma EntryLineIs(t: string, kind: string, who: string)
    ensures EntryLine(t, kind, who)
         == if Label(kind, who) == "" then "- " + Collapse(t) else "- " + ("(" + Label(kind, who) + ") " + Collapse(t))
  {
    hide Label, Collapse;
  }

  lemma RecallTagged(tag: string, text: string)
    requires ')' !in tag
    ensures IsEntry("- " + ("(" + tag + ") " + text))
    ensures Recall("- " + ("(" + tag + ") " + text)) == ReadLabel(Words(tag), Words(text))
  {
    hide RecallRest;
    var rest := "(" + tag + ") " + text;
    assert ("- " + rest)[2..] == rest;
    RecallLabelled(tag, text);
    assert rest == "(" + tag + [')'] + ([' '] + text);
  }

  lemma RecallLabelled(tag: string, text: string)
    requires ')' !in tag
    ensures RecallRest("(" + tag + [')'] + ([' '] + text)) == ReadLabel(Words(tag), Words(text))
  {
    hide Words, ReadLabel, IndexOf;
    var a := "(" + tag;
    CutAt(a, ')', [' '] + text);
    assert a[1..] == tag;
    LeadingSpace(text);
  }

  lemma CutAt(a: string, c: char, b: string)
    requires a != "" && c !in a
    ensures
      var s := a + [c] + b;
      c in s && IndexOf(s, c) == |a| && s[0] == a[0] && s[1..|a|] == a[1..] && s[|a| + 1..] == b
  {
    hide IndexOf;
    FirstIndex(a, c, b);
    var s := a + [c] + b;
    assert s[|a|] == c;
  }

  lemma LeadingSpace(text: string)
    ensures Words([' '] + text) == Words(text)
  {
    hide Words, IsSpace;
    SpaceIsSpace();
    NoWords();
    assert [' '] + text == "" + [' '] + text;
    WordsPart("", ' ', text);
  }

  lemma RecallPlain(text: string)
    ensures IsEntry("- " + text)
    ensures Recall("- " + text).text == if Tagged(text) then Words(text[IndexOf(text, ')') + 1..]) else Words(text)
    ensures !Tagged(text) ==> Recall("- " + text) == Record([], [], Words(text))
  {
    hide Words, IndexOf;
    assert ("- " + text)[2..] == text;
  }

  /** Behind a label there are fewer letters. */
  lemma TagTakesLetters(text: string)
    requires Tagged(text)
    ensures Words(text[IndexOf(text, ')') + 1..]) != Words(text)
  {
    hide Words, IsSpace, IndexOf;
    var i := IndexOf(text, ')');
    assert text == text[..i + 1] + text[i + 1..];
    LettersConcat(text[..i + 1], text[i + 1..]);
    LettersAreNoSpaces();
    assert Letters(text[..i + 1]) != "";
    WordsKeepLetters(text);
    WordsKeepLetters(text[i + 1..]);
  }

  /** Then it reads like an entry of that kind, and is the same line: with a one-word kind the label
      may be given or written in the text. */
  lemma LabelInText(t: string, kind: string)
    requires kind != "" && NoSpaces(kind) && Words(t) != []
    ensures EntryLine("(" + kind + ") " + t, "", "") == EntryLine(t, kind, "")
  {
    hide Words, IsSpace, Collapse, NoSpaces, EntryLine;
    var w := "(" + kind + ")";
    ParenthesesAreWord(kind);
    CollapseCons(w, t);
    EntryLineIs("(" + kind + ") " + t, "", "");
    EntryLineIs(t, kind, "");
    assert w + " " + t == "(" + kind + ") " + t;
    assert w + " " + Collapse(t) == "(" + kind + ") " + Collapse(t);
  }

  lemma ParenthesesAreWord(kind: string)
    requires NoSpaces(kind)
    ensures NoSpaces("(" + kind + ")")
  {
    hide IsSpace;
    LettersAreNoSpaces();
    ParenIsNoSpace();
  }

  lemma CollapseCons(w: string, t: string)
    requires w != "" && NoSpaces(w) && Words(t) != []
    ensures Collapse(w + " " + t) == w + " " + Collapse(t)
  {
    hide Words, IsSpace, NoSpaces;
    SpaceIsSpace();
    assert w + " " + t == w + [' '] + t;
    WordsPart(w, ' ', t);
    WordsOfWord(w);
    assert ([w] + Words(t))[1..] == Words(t);
  }

  lemma ParenIsNoSpace()
    ensures !IsSpace(')')
  {
  }

  // ---------- Which lines are entries ----------

  /** The entries are exactly the lines that start with a dash and a space, in their order: `places`
      are theirs. */
  lemma EntriesAre(ls: seq<string>) returns (places: seq<nat>)
    ensures |places| == |EntriesOf(ls)| && Increasing(places)
    ensures forall i :: 0 <= i < |places| ==> places[i] < |ls| && EntriesOf(ls)[i] == ls[places[i]]
    ensures forall k :: 0 <= k < |ls| ==> (k in places <==> |ls[k]| >= 2 && ls[k][0] == '-' && ls[k][1] == ' ')
  {
    places := EntryPlaces(ls);
    hide IsEntry, EntriesOf;
    forall k | 0 <= k < |ls|
      ensures k in places <==> |ls[k]| >= 2 && ls[k][0] == '-' && ls[k][1] == ' '
    {
      EntryStarts(ls[k]);
    }
  }

  lemma {:induction false} EntryPlaces(ls: seq<string>) returns (places: seq<nat>)
    ensures |places| == |EntriesOf(ls)| && Increasing(places)
    ensures forall i :: 0 <= i < |places| ==> places[i] < |ls| && EntriesOf(ls)[i] == ls[places[i]]
    ensures forall k :: 0 <= k < |ls| ==> (k in places <==> IsEntry(ls[k]))
  {
    hide IsEntry, Increasing, EntriesOf;
    Nowhere();
    if ls == [] {
      places := [];
    } else {
      var n := |ls| - 1;
      places := EntryPlaces(ls[..n]);
      OneMore(places, n);
      assert ls == ls[..n] + [ls[n]];
      EntriesConcat(ls[..n], [ls[n]]);
      EntriesOfOne(ls[n]);
      if IsEntry(ls[n]) {
        places := places + [n];
      }
    }
  }

  lemma Nowhere()
    ensures Increasing([]) && EntriesOf([]) == []
  {
  }

  lemma EntryStarts(l: string)
    ensures IsEntry(l) <==> |l| >= 2 && l[0] == '-' && l[1] == ' '
  {
    if |l| >= 2 {
      assert l[..2] == [l[0], l[1]];
    }
  }

  // ---------- What white space is ----------

  /** What Python strips is Unicode white space, as Rust has it, and the four information separators. */
  lemma SpacesAre(c: char)
    ensures IsSpace(c) <==> IsWhite(c) || 0x1c <= c as int <= 0x1f
    ensures IsBreak(c) ==> IsSpace(c)
    ensures IsWhite(c) && c as int < 0x80
       <==> c == ' ' || c == '\t' || c == '\n' || c == '\r' || 0x0b <= c as int <= 0x0c
  {
  }

  // ---------- What ends a line ----------

  /** Line feed, vertical tab, form feed, carriage return, the three information separators, next
      line, and the line and paragraph separators. */
  predicate Ends(c: char) {
    || c == '\n' || c == '\r' || 0x0b <= c as int <= 0x0c || 0x1c <= c as int <= 0x1e || c as int == 0x85
    || 0x2028 <= c as int <= 0x2029
  }

  /** Each of them ends a line, the pair of carriage return and line feed as one, and nothing else
      does. */
  lemma LinesEnd(l: string, c: char, rest: string)
    requires forall i :: 0 <= i < |l| ==> !Ends(l[i])
    ensures Ends(c) && !(c == '\r' && rest != "" && rest[0] == '\n') ==>
              SplitLines(l + [c] + rest) == [l] + SplitLines(rest)
    ensures SplitLines(l + "\r\n" + rest) == [l] + SplitLines(rest)
    ensures SplitLines(l) == if l == "" then [] else [l]
  {
    hide SplitLines;
    assert forall c :: Ends(c) <==> IsBreak(c);
    SplitOneLine(l);
    if IsBreak(c) && !(c == '\r' && rest != "" && rest[0] == '\n') {
      var a := l + [c];
      assert a[..|l|] == l && a[|l| + 1..] + rest == rest;
      SplitInside(a, |l|, 1, rest);
    }
    var b := l + "\r\n";
    assert b[..|l|] == l && b[|l| + 2..] + rest == rest;
    SplitInside(b, |l|, 2, rest);
  }
}
