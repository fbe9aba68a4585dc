/** How text made of lines comes apart again. */
module MemlogText {
  import opened Memlog

  ghost predicate AllOneLine(ls: seq<string>) { forall l :: l in ls ==> OneLine(l) }

  // ---------- Splitting what was joined ----------

  lemma {:induction false} FirstBreakAt(l: string, rest: string)
    requires OneLine(l) && rest != [] && IsBreak(rest[0])
    ensures FirstBreak(l + rest) == |l|
  {
    if l != [] {
      assert (l + rest)[1..] == l[1..] + rest;
      FirstBreakAt(l[1..], rest);
    } else {
      assert l + rest == rest;
    }
  }

  lemma {:induction false} FirstBreakNone(l: string)
    requires OneLine(l)
    ensures FirstBreak(l) == |l|
  {
    if l != [] {
      FirstBreakNone(l[1..]);
    }
  }

  lemma SplitHead(l: string, rest: string)
    requires OneLine(l)
    ensures SplitLines(l + "\n" + rest) == [l] + SplitLines(rest)
  {
    var s := l + "\n" + rest;
    assert s == l + ("\n" + rest);
    FirstBreakAt(l, "\n" + rest);
    assert s[..|l|] == l && s[|l|] == '\n' && s[|l| + 1..] == rest;
  }

  /** One step of splitting, at a break inside `a`. */
  lemma SplitInside(a: string, i: nat, width: nat, rest: string)
    requires i < |a| && OneLine(a[..i]) && IsBreak(a[i])
    requires width == if a[i] == '\r' && i + 1 < |a| && a[i + 1] == '\n' then 2 else 1
    requires i + width == |a| ==> a[i] != '\r' || width == 2 || rest == "" || rest[0] != '\n'
    ensures SplitLines(a + rest) == [a[..i]] + SplitLines(a[i + width..] + rest)
  {
    var s := a + rest;
    assert s == a[..i] + (a[i..] + rest);
    FirstBreakAt(a[..i], a[i..] + rest);
    assert s[..i] == a[..i] && s[i + width..] == a[i + width..] + rest;
  }

  /** A newline parts the lines before it from the lines after it. */
  lemma {:induction false} SplitAtNewline(a: string, rest: string)
    ensures SplitLines(a + "\n" + rest) == SplitLines(a + "\n") + SplitLines(rest)
    decreases |a|
  {
    hide SplitLines;
    var i := FirstBreak(a);
    if i == |a| {
      assert OneLine(a) by { assert a[..i] == a; }
      SplitHead(a, rest);
      SplitHead(a, "");
      assert a + "\n" + "" == a + "\n";
      SplitEmpty();
    } else {
      var b := a + "\n";
      assert b + rest == a + "\n" + rest && b[..i] == a[..i] && b + "" == b;
      var width := if b[i] == '\r' && b[i + 1] == '\n' then 2 else 1;
      SplitInside(b, i, width, rest);
      SplitInside(b, i, width, "");
      var c := b[i + width..];
      assert c + "" == c;
      if c == "" {
        assert c + rest == rest;
        SplitEmpty();
      } else {
        assert c == a[i + width..] + "\n";
        SplitAtNewline(a[i + width..], rest);
      }
      assert [a[..i]] + (SplitLines(c) + SplitLines(rest)) == ([a[..i]] + SplitLines(c)) + SplitLines(rest);
    }
  }

  lemma SplitEmpty()
    ensures SplitLines("") == []
  {
  }

  lemma SplitOneLine(l: string)
    requires OneLine(l)
    ensures SplitLines(l) == if l == "" then [] else [l]
    ensures SplitLines(l + "\n") == [l]
  {
    FirstBreakNone(l);
    SplitHead(l, "");
    assert l + "\n" + "" == l + "\n";
    assert l[..|l|] == l;
  }

  lemma {:induction false} SplitJoined(ls: seq<string>)
    requires ls != [] && AllOneLine(ls)
    ensures SplitLines(Join("\n", ls) + "\n") == ls
  {
    hide SplitLines;
    if |ls| == 1 {
      SplitOneLine(ls[0]);
    } else {
      assert forall l :: l in ls[1..] ==> l in ls;
      SplitJoined(ls[1..]);
      var rest := Join("\n", ls[1..]) + "\n";
      assert Join("\n", ls) + "\n" == ls[0] + "\n" + rest;
      SplitHead(ls[0], rest);
    }
  }

  lemma {:induction false} JoinSplit(s: string)
    requires forall i :: 0 <= i < |s| && IsBreak(s[i]) ==> s[i] == '\n'
    requires s != [] ==> s[|s| - 1] != '\n'
    ensures Join("\n", SplitLines(s)) == s
    decreases |s|
  {
    if s != [] {
      var i := FirstBreak(s);
      if i < |s| {
        var rest := s[i + 1..];
        assert rest != [];
        JoinSplit(rest);
        assert SplitLines(s) == [s[..i]] + SplitLines(rest);
        assert SplitLines(s)[1..] == SplitLines(rest);
        SplitNonEmpty(rest);
        assert s == s[..i] + "\n" + rest;
      }
    }
  }

  lemma SplitNonEmpty(s: string)
    requires s != []
    ensures SplitLines(s) != []
  {
  }

  // ---------- Leading and trailing empty lines ----------

  function DropLead(ls: seq<string>): (r: seq<string>)
    ensures forall l :: l in r ==> l in ls
    ensures r != [] ==> r[0] != ""
  {
    if ls != [] && ls[0] == "" then DropLead(ls[1..]) else ls
  }

  function DropTrail(ls: seq<string>): (r: seq<string>)
    ensures r <= ls
    ensures r != [] ==> r[|r| - 1] != ""
  {
    if ls != [] && ls[|ls| - 1] == "" then DropTrail(ls[..|ls| - 1]) else ls
  }

  lemma {:induction false} LStripJoin(ls: seq<string>)
    requires AllOneLine(ls)
    ensures LStrip(Join("\n", ls), IsNewline) == Join("\n", DropLead(ls))
  {
    if ls != [] {
      assert forall l :: l in ls[1..] ==> l in ls;
      if ls[0] == "" {
        LStripJoin(ls[1..]);
        if |ls| > 1 {
          assert Join("\n", ls) == "\n" + Join("\n", ls[1..]);
          assert Join("\n", ls)[1..] == Join("\n", ls[1..]);
        } else {
          assert Join("\n", ls[1..]) == "";
        }
      } else {
        assert ls[0] in ls;
        assert IsBreak('\n');
        assert Join("\n", ls)[0] == ls[0][0];
      }
    }
  }

  lemma {:induction false} JoinLast(ls: seq<string>, l: string)
    requires ls != []
    ensures Join("\n", ls + [l]) == Join("\n", ls) + "\n" + l
  {
    if |ls| > 1 {
      assert (ls + [l])[1..] == ls[1..] + [l];
      JoinLast(ls[1..], l);
      assert ls[0] + "\n" + (Join("\n", ls[1..]) + "\n" + l) == (ls[0] + "\n" + Join("\n", ls[1..])) + "\n" + l;
    } else {
      assert (ls + [l])[1..] == [l];
    }
  }

  lemma {:induction false} RStripJoin(ls: seq<string>)
    requires AllOneLine(ls)
    ensures RStrip(Join("\n", ls), IsNewline) == Join("\n", DropTrail(ls))
    decreases |ls|
  {
    if ls != [] {
      var n := |ls| - 1;
      var init, last := ls[..n], ls[n];
      assert ls == init + [last];
      assert forall l :: l in init ==> l in ls;
      assert last in ls && IsBreak('\n');
      if init != [] {
        JoinLast(init, last);
      }
      if last == "" {
        RStripJoin(init);
        if init != [] {
          var s := Join("\n", ls);
          assert s == Join("\n", init) + "\n";
          assert s[..|s| - 1] == Join("\n", init);
        }
      }
    }
  }

  // ---------- Entries ----------

  lemma {:induction false} EntriesConcat(a: seq<string>, b: seq<string>)
    ensures EntriesOf(a + b) == EntriesOf(a) + EntriesOf(b)
  {
    if b == [] {
      assert a + b == a;
    } else {
      var n := |b| - 1;
      assert (a + b)[..|a + b| - 1] == a + b[..n];
      EntriesConcat(a, b[..n]);
    }
  }

  lemma EntriesOfOne(l: string)
    ensures EntriesOf([l]) == if IsEntry(l) then [l] else []
  {
    assert [l][..0] == [];
  }

  lemma {:induction false} EntriesDropLead(ls: seq<string>)
    ensures EntriesOf(DropLead(ls)) == EntriesOf(ls)
  {
    if ls != [] && ls[0] == "" {
      EntriesDropLead(ls[1..]);
      assert ls == [ls[0]] + ls[1..];
      EntriesConcat([ls[0]], ls[1..]);
      EntriesOfOne(ls[0]);
    }
  }

  lemma {:induction false} EntriesDropTrail(ls: seq<string>)
    ensures EntriesOf(DropTrail(ls)) == EntriesOf(ls)
  {
    if ls != [] && ls[|ls| - 1] == "" {
      EntriesDropTrail(ls[..|ls| - 1]);
    }
  }

  /** The entries of joined lines are the entries among them. */
  lemma {:induction false} EntriesOfJoined(ls: seq<string>)
    requires AllOneLine(ls)
    ensures Entries(Join("\n", ls)) == EntriesOf(ls)
  {
    if ls != [] {
      SplitOneLine(ls[0]);
      EntriesOfOne(ls[0]);
      if |ls| > 1 {
        assert forall l :: l in ls[1..] ==> l in ls;
        EntriesOfJoined(ls[1..]);
        SplitHead(ls[0], Join("\n", ls[1..]));
        assert ls == [ls[0]] + ls[1..];
        EntriesConcat([ls[0]], SplitLines(Join("\n", ls[1..])));
        EntriesConcat([ls[0]], ls[1..]);
      } else {
        assert ls == [ls[0]];
        assert EntriesOf([]) == [];
      }
    }
  }

  // ---------- Whitespace ----------

  predicate AllSpace(s: string) { forall i :: 0 <= i < |s| ==> IsSpace(s[i]) }

  lemma {:induction false} LStripEmpty(s: string)
    requires LStrip(s, IsSpace) == ""
    ensures AllSpace(s)
  {
    if s != [] {
      LStripEmpty(s[1..]);
    }
  }

  lemma {:induction false} RStripSpaces(s: string)
    ensures AllSpace(s[|RStrip(s, IsSpace)|..])
  {
    if s != [] && IsSpace(s[|s| - 1]) {
      RStripSpaces(s[..|s| - 1]);
    }
  }

  lemma BlankIsSpace(s: string)
    requires Strip(s) == ""
    ensures AllSpace(s)
  {
    var r := RStrip(s, IsSpace);
    LStripEmpty(r);
    RStripSpaces(s);
    assert s == r + s[|r|..];
  }

  lemma SplitStep(s: string) returns (i: nat, rest: string)
    requires s != []
    ensures i <= |s| && |rest| < |s| && SplitLines(s) == [s[..i]] + SplitLines(rest)
    ensures AllSpace(s) ==> AllSpace(s[..i]) && AllSpace(rest)
  {
    i := FirstBreak(s);
    if i == |s| {
      rest := "";
      assert s[..i] == s;
    } else {
      var width := if s[i] == '\r' && i + 1 < |s| && s[i + 1] == '\n' then 2 else 1;
      rest := s[i + width..];
    }
  }

  lemma {:induction false} BlankHasNoEntries(s: string)
    requires AllSpace(s)
    ensures Entries(s) == []
    decreases |s|
  {
    if s != [] {
      hide SplitLines;
      var i, rest := SplitStep(s);
      BlankHasNoEntries(rest);
      EntriesOfOne(s[..i]);
      EntriesConcat([s[..i]], SplitLines(rest));
    }
  }

  lemma {:induction false} StripOneLine(s: string)
    requires OneLine(s)
    ensures OneLine(Strip(s))
  {
    LStripSuffix(RStrip(s, IsSpace), IsSpace);
  }

  lemma {:induction false} LStripSuffix(s: string, drop: char -> bool)
    ensures |LStrip(s, drop)| <= |s| && LStrip(s, drop) == s[|s| - |LStrip(s, drop)|..]
  {
    if s != [] && drop(s[0]) {
      LStripSuffix(s[1..], drop);
    }
  }

  lemma {:induction false} JoinOneLine(sep: string, parts: seq<string>)
    requires OneLine(sep) && AllOneLine(parts)
    ensures OneLine(Join(sep, parts))
  {
    if |parts| > 1 {
      assert parts[0] in parts && forall l :: l in parts[1..] ==> l in parts;
      JoinOneLine(sep, parts[1..]);
    } else if |parts| == 1 {
      assert parts[0] in parts;
    }
  }

  lemma CollapseOneLine(s: string)
    ensures OneLine(Collapse(s))
  {
    assert forall c: char :: IsBreak(c) ==> IsSpace(c);
    assert AllOneLine(Words(s));
    JoinOneLine(" ", Words(s));
  }
}
