/** `crates/hekma-conformance/src/uj3.rs`: reading an append-only log of one record a line while
    its writer may be halfway through a line. */
module TornLog {
  import opened Common

  /** What a read comes to; an interior line that does not decode is a panic. */
  datatype Read<+T> = Records(records: seq<T>) | Panic(line: string)

  // ---------- Lines ----------

  /** A newline takes one carriage return before it along; a bare one stays. */
  function StripReturn(s: string): string {
    if s != "" && s[|s| - 1] == '\r' then s[..|s| - 1] else s
  }

  /** `str::lines`. */
  function Lines(s: string): seq<string> {
    if s == "" then []
    else
      var i := IndexOf(s, '\n');
      if i == |s| then [s] else [StripReturn(s[..i])] + Lines(s[i + 1..])
  }

  function NonBlank(ls: seq<string>): (r: seq<string>)
    ensures (forall l :: l in ls ==> !Blank(l)) ==> r == ls
  {
    if ls == [] then []
    else
      var n := |ls| - 1;
      assert ls == ls[..n] + [ls[n]] && forall l :: l in ls[..n] ==> l in ls;
      NonBlank(ls[..n]) + if Blank(ls[n]) then [] else [ls[n]]
  }

  // ---------- The reader ----------

  /** The tail is dropped when it does not decode; nothing else is. */
  function WithoutTorn<T>(ls: seq<string>, decode: string -> Option<T>): seq<string> {
    if ls != [] && decode(ls[|ls| - 1]).None? then ls[..|ls| - 1] else ls
  }

  /** Every line decoded, or the first that does not. */
  function DecodeAll<T>(ls: seq<string>, decode: string -> Option<T>): Read<T> {
    if ls == [] then Records([])
    else
      var n := |ls| - 1;
      match DecodeAll(ls[..n], decode)
      case Panic(l) => Panic(l)
      case Records(rs) =>
        match decode(ls[n])
        case None => Panic(ls[n])
        case Some(r) => Records(rs + [r])
  }

  /** A file that cannot be read as text, or is not there, reads as empty. */
  function ReadText<T>(text: Option<string>, decode: string -> Option<T>): Read<T> {
    match text
    case None => Records([])
    case Some(s) => DecodeAll(WithoutTorn(NonBlank(Lines(s)), decode), decode)
  }

  lemma {:induction false} PanicStays<T>(ls: seq<string>, more: seq<string>, decode: string -> Option<T>)
    requires DecodeAll(ls, decode).Panic?
    ensures DecodeAll(ls + more, decode) == DecodeAll(ls, decode)
  {
    if more == [] {
      assert ls + more == ls;
    } else {
      PanicStays(ls, more[..|more| - 1], decode);
      assert (ls + more)[..|ls + more| - 1] == ls + more[..|more| - 1];
    }
  }

  lemma DecodeNext<T>(ls: seq<string>, i: nat, decode: string -> Option<T>)
    requires i < |ls| && DecodeAll(ls[..i], decode).Records?
    ensures
      match decode(ls[i])
      case None => DecodeAll(ls, decode) == Panic(ls[i])
      case Some(r) => DecodeAll(ls[..i + 1], decode) == Records(DecodeAll(ls[..i], decode).records + [r])
  {
    assert ls[..i + 1][..i] == ls[..i];
    if decode(ls[i]).None? {
      PanicStays(ls[..i + 1], ls[i + 1..], decode);
      assert ls == ls[..i + 1] + ls[i + 1..];
    }
  }

  lemma NonBlankNext(ls: seq<string>, i: nat)
    requires i < |ls|
    ensures NonBlank(ls[..i + 1]) == NonBlank(ls[..i]) + if Blank(ls[i]) then [] else [ls[i]]
  {
    hide Blank;
    assert ls[..i + 1][..i] == ls[..i];
  }

  lemma NothingYet<T>(decode: string -> Option<T>)
    ensures NonBlank([]) == [] && DecodeAll([], decode) == Records([])
  {
  }

  /** `read_json_lines`. */
  method ReadJsonLines<T>(text: Option<string>, decode: string -> Option<T>) returns (r: Read<T>)
    ensures r == ReadText(text, decode)
  {
    hide Lines, Blank, NonBlank, DecodeAll;
    if text.None? {
      return Records([]);
    }
    var all := Lines(text.value);
    var lines: seq<string> := [];
    NothingYet(decode);
    for i := 0 to |all|
      invariant lines == NonBlank(all[..i])
    {
      NonBlankNext(all, i);
      if !Blank(all[i]) {
        lines := lines + [all[i]];
      }
    }
    assert all[..|all|] == all;
    if lines != [] && decode(lines[|lines| - 1]).None? {
      lines := lines[..|lines| - 1];
    }
    var records: seq<T> := [];
    for i := 0 to |lines|
      invariant DecodeAll(lines[..i], decode) == Records(records)
    {
      DecodeNext(lines, i, decode);
      var record := decode(lines[i]);
      if record.None? {
        return Panic(lines[i]);
      }
      records := records + [record.value];
    }
    assert lines[..|lines|] == lines;
    r := Records(records);
  }

  // ---------- The writer ----------

  /** One record a line. */
  function Log<T>(rs: seq<T>, encode: T -> string): string {
    if rs == [] then "" else encode(rs[0]) + "\n" + Log(rs[1..], encode)
  }

  /** A record's line: no line break or trailing carriage return, not blank, and it reads back. */
  ghost predicate Encodes<T(!new)>(encode: T -> string, decode: string -> Option<T>) {
    forall r :: && !Blank(encode(r)) && '\n' !in encode(r) && StripReturn(encode(r)) == encode(r)
                && decode(encode(r)) == Some(r)
  }

  /** What a record cut off after `k` characters reads as. */
  function Cut<T>(encode: T -> string, decode: string -> Option<T>, r: T, k: nat): Option<T>
    requires k < |encode(r)|
  {
    if Blank(encode(r)[..k]) then None else decode(encode(r)[..k])
  }

  /** No cut-off record reads as a different one. */
  ghost predicate CutsAreSafe<T(!new)>(encode: T -> string, decode: string -> Option<T>) {
    forall r, k: nat :: k < |encode(r)| ==> Cut(encode, decode, r, k) == None || Cut(encode, decode, r, k) == Some(r)
  }

  /** The records whose newline made it into the first `n` characters. */
  function Terminated<T>(rs: seq<T>, encode: T -> string, n: nat): (m: nat)
    ensures m <= |rs|
  {
    if rs == [] || n <= |encode(rs[0])| then 0
    else 1 + Terminated(rs[1..], encode, n - |encode(rs[0])| - 1)
  }

  /** A read of the first `n` characters is sound: it does not panic, and returns a prefix of the
      records with every terminated one in it. */
  ghost predicate ReadsSoundly<T>(rs: seq<T>, encode: T -> string, decode: string -> Option<T>, n: nat)
    requires n <= |Log(rs, encode)|
  {
    var read := ReadText(Some(Log(rs, encode)[..n]), decode);
    read.Records? && read.records <= rs && Terminated(rs, encode, n) <= |read.records|
  }

  // ---------- Reading a torn log ----------

  function Encoded<T>(rs: seq<T>, encode: T -> string): (ls: seq<string>)
    ensures |ls| == |rs| && forall i :: 0 <= i < |rs| ==> ls[i] == encode(rs[i])
  {
    seq(|rs|, i requires 0 <= i < |rs| => encode(rs[i]))
  }

  function TailLines(tail: string): seq<string> { if tail == "" then [] else [tail] }

  lemma LinesStep(l: string, rest: string)
    requires '\n' !in l && StripReturn(l) == l
    ensures Lines(l + "\n" + rest) == [l] + Lines(rest)
  {
    var s := l + "\n" + rest;
    assert s[|l|] == '\n' && forall j :: 0 <= j < |l| ==> s[j] == l[j] && l[j] in l;
    var i := IndexOf(s, '\n');
    assert i == |l|;
    assert s[..i] == l && s[i + 1..] == rest;
  }

  lemma LinesOfTail(tail: string)
    requires '\n' !in tail
    ensures Lines(tail) == TailLines(tail)
  {
    assert IndexOf(tail, '\n') == |tail|;
  }

  /** A torn log is the terminated records' lines and a tail. */
  lemma {:induction false} LinesOfLog<T(!new)>(rs: seq<T>, encode: T -> string, decode: string -> Option<T>,
      tail: string)
    requires Encodes(encode, decode) && '\n' !in tail
    ensures Lines(Log(rs, encode) + tail) == Encoded(rs, encode) + TailLines(tail)
  {
    hide Lines, Blank, StripReturn;
    if rs == [] {
      assert Log(rs, encode) + tail == tail;
      LinesOfTail(tail);
    } else {
      LinesOfLog(rs[1..], encode, decode, tail);
      assert Log(rs, encode) + tail == encode(rs[0]) + "\n" + (Log(rs[1..], encode) + tail);
      LinesStep(encode(rs[0]), Log(rs[1..], encode) + tail);
      assert Encoded(rs, encode) == [encode(rs[0])] + Encoded(rs[1..], encode);
    }
  }

  lemma {:induction false} DecodeEncoded<T(!new)>(rs: seq<T>, encode: T -> string, decode: string -> Option<T>)
    requires Encodes(encode, decode)
    ensures DecodeAll(Encoded(rs, encode), decode) == Records(rs)
  {
    hide Blank, StripReturn;
    if rs != [] {
      var n := |rs| - 1;
      assert Encoded(rs, encode)[..n] == Encoded(rs[..n], encode);
      DecodeEncoded(rs[..n], encode, decode);
      assert rs == rs[..n] + [rs[n]];
    }
  }

  /** Where a cut falls: after some whole lines, inside the next record's line. */
  lemma {:induction false} CutPoint<T>(rs: seq<T>, encode: T -> string, n: nat) returns (m: nat, k: nat)
    requires n <= |Log(rs, encode)|
    ensures m == Terminated(rs, encode, n)
    ensures m == |rs| ==> k == 0 && Log(rs, encode)[..n] == Log(rs, encode)
    ensures m < |rs| ==> k <= |encode(rs[m])| && Log(rs, encode)[..n] == Log(rs[..m], encode) + encode(rs[m])[..k]
  {
    m := Terminated(rs, encode, n);
    if rs == [] {
      k := 0;
    } else {
      var line := encode(rs[0]);
      var log := Log(rs, encode);
      if n <= |line| {
        k := n;
        assert log[..n] == line[..n];
        assert Log(rs[..0], encode) + line[..n] == line[..n];
      } else {
        var rest := n - |line| - 1;
        var m', k' := CutPoint(rs[1..], encode, rest);
        k := k';
        assert log[..n] == line + "\n" + Log(rs[1..], encode)[..rest];
        if m' == |rs| - 1 {
          assert log[..n] == log;
        } else {
          assert rs[..m][1..] == rs[1..][..m'];
          assert Log(rs[..m], encode) == line + "\n" + Log(rs[1..][..m'], encode);
          var tail := encode(rs[m])[..k];
          assert line + "\n" + (Log(rs[1..][..m'], encode) + tail) == (line + "\n" + Log(rs[1..][..m'], encode)) + tail;
        }
      }
    }
  }

  /** What a torn log reads as: its whole records, and whatever the cut-off tail decodes to. */
  lemma ReadTorn<T(!new)>(rs: seq<T>, encode: T -> string, decode: string -> Option<T>, tail: string)
    requires Encodes(encode, decode) && '\n' !in tail
    ensures
      ReadText(Some(Log(rs, encode) + tail), decode)
      == Records(rs + if Blank(tail) || decode(tail).None? then [] else [decode(tail).value])
  {
    hide Lines, Blank, StripReturn, Log;
    LinesOfLog(rs, encode, decode, tail);
    DecodeEncoded(rs, encode, decode);
    var whole := Encoded(rs, encode);
    NonBlankTail(whole, tail);
    assert rs + [] == rs;
    if tail == "" || Blank(tail) {
      if rs != [] {
        assert decode(whole[|whole| - 1]) == Some(rs[|rs| - 1]);
      }
      BlankEmpty();
    } else {
      var ls := whole + [tail];
      assert ls[..|ls| - 1] == whole;
    }
  }

  lemma BlankEmpty()
    ensures Blank("")
  {
  }

  lemma NonBlankTail(whole: seq<string>, tail: string)
    requires forall l :: l in whole ==> !Blank(l)
    ensures NonBlank(whole + TailLines(tail)) == if Blank(tail) then whole else whole + [tail]
  {
    hide Blank;
    BlankEmpty();
    if tail == "" {
      assert whole + [] == whole;
    } else {
      var ls := whole + [tail];
      assert ls[..|ls| - 1] == whole;
    }
  }

  /** Torn at any character, the log reads soundly, when cut-off records do. */
  lemma TornReadsSoundly<T(!new)>(rs: seq<T>, encode: T -> string, decode: string -> Option<T>, n: nat)
    requires Encodes(encode, decode) && CutsAreSafe(encode, decode) && n <= |Log(rs, encode)|
    ensures ReadsSoundly(rs, encode, decode, n)
  {
    hide Blank, StripReturn, ReadText, Log, Terminated;
    var m, k := CutPoint(rs, encode, n);
    if m == |rs| {
      ReadTorn(rs, encode, decode, "");
      BlankEmpty();
      assert Log(rs, encode) + "" == Log(rs, encode) && rs + [] == rs;
    } else {
      var line := encode(rs[m]);
      var tail := line[..k];
      ReadTorn(rs[..m], encode, decode, tail);
      assert rs[..m] + [rs[m]] == rs[..m + 1];
      if k < |line| {
        assert Cut(encode, decode, rs[m], k) == None || Cut(encode, decode, rs[m], k) == Some(rs[m]);
      } else {
        assert tail == line;
      }
    }
  }

  /** And only then: a cut-off record that decodes to another is read as that other. */
  lemma SafeCutsNeeded<T(!new)>(encode: T -> string, decode: string -> Option<T>, r: T, k: nat)
    requires Encodes(encode, decode) && k < |encode(r)|
    requires Cut(encode, decode, r, k) != None && Cut(encode, decode, r, k) != Some(r)
    ensures k <= |Log([r], encode)| && !ReadsSoundly([r], encode, decode, k)
  {
    hide Blank, StripReturn, ReadText;
    var tail := encode(r)[..k];
    assert Log([r], encode)[..k] == tail && Log([], encode) + tail == tail;
    ReadTorn([], encode, decode, tail);
    var v := decode(tail).value;
    assert [] + [v] == [v] && [v][0] != [r][0];
  }

  /** Reading a log torn at any character is sound for every log exactly when cut-off records never
      read as different ones. */
  lemma SoundExactlyWhenCutsAreSafe<T(!new)>(encode: T -> string, decode: string -> Option<T>)
    requires Encodes(encode, decode)
    ensures CutsAreSafe(encode, decode)
       <==> forall rs: seq<T>, n: nat | n <= |Log(rs, encode)| :: ReadsSoundly(rs, encode, decode, n)
  {
    hide Encodes, ReadsSoundly, Log, Cut;
    if CutsAreSafe(encode, decode) {
      forall rs: seq<T>, n: nat | n <= |Log(rs, encode)|
        ensures ReadsSoundly(rs, encode, decode, n)
      {
        TornReadsSoundly(rs, encode, decode, n);
      }
    } else {
      var r, k: nat :| k < |encode(r)| && Cut(encode, decode, r, k) != None && Cut(encode, decode, r, k) != Some(r);
      SafeCutsNeeded(encode, decode, r, k);
    }
  }
}
