/** What the torn-tail reader returns for any text at all. */
module TornExact {
  import opened Common
  import opened TornLog

  // ---------- Lines ----------

  /** A newline ends a line and takes one carriage return along; a text without one is its own line. */
  lemma LinesExactly(l: string, rest: string)
    requires '\n' !in l
    ensures Lines(l + "\n" + rest)
         == [if l != "" && l[|l| - 1] == '\r' then l[..|l| - 1] else l] + Lines(rest)
    ensures Lines(l) == if l == "" then [] else [l]
  {
    var s := l + "\n" + rest;
    assert s[|l|] == '\n' && forall j :: 0 <= j < |l| ==> s[j] == l[j] && l[j] in l;
    var i := IndexOf(s, '\n');
    assert i == |l|;
    assert s[..i] == l && s[i + 1..] == rest;
    LinesOfTail(l);
  }

  /** The lines that hold anything but white space, in order: `places` are theirs. */
  lemma {:induction false} NonBlankExactly(ls: seq<string>) returns (places: seq<nat>)
    ensures |places| == |NonBlank(ls)| && Increasing(places)
    ensures forall i :: 0 <= i < |places| ==> places[i] < |ls| && NonBlank(ls)[i] == ls[places[i]]
    ensures forall k :: 0 <= k < |ls| ==> (k in places <==> !Blank(ls[k]))
  {
    hide Blank, Increasing, NonBlank;
    Nowhere();
    if ls == [] {
      places := [];
    } else {
      var n := |ls| - 1;
      places := NonBlankExactly(ls[..n]);
      OneMore(places, n);
      NonBlankNext(ls, n);
      assert ls[..n + 1] == ls;
      if !Blank(ls[n]) {
        places := places + [n];
      }
    }
  }

  lemma Nowhere()
    ensures Increasing([]) && NonBlank([]) == []
  {
  }

  // ---------- Records ----------

  /** `i` is the first of the lines that does not decode. */
  ghost predicate FirstUndecoded<T>(ls: seq<string>, decode: string -> Option<T>, i: nat) {
    i < |ls| && decode(ls[i]).None? && forall j :: 0 <= j < i ==> decode(ls[j]).Some?
  }

  /** Decoding gives the record of every line, or stops at the first line that has none. */
  lemma {:induction false} DecodesExactly<T>(ls: seq<string>, decode: string -> Option<T>)
    ensures DecodeAll(ls, decode).Records? <==> forall j :: 0 <= j < |ls| ==> decode(ls[j]).Some?
    ensures DecodeAll(ls, decode).Records? ==>
              && |DecodeAll(ls, decode).records| == |ls|
              && forall j :: 0 <= j < |ls| ==> decode(ls[j]) == Some(DecodeAll(ls, decode).records[j])
    ensures forall i: nat :: FirstUndecoded(ls, decode, i) ==> DecodeAll(ls, decode) == Panic(ls[i])
  {
    hide DecodeAll;
    NoRecords(decode);
    if ls != [] {
      var n := |ls| - 1;
      DecodesExactly(ls[..n], decode);
      assert ls == ls[..n] + [ls[n]] && ls[..n + 1] == ls;
      if DecodeAll(ls[..n], decode).Panic? {
        PanicStays(ls[..n], [ls[n]], decode);
      } else {
        DecodeNext(ls, n, decode);
      }
      forall i: nat | FirstUndecoded(ls, decode, i)
        ensures DecodeAll(ls, decode) == Panic(ls[i])
      {
        if i < n {
          FirstKept(ls, decode, i, n);
        }
      }
    }
  }

  lemma NoRecords<T>(decode: string -> Option<T>)
    ensures DecodeAll([], decode) == Records([])
  {
  }

  /** For any text: let `ls` be its lines that are not blank. A last one that does not decode is
      dropped. The read panics at the first of the others that does not, and else returns their records
      in order. */
  lemma ReadExactly<T>(text: string, decode: string -> Option<T>)
    ensures
      var ls, read := NonBlank(Lines(text)), ReadText(Some(text), decode);
      var n := if ls != [] && decode(ls[|ls| - 1]).None? then |ls| - 1 else |ls|;
      && (forall i: nat :: FirstUndecoded(ls, decode, i) && i < n ==> read == Panic(ls[i]))
      && (read.Records? <==> forall j :: 0 <= j < n ==> decode(ls[j]).Some?)
      && (read.Records? ==> |read.records| == n && forall j :: 0 <= j < n ==> decode(ls[j]) == Some(read.records[j]))
  {
    hide Lines, NonBlank, DecodeAll, FirstUndecoded;
    var ls := NonBlank(Lines(text));
    var n := if ls != [] && decode(ls[|ls| - 1]).None? then |ls| - 1 else |ls|;
    assert ls[..|ls|] == ls;
    var kept := ls[..n];
    assert WithoutTorn(ls, decode) == kept;
    assert ReadText(Some(text), decode) == DecodeAll(kept, decode);
    DecodesExactly(kept, decode);
    assert forall j :: 0 <= j < n ==> kept[j] == ls[j];
    forall i: nat | FirstUndecoded(ls, decode, i) && i < n
      ensures FirstUndecoded(kept, decode, i) && kept[i] == ls[i]
    {
      FirstKept(ls, decode, i, n);
    }
  }

  lemma FirstKept<T>(ls: seq<string>, decode: string -> Option<T>, i: nat, n: nat)
    requires FirstUndecoded(ls, decode, i) && i < n <= |ls|
    ensures FirstUndecoded(ls[..n], decode, i)
  {
  }
}
