/** The torn-tail reader on bytes: reading a file to a string fails unless the bytes are UTF-8
    (RFC 3629, section 3), and a file that cannot be read counts as empty. */
module TornBytes {
  import opened Common
  import opened TornLog

  type Byte = b: int | 0 <= b < 256 witness 0

  predicate IsContinuation(b: Byte) { 0x80 <= b < 0xc0 }

  function EncodeChar(c: char): (bs: seq<Byte>)
    ensures 1 <= |bs| <= 4 && !IsContinuation(bs[0]) && forall i :: 1 <= i < |bs| ==> IsContinuation(bs[i])
    ensures |bs| == LengthOf(bs[0])
  {
    var v := c as int;
    if v < 0x80 then [v]
    else if v < 0x800 then [0xc0 + v / 64, 0x80 + v % 64]
    else if v < 0x10000 then [0xe0 + v / 4096, 0x80 + v / 64 % 64, 0x80 + v % 64]
    else [0xf0 + v / 262144, 0x80 + v / 4096 % 64, 0x80 + v / 64 % 64, 0x80 + v % 64]
  }

  /** The length a leading byte announces. */
  function LengthOf(lead: Byte): nat {
    if lead < 0xc0 then 1 else if lead < 0xe0 then 2 else if lead < 0xf0 then 3 else 4
  }

  function Utf8(s: string): seq<Byte> { if s == "" then [] else EncodeChar(s[0]) + Utf8(s[1..]) }

  /** The value a character's bytes carry. */
  function ValueOf(bs: seq<Byte>): int {
    if |bs| == 2 then (bs[0] as int - 0xc0) * 64 + (bs[1] as int - 0x80)
    else if |bs| == 3 then
      ((bs[0] as int - 0xe0) * 64 + (bs[1] as int - 0x80)) * 64 + (bs[2] as int - 0x80)
    else if |bs| == 4 then
      (((bs[0] as int - 0xf0) * 64 + (bs[1] as int - 0x80)) * 64 + (bs[2] as int - 0x80)) * 64 + (bs[3] as int - 0x80)
    else if |bs| == 1 then bs[0]
    else 0
  }

  lemma ValueBack(c: char)
    ensures ValueOf(EncodeChar(c)) == c as int
  {
    var v := c as int;
    assert v / 4096 == v / 64 / 64 && v / 262144 == v / 4096 / 64;
  }

  /** A character of each length. */
  lemma Samples()
    ensures EncodeChar('A') == [0x41] && EncodeChar(0xe9 as char) == [0xc3, 0xa9]
    ensures EncodeChar(0x20ac as char) == [0xe2, 0x82, 0xac]
    ensures EncodeChar(0x1f600 as char) == [0xf0, 0x9f, 0x98, 0x80]
  {
  }

  lemma CharInjective(c: char, d: char)
    requires EncodeChar(c) == EncodeChar(d)
    ensures c == d
  {
    hide EncodeChar, ValueOf;
    ValueBack(c);
    ValueBack(d);
    assert (c as int) as char == (d as int) as char;
  }

  /** No character's bytes begin another's. */
  lemma CharsPart(c: char, d: char, a: seq<Byte>, b: seq<Byte>)
    requires EncodeChar(c) + a == EncodeChar(d) + b
    ensures c == d && a == b
  {
    hide EncodeChar;
    var x, y := EncodeChar(c), EncodeChar(d);
    assert (x + a)[0] == x[0] && (y + b)[0] == y[0];
    assert (x + a)[..|x|] == x && (y + b)[..|y|] == y;
    assert (x + a)[|x|..] == a && (y + b)[|y|..] == b;
    CharInjective(c, d);
  }

  lemma {:induction false} Utf8Concat(s: string, t: string)
    ensures Utf8(s + t) == Utf8(s) + Utf8(t)
  {
    hide EncodeChar;
    if s == "" {
      assert s + t == t;
    } else {
      assert (s + t)[1..] == s[1..] + t;
      Utf8Concat(s[1..], t);
    }
  }

  // ---------- Reading bytes as text ----------

  ghost function ReadToString(bs: seq<Byte>): Option<string> {
    if s :| Utf8(s) == bs then Some(s) else None
  }

  /** Not between the bytes of one character. */
  predicate OnBoundary(bs: seq<Byte>, k: nat)
    requires k <= |bs|
  {
    k == |bs| || !IsContinuation(bs[k])
  }

  /** Text read back is a prefix of the text written, when what was read is one of its bytes. */
  lemma {:induction false} PrefixText(s: string, t: string, rest: seq<Byte>)
    requires Utf8(s) == Utf8(t) + rest
    ensures t <= s && OnBoundary(Utf8(s), |Utf8(t)|)
  {
    hide EncodeChar;
    if t == "" {
      if s != "" {
        assert Utf8(s)[0] == EncodeChar(s[0])[0];
      }
    } else if s != "" {
      var x := EncodeChar(t[0]);
      assert Utf8(t) + rest == x + (Utf8(t[1..]) + rest);
      CharsPart(s[0], t[0], Utf8(s[1..]), Utf8(t[1..]) + rest);
      PrefixText(s[1..], t[1..], rest);
      assert s == [s[0]] + s[1..] && t == [t[0]] + t[1..];
      var k := |Utf8(t[1..])|;
      assert k < |Utf8(s[1..])| ==> Utf8(s)[|x| + k] == Utf8(s[1..])[k];
    }
  }

  /** A boundary falls after some number of characters. */
  lemma {:induction false} BoundaryText(s: string, k: nat) returns (n: nat)
    requires k <= |Utf8(s)| && OnBoundary(Utf8(s), k)
    ensures n <= |s| && Utf8(s[..n]) == Utf8(s)[..k]
  {
    hide EncodeChar;
    if k == 0 {
      n := 0;
      assert s[..0] == "";
    } else {
      var x := EncodeChar(s[0]);
      assert k < |Utf8(s)| ==> Utf8(s)[k] == Utf8(s[1..])[k - |x|];
      var n' := BoundaryText(s[1..], k - |x|);
      n := n' + 1;
      assert s[..n][1..] == s[1..][..n'];
      assert Utf8(s)[..k] == x + Utf8(s[1..])[..k - |x|];
    }
  }

  lemma Utf8Injective(s: string, t: string)
    requires Utf8(s) == Utf8(t)
    ensures s == t
  {
    assert Utf8(s) == Utf8(t) + [] && Utf8(t) == Utf8(s) + [];
    PrefixText(s, t, []);
    PrefixText(t, s, []);
  }

  /** Cut bytes read as text exactly when the cut is between characters. */
  lemma CutReads(s: string, k: nat) returns (n: nat)
    requires k <= |Utf8(s)|
    ensures n <= |s|
    ensures OnBoundary(Utf8(s), k) ==> Utf8(s[..n]) == Utf8(s)[..k] && ReadToString(Utf8(s)[..k]) == Some(s[..n])
    ensures !OnBoundary(Utf8(s), k) ==> ReadToString(Utf8(s)[..k]) == None
  {
    hide EncodeChar, Utf8;
    n := 0;
    var bs := Utf8(s)[..k];
    if OnBoundary(Utf8(s), k) {
      n := BoundaryText(s, k);
      var t :| Utf8(t) == bs && ReadToString(bs) == Some(t);
      Utf8Injective(t, s[..n]);
    } else if exists t :: Utf8(t) == bs {
      var t :| Utf8(t) == bs;
      assert Utf8(s) == Utf8(t) + Utf8(s)[k..];
      PrefixText(s, t, Utf8(s)[k..]);
      assert false;
    }
  }

  // ---------- A log torn at any byte ----------

  /** The read of the first `k` bytes does not panic, and returns a prefix of the records with
      every one whose newline is among those bytes. */
  ghost predicate BytesReadSoundly<T>(rs: seq<T>, encode: T -> string, decode: string -> Option<T>, k: nat)
    requires k <= |Utf8(Log(rs, encode))|
  {
    var read := ReadText(ReadToString(Utf8(Log(rs, encode))[..k]), decode);
    && read.Records? && read.records <= rs
    && forall m: nat :: m <= |rs| && |Utf8(Log(rs[..m], encode))| <= k ==> m <= |read.records|
  }

  lemma {:induction false} TerminatedBytes<T>(rs: seq<T>, encode: T -> string, n: nat, m: nat)
    requires m <= |rs| && n <= |Log(rs, encode)| && |Utf8(Log(rs[..m], encode))| <= |Utf8(Log(rs, encode)[..n])|
    ensures m <= Terminated(rs, encode, n)
  {
    hide EncodeChar, Utf8;
    var whole := Log(rs[..m], encode);
    LogTakes(rs, encode, m);
    if n < |whole| {
      var cut := Log(rs, encode)[..n];
      assert whole == cut + whole[n..];
      Utf8Concat(cut, whole[n..]);
      Utf8Grows(whole[n..]);
      assert false;
    }
    TerminatedWhole(rs, encode, n, m);
  }

  lemma Utf8Grows(s: string)
    requires s != ""
    ensures |Utf8(s)| > 0
  {
  }

  lemma {:induction false} LogTakes<T>(rs: seq<T>, encode: T -> string, m: nat)
    requires m <= |rs|
    ensures Log(rs[..m], encode) <= Log(rs, encode)
  {
    if m > 0 {
      LogTakes(rs[1..], encode, m - 1);
      assert rs[..m][1..] == rs[1..][..m - 1];
    }
  }

  lemma {:induction false} TerminatedWhole<T>(rs: seq<T>, encode: T -> string, n: nat, m: nat)
    requires m <= |rs| && |Log(rs[..m], encode)| <= n
    ensures m <= Terminated(rs, encode, n)
  {
    if m > 0 {
      assert rs[..m][1..] == rs[1..][..m - 1];
      TerminatedWhole(rs[1..], encode, n - |encode(rs[0])| - 1, m - 1);
    }
  }

  /** Torn at any byte, the log reads soundly exactly when the cut is not inside a character, or no
      record was complete anyway: a cut inside a character reads as an empty log. */
  lemma TornByteExact<T(!new)>(rs: seq<T>, encode: T -> string, decode: string -> Option<T>, k: nat)
    requires Encodes(encode, decode) && CutsAreSafe(encode, decode) && k <= |Utf8(Log(rs, encode))|
    ensures BytesReadSoundly(rs, encode, decode, k)
       <==> OnBoundary(Utf8(Log(rs, encode)), k) || rs == [] || k < |Utf8(encode(rs[0]) + "\n")|
  {
    hide EncodeChar, Utf8, Log, ReadText, Encodes, CutsAreSafe, OnBoundary, Terminated;
    var log := Log(rs, encode);
    var n := CutReads(log, k);
    if OnBoundary(Utf8(log), k) {
      TornReadsSoundly(rs, encode, decode, n);
      forall m: nat | m <= |rs| && |Utf8(Log(rs[..m], encode))| <= k
        ensures m <= Terminated(rs, encode, n)
      {
        TerminatedBytes(rs, encode, n, m);
      }
    } else {
      UnreadableIsEmpty(decode);
      assert [] <= rs;
      if rs != [] {
        FirstOfLog(rs, encode);
        if k < |Utf8(encode(rs[0]) + "\n")| {
          forall m: nat | m <= |rs| && |Utf8(Log(rs[..m], encode))| <= k
            ensures m == 0
          {
            if m > 0 {
              FirstOfLog(rs[..m], encode);
            }
          }
        } else {
          OneRecord(rs, encode);
          assert 1 <= |rs|;
        }
      }
    }
  }

  lemma UnreadableIsEmpty<T>(decode: string -> Option<T>)
    ensures ReadText(None, decode) == Records([])
  {
  }

  lemma FirstOfLog<T>(rs: seq<T>, encode: T -> string)
    requires rs != []
    ensures |Utf8(encode(rs[0]) + "\n")| <= |Utf8(Log(rs, encode))|
  {
    Utf8Concat(encode(rs[0]) + "\n", Log(rs[1..], encode));
  }

  lemma OneRecord<T>(rs: seq<T>, encode: T -> string)
    requires rs != []
    ensures Log(rs[..1], encode) == encode(rs[0]) + "\n"
  {
    assert rs[..1][1..] == [];
    assert Log(rs[..1][1..], encode) == "";
  }
}
