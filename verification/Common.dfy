/** Small pieces several modules share. */
module Common {

  datatype Option<+T> = None | Some(value: T)

  const TWO_64: nat := 0x1_0000_0000_0000_0000

  predicate Distinct(s: seq<string>) { forall i, j :: 0 <= i < j < |s| ==> s[i] != s[j] }

  /** Places in a list, each after the one before it. */
  predicate Increasing(places: seq<nat>) { forall i, j :: 0 <= i < j < |places| ==> places[i] < places[j] }

  lemma OneMore(places: seq<nat>, n: nat)
    requires Increasing(places) && forall i :: 0 <= i < |places| ==> places[i] < n
    ensures Increasing(places + [n]) && forall k :: k in places + [n] <==> k in places || k == n
    ensures n !in places
  {
  }

  /** The position of the first `c`, or the length. */
  function IndexOf(s: string, c: char): (i: nat)
    ensures i <= |s| && (i < |s| <==> c in s) && (i < |s| ==> s[i] == c) && forall j :: 0 <= j < i ==> s[j] != c
  {
    if s == [] || s[0] == c then 0
    else
      assert s == [s[0]] + s[1..];
      1 + IndexOf(s[1..], c)
  }

  /** Unicode white space, as Rust's `str::trim` takes it. */
  predicate IsWhite(c: char) {
    || 0x09 <= c as int <= 0x0d || 0x2000 <= c as int <= 0x200a
    || c as int in {0x20, 0x85, 0xa0, 0x1680, 0x2028, 0x2029, 0x202f, 0x205f, 0x3000}
  }

  predicate Blank(s: string) { forall i :: 0 <= i < |s| ==> IsWhite(s[i]) }
}
