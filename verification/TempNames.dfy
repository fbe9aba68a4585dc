/** `crates/hekma-engine/src/paths.rs`, the names of temporary files: `<name>.tmp-<pid>-<tid>-<seq>`
    in the target's own directory. */
module TempNames {
  import opened Decimals

  datatype Path = Path(dir: string, name: string)

  function TempName(name: string, pid: nat, tid: nat, n: nat): string {
    name + ".tmp" + "-" + Decimal(pid) + "-" + Decimal(tid) + "-" + Decimal(n)
  }

  function TempPath(target: Path, pid: nat, tid: nat, n: nat): Path {
    Path(target.dir, TempName(target.name, pid, tid, n))
  }

  lemma TempNameText(target: Path)
    ensures TempPath(target, 10, 2, 7) == Path(target.dir, target.name + ".tmp-10-2-7")
  {
    DigitsAre();
    assert Decimal(2) == "2" && Decimal(7) == "7";
    assert ".tmp" + "-" + "10" + "-" + "2" + "-" + "7" == ".tmp-10-2-7";
  }

  predicate NoDash(s: string) { forall i :: 0 <= i < |s| ==> s[i] != '-' }

  /** The part after the last dash is determined by the text. */
  lemma LastDash(u: string, d: string, v: string, e: string)
    requires NoDash(d) && NoDash(e) && u + "-" + d == v + "-" + e
    ensures u == v && d == e
  {
    var w := u + "-" + d;
    assert w[|u|] == '-' && w[|v|] == '-';
    assert u == w[..|u|] && v == w[..|v|];
    assert d == w[|u| + 1..] && e == w[|v| + 1..];
  }

  lemma DecimalHasNoDash(n: nat)
    ensures NoDash(Decimal(n))
  {
    DecimalValue(n);
    assert forall c: char :: IsDigit(c) ==> c != '-';
  }

  /** A temporary name determines its target's name, process, thread and sequence number. */
  lemma TempNameInjective(a: string, p: nat, t: nat, m: nat, b: string, q: nat, u: nat, n: nat)
    requires TempName(a, p, t, m) == TempName(b, q, u, n)
    ensures a == b && p == q && t == u && m == n
  {
    DecimalHasNoDash(p);
    DecimalHasNoDash(t);
    DecimalHasNoDash(m);
    DecimalHasNoDash(q);
    DecimalHasNoDash(u);
    DecimalHasNoDash(n);
    LastDash(a + ".tmp" + "-" + Decimal(p) + "-" + Decimal(t), Decimal(m),
             b + ".tmp" + "-" + Decimal(q) + "-" + Decimal(u), Decimal(n));
    LastDash(a + ".tmp" + "-" + Decimal(p), Decimal(t), b + ".tmp" + "-" + Decimal(q), Decimal(u));
    LastDash(a + ".tmp", Decimal(p), b + ".tmp", Decimal(q));
    assert a == (a + ".tmp")[..|a|] && b == (b + ".tmp")[..|b|];
    DecimalInjective(p, q);
    DecimalInjective(t, u);
    DecimalInjective(m, n);
  }
}
