/** Exactly when the guarantee holds, and what a reported failure means over a whole run. */
module AtomicWriteExact {
  import opened Common
  import opened TempNames
  import opened AtomicWrite
  import opened AtomicWriteSafety
  import opened AtomicWriteResults

  // ---------- A failed write never took effect ----------

  lemma CommitsGrowByStep(s: State, e: Event)
    requires Enabled(s, e)
    ensures s.commits <= Apply(s, e).commits
  {
  }

  lemma {:induction false} CommitsGrow(s: State, es: seq<Event>, i: nat)
    requires After(s, es).Some? && i <= |es|
    ensures After(s, es[..i]).Some?
    ensures After(s, es[..i]).value.commits <= After(s, es).value.commits
    decreases |es|
  {
    var n := |es| - 1;
    if i == |es| {
      assert es[..i] == es;
    } else {
      assert es[..n][..i] == es[..i];
      CommitsGrow(s, es[..n], i);
      CommitsGrowByStep(After(s, es[..n]).value, es[n]);
      hide Apply, Enabled;
    }
  }

  /** A reported failure was not in effect at any moment of the run. */
  lemma FailureNeverTookEffect(init: map<Path, File>, es: seq<Event>, targets: set<Path>, k: nat, i: nat)
    requires Separate(targets) && AimsWithin(es, targets) && After(Initial(init), es).Some?
    requires k in After(Initial(init), es).value.outcomes && !After(Initial(init), es).value.outcomes[k]
    requires i <= |es|
    ensures After(Initial(init), es[..i]).Some?
    ensures k !in After(Initial(init), es[..i]).value.commits
  {
    hide *;
    OutcomesAreHonest(init, es, targets);
    CommitsGrow(Initial(init), es, i);
  }

  // ---------- Targets named like temporary files ----------

  lemma Snoc(s: State, es: seq<Event>, e: Event)
    requires After(s, es).Some? && Enabled(After(s, es).value, e)
    ensures After(s, es + [e]) == Some(Apply(After(s, es).value, e))
  {
    assert (es + [e])[..|es|] == es;
  }

  lemma AimsSnoc(es: seq<Event>, e: Event, targets: set<Path>)
    requires AimsWithin(es, targets) && (e.Begin? && e.request.target.Named? ==> e.request.target.path in targets)
    ensures AimsWithin(es + [e], targets)
  {
  }

  /** Only `p` has been aimed at, nobody is writing, and the process has drawn `n` numbers. */
  ghost predicate Drawn(init: map<Path, File>, s: State, p: Path, pid: nat, n: nat) {
    && s.files == init && s.threads == map[] && pid in s.seqs && s.seqs[pid] == n
    && forall r :: r in s.begun ==> r.target == Named(p)
  }

  /** One failed attempt draws one sequence number and changes no file. */
  lemma DrawOne(init: map<Path, File>, s: State, p: Path, t: Thread, n: nat) returns (es: seq<Event>)
    requires Drawn(init, s, p, t.pid, n) && n + 1 < TWO_64
    ensures |es| == 3 && es[0] == Begin(t, Request(Named(p), [])) && es[1] == Create(t, false, 0)
        && es[2] == Cleanup(t, false)
    ensures Enabled(s, es[0])
    ensures Enabled(Apply(s, es[0]), es[1])
    ensures Enabled(Apply(Apply(s, es[0]), es[1]), es[2])
    ensures Drawn(init, Apply(Apply(Apply(s, es[0]), es[1]), es[2]), p, t.pid, n + 1)
  {
    es := [Begin(t, Request(Named(p), [])), Create(t, false, 0), Cleanup(t, false)];
    var s1 := Apply(s, es[0]);
    var s2 := Apply(s1, es[1]);
    var s3 := Apply(s2, es[2]);
    assert s3.threads == map[];
  }

  lemma {:induction false} Draw(init: map<Path, File>, targets: set<Path>, p: Path, t: Thread,
      n: nat) returns (es: seq<Event>)
    requires n < TWO_64 && p in targets
    ensures AimsWithin(es, targets)
    ensures After(Initial(init), es).Some? && Drawn(init, After(Initial(init), es).value, p, t.pid, n)
  {
    if n == 0 {
      es := [Spawn(t.pid)];
      assert es[..0] == [];
      assert After(Initial(init), []) == Some(Initial(init));
    } else {
      var before := Draw(init, targets, p, t, n - 1);
      var s := After(Initial(init), before).value;
      var three := DrawOne(init, s, p, t, n - 1);
      hide Apply, Enabled, Drawn, AimsWithin, After;
      Snoc(Initial(init), before, three[0]);
      Snoc(Initial(init), before + [three[0]], three[1]);
      Snoc(Initial(init), before + [three[0]] + [three[1]], three[2]);
      es := before + [three[0]] + [three[1]] + [three[2]];
      AimsSnoc(before, three[0], targets);
      AimsSnoc(before + [three[0]], three[1], targets);
      AimsSnoc(before + [three[0]] + [three[1]], three[2], targets);
    }
  }

  lemma TearStep(init: map<Path, File>, s: State, p: Path, t: Thread, n: nat) returns (b: Event, c: Event)
    requires Drawn(init, s, p, t.pid, n) && p != TempPath(p, t.pid, t.tid, n)
    requires TempPath(p, t.pid, t.tid, n) in init && init[TempPath(p, t.pid, t.tid, n)].bytes != []
    ensures b == Begin(t, Request(Named(p), [])) && c == Create(t, true, 0)
    ensures Enabled(s, b) && Enabled(Apply(s, b), c)
    ensures !Intact(init, Apply(Apply(s, b), c), TempPath(p, t.pid, t.tid, n))
  {
    b, c := Begin(t, Request(Named(p), [])), Create(t, true, 0);
    var q := TempPath(p, t.pid, t.tid, n);
    var s2 := Apply(Apply(s, b), c);
    assert s2.begun == s.begun + [Request(Named(p), [])];
    assert forall r :: r in s2.begun ==> r.target == Named(p);
    assert q in s2.files && s2.files[q].bytes == [];
    assert forall k :: 0 <= k < |s2.begun| ==> s2.begun[k] in s2.begun;
  }

  /** A target that is the temporary path of another target can be torn: some writer truncates it. */
  lemma TempTargetTears(targets: set<Path>, p: Path, q: Path, pid: nat, tid: nat, n: nat)
    returns (init: map<Path, File>, es: seq<Event>)
    requires p in targets && q in targets && n < TWO_64 && q == TempPath(p, pid, tid, n)
    ensures AimsWithin(es, targets) && After(Initial(init), es).Some?
    ensures !Intact(init, After(Initial(init), es).value, q)
  {
    init := map[q := File([0], 0)];
    var t := Thread(pid, tid);
    var before := Draw(init, targets, p, t, n);
    assert p != q by { assert |q.name| > |p.name|; }
    var b, c := TearStep(init, After(Initial(init), before).value, p, t, n);
    hide Apply, Enabled, Drawn, AimsWithin, After, Intact, TempName;
    Snoc(Initial(init), before, b);
    Snoc(Initial(init), before + [b], c);
    AimsSnoc(before, b, targets);
    AimsSnoc(before + [b], c, targets);
    es := before + [b] + [c];
  }

  /** Every run over these targets keeps every one of them intact. */
  ghost predicate AlwaysIntact(targets: set<Path>) {
    forall init: map<Path, File>, es: seq<Event>, q: Path ::
      AimsWithin(es, targets) && After(Initial(init), es).Some? && q in targets ==>
        Intact(init, After(Initial(init), es).value, q)
  }

  /** The promise holds exactly when no target is named as the temporary file of a target. */
  lemma AtomicIffSeparate(targets: set<Path>)
    ensures AlwaysIntact(targets) <==> Separate(targets)
  {
    hide AimsWithin, After, Intact, Initial;
    if Separate(targets) {
      forall init: map<Path, File>, es: seq<Event>, q: Path
        | AimsWithin(es, targets) && After(Initial(init), es).Some? && q in targets
        ensures Intact(init, After(Initial(init), es).value, q)
      {
        NeverTorn(init, es, targets, q);
      }
    } else {
      var p, q, pid: nat, tid: nat, n: nat :| p in targets && q in targets && n < TWO_64
          && q == TempPath(p, pid, tid, n);
      var init, es := TempTargetTears(targets, p, q, pid, tid, n);
    }
  }
}
