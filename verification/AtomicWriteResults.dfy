/** Crash and interleaving safety of atomic writes: what the documentation of
    `write_atomically` promises, over every run of any number of writers. */
module AtomicWriteResults {
  import opened Common
  import opened TempNames
  import opened AtomicWrite
  import opened AtomicWriteSafety

  lemma StepKeeps(init: map<Path, File>, s: State, e: Event, targets: set<Path>)
    requires Separate(targets) && Inv(init, s, targets) && Enabled(s, e)
    requires e.Begin? ==> AimsAt(e.request, targets)
    ensures Inv(init, Apply(s, e), targets)
  {
    hide Inv, Separate, AimsAt;
    match e
    case Spawn(pid) => SpawnKeeps(init, s, pid, targets);
    case Crash(pid) => CrashKeeps(init, s, pid, targets);
    case Begin(t, r) => BeginKeeps(init, s, t, r, targets);
    case Rename(t, true) =>
      JobOf(init, s, targets, t);
      RenameKeeps(init, s, t, targets);
    case Cleanup(t, removed) =>
      CleanupSame(s, t);
      FinishKeeps(init, s, t, false, if removed then s.files - {s.threads[t].temp} else s.files, targets);
    case Return(t) =>
      CleanupSame(s, t);
      FinishKeeps(init, s, t, true, s.files, targets);
    case _ => OwnEventKeeps(init, s, e, targets);
  }

  lemma CleanupSame(s: State, t: Thread)
    requires t in s.threads
    ensures SameElsewhere(s.files, s.files - {s.threads[t].temp}, s.threads[t].temp)
    ensures SameElsewhere(s.files, s.files, s.threads[t].temp)
  {
  }

  lemma InitialInv(init: map<Path, File>, targets: set<Path>)
    ensures Inv(init, Initial(init), targets)
  {
  }

  /** The invariant holds after every run whose targets are separate. */
  lemma {:induction false} RunKeeps(init: map<Path, File>, es: seq<Event>, targets: set<Path>)
    requires Separate(targets) && AimsWithin(es, targets) && After(Initial(init), es).Some?
    ensures Inv(init, After(Initial(init), es).value, targets)
  {
    hide Inv, Separate, Apply, Enabled, Initial;
    if es == [] {
      InitialInv(init, targets);
    } else {
      var n := |es| - 1;
      assert forall e :: e in es[..n] ==> e in es;
      assert es[n] in es;
      RunKeeps(init, es[..n], targets);
      StepKeeps(init, After(Initial(init), es[..n]).value, es[n], targets);
    }
  }

  // ---------- Main results ----------

  /** `q` holds what it held at first, or the complete payload of one write aimed at it. */
  ghost predicate Intact(init: map<Path, File>, s: State, q: Path) {
    || ((q in s.files <==> q in init) && (q in init ==> s.files[q].bytes == init[q].bytes))
    || exists k :: 0 <= k < |s.begun| && s.begun[k].target == Named(q) && q in s.files
         && s.files[q].bytes == s.begun[k].bytes
  }

  lemma {:induction false} LastCommitAims(begun: seq<Request>, commits: seq<nat>, q: Path)
    ensures
      var r := LastCommit(begun, commits, q);
      r.Some? ==> r.value in commits && r.value < |begun| && begun[r.value].target == Named(q)
  {
    if commits != [] {
      LastCommitAims(begun, commits[..|commits| - 1], q);
    }
  }

  lemma InvIntact(init: map<Path, File>, s: State, targets: set<Path>, q: Path)
    requires Inv(init, s, targets) && q in targets
    ensures Intact(init, s, q)
    ensures q in init ==> q in s.files && s.files[q].mode == init[q].mode
  {
    ContentOf(init, s, targets, q);
    LastCommitAims(s.begun, s.commits, q);
    hide Inv, LastCommit;
  }

  /** Whatever steps interleave, fail or are cut off, no target is ever torn; a target that
      existed at first keeps its permissions. */
  lemma NeverTorn(init: map<Path, File>, es: seq<Event>, targets: set<Path>, q: Path)
    requires Separate(targets) && AimsWithin(es, targets) && q in targets
    requires After(Initial(init), es).Some?
    ensures Intact(init, After(Initial(init), es).value, q)
    ensures q in init ==>
              var s := After(Initial(init), es).value;
              q in s.files && s.files[q].mode == init[q].mode
  {
    hide *;
    RunKeeps(init, es, targets);
    InvIntact(init, After(Initial(init), es).value, targets, q);
  }

  /** Writes take effect in one order, that of their renames: the target holds the payload of the
      last one, a reported success is in that order, and a reported failure never is. */
  lemma OutcomesAreHonest(init: map<Path, File>, es: seq<Event>, targets: set<Path>)
    requires Separate(targets) && AimsWithin(es, targets) && After(Initial(init), es).Some?
    ensures
      var s := After(Initial(init), es).value;
      && (forall k :: k in s.outcomes ==> (s.outcomes[k] <==> k in s.commits))
      && (forall q :: q in targets && LastCommit(s.begun, s.commits, q).Some? ==>
            q in s.files && s.files[q].bytes == s.begun[LastCommit(s.begun, s.commits, q).value].bytes)
  {
    RunKeeps(init, es, targets);
    var s := After(Initial(init), es).value;
    hide After, Separate, AimsWithin, Initial, LastCommit, JobsOk;
    HistoryOf(init, s, targets);
    forall q | q in targets && LastCommit(s.begun, s.commits, q).Some?
      ensures q in s.files && s.files[q].bytes == s.begun[LastCommit(s.begun, s.commits, q).value].bytes
    {
      ContentOf(init, s, targets, q);
    }
  }

  /** The step leaves the file at `q` alone and records a rename exactly when it makes one. */
  ghost predicate LeavesAlone(s: State, e: Event, q: Path)
    requires Enabled(s, e)
  {
    var s' := Apply(s, e);
    && (q in s'.files <==> q in s.files) && (q in s.files ==> s'.files[q] == s.files[q])
    && ((e.Rename? && e.ok) || s'.commits == s.commits)
  }

  /** A target changes only at the successful rename of a write aimed at it. */
  lemma OnlyRenamesChangeTargets(init: map<Path, File>, s: State, e: Event, targets: set<Path>, q: Path)
    requires Separate(targets) && Inv(init, s, targets) && Enabled(s, e) && q in targets
    requires !(e.Rename? && e.ok && RequestOf(s, e.t).target.path == q)
    ensures LeavesAlone(s, e, q)
  {
    if IsOwnEvent(e) {
      hide *;
      OwnEventFrame(init, s, e, targets);
      TempIsNoTarget(init, s, targets, e.t);
      OwnLeavesAlone(s, e, q);
    } else if e.Rename? || e.Cleanup? || e.Return? {
      TempIsNoTarget(init, s, targets, e.t);
      EndLeavesAlone(s, e, q);
      hide *;
    }
  }

  lemma OwnLeavesAlone(s: State, e: Event, q: Path)
    requires Enabled(s, e) && IsOwnEvent(e) && e.t in s.threads && q != s.threads[e.t].temp
    requires SameElsewhere(s.files, Apply(s, e).files, s.threads[e.t].temp) && Apply(s, e).commits == s.commits
    ensures LeavesAlone(s, e, q)
  {
    hide Apply, Enabled;
  }

  lemma EndLeavesAlone(s: State, e: Event, q: Path)
    requires Enabled(s, e) && ((e.Rename? && e.ok) || e.Cleanup? || e.Return?) && q != s.threads[e.t].temp
    requires !(e.Rename? && RequestOf(s, e.t).target.path == q)
    ensures LeavesAlone(s, e, q)
  {
  }

  lemma OwnEventFrame(init: map<Path, File>, s: State, e: Event, targets: set<Path>)
    requires Inv(init, s, targets) && Enabled(s, e) && IsOwnEvent(e)
    ensures e.t in s.threads
    ensures SameElsewhere(s.files, Apply(s, e).files, s.threads[e.t].temp) && Apply(s, e).commits == s.commits
  {
    var t := e.t;
    assert t in s.threads;
    hide *;
    JobOf(init, s, targets, t);
    ContentOf(init, s, targets, s.begun[s.threads[t].ticket].target.path);
    OwnEventOwn(init, s, e);
    OwnFacts(init, s, Apply(s, e), t);
    OwnStepFrame(s, Apply(s, e), t);
  }

  // ---------- Temporary paths ----------

  /** Every writer's temporary path spells its own process and thread. */
  ghost predicate SpellsOwner(s: State, t: Thread)
    requires t in s.threads
  {
    exists p: Path, n: nat :: s.threads[t].temp == TempPath(p, t.pid, t.tid, n)
  }

  ghost predicate AllSpellOwners(s: State) { forall t :: t in s.threads ==> SpellsOwner(s, t) }

  lemma SpellingKept(s: State, e: Event)
    requires AllSpellOwners(s) && Enabled(s, e)
    ensures AllSpellOwners(Apply(s, e))
  {
    hide SpellsOwner, TempPath;
    var s' := Apply(s, e);
    forall t | t in s'.threads
      ensures SpellsOwner(s', t)
    {
      if t in s.threads {
        SameSpelling(s, s', t);
      } else {
        FreshSpelling(s, e, t);
      }
    }
  }

  lemma SameSpelling(s: State, s': State, t: Thread)
    requires t in s.threads && t in s'.threads && s'.threads[t].temp == s.threads[t].temp && SpellsOwner(s, t)
    ensures SpellsOwner(s', t)
  {
  }

  lemma FreshSpelling(s: State, e: Event, t: Thread)
    requires Enabled(s, e) && t !in s.threads && t in Apply(s, e).threads
    ensures SpellsOwner(Apply(s, e), t)
  {
    assert e.Begin? && e.t == t && e.request.target.Named?;
    var p, n := e.request.target.path, s.seqs[t.pid];
    assert Apply(s, e).threads[t].temp == TempPath(p, t.pid, t.tid, n);
  }

  lemma {:induction false} RunSpells(init: map<Path, File>, es: seq<Event>)
    requires After(Initial(init), es).Some?
    ensures AllSpellOwners(After(Initial(init), es).value)
  {
    if es != [] {
      hide Apply, Enabled, SpellsOwner;
      var n := |es| - 1;
      RunSpells(init, es[..n]);
      SpellingKept(After(Initial(init), es[..n]).value, es[n]);
    }
  }

  /** No two live writers share a temporary path, in any process, whatever they aim at. */
  lemma TempsNeverCollide(init: map<Path, File>, es: seq<Event>, t: Thread, u: Thread)
    requires After(Initial(init), es).Some?
    requires t in After(Initial(init), es).value.threads && u in After(Initial(init), es).value.threads && t != u
    ensures After(Initial(init), es).value.threads[t].temp != After(Initial(init), es).value.threads[u].temp
  {
    RunSpells(init, es);
    hide After, TempName;
    var s := After(Initial(init), es).value;
    assert SpellsOwner(s, t) && SpellsOwner(s, u);
    var p: Path, m: nat :| s.threads[t].temp == TempPath(p, t.pid, t.tid, m);
    var q: Path, n: nat :| s.threads[u].temp == TempPath(q, u.pid, u.tid, n);
    if s.threads[t].temp == s.threads[u].temp {
      TempNameInjective(p.name, t.pid, t.tid, m, q.name, u.pid, u.tid, n);
    }
  }

  // ---------- No litter ----------

  predicate LeavesNothing(e: Event) { !e.Crash? && (e.Cleanup? ==> e.removed) }

  /** Every file was there at first, is a target, or is the temporary file of a write in progress. */
  ghost predicate NoLitter(init: map<Path, File>, s: State, targets: set<Path>) {
    forall p :: p in s.files ==>
      p in init || p in targets || exists t :: t in s.threads && s.threads[t].temp == p
  }

  lemma NoLitterStep(init: map<Path, File>, s: State, e: Event, targets: set<Path>)
    requires Separate(targets) && Inv(init, s, targets) && Enabled(s, e) && LeavesNothing(e)
    requires NoLitter(init, s, targets)
    ensures NoLitter(init, Apply(s, e), targets)
  {
    var s' := Apply(s, e);
    forall p | p in s'.files
      ensures p in init || p in targets || exists t :: t in s'.threads && s'.threads[t].temp == p
    {
      if p in s.files && p !in init && p !in targets {
        var t :| t in s.threads && s.threads[t].temp == p;
        JobOf(init, s, targets, t);
        LitterStepAt(init, s, e, targets, p, t);
      } else if p !in s.files {
        NewFileAt(init, s, e, targets, p);
      }
    }
  }

  lemma LitterStepAt(init: map<Path, File>, s: State, e: Event, targets: set<Path>, p: Path, t: Thread)
    requires Enabled(s, e) && LeavesNothing(e) && p in Apply(s, e).files
    requires t in s.threads && s.threads[t].temp == p && s.threads[t].ticket < |s.begun| && TempOk(s, t, s.files)
    ensures p in s.files ==> t in Apply(s, e).threads && Apply(s, e).threads[t].temp == p
  {
  }

  lemma NewFileAt(init: map<Path, File>, s: State, e: Event, targets: set<Path>, p: Path)
    requires Inv(init, s, targets) && Enabled(s, e) && p in Apply(s, e).files && p !in s.files
    ensures p in targets || exists t :: t in Apply(s, e).threads && Apply(s, e).threads[t].temp == p
  {
    if e.Create? || e.Rename? {
      JobOf(init, s, targets, e.t);
      assert e.Create? ==> e.t in Apply(s, e).threads && Apply(s, e).threads[e.t].temp == s.threads[e.t].temp;
    }
    hide Inv;
  }

  /** When no process dies and every cleanup works, writes leave no temporary file behind. */
  lemma {:induction false} NoLitterLeft(init: map<Path, File>, es: seq<Event>, targets: set<Path>)
    requires Separate(targets) && AimsWithin(es, targets) && After(Initial(init), es).Some?
    requires forall e :: e in es ==> LeavesNothing(e)
    ensures NoLitter(init, After(Initial(init), es).value, targets)
  {
    if es != [] {
      var n := |es| - 1;
      assert forall e :: e in es[..n] ==> e in es;
      assert es[n] in es;
      RunKeeps(init, es[..n], targets);
      NoLitterLeft(init, es[..n], targets);
      NoLitterStep(init, After(Initial(init), es[..n]).value, es[n], targets);
      hide NoLitter, Inv, Separate, Apply, Enabled;
    }
  }
}
