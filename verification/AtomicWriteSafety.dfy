/** What every reachable state of the atomic writers keeps. */
module AtomicWriteSafety {
  import opened Common
  import opened TempNames
  import opened AtomicWrite

  /** No target in use is the temporary path of a target in use. */
  ghost predicate Separate(targets: set<Path>) {
    forall p, q, pid: nat, tid: nat, n: nat ::
      p in targets && q in targets && n < TWO_64 ==> q != TempPath(p, pid, tid, n)
  }

  // ---------- The invariant ----------

  ghost predicate IsTempOf(temp: Path, target: Path, t: Thread) {
    exists n: nat :: n < TWO_64 && temp == TempPath(target, t.pid, t.tid, n)
  }

  /** A write in progress belongs to a live process and has its own temporary path. */
  ghost predicate JobOk(s: State, t: Thread, targets: set<Path>)
    requires t in s.threads
  {
    var job := s.threads[t];
    && t.pid in s.seqs
    && job.ticket < |s.begun|
    && s.begun[job.ticket].target.Named?
    && s.begun[job.ticket].target.path in targets
    && IsTempOf(job.temp, s.begun[job.ticket].target.path, t)
    && job.ticket !in s.outcomes
    && (job.ticket in s.commits <==> job.phase.Renamed?)
  }

  /** The temporary file holds exactly what has been written so far. */
  ghost predicate TempOk(s: State, t: Thread, files: map<Path, File>)
    requires t in s.threads && s.threads[t].ticket < |s.begun|
  {
    var job := s.threads[t];
    var payload := s.begun[job.ticket].bytes;
    match job.phase
    case Writing(written) =>
      written <= |payload| && job.temp in files && files[job.temp].bytes == payload[..written]
    case Synced => job.temp in files && files[job.temp].bytes == payload
    case Moded => job.temp in files && files[job.temp].bytes == payload
    case Renamed => job.temp !in files
    case _ => true
  }

  /** Before the rename, the mode of a target that existed from the start has been copied. */
  ghost predicate ModeOk(init: map<Path, File>, s: State, t: Thread)
    requires t in s.threads && s.threads[t].ticket < |s.begun|
  {
    var job := s.threads[t];
    var target := s.begun[job.ticket].target;
    job.phase.Moded? && target.Named? && target.path in init && job.temp in s.files ==>
      s.files[job.temp].mode == init[target.path].mode
  }

  ghost predicate JobsOk(init: map<Path, File>, s: State, targets: set<Path>) {
    && (forall t :: t in s.threads ==> JobOk(s, t, targets) && TempOk(s, t, s.files) && ModeOk(init, s, t))
    && (forall t, u :: t in s.threads && u in s.threads && t != u ==> s.threads[t].ticket != s.threads[u].ticket)
  }

  ghost predicate HistoryOk(s: State, targets: set<Path>) {
    && (forall pid :: pid in s.seqs ==> s.seqs[pid] < TWO_64)
    && (forall k :: k in s.commits ==>
          k < |s.begun| && s.begun[k].target.Named? && s.begun[k].target.path in targets)
    && (forall k :: k in s.outcomes ==> k < |s.begun| && (s.outcomes[k] <==> k in s.commits))
  }

  /** The last committed write aimed at `q`. */
  function LastCommit(begun: seq<Request>, commits: seq<nat>, q: Path): (r: Option<nat>)
    ensures r.Some? ==> r.value < |begun|
  {
    if commits == [] then None
    else
      var n := |commits| - 1;
      if commits[n] < |begun| && begun[commits[n]].target == Named(q) then Some(commits[n])
      else LastCommit(begun, commits[..n], q)
  }

  /** The target holds the payload of the last committed write aimed at it, or what it held at
      first; and a target that existed at first keeps its mode. */
  ghost predicate ContentOk(init: map<Path, File>, s: State, q: Path) {
    && (match LastCommit(s.begun, s.commits, q)
        case None => (q in s.files <==> q in init) && (q in init ==> s.files[q].bytes == init[q].bytes)
        case Some(k) => q in s.files && s.files[q].bytes == s.begun[k].bytes)
    && (q in init ==> q in s.files && s.files[q].mode == init[q].mode)
  }

  ghost predicate Inv(init: map<Path, File>, s: State, targets: set<Path>) {
    && HistoryOk(s, targets)
    && JobsOk(init, s, targets)
    && forall q :: q in targets ==> ContentOk(init, s, q)
  }

  lemma JobOf(init: map<Path, File>, s: State, targets: set<Path>, t: Thread)
    requires Inv(init, s, targets) && t in s.threads
    ensures JobOk(s, t, targets) && TempOk(s, t, s.files) && ModeOk(init, s, t)
    ensures s.threads[t].ticket < |s.begun| && s.begun[s.threads[t].ticket].target.Named?
    ensures s.begun[s.threads[t].ticket].target.path in targets
    ensures IsTempOf(s.threads[t].temp, s.begun[s.threads[t].ticket].target.path, t)
    ensures s.threads[t].ticket in s.commits <==> s.threads[t].phase.Renamed?
    ensures s.threads[t].ticket !in s.outcomes && t.pid in s.seqs
    ensures forall u :: u in s.threads && u != t ==> s.threads[u].ticket != s.threads[t].ticket
  {
    hide HistoryOk, ContentOk, IsTempOf, TempOk, ModeOk;
    assert JobOk(s, t, targets);
  }

  lemma ContentOf(init: map<Path, File>, s: State, targets: set<Path>, q: Path)
    requires Inv(init, s, targets) && q in targets
    ensures ContentOk(init, s, q)
  {
    hide HistoryOk, JobsOk;
  }

  lemma HistoryOf(init: map<Path, File>, s: State, targets: set<Path>)
    requires Inv(init, s, targets)
    ensures HistoryOk(s, targets)
  {
  }

  lemma MakeInv(init: map<Path, File>, s: State, targets: set<Path>)
    requires HistoryOk(s, targets)
    requires forall t :: t in s.threads ==>
               JobOk(s, t, targets) && s.threads[t].ticket < |s.begun| && TempOk(s, t, s.files) && ModeOk(init, s, t)
    requires forall t, u :: t in s.threads && u in s.threads && t != u ==> s.threads[t].ticket != s.threads[u].ticket
    requires forall q :: q in targets ==> ContentOk(init, s, q)
    ensures Inv(init, s, targets)
  {
    hide HistoryOk, ContentOk, JobOk, TempOk, ModeOk;
  }

  // ---------- Temporary paths of live writers never collide ----------

  lemma TempsDiffer(init: map<Path, File>, s: State, targets: set<Path>, t: Thread, u: Thread)
    requires Inv(init, s, targets) && t in s.threads && u in s.threads && t != u
    ensures s.threads[t].temp != s.threads[u].temp
  {
    JobOf(init, s, targets, t);
    JobOf(init, s, targets, u);
    hide Inv, JobOk, TempOk, ModeOk, TempName;
    var p, q := s.begun[s.threads[t].ticket].target.path, s.begun[s.threads[u].ticket].target.path;
    var m: nat :| m < TWO_64 && s.threads[t].temp == TempPath(p, t.pid, t.tid, m);
    var n: nat :| n < TWO_64 && s.threads[u].temp == TempPath(q, u.pid, u.tid, n);
    if s.threads[t].temp == s.threads[u].temp {
      TempNameInjective(p.name, t.pid, t.tid, m, q.name, u.pid, u.tid, n);
    }
  }

  lemma TempIsNoTarget(init: map<Path, File>, s: State, targets: set<Path>, t: Thread)
    requires Separate(targets) && Inv(init, s, targets) && t in s.threads
    ensures s.threads[t].temp !in targets
  {
    JobOf(init, s, targets, t);
    hide Inv, JobOk, TempOk, ModeOk;
    var p := s.begun[s.threads[t].ticket].target.path;
    var n: nat :| n < TWO_64 && s.threads[t].temp == TempPath(p, t.pid, t.tid, n);
  }

  // ---------- Steps that touch only the writer's own temporary file ----------

  ghost predicate SameElsewhere(f: map<Path, File>, g: map<Path, File>, temp: Path) {
    forall p :: p != temp ==> (p in f <==> p in g) && (p in f ==> f[p] == g[p])
  }

  /** `s'` differs from `s` in the phase of `t` and in the file at t's temporary path alone. */
  ghost predicate OwnStep(s: State, s': State, t: Thread) {
    && t in s.threads && t in s'.threads
    && s'.seqs == s.seqs && s'.begun == s.begun && s'.commits == s.commits && s'.outcomes == s.outcomes
    && s'.threads == s.threads[t := s.threads[t].(phase := s'.threads[t].phase)]
    && SameElsewhere(s.files, s'.files, s.threads[t].temp)
  }

  lemma OwnStepKeeps(init: map<Path, File>, s: State, s': State, t: Thread, targets: set<Path>)
    requires Separate(targets) && Inv(init, s, targets) && OwnStep(s, s', t)
    requires s.threads[t].ticket < |s.begun|
    requires !s.threads[t].phase.Renamed? && !s'.threads[t].phase.Renamed?
    requires TempOk(s', t, s'.files) && ModeOk(init, s', t)
    ensures Inv(init, s', targets)
  {
    hide *;
    OwnStepFrame(s, s', t);
    HistoryOf(init, s, targets);
    HistoryFrame(s, s', targets);
    TempIsNoTarget(init, s, targets, t);
    forall u | u in s'.threads
      ensures JobOk(s', u, targets) && s'.threads[u].ticket < |s'.begun| && TempOk(s', u, s'.files)
          && ModeOk(init, s', u)
      ensures forall v :: v in s'.threads && v != u ==> s'.threads[v].ticket != s'.threads[u].ticket
    {
      JobOf(init, s, targets, u);
      if u != t {
        TempsDiffer(init, s, targets, t, u);
      }
      OwnStepJob(init, s, s', t, targets, u);
    }
    forall q | q in targets
      ensures ContentOk(init, s', q)
    {
      ContentOf(init, s, targets, q);
      ContentFrame(init, s, s', s.threads[t].temp, q);
    }
    MakeInv(init, s', targets);
  }

  lemma OwnStepFrame(s: State, s': State, t: Thread)
    requires OwnStep(s, s', t)
    ensures t in s.threads && t in s'.threads
    ensures s'.seqs == s.seqs && s'.begun == s.begun && s'.commits == s.commits && s'.outcomes == s.outcomes
    ensures s'.threads == s.threads[t := s.threads[t].(phase := s'.threads[t].phase)]
    ensures SameElsewhere(s.files, s'.files, s.threads[t].temp)
  {
  }

  lemma HistoryFrame(s: State, s': State, targets: set<Path>)
    requires HistoryOk(s, targets)
    requires s'.seqs == s.seqs && s'.begun == s.begun && s'.commits == s.commits && s'.outcomes == s.outcomes
    ensures HistoryOk(s', targets)
  {
  }

  lemma ContentFrame(init: map<Path, File>, s: State, s': State, temp: Path, q: Path)
    requires ContentOk(init, s, q) && SameElsewhere(s.files, s'.files, temp) && q != temp
    requires LastCommit(s'.begun, s'.commits, q) == LastCommit(s.begun, s.commits, q)
    requires forall k :: 0 <= k < |s.begun| && k < |s'.begun| ==> s'.begun[k] == s.begun[k]
    ensures ContentOk(init, s', q)
  {
    hide LastCommit;
  }

  lemma OwnStepJob(init: map<Path, File>, s: State, s': State, t: Thread, targets: set<Path>, u: Thread)
    requires OwnStep(s, s', t) && u in s.threads && s.threads[t].ticket < |s.begun|
    requires JobOk(s, u, targets) && s.threads[u].ticket < |s.begun| && TempOk(s, u, s.files) && ModeOk(init, s, u)
    requires u != t ==> s.threads[u].temp != s.threads[t].temp
    requires !s.threads[t].phase.Renamed? && !s'.threads[t].phase.Renamed?
    requires TempOk(s', t, s'.files) && ModeOk(init, s', t)
    ensures JobOk(s', u, targets) && TempOk(s', u, s'.files) && ModeOk(init, s', u)
  {
    hide IsTempOf;
  }

  /** What a step on the writer's own file has to establish. */
  ghost predicate KeepsOwn(init: map<Path, File>, s: State, s': State, t: Thread) {
    && OwnStep(s, s', t)
    && s.threads[t].ticket < |s.begun|
    && !s.threads[t].phase.Renamed? && !s'.threads[t].phase.Renamed?
    && TempOk(s', t, s'.files) && ModeOk(init, s', t)
  }

  lemma MovedOnly(s: State, t: Thread, phase: Phase, files: map<Path, File>)
    requires t in s.threads && SameElsewhere(s.files, files, s.threads[t].temp)
    ensures OwnStep(s, Move(s.(files := files), t, phase), t)
  {
  }

  lemma CreateOwn(init: map<Path, File>, s: State, t: Thread, ok: bool, mode: nat)
    requires Enabled(s, Create(t, ok, mode))
    ensures KeepsOwn(init, s, Apply(s, Create(t, ok, mode)), t)
  {
    var s' := Apply(s, Create(t, ok, mode));
    MovedOnly(s, t, s'.threads[t].phase, s'.files);
    hide OwnStep;
  }

  lemma WriteOwn(init: map<Path, File>, s: State, t: Thread, ok: bool, count: nat)
    requires Enabled(s, Write(t, ok, count)) && TempOk(s, t, s.files)
    ensures KeepsOwn(init, s, Apply(s, Write(t, ok, count)), t)
  {
    var s' := Apply(s, Write(t, ok, count));
    MovedOnly(s, t, s'.threads[t].phase, s'.files);
    var written, payload := s.threads[t].phase.written, RequestOf(s, t).bytes;
    if ok {
      assert payload[..written] + payload[written..written + count] == payload[..written + count];
    }
    hide OwnStep;
  }

  lemma SyncOwn(init: map<Path, File>, s: State, t: Thread, ok: bool)
    requires Enabled(s, Sync(t, ok)) && TempOk(s, t, s.files)
    ensures KeepsOwn(init, s, Apply(s, Sync(t, ok)), t)
  {
    var s' := Apply(s, Sync(t, ok));
    MovedOnly(s, t, s'.threads[t].phase, s'.files);
    var payload := RequestOf(s, t).bytes;
    assert payload[..|payload|] == payload;
    hide OwnStep;
  }

  lemma CopyModeOwn(init: map<Path, File>, s: State, t: Thread, ok: bool)
    requires Enabled(s, CopyMode(t, ok)) && TempOk(s, t, s.files)
    requires ContentOk(init, s, RequestOf(s, t).target.path)
    ensures KeepsOwn(init, s, Apply(s, CopyMode(t, ok)), t)
  {
    var s' := Apply(s, CopyMode(t, ok));
    MovedOnly(s, t, s'.threads[t].phase, s'.files);
    hide OwnStep, LastCommit;
  }

  lemma RenameFailsOwn(init: map<Path, File>, s: State, t: Thread)
    requires Enabled(s, Rename(t, false))
    ensures KeepsOwn(init, s, Apply(s, Rename(t, false)), t)
  {
    MovedOnly(s, t, Failing, s.files);
    hide OwnStep;
  }

  predicate IsOwnEvent(e: Event) {
    e.Create? || e.Write? || e.Sync? || e.CopyMode? || (e.Rename? && !e.ok)
  }

  lemma OwnEventKeeps(init: map<Path, File>, s: State, e: Event, targets: set<Path>)
    requires Inv(init, s, targets) && Enabled(s, e) && Separate(targets) && IsOwnEvent(e)
    ensures Inv(init, Apply(s, e), targets)
  {
    var t := e.t;
    assert t in s.threads;
    hide *;
    JobOf(init, s, targets, t);
    ContentOf(init, s, targets, s.begun[s.threads[t].ticket].target.path);
    OwnEventOwn(init, s, e);
    OwnFacts(init, s, Apply(s, e), t);
    OwnStepKeeps(init, s, Apply(s, e), t, targets);
  }

  lemma OwnEventOwn(init: map<Path, File>, s: State, e: Event)
    requires Enabled(s, e) && IsOwnEvent(e)
    requires e.t in s.threads && s.threads[e.t].ticket < |s.begun| && TempOk(s, e.t, s.files)
    requires s.begun[s.threads[e.t].ticket].target.Named?
    requires ContentOk(init, s, s.begun[s.threads[e.t].ticket].target.path)
    ensures KeepsOwn(init, s, Apply(s, e), e.t)
  {
    hide Enabled, Apply, KeepsOwn, TempOk, ContentOk;
    match e
    case Create(t, ok, mode) => CreateOwn(init, s, t, ok, mode);
    case Write(t, ok, count) => WriteOwn(init, s, t, ok, count);
    case Sync(t, ok) => SyncOwn(init, s, t, ok);
    case CopyMode(t, ok) => CopyModeOwn(init, s, t, ok);
    case Rename(t, ok) => RenameFailsOwn(init, s, t);
  }

  lemma OwnFacts(init: map<Path, File>, s: State, s': State, t: Thread)
    requires KeepsOwn(init, s, s', t)
    ensures OwnStep(s, s', t) && t in s.threads && t in s'.threads
    ensures s.threads[t].ticket < |s.begun| && s'.threads[t].ticket < |s'.begun|
    ensures !s.threads[t].phase.Renamed? && !s'.threads[t].phase.Renamed?
    ensures TempOk(s', t, s'.files) && ModeOk(init, s', t)
  {
  }

  // ---------- The other steps ----------

  lemma {:induction false} LastCommitFrame(begun: seq<Request>, r: Request, commits: seq<nat>, q: Path)
    requires forall k :: k in commits ==> k < |begun|
    ensures LastCommit(begun + [r], commits, q) == LastCommit(begun, commits, q)
  {
    if commits != [] {
      var n := |commits| - 1;
      assert commits[n] in commits && forall k :: k in commits[..n] ==> k in commits;
      LastCommitFrame(begun, r, commits[..n], q);
    }
  }

  lemma LastCommitAppended(begun: seq<Request>, commits: seq<nat>, k: nat, q: Path)
    requires k < |begun|
    ensures LastCommit(begun, commits + [k], q)
         == if begun[k].target == Named(q) then Some(k) else LastCommit(begun, commits, q)
  {
    assert (commits + [k])[..|commits|] == commits;
  }

  lemma SpawnKeeps(init: map<Path, File>, s: State, pid: nat, targets: set<Path>)
    requires Inv(init, s, targets) && pid !in s.seqs
    ensures Inv(init, s.(seqs := s.seqs[pid := 0]), targets)
  {
    hide *;
    var s' := s.(seqs := s.seqs[pid := 0]);
    HistoryOf(init, s, targets);
    assert HistoryOk(s', targets) by { SeqsFrame(s, s', targets); }
    forall u | u in s'.threads
      ensures JobOk(s', u, targets) && s'.threads[u].ticket < |s'.begun| && TempOk(s', u, s'.files)
          && ModeOk(init, s', u)
      ensures forall v :: v in s'.threads && v != u ==> s'.threads[v].ticket != s'.threads[u].ticket
    {
      JobOf(init, s, targets, u);
      JobFrame(init, s, s', u, targets);
    }
    forall q | q in targets
      ensures ContentOk(init, s', q)
    {
      ContentOf(init, s, targets, q);
      SameContent(init, s, s', q);
    }
    MakeInv(init, s', targets);
  }

  lemma SeqsFrame(s: State, s': State, targets: set<Path>)
    requires HistoryOk(s, targets)
    requires s'.begun == s.begun && s'.commits == s.commits && s'.outcomes == s.outcomes
    requires forall pid :: pid in s'.seqs ==> s'.seqs[pid] == 0 || (pid in s.seqs && s'.seqs[pid] == s.seqs[pid])
    ensures HistoryOk(s', targets)
  {
  }

  lemma SameContent(init: map<Path, File>, s: State, s': State, q: Path)
    requires ContentOk(init, s, q) && s'.files == s.files && s'.begun == s.begun && s'.commits == s.commits
    ensures ContentOk(init, s', q)
  {
  }

  /** A job is untouched when its request, its phase and its temporary file are. */
  lemma JobFrame(init: map<Path, File>, s: State, s': State, u: Thread, targets: set<Path>)
    requires u in s.threads && u in s'.threads && s'.threads[u] == s.threads[u] && s.threads[u].ticket < |s.begun|
    requires JobOk(s, u, targets) && TempOk(s, u, s.files) && ModeOk(init, s, u)
    requires s.threads[u].ticket < |s'.begun| && s'.begun[s.threads[u].ticket] == s.begun[s.threads[u].ticket]
    requires u.pid in s'.seqs && s.threads[u].ticket !in s'.outcomes
    requires s.threads[u].ticket in s'.commits <==> s.threads[u].ticket in s.commits
    requires s.threads[u].temp in s'.files <==> s.threads[u].temp in s.files
    requires s.threads[u].temp in s.files ==> s'.files[s.threads[u].temp] == s.files[s.threads[u].temp]
    ensures JobOk(s', u, targets) && TempOk(s', u, s'.files) && ModeOk(init, s', u)
  {
    hide IsTempOf;
  }

  lemma CrashShape(s: State, pid: nat)
    requires pid in s.seqs
    ensures Enabled(s, Crash(pid))
    ensures
      var s' := Apply(s, Crash(pid));
      && s'.seqs == s.seqs - {pid}
      && s'.files == s.files && s'.begun == s.begun && s'.commits == s.commits && s'.outcomes == s.outcomes
      && (forall u :: u in s'.threads <==> u in s.threads && u.pid != pid)
      && (forall u :: u in s'.threads ==> s'.threads[u] == s.threads[u])
  {
  }

  lemma CrashKeeps(init: map<Path, File>, s: State, pid: nat, targets: set<Path>)
    requires Inv(init, s, targets) && pid in s.seqs && Enabled(s, Crash(pid))
    ensures Inv(init, Apply(s, Crash(pid)), targets)
  {
    hide *;
    var s' := Apply(s, Crash(pid));
    CrashShape(s, pid);
    HistoryOf(init, s, targets);
    SeqsFrame(s, s', targets);
    forall u | u in s'.threads
      ensures JobOk(s', u, targets) && s'.threads[u].ticket < |s'.begun| && TempOk(s', u, s'.files)
          && ModeOk(init, s', u)
      ensures forall v :: v in s'.threads && v != u ==> s'.threads[v].ticket != s'.threads[u].ticket
    {
      JobOf(init, s, targets, u);
      JobFrame(init, s, s', u, targets);
    }
    forall q | q in targets
      ensures ContentOk(init, s', q)
    {
      ContentOf(init, s, targets, q);
      SameContent(init, s, s', q);
    }
    MakeInv(init, s', targets);
  }

  predicate AimsAt(r: Request, targets: set<Path>) { r.target.Named? ==> r.target.path in targets }

  lemma BeginShape(s: State, t: Thread, r: Request)
    requires t.pid in s.seqs && t !in s.threads
    ensures
      var s', k := ApplyBegin(s, t, r), |s.begun|;
      && s'.files == s.files && s'.commits == s.commits && s'.begun == s.begun + [r]
      && s'.seqs == s.seqs[t.pid := (s.seqs[t.pid] + 1) % TWO_64]
      && (r.target.Nameless? ==> s'.threads == s.threads && s'.outcomes == s.outcomes[k := false])
      && (r.target.Named? ==>
            && s'.outcomes == s.outcomes
            && s'.threads == s.threads[t := Job(k, TempPath(r.target.path, t.pid, t.tid, s.seqs[t.pid]), Reserved)])
  {
  }

  lemma BeginHistory(s: State, s': State, t: Thread, r: Request, targets: set<Path>)
    requires HistoryOk(s, targets) && t.pid in s.seqs && AimsAt(r, targets)
    requires s'.commits == s.commits && s'.begun == s.begun + [r]
    requires s'.seqs == s.seqs[t.pid := (s.seqs[t.pid] + 1) % TWO_64]
    requires s'.outcomes == s.outcomes || s'.outcomes == s.outcomes[|s.begun| := false]
    ensures HistoryOk(s', targets)
    ensures |s.begun| !in s.commits && |s.begun| !in s.outcomes
    ensures s.seqs[t.pid] < TWO_64 && forall k :: k in s.commits ==> k < |s.begun|
  {
  }

  lemma BeginJob(init: map<Path, File>, s: State, t: Thread, targets: set<Path>)
    requires t in s.threads && t.pid in s.seqs
    requires
      var job := s.threads[t];
      && job.ticket < |s.begun| && job.phase == Reserved
      && job.ticket !in s.commits && job.ticket !in s.outcomes
      && s.begun[job.ticket].target.Named? && s.begun[job.ticket].target.path in targets
      && IsTempOf(job.temp, s.begun[job.ticket].target.path, t)
    ensures JobOk(s, t, targets) && TempOk(s, t, s.files) && ModeOk(init, s, t)
  {
    hide IsTempOf;
  }

  lemma ReservedTemp(p: Path, t: Thread, n: nat)
    requires n < TWO_64
    ensures IsTempOf(TempPath(p, t.pid, t.tid, n), p, t)
  {
  }

  lemma BeginKeeps(init: map<Path, File>, s: State, t: Thread, r: Request, targets: set<Path>)
    requires Inv(init, s, targets) && t.pid in s.seqs && t !in s.threads && AimsAt(r, targets)
    ensures Inv(init, ApplyBegin(s, t, r), targets)
  {
    hide *;
    var s' := ApplyBegin(s, t, r);
    BeginShape(s, t, r);
    HistoryOf(init, s, targets);
    BeginHistory(s, s', t, r, targets);
    forall u | u in s'.threads
      ensures JobOk(s', u, targets) && s'.threads[u].ticket < |s'.begun| && TempOk(s', u, s'.files)
          && ModeOk(init, s', u)
      ensures forall v :: v in s'.threads && v != u ==> s'.threads[v].ticket != s'.threads[u].ticket
    {
      if r.target.Named? && u == t {
        ReservedTemp(r.target.path, t, s.seqs[t.pid]);
        assert r.target.path in targets by { AimsPath(r, targets); }
        forall v | v in s.threads
          ensures s.threads[v].ticket < |s.begun|
        {
          JobOf(init, s, targets, v);
        }
        BeginJob(init, s', t, targets);
      } else {
        JobOf(init, s, targets, u);
        JobFrame(init, s, s', u, targets);
      }
    }
    forall q | q in targets
      ensures ContentOk(init, s', q)
    {
      ContentOf(init, s, targets, q);
      LastCommitFrame(s.begun, r, s.commits, q);
      BeginContent(init, s, s', r, q);
    }
    MakeInv(init, s', targets);
  }

  lemma AimsPath(r: Request, targets: set<Path>)
    requires AimsAt(r, targets) && r.target.Named?
    ensures r.target.path in targets
  {
  }

  lemma BeginContent(init: map<Path, File>, s: State, s': State, r: Request, q: Path)
    requires ContentOk(init, s, q) && s'.files == s.files && s'.begun == s.begun + [r]
    requires LastCommit(s'.begun, s'.commits, q) == LastCommit(s.begun, s.commits, q)
    ensures ContentOk(init, s', q)
  {
    hide LastCommit;
  }

  /** A write reports: its thread is free again, its temporary file may be gone. */
  lemma FinishKeeps(init: map<Path, File>, s: State, t: Thread, ok: bool, files: map<Path, File>, targets: set<Path>)
    requires Separate(targets) && Inv(init, s, targets) && t in s.threads && ok == s.threads[t].phase.Renamed?
    requires SameElsewhere(s.files, files, s.threads[t].temp)
    ensures Inv(init, Finish(s.(files := files), t, ok), targets)
  {
    hide *;
    var s' := Finish(s.(files := files), t, ok);
    FinishShape(s.(files := files), t, ok);
    JobOf(init, s, targets, t);
    HistoryOf(init, s, targets);
    FinishHistory(s, s', t, ok, targets);
    TempIsNoTarget(init, s, targets, t);
    forall u | u in s'.threads
      ensures JobOk(s', u, targets) && s'.threads[u].ticket < |s'.begun| && TempOk(s', u, s'.files)
          && ModeOk(init, s', u)
      ensures forall v :: v in s'.threads && v != u ==> s'.threads[v].ticket != s'.threads[u].ticket
    {
      JobOf(init, s, targets, u);
      TempsDiffer(init, s, targets, t, u);
      SameAt(s.files, files, s.threads[t].temp, s.threads[u].temp);
      JobFrame(init, s, s', u, targets);
    }
    forall q | q in targets
      ensures ContentOk(init, s', q)
    {
      ContentOf(init, s, targets, q);
      ContentFrame(init, s, s', s.threads[t].temp, q);
    }
    MakeInv(init, s', targets);
  }

  lemma SameAt(f: map<Path, File>, g: map<Path, File>, temp: Path, p: Path)
    requires SameElsewhere(f, g, temp) && p != temp
    ensures (p in f <==> p in g) && (p in f ==> f[p] == g[p])
  {
  }

  lemma FinishShape(s: State, t: Thread, ok: bool)
    requires t in s.threads
    ensures
      var s' := Finish(s, t, ok);
      && s'.files == s.files && s'.seqs == s.seqs && s'.begun == s.begun && s'.commits == s.commits
      && s'.threads == s.threads - {t} && s'.outcomes == s.outcomes[s.threads[t].ticket := ok]
  {
  }

  lemma FinishHistory(s: State, s': State, t: Thread, ok: bool, targets: set<Path>)
    requires HistoryOk(s, targets) && t in s.threads && s.threads[t].ticket < |s.begun|
    requires ok <==> s.threads[t].ticket in s.commits
    requires s'.seqs == s.seqs && s'.begun == s.begun && s'.commits == s.commits
    requires s'.outcomes == s.outcomes[s.threads[t].ticket := ok]
    ensures HistoryOk(s', targets)
  {
  }

  // ---------- The rename ----------

  lemma RenameShape(s: State, t: Thread)
    requires InPhase(s, t, Moded) && RequestOf(s, t).target.Named? && s.threads[t].temp in s.files
    ensures
      var s', job, target := ApplyRename(s, t, true), s.threads[t], RequestOf(s, t).target.path;
      && s'.seqs == s.seqs && s'.begun == s.begun && s'.outcomes == s.outcomes
      && s'.threads == s.threads[t := job.(phase := Renamed)]
      && s'.commits == s.commits + [job.ticket]
      && s'.files == (s.files - {job.temp})[target := s.files[job.temp]]
  {
  }

  lemma RenameHistory(s: State, s': State, k: nat, targets: set<Path>)
    requires HistoryOk(s, targets) && k < |s.begun| && k !in s.outcomes
    requires s.begun[k].target.Named? && s.begun[k].target.path in targets
    requires s'.seqs == s.seqs && s'.begun == s.begun && s'.outcomes == s.outcomes && s'.commits == s.commits + [k]
    ensures HistoryOk(s', targets)
  {
    assert forall j :: j in s'.commits <==> j in s.commits || j == k;
  }

  lemma RenamedJob(init: map<Path, File>, s: State, s': State, t: Thread, targets: set<Path>)
    requires t in s.threads && JobOk(s, t, targets) && s'.begun == s.begun && s'.seqs == s.seqs
        && s'.outcomes == s.outcomes
    requires t in s'.threads && s'.threads[t] == s.threads[t].(phase := Renamed)
    requires s.threads[t].ticket in s'.commits && s.threads[t].temp !in s'.files
    ensures JobOk(s', t, targets) && TempOk(s', t, s'.files) && ModeOk(init, s', t)
  {
    hide IsTempOf;
  }

  lemma RenamedContent(init: map<Path, File>, s: State, s': State, t: Thread, q: Path)
    requires InPhase(s, t, Moded) && RequestOf(s, t).target.Named? && s.threads[t].temp in s.files
    requires ContentOk(init, s, q) && TempOk(s, t, s.files) && ModeOk(init, s, t) && q != s.threads[t].temp
    requires s'.files == (s.files - {s.threads[t].temp})[RequestOf(s, t).target.path := s.files[s.threads[t].temp]]
    requires s'.begun == s.begun && s'.commits == s.commits + [s.threads[t].ticket]
    ensures ContentOk(init, s', q)
  {
    LastCommitAppended(s.begun, s.commits, s.threads[t].ticket, q);
    hide LastCommit;
  }

  lemma RenameKeeps(init: map<Path, File>, s: State, t: Thread, targets: set<Path>)
    requires Separate(targets) && Inv(init, s, targets)
    requires InPhase(s, t, Moded) && RequestOf(s, t).target.Named? && s.threads[t].temp in s.files
    ensures Inv(init, ApplyRename(s, t, true), targets)
  {
    var job, target := s.threads[t], RequestOf(s, t).target.path;
    assert s.threads[t].phase.Moded? && target == s.begun[job.ticket].target.path;
    hide *;
    var s' := ApplyRename(s, t, true);
    RenameShape(s, t);
    JobOf(init, s, targets, t);
    HistoryOf(init, s, targets);
    RenameHistory(s, s', job.ticket, targets);
    TempIsNoTarget(init, s, targets, t);
    forall u | u in s'.threads
      ensures JobOk(s', u, targets) && s'.threads[u].ticket < |s'.begun| && TempOk(s', u, s'.files)
          && ModeOk(init, s', u)
      ensures forall v :: v in s'.threads && v != u ==> s'.threads[v].ticket != s'.threads[u].ticket
    {
      if u == t {
        RenamedJob(init, s, s', t, targets);
      } else {
        JobOf(init, s, targets, u);
        TempsDiffer(init, s, targets, t, u);
        TempIsNoTarget(init, s, targets, u);
        JobFrame(init, s, s', u, targets);
      }
    }
    forall q | q in targets
      ensures ContentOk(init, s', q)
    {
      ContentOf(init, s, targets, q);
      RenamedContent(init, s, s', t, q);
    }
    MakeInv(init, s', targets);
  }
}
