/** `crates/hekma-engine/src/paths.rs`: crash-safe file replacement, run by any number of writers.

    Each thread of each process performs writes one step at a time. Steps of different threads
    interleave freely, any step may fail, and a process may die between any two of its steps. */
module AtomicWrite {
  import opened Common
  import opened TempNames

  type Bytes = seq<bv8>

  datatype File = File(bytes: Bytes, mode: nat)

  /** A target path that names no file is refused. */
  datatype Target = Named(path: Path) | Nameless(dir: string)

  datatype Request = Request(target: Target, bytes: Bytes)

  datatype Thread = Thread(pid: nat, tid: nat)

  /** Where one write stands. `Failing` still owes its best-effort cleanup; `Renamed` its return. */
  datatype Phase = Reserved | Writing(written: nat) | Synced | Moded | Renamed | Failing

  datatype Job = Job(ticket: nat, temp: Path, phase: Phase)

  /** `seqs` holds the live processes and their sequence counters, `threads` the writes in
      progress. The rest is history: every request begun, the tickets of the renames that
      succeeded in order, and what each returned write reported. */
  datatype State = State(
    files: map<Path, File>,
    seqs: map<nat, nat>,
    threads: map<Thread, Job>,
    begun: seq<Request>,
    commits: seq<nat>,
    outcomes: map<nat, bool>)

  datatype Event =
    | Spawn(pid: nat)
    | Crash(pid: nat)
    | Begin(t: Thread, request: Request)
    | Create(t: Thread, ok: bool, mode: nat)
    | Write(t: Thread, ok: bool, count: nat)
    | Sync(t: Thread, ok: bool)
    | CopyMode(t: Thread, ok: bool)
    | Rename(t: Thread, ok: bool)
    | Cleanup(t: Thread, removed: bool)
    | Return(t: Thread)

  predicate InPhase(s: State, t: Thread, phase: Phase) {
    t in s.threads && s.threads[t].phase == phase && s.threads[t].ticket < |s.begun|
  }

  function RequestOf(s: State, t: Thread): Request
    requires t in s.threads && s.threads[t].ticket < |s.begun|
  {
    s.begun[s.threads[t].ticket]
  }

  predicate Enabled(s: State, e: Event) {
    match e
    case Spawn(pid) => pid !in s.seqs
    case Crash(pid) => pid in s.seqs
    case Begin(t, _) => t.pid in s.seqs && t !in s.threads
    case Create(t, _, _) => InPhase(s, t, Reserved) && RequestOf(s, t).target.Named?
    case Write(t, ok, count) =>
      && t in s.threads && s.threads[t].phase.Writing? && s.threads[t].ticket < |s.begun|
      && s.threads[t].phase.written < |RequestOf(s, t).bytes|
      && (ok ==> 0 < count <= |RequestOf(s, t).bytes| - s.threads[t].phase.written)
    case Sync(t, _) =>
      && t in s.threads && s.threads[t].phase.Writing? && s.threads[t].ticket < |s.begun|
      && s.threads[t].phase.written == |RequestOf(s, t).bytes|
    case CopyMode(t, _) => InPhase(s, t, Synced) && RequestOf(s, t).target.Named?
    case Rename(t, _) => InPhase(s, t, Moded) && RequestOf(s, t).target.Named?
    case Cleanup(t, _) => InPhase(s, t, Failing)
    case Return(t) => InPhase(s, t, Renamed)
  }

  function Move(s: State, t: Thread, phase: Phase): State
    requires t in s.threads
  {
    s.(threads := s.threads[t := s.threads[t].(phase := phase)])
  }

  function Finish(s: State, t: Thread, ok: bool): State
    requires t in s.threads
  {
    s.(threads := s.threads - {t}, outcomes := s.outcomes[s.threads[t].ticket := ok])
  }

  /** `reserve_atomic_temp` takes the next sequence number; the counter wraps at 64 bits. A
      nameless target is refused before anything touches the disk. */
  function ApplyBegin(s: State, t: Thread, request: Request): State
    requires t.pid in s.seqs
  {
    var n := s.seqs[t.pid];
    var s1 := s.(seqs := s.seqs[t.pid := (n + 1) % TWO_64], begun := s.begun + [request]);
    match request.target
    case Nameless(_) => s1.(outcomes := s1.outcomes[|s.begun| := false])
    case Named(p) =>
      s1.(threads := s1.threads[t := Job(|s.begun|, TempPath(p, t.pid, t.tid, n), Reserved)])
  }

  /** The rename contract of paths.rs:129-147: it replaces the target at once, or fails and
      leaves it alone. */
  function ApplyRename(s: State, t: Thread, ok: bool): State
    requires InPhase(s, t, Moded) && RequestOf(s, t).target.Named?
  {
    var job := s.threads[t];
    if ok && job.temp in s.files then
      var flipped := (s.files - {job.temp})[RequestOf(s, t).target.path := s.files[job.temp]];
      Move(s.(files := flipped, commits := s.commits + [job.ticket]), t, Renamed)
    else
      Move(s, t, Failing)
  }

  function Apply(s: State, e: Event): State
    requires Enabled(s, e)
  {
    match e
    case Spawn(pid) => s.(seqs := s.seqs[pid := 0])
    case Crash(pid) =>
      s.(seqs := s.seqs - {pid}, threads := map t | t in s.threads && t.pid != pid :: s.threads[t])
    case Begin(t, request) => ApplyBegin(s, t, request)
    case Create(t, ok, mode) =>
      var temp := s.threads[t].temp;
      if ok then
        // creating over litter truncates it and keeps its mode
        var m := if temp in s.files then s.files[temp].mode else mode;
        Move(s.(files := s.files[temp := File([], m)]), t, Writing(0))
      else Move(s, t, Failing)
    case Write(t, ok, count) =>
      var temp, written := s.threads[t].temp, s.threads[t].phase.written;
      if ok && temp in s.files then
        var chunk := RequestOf(s, t).bytes[written..written + count];
        Move(s.(files := s.files[temp := s.files[temp].(bytes := s.files[temp].bytes + chunk)]), t,
             Writing(written + count))
      else Move(s, t, Failing)
    case Sync(t, ok) => Move(s, t, if ok then Synced else Failing)
    case CopyMode(t, ok) =>
      var temp, target := s.threads[t].temp, RequestOf(s, t).target.path;
      if !ok then Move(s, t, Failing)
      else if target in s.files && temp in s.files then
        Move(s.(files := s.files[temp := s.files[temp].(mode := s.files[target].mode)]), t, Moded)
      else Move(s, t, Moded)
    case Rename(t, ok) => ApplyRename(s, t, ok)
    case Cleanup(t, removed) =>
      Finish(if removed then s.(files := s.files - {s.threads[t].temp}) else s, t, false)
    case Return(t) => Finish(s, t, true)
  }

  // ---------- Runs ----------

  function Initial(files: map<Path, File>): State { State(files, map[], map[], [], [], map[]) }

  /** The state after a run; `None` when some event was not enabled where it happened. */
  function After(s: State, es: seq<Event>): Option<State> {
    if es == [] then Some(s)
    else
      var before := After(s, es[..|es| - 1]);
      if before.Some? && Enabled(before.value, es[|es| - 1]) then Some(Apply(before.value, es[|es| - 1])) else None
  }

  /** Every write of the run aims at one of `targets`, or names no file. */
  predicate AimsWithin(es: seq<Event>, targets: set<Path>) {
    forall e :: e in es && e.Begin? && e.request.target.Named? ==> e.request.target.path in targets
  }
}
