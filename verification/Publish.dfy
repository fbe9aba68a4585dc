/** `_bmad/scripts/render_skill.py`: publishing a generation by renaming a staging directory, by
    any number of publishers whose steps interleave, fail, or never happen. */
module Publish {
  import opened Common

  type Bytes = seq<bv8>

  /** The files under a directory, by relative path. */
  type Tree = map<string, Bytes>

  datatype Output = Output(name: string, bytes: Bytes)

  /** `hashes` is the manifest's `outputs` table, `identity` all its other fields. */
  datatype Manifest = Manifest(hashes: map<string, string>, identity: string)

  /** JSON and SHA-256, as far as publishing uses them. */
  datatype Codec = Codec(dump: Manifest -> Bytes, parse: Bytes -> Option<Manifest>, hash: Bytes -> string)

  datatype Job = Job(gen: string, outputs: seq<Output>, manifest: Manifest)

  const MANIFEST := "manifest.json"

  // ---------- Trees ----------

  /** The files after writing the outputs in order. */
  function Written(outputs: seq<Output>): Tree {
    if outputs == [] then map[]
    else
      var n := |outputs| - 1;
      Written(outputs[..n])[outputs[n].name := outputs[n].bytes]
  }

  function Complete(c: Codec, job: Job): Tree { Written(job.outputs)[MANIFEST := c.dump(job.manifest)] }

  /** `_verify_existing`: the manifest, exactly its files, and every hash. */
  predicate Verified(c: Codec, tree: Tree, m: Manifest) {
    && MANIFEST in tree && c.parse(tree[MANIFEST]) == Some(m)
    && tree.Keys == m.hashes.Keys + {MANIFEST}
    && forall name :: name in m.hashes ==> name in tree && c.hash(tree[name]) == m.hashes[name]
  }

  /** The loop of checks that `_verify_existing` is. */
  method VerifyExisting(c: Codec, tree: Tree, m: Manifest) returns (ok: bool)
    ensures ok == Verified(c, tree, m)
  {
    if MANIFEST !in tree || c.parse(tree[MANIFEST]) != Some(m) {
      return false;
    }
    if tree.Keys != m.hashes.Keys + {MANIFEST} {
      return false;
    }
    var rest := m.hashes.Keys;
    while rest != {}
      invariant rest <= m.hashes.Keys
      invariant forall name :: name in m.hashes.Keys - rest ==> name in tree && c.hash(tree[name]) == m.hashes[name]
      decreases |rest|
    {
      var name :| name in rest;
      assert name in tree.Keys;
      if c.hash(tree[name]) != m.hashes[name] {
        return false;
      }
      rest := rest - {name};
    }
    ok := true;
  }

  // ---------- States ----------

  /** Where one publisher stands. From `Writing` on it holds a staging directory; `Leaving` and
      `Sweeping` are its `finally` block, with the result it will report. */
  datatype Phase =
    | Looking
    | Reusing
    | Making
    | Writing(done: nat)
    | Renaming
    | Blocked
    | Leaving(ok: bool)
    | Sweeping(ok: bool)

  datatype Publisher = Publisher(job: Job, phase: Phase, staging: string)

  /** `dests` holds the generations, `stagings` the staging directories beside them. `begun` and
      `returned` are history: every job started, and what each finished one reported. */
  datatype State = State(
    dests: map<string, Tree>,
    stagings: map<string, Tree>,
    pubs: map<nat, Publisher>,
    begun: map<nat, Job>,
    returned: map<nat, bool>)

  datatype Event =
    | Start(id: nat, job: Job)
    | Look(id: nat)
    | Reuse(id: nat, readable: bool)
    | Make(id: nat, name: string, ok: bool)
    | Put(id: nat, ok: bool, partial: Option<Bytes>)
    | PutManifest(id: nat, ok: bool, partial: Option<Bytes>)
    | Rename(id: nat, ok: bool)
    | Recheck(id: nat, readable: bool)
    | Leave(id: nat)
    | Sweep(id: nat, files: set<string>, gone: bool)
    | GiveUp(id: nat)
    | Crash(id: nat)

  function Holding(p: Publisher): bool { !p.phase.Looking? && !p.phase.Reusing? && !p.phase.Making? }

  predicate At(s: State, id: nat, phase: Phase) { id in s.pubs && s.pubs[id].phase == phase }

  predicate Enabled(s: State, e: Event) {
    match e
    case Start(id, _) => id !in s.begun && id !in s.pubs
    case Look(id) => At(s, id, Looking)
    case Reuse(id, _) => At(s, id, Reusing)
    // mkdtemp never takes a name that exists
    case Make(id, name, ok) => At(s, id, Making) && (ok ==> name !in s.stagings)
    case Put(id, _, _) =>
      id in s.pubs && s.pubs[id].phase.Writing? && s.pubs[id].phase.done < |s.pubs[id].job.outputs|
    case PutManifest(id, _, _) =>
      id in s.pubs && s.pubs[id].phase.Writing? && s.pubs[id].phase.done == |s.pubs[id].job.outputs|
    case Rename(id, _) => At(s, id, Renaming)
    case Recheck(id, _) => At(s, id, Blocked)
    case Leave(id) => id in s.pubs && s.pubs[id].phase.Leaving?
    case Sweep(id, _, _) => id in s.pubs && s.pubs[id].phase.Sweeping?
    case GiveUp(id) => id in s.pubs && s.pubs[id].phase.Sweeping?
    case Crash(id) => id in s.pubs
  }

  // ---------- Steps ----------

  function Move(s: State, id: nat, phase: Phase): State
    requires id in s.pubs
  {
    s.(pubs := s.pubs[id := s.pubs[id].(phase := phase)])
  }

  function Finish(s: State, id: nat, ok: bool): State {
    s.(pubs := s.pubs - {id}, returned := s.returned[id := ok])
  }

  /** Writing a file makes its parents, so it brings a removed staging directory back. */
  function PutFile(s: State, staging: string, name: string, bytes: Bytes): State {
    s.(stagings := s.stagings[staging := (if staging in s.stagings then s.stagings[staging] else map[])[name := bytes]])
  }

  function ApplyPut(s: State, id: nat, ok: bool, partial: Option<Bytes>): State
    requires Enabled(s, Put(id, ok, partial))
  {
    var p := s.pubs[id];
    var output := p.job.outputs[p.phase.done];
    if ok then Move(PutFile(s, p.staging, output.name, output.bytes), id, Writing(p.phase.done + 1))
    else
      match partial
      case None => Move(s, id, Leaving(false))
      case Some(bytes) => Move(PutFile(s, p.staging, output.name, bytes), id, Leaving(false))
  }

  function ApplyPutManifest(c: Codec, s: State, id: nat, ok: bool, partial: Option<Bytes>): State
    requires Enabled(s, PutManifest(id, ok, partial))
  {
    var p := s.pubs[id];
    if p.staging !in s.stagings then Move(s, id, Leaving(false))
    else if ok then Move(PutFile(s, p.staging, MANIFEST, c.dump(p.job.manifest)), id, Renaming)
    else
      match partial
      case None => Move(s, id, Leaving(false))
      case Some(bytes) => Move(PutFile(s, p.staging, MANIFEST, bytes), id, Leaving(false))
  }

  /** Renaming a directory replaces an absent or empty one and nothing else. */
  function ApplyRename(s: State, id: nat, ok: bool): State
    requires Enabled(s, Rename(id, ok))
  {
    var p := s.pubs[id];
    if ok && p.staging in s.stagings && (p.job.gen in s.dests ==> s.dests[p.job.gen] == map[]) then
      Move(s.(dests := s.dests[p.job.gen := s.stagings[p.staging]], stagings := s.stagings - {p.staging}),
           id, Leaving(true))
    else Move(s, id, Blocked)
  }

  /** Removing the staging directory file by file; errors are ignored. */
  function ApplySweep(s: State, id: nat, files: set<string>, gone: bool): State
    requires Enabled(s, Sweep(id, files, gone))
  {
    var p := s.pubs[id];
    if p.staging !in s.stagings then Finish(s, id, p.phase.ok)
    else
      var tree := s.stagings[p.staging] - files;
      if gone && tree == map[] then Finish(s.(stagings := s.stagings - {p.staging}), id, p.phase.ok)
      else s.(stagings := s.stagings[p.staging := tree])
  }

  function Check(c: Codec, s: State, job: Job, readable: bool): bool {
    readable && job.gen in s.dests && Verified(c, s.dests[job.gen], job.manifest)
  }

  function Apply(c: Codec, s: State, e: Event): State
    requires Enabled(s, e)
  {
    match e
    case Start(id, job) => s.(pubs := s.pubs[id := Publisher(job, Looking, "")], begun := s.begun[id := job])
    case Look(id) => Move(s, id, if s.pubs[id].job.gen in s.dests then Reusing else Making)
    case Reuse(id, readable) => Finish(s, id, Check(c, s, s.pubs[id].job, readable))
    case Make(id, name, ok) =>
      if ok then
        s.(stagings := s.stagings[name := map[]],
           pubs := s.pubs[id := s.pubs[id].(phase := Writing(0), staging := name)])
      else Finish(s, id, false)
    case Put(id, ok, partial) => ApplyPut(s, id, ok, partial)
    case PutManifest(id, ok, partial) => ApplyPutManifest(c, s, id, ok, partial)
    case Rename(id, ok) => ApplyRename(s, id, ok)
    case Recheck(id, readable) => Move(s, id, Leaving(Check(c, s, s.pubs[id].job, readable)))
    case Leave(id) =>
      var p := s.pubs[id];
      if p.staging in s.stagings then Move(s, id, Sweeping(p.phase.ok)) else Finish(s, id, p.phase.ok)
    case Sweep(id, files, gone) => ApplySweep(s, id, files, gone)
    case GiveUp(id) => Finish(s, id, s.pubs[id].phase.ok)
    case Crash(id) => s.(pubs := s.pubs - {id})
  }

  // ---------- Runs ----------

  const INITIAL := State(map[], map[], map[], map[], map[])

  /** The state after a run; `None` when some event was not enabled where it happened. */
  function After(c: Codec, es: seq<Event>): Option<State> {
    if es == [] then Some(INITIAL)
    else
      var before := After(c, es[..|es| - 1]);
      if before.Some? && Enabled(before.value, es[|es| - 1]) then Some(Apply(c, before.value, es[|es| - 1])) else None
  }

  // ---------- What `render` hands over ----------

  ghost predicate RoundTrips(c: Codec) { forall m :: c.parse(c.dump(m)) == Some(m) }

  /** Markdown outputs, each named once, and a manifest that hashes exactly them. */
  ghost predicate WellFormed(c: Codec, job: Job) {
    && (forall i, j :: 0 <= i < j < |job.outputs| ==> job.outputs[i].name != job.outputs[j].name)
    && (forall i :: 0 <= i < |job.outputs| ==> job.outputs[i].name != MANIFEST)
    && job.manifest.hashes.Keys == Written(job.outputs).Keys
    && (forall i :: 0 <= i < |job.outputs| ==>
          job.outputs[i].name in job.manifest.hashes
              && job.manifest.hashes[job.outputs[i].name] == c.hash(job.outputs[i].bytes))
  }

  /** A new staging directory does not take the name of one that a live publisher of another
      generation still counts as its own, unless the maker's generation is there already. */
  ghost predicate NameIsFree(s: State, e: Event) {
    e.Make? && e.id in s.pubs && s.pubs[e.id].job.gen !in s.dests ==>
      forall q :: q in s.pubs && Holding(s.pubs[q]) && s.pubs[q].staging == e.name ==>
        s.pubs[q].job.gen == s.pubs[e.id].job.gen
  }

  /** From event `k` on, new directories take free names and jobs are well formed. */
  ghost predicate OrderlyFrom(c: Codec, es: seq<Event>, k: nat) {
    forall i :: k <= i < |es| && After(c, es[..i]).Some? ==>
      NameIsFree(After(c, es[..i]).value, es[i]) && (es[i].Start? ==> WellFormed(c, es[i].job))
  }

  ghost predicate Orderly(c: Codec, es: seq<Event>) { OrderlyFrom(c, es, 0) }
}
