/** The invariant of publishing, kept by every step. */
module PublishSafety {
  import opened Common
  import opened Publish

  // ---------- The invariant ----------

  /** What a publisher's own staging directory holds, while its generation is not there yet. */
  ghost predicate Staged(c: Codec, tree: Tree, p: Publisher) {
    match p.phase
    case Writing(done) => done <= |p.job.outputs| && tree == Written(p.job.outputs[..done])
    case Renaming => tree == Complete(c, p.job)
    case _ => true
  }

  ghost predicate Kept(c: Codec, s: State, id: nat, ok: bool)
    requires id in s.begun
  {
    ok ==> s.begun[id].gen in s.dests && Verified(c, s.dests[s.begun[id].gen], s.begun[id].manifest)
  }

  ghost predicate PubOk(c: Codec, s: State, id: nat)
    requires id in s.pubs
  {
    var p := s.pubs[id];
    && id in s.begun && s.begun[id] == p.job && id !in s.returned
    && (p.phase.Writing? ==> p.phase.done <= |p.job.outputs|)
    && (p.phase.Leaving? || p.phase.Sweeping? ==> Kept(c, s, id, p.phase.ok))
    && (Holding(p) && p.job.gen !in s.dests ==> p.staging in s.stagings && Staged(c, s.stagings[p.staging], p))
  }

  /** Only a publisher whose generation is already there can share its directory's name. */
  ghost predicate Apart(s: State, i: nat, j: nat)
    requires i in s.pubs && j in s.pubs
  {
    i != j && Holding(s.pubs[i]) && Holding(s.pubs[j]) && s.pubs[i].job.gen !in s.dests ==>
      s.pubs[i].staging != s.pubs[j].staging
  }

  ghost predicate DestOk(c: Codec, s: State, g: string)
    requires g in s.dests
  {
    exists id :: id in s.begun && s.begun[id].gen == g && s.dests[g] == Complete(c, s.begun[id])
  }

  ghost predicate PubsOk(c: Codec, s: State) { forall id :: id in s.pubs ==> PubOk(c, s, id) }

  ghost predicate AllApart(s: State) { forall i, j :: i in s.pubs && j in s.pubs ==> Apart(s, i, j) }

  ghost predicate DestsOk(c: Codec, s: State) { forall g :: g in s.dests ==> DestOk(c, s, g) }

  ghost predicate ReturnedOk(c: Codec, s: State) {
    forall id :: id in s.returned ==> id in s.begun && Kept(c, s, id, s.returned[id])
  }

  ghost predicate BegunOk(c: Codec, s: State) { forall id :: id in s.begun ==> WellFormed(c, s.begun[id]) }

  ghost predicate Inv(c: Codec, s: State) {
    PubsOk(c, s) && AllApart(s) && DestsOk(c, s) && ReturnedOk(c, s) && BegunOk(c, s)
  }

  // ---------- A complete tree verifies ----------

  lemma {:induction false} WrittenHas(outputs: seq<Output>, k: nat)
    requires k < |outputs|
    requires forall i, j :: 0 <= i < j < |outputs| ==> outputs[i].name != outputs[j].name
    ensures outputs[k].name in Written(outputs) && Written(outputs)[outputs[k].name] == outputs[k].bytes
  {
    var n := |outputs| - 1;
    if k < n {
      WrittenHas(outputs[..n], k);
    }
  }

  lemma {:induction false} WrittenOnly(outputs: seq<Output>, name: string) returns (k: nat)
    requires name in Written(outputs)
    ensures k < |outputs| && outputs[k].name == name
  {
    var n := |outputs| - 1;
    if outputs[n].name == name {
      k := n;
    } else {
      k := WrittenOnly(outputs[..n], name);
    }
  }

  lemma CompleteVerifies(c: Codec, job: Job)
    requires RoundTrips(c) && WellFormed(c, job)
    ensures Verified(c, Complete(c, job), job.manifest)
  {
    var tree := Complete(c, job);
    assert c.parse(c.dump(job.manifest)) == Some(job.manifest);
    forall name | name in job.manifest.hashes
      ensures name in tree && c.hash(tree[name]) == job.manifest.hashes[name]
    {
      assert name in Written(job.outputs).Keys;
      var k := WrittenOnly(job.outputs, name);
      WrittenHas(job.outputs, k);
    }
  }

  // ---------- Steps of one publisher ----------

  ghost predicate SameDests(s: State, s': State) {
    forall g :: g in s.dests ==> g in s'.dests && s'.dests[g] == s.dests[g]
  }

  ghost predicate SamePubs(s: State, s': State, id: nat) {
    forall q :: q != id ==> (q in s.pubs <==> q in s'.pubs) && (q in s.pubs ==> s'.pubs[q] == s.pubs[q])
  }

  ghost predicate SameStagings(s: State, s': State, name: string) {
    forall n :: n != name ==>
      (n in s.stagings <==> n in s'.stagings) && (n in s.stagings ==> s'.stagings[n] == s.stagings[n])
  }

  ghost predicate SameBegun(s: State, s': State) {
    forall q :: q in s.begun ==> q in s'.begun && s'.begun[q] == s.begun[q]
  }

  ghost predicate SameReturned(s: State, s': State, id: nat) {
    forall q :: q != id ==>
      (q in s.returned <==> q in s'.returned) && (q in s.returned ==> s'.returned[q] == s.returned[q])
  }

  /** The step touches no publisher but `id`, no staging directory but `name`, and no generation
      that is already there. */
  ghost predicate Own(s: State, s': State, id: nat, name: string) {
    SamePubs(s, s', id) && SameStagings(s, s', name) && SameDests(s, s') && SameBegun(s, s') && SameReturned(s, s', id)
  }

  /** A publisher needs its directory until its generation is there. */
  predicate Relies(s: State, q: nat) { q in s.pubs && Holding(s.pubs[q]) && s.pubs[q].job.gen !in s.dests }

  /** Nobody else relies on the staging directory `name`. */
  ghost predicate Free(s: State, s': State, id: nat, name: string) {
    s.stagings == s'.stagings || forall q :: Relies(s, q) && q != id ==> s.pubs[q].staging != name
  }

  lemma KeptStays(c: Codec, s: State, s': State, id: nat, ok: bool)
    requires id in s.begun && id in s'.begun && s'.begun[id] == s.begun[id] && SameDests(s, s') && Kept(c, s, id, ok)
    ensures Kept(c, s', id, ok)
  {
    hide Verified;
  }

  lemma InvPub(c: Codec, s: State, q: nat)
    requires Inv(c, s)
    ensures q in s.pubs ==> PubOk(c, s, q)
  {
    hide PubOk;
  }

  lemma OthersOk(c: Codec, s: State, s': State, id: nat, name: string, q: nat)
    requires Inv(c, s) && Own(s, s', id, name) && Free(s, s', id, name) && q in s'.pubs && q != id
    ensures PubOk(c, s', q)
  {
    hide Verified, Staged, Complete, Written, Inv, AllApart, DestsOk, ReturnedOk, BegunOk;
    assert PubOk(c, s, q) by { InvPub(c, s, q); }
    var p := s.pubs[q];
    assert s'.pubs[q] == p && s'.begun[q] == s.begun[q] && q !in s'.returned;
    if p.phase.Leaving? || p.phase.Sweeping? {
      KeptStays(c, s, s', q, p.phase.ok);
    }
    if Holding(p) && p.job.gen !in s'.dests {
      assert p.job.gen !in s.dests;
      assert p.staging in s'.stagings && s'.stagings[p.staging] == s.stagings[p.staging];
    }
  }

  lemma DestsStay(c: Codec, s: State, s': State, g: string)
    requires DestsOk(c, s) && g in s.dests && SameDests(s, s')
    requires SameBegun(s, s')
    ensures g in s'.dests && DestOk(c, s', g)
  {
    hide Complete;
    assert DestOk(c, s, g);
    var id :| id in s.begun && s.begun[id].gen == g && s.dests[g] == Complete(c, s.begun[id]);
    assert id in s'.begun && s'.begun[id] == s.begun[id];
  }

  /** What a step still has to show for itself. */
  ghost predicate OwnOk(c: Codec, s: State, s': State, id: nat) {
    && (id in s'.pubs ==> PubOk(c, s', id))
    && (forall q :: q in s'.pubs && id in s'.pubs ==> Apart(s', q, id) && Apart(s', id, q))
    && (forall g :: g in s'.dests && g !in s.dests ==> DestOk(c, s', g))
    && (id in s'.returned ==> id in s'.begun && Kept(c, s', id, s'.returned[id]))
    && BegunOk(c, s')
  }

  lemma StepKeeps(c: Codec, s: State, s': State, id: nat, name: string)
    requires Inv(c, s) && Own(s, s', id, name) && Free(s, s', id, name) && OwnOk(c, s, s', id)
    ensures Inv(c, s')
  {
    hide PubOk, DestOk, Kept, WellFormed;
    forall q | q in s'.pubs
      ensures PubOk(c, s', q)
    {
      if q != id {
        OthersOk(c, s, s', id, name, q);
      }
    }
    forall i, j | i in s'.pubs && j in s'.pubs
      ensures Apart(s', i, j)
    {
      if i != id && j != id {
        assert Apart(s, i, j);
      }
    }
    forall g | g in s'.dests
      ensures DestOk(c, s', g)
    {
      if g in s.dests {
        DestsStay(c, s, s', g);
      }
    }
    forall q | q in s'.returned
      ensures q in s'.begun && Kept(c, s', q, s'.returned[q])
    {
      if q != id {
        KeptStays(c, s, s', q, s.returned[q]);
      }
    }
  }

  // ---------- Each kind of step ----------

  lemma FreeOfOwn(c: Codec, s: State, s': State, id: nat)
    requires Inv(c, s) && id in s.pubs && Holding(s.pubs[id])
    ensures Free(s, s', id, s.pubs[id].staging)
  {
    hide PubOk;
    forall q | q in s.pubs && q != id && Holding(s.pubs[q]) && s.pubs[q].job.gen !in s.dests
      ensures s.pubs[q].staging != s.pubs[id].staging
    {
      assert Apart(s, q, id);
    }
  }

  /** Moving on, with the same directory in hand or none. */
  lemma ApartAfter(s: State, s': State, id: nat, name: string)
    requires AllApart(s) && Own(s, s', id, name) && id in s.pubs && id in s'.pubs
    requires s'.pubs[id].job == s.pubs[id].job && s'.pubs[id].staging == s.pubs[id].staging
    requires Holding(s'.pubs[id]) ==> Holding(s.pubs[id])
    ensures forall q :: q in s'.pubs ==> Apart(s', q, id) && Apart(s', id, q)
  {
    forall q | q in s'.pubs
      ensures Apart(s', q, id) && Apart(s', id, q)
    {
      if q != id {
        assert Apart(s, q, id) && Apart(s, id, q);
      }
    }
  }

  lemma CheckKept(c: Codec, s: State, id: nat, readable: bool)
    requires id in s.begun
    ensures Kept(c, s, id, Check(c, s, s.begun[id], readable))
  {
  }

  /** `Start`, `Look`, `Recheck`, `Leave` without a directory, `GiveUp`, `Crash`: no file moves. */
  lemma QuietStep(c: Codec, s: State, s': State, id: nat)
    requires Inv(c, s) && id in s.pubs
    requires s'.dests == s.dests && s'.stagings == s.stagings && s'.begun == s.begun
    requires s'.pubs == s.pubs - {id} || (id in s'.pubs && s'.pubs == s.pubs[id := s'.pubs[id]]
                                          && s'.pubs[id].job == s.pubs[id].job
                                               && s'.pubs[id].staging == s.pubs[id].staging
                                          && (Holding(s'.pubs[id]) <==> Holding(s.pubs[id]))
                                          && !s'.pubs[id].phase.Writing? && !s'.pubs[id].phase.Renaming?)
    requires s'.returned == s.returned
        || (id !in s'.pubs && id in s'.returned && s'.returned == s.returned[id := s'.returned[id]])
    requires id in s.begun && (id in s'.returned ==> Kept(c, s', id, s'.returned[id]))
    requires id in s'.pubs && (s'.pubs[id].phase.Leaving? || s'.pubs[id].phase.Sweeping?) ==>
        Kept(c, s', id, s'.pubs[id].phase.ok)
    ensures Inv(c, s')
  {
    hide DestOk, WellFormed, Verified, Complete, Written;
    var name := s.pubs[id].staging;
    assert PubOk(c, s, id);
    assert Own(s, s', id, name);
    if id in s'.pubs {
      ApartAfter(s, s', id, name);
    }
    StepKeeps(c, s, s', id, name);
  }
}
