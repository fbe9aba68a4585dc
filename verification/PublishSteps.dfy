/** Every step of every publisher keeps the invariant. */
module PublishSteps {
  import opened Common
  import opened Publish
  import opened PublishSafety

  /** A step of a publisher inside its own staging directory. */
  lemma DirStep(c: Codec, s: State, s': State, id: nat)
    requires Inv(c, s) && id in s.pubs && Holding(s.pubs[id])
    requires s'.dests == s.dests && s'.begun == s.begun && SameStagings(s, s', s.pubs[id].staging)
    requires SamePubs(s, s', id) && SameReturned(s, s', id)
    requires id in s'.pubs ==>
               && s'.pubs[id].job == s.pubs[id].job && s'.pubs[id].staging == s.pubs[id].staging
               && PubOk(c, s', id)
    requires id in s'.returned ==> id in s.begun && Kept(c, s', id, s'.returned[id])
    ensures Inv(c, s')
  {
    hide PubOk, DestOk, WellFormed, Kept;
    var name := s.pubs[id].staging;
    FreeOfOwn(c, s, s', id);
    if id in s'.pubs {
      ApartAfter(s, s', id, name);
    }
    StepKeeps(c, s, s', id, name);
  }

  lemma ReturnedBegun(c: Codec, s: State, id: nat)
    requires Inv(c, s) && id in s.returned
    ensures id in s.begun && Kept(c, s, id, s.returned[id])
  {
    hide PubOk, DestOk, WellFormed, Kept;
  }

  lemma StartKeeps(c: Codec, s: State, id: nat, job: Job)
    requires Inv(c, s) && Enabled(s, Start(id, job)) && WellFormed(c, job)
    ensures Inv(c, Apply(c, s, Start(id, job)))
  {
    hide DestOk, WellFormed, Verified, Complete, Written;
    var s' := Apply(c, s, Start(id, job));
    if id in s.returned {
      ReturnedBegun(c, s, id);
    }
    StepKeeps(c, s, s', id, "");
  }

  lemma MakeKeeps(c: Codec, s: State, id: nat, name: string)
    requires Inv(c, s) && Enabled(s, Make(id, name, true)) && NameIsFree(s, Make(id, name, true))
    ensures Inv(c, Apply(c, s, Make(id, name, true)))
  {
    hide DestOk, WellFormed, Verified, Complete, Kept, Inv;
    var s' := Apply(c, s, Make(id, name, true));
    InvPub(c, s, id);
    var p := s'.pubs[id];
    assert p.job.outputs[..0] == [];
    forall q | q in s.pubs && q != id && Holding(s.pubs[q]) && s.pubs[q].job.gen !in s.dests
      ensures s.pubs[q].staging != name
    {
      InvPub(c, s, q);
    }
    forall q | q in s'.pubs
      ensures Apart(s', q, id) && Apart(s', id, q)
    {
    }
    InvApart(c, s);
    StepKeeps(c, s, s', id, name);
  }

  lemma PutKeeps(c: Codec, s: State, id: nat, ok: bool, partial: Option<Bytes>)
    requires Inv(c, s) && Enabled(s, Put(id, ok, partial))
    ensures Inv(c, Apply(c, s, Put(id, ok, partial)))
  {
    hide DestOk, WellFormed, Verified, Complete, Kept, Inv, Written;
    var s' := ApplyPut(s, id, ok, partial);
    InvPub(c, s, id);
    var p := s.pubs[id];
    if ok {
      WrittenNext(p.job.outputs, p.phase.done);
    } else {
      FalseIsKept(c, s', id);
    }
    DirStep(c, s, s', id);
  }

  lemma FalseIsKept(c: Codec, s: State, id: nat)
    ensures id in s.begun ==> Kept(c, s, id, false)
  {
  }

  lemma WrittenNext(outputs: seq<Output>, k: nat)
    requires k < |outputs|
    ensures Written(outputs[..k + 1]) == Written(outputs[..k])[outputs[k].name := outputs[k].bytes]
  {
    assert outputs[..k + 1][..k] == outputs[..k];
  }

  lemma PutManifestKeeps(c: Codec, s: State, id: nat, ok: bool, partial: Option<Bytes>)
    requires Inv(c, s) && Enabled(s, PutManifest(id, ok, partial))
    ensures Inv(c, Apply(c, s, PutManifest(id, ok, partial)))
  {
    hide DestOk, WellFormed, Verified, Kept, Inv, Written;
    var s' := ApplyPutManifest(c, s, id, ok, partial);
    InvPub(c, s, id);
    var p := s.pubs[id];
    assert p.job.outputs[..|p.job.outputs|] == p.job.outputs;
    FalseIsKept(c, s', id);
    DirStep(c, s, s', id);
  }

  lemma RenameKeeps(c: Codec, s: State, id: nat, ok: bool)
    requires RoundTrips(c) && Inv(c, s) && Enabled(s, Rename(id, ok))
    ensures Inv(c, Apply(c, s, Rename(id, ok)))
  {
    hide DestOk, WellFormed, Verified, Kept, Inv, Complete, RoundTrips;
    var s' := ApplyRename(s, id, ok);
    InvPub(c, s, id);
    var p := s.pubs[id];
    if p.job.gen in s.dests {
      DestNotEmpty(c, s, p.job.gen);
      DirStep(c, s, s', id);
    } else if !ok {
      DirStep(c, s, s', id);
    } else {
      FlipKeeps(c, s, s', id);
    }
  }

  lemma DestNotEmpty(c: Codec, s: State, g: string)
    requires Inv(c, s) && g in s.dests
    ensures s.dests[g] != map[]
  {
    hide PubOk, WellFormed, Kept;
    assert DestOk(c, s, g);
    assert forall job :: MANIFEST in Complete(c, job);
  }

  lemma FlipKeeps(c: Codec, s: State, s': State, id: nat)
    requires RoundTrips(c) && Inv(c, s) && Enabled(s, Rename(id, true)) && s' == ApplyRename(s, id, true)
    requires s.pubs[id].job.gen !in s.dests
    ensures Inv(c, s')
  {
    hide WellFormed, Verified, RoundTrips, Inv, PubOk, DestOk, Apart, Kept;
    var p := s.pubs[id];
    FlippedOk(c, s, s', id);
    InvApart(c, s);
    ApartAfter(s, s', id, p.staging);
    FreeOfOwn(c, s, s', id);
    NotReturned(c, s, s', id);
    StepKeeps(c, s, s', id, p.staging);
  }

  lemma FlippedOk(c: Codec, s: State, s': State, id: nat)
    requires RoundTrips(c) && Inv(c, s) && Enabled(s, Rename(id, true)) && s' == ApplyRename(s, id, true)
    requires s.pubs[id].job.gen !in s.dests
    ensures id in s'.pubs && PubOk(c, s', id)
    ensures s.pubs[id].job.gen in s'.dests && DestOk(c, s', s.pubs[id].job.gen)
    ensures Own(s, s', id, s.pubs[id].staging)
    ensures forall g :: g in s'.dests && g !in s.dests ==> g == s.pubs[id].job.gen
  {
    hide WellFormed, Verified, Complete, RoundTrips, Inv;
    InvPub(c, s, id);
    var p := s.pubs[id];
    assert Staged(c, s.stagings[p.staging], p);
    BegunIsWellFormed(c, s, id);
    CompleteVerifies(c, p.job);
    assert s'.dests[p.job.gen] == Complete(c, p.job) && s'.begun[id] == p.job;
  }

  lemma NotReturned(c: Codec, s: State, s': State, id: nat)
    requires Inv(c, s) && id in s.pubs && s'.returned == s.returned
    ensures id !in s'.returned
  {
    hide Kept, Apart, DestOk, WellFormed;
    assert PubOk(c, s, id);
  }

  lemma InvApart(c: Codec, s: State)
    requires Inv(c, s)
    ensures AllApart(s) && BegunOk(c, s)
  {
    hide PubOk, Apart, DestOk, WellFormed, Kept;
  }

  lemma BegunIsWellFormed(c: Codec, s: State, id: nat)
    requires Inv(c, s) && id in s.begun
    ensures WellFormed(c, s.begun[id])
  {
    hide PubOk, Apart, DestOk, WellFormed, Kept;
  }

  lemma SweepKeeps(c: Codec, s: State, id: nat, files: set<string>, gone: bool)
    requires Inv(c, s) && Enabled(s, Sweep(id, files, gone))
    ensures Inv(c, Apply(c, s, Sweep(id, files, gone)))
  {
    hide DestOk, WellFormed, Verified, Inv, Complete, Written;
    var s' := ApplySweep(s, id, files, gone);
    InvPub(c, s, id);
    DirStep(c, s, s', id);
  }

  /** Every step keeps the invariant, when new directories take free names. */
  lemma AnyStepKeeps(c: Codec, s: State, e: Event)
    requires RoundTrips(c) && Inv(c, s) && Enabled(s, e) && NameIsFree(s, e)
    requires e.Start? ==> WellFormed(c, e.job)
    ensures Inv(c, Apply(c, s, e))
  {
    match e
    case Start(id, job) => StartKeeps(c, s, id, job);
    case Make(id, name, ok) => if ok { MakeKeeps(c, s, id, name); } else { QuietKeeps(c, s, e, id); }
    case Put(id, ok, partial) => PutKeeps(c, s, id, ok, partial);
    case PutManifest(id, ok, partial) => PutManifestKeeps(c, s, id, ok, partial);
    case Rename(id, ok) => RenameKeeps(c, s, id, ok);
    case Sweep(id, files, gone) => SweepKeeps(c, s, id, files, gone);
    case Look(id) => QuietKeeps(c, s, e, id);
    case Reuse(id, _) => QuietKeeps(c, s, e, id);
    case Recheck(id, _) => QuietKeeps(c, s, e, id);
    case Leave(id) => QuietKeeps(c, s, e, id);
    case GiveUp(id) => QuietKeeps(c, s, e, id);
    case Crash(id) => QuietKeeps(c, s, e, id);
  }

  predicate IsQuiet(e: Event) {
    || e.Look? || e.Reuse? || e.Recheck? || e.Leave? || e.GiveUp? || e.Crash? || (e.Make? && !e.ok)
  }

  lemma QuietKeeps(c: Codec, s: State, e: Event, id: nat)
    requires Inv(c, s) && Enabled(s, e) && IsQuiet(e) && id == e.id
    ensures Inv(c, Apply(c, s, e))
  {
    hide DestOk, WellFormed, Verified, Inv, Complete, Written, Check, Staged;
    InvPub(c, s, id);
    var s' := Apply(c, s, e);
    if e.Reuse? || e.Recheck? {
      CheckKept(c, s, id, e.readable);
      KeptStays(c, s, s', id, Check(c, s, s.begun[id], e.readable));
    }
    QuietStep(c, s, s', id);
  }
}
