/** What publishing guarantees over every run. */
module PublishResults {
  import opened Common
  import opened Publish
  import opened PublishSafety
  import opened PublishSteps

  lemma OrderlyPrefix(c: Codec, es: seq<Event>, k: nat, n: nat)
    requires OrderlyFrom(c, es, k) && n <= |es|
    ensures OrderlyFrom(c, es[..n], k)
  {
    hide After, NameIsFree, WellFormed;
    forall i | k <= i < n && After(c, es[..n][..i]).Some?
      ensures NameIsFree(After(c, es[..n][..i]).value, es[..n][i])
          && (es[..n][i].Start? ==> WellFormed(c, es[..n][i].job))
    {
      assert es[..n][..i] == es[..i];
    }
  }

  /** The invariant outlasts whatever orderly events follow. */
  lemma {:induction false} RunKeepsFrom(c: Codec, es: seq<Event>, k: nat)
    requires RoundTrips(c) && OrderlyFrom(c, es, k) && After(c, es).Some? && k <= |es|
    requires After(c, es[..k]).Some? ==> Inv(c, After(c, es[..k]).value)
    ensures Inv(c, After(c, es).value)
    decreases |es|
  {
    hide Apply, Enabled, NameIsFree, WellFormed, RoundTrips, Inv;
    if |es| == k {
      assert es[..k] == es;
    } else {
      var n := |es| - 1;
      OrderlyPrefix(c, es, k, n);
      assert es[..n][..k] == es[..k];
      RunKeepsFrom(c, es[..n], k);
      AnyStepKeeps(c, After(c, es[..n]).value, es[n]);
    }
  }

  /** The invariant holds after every orderly run. */
  lemma RunKeeps(c: Codec, es: seq<Event>)
    requires RoundTrips(c) && Orderly(c, es) && After(c, es).Some?
    ensures Inv(c, After(c, es).value)
  {
    hide RoundTrips, OrderlyFrom, After, Inv;
    assert es[..0] == [];
    InitialInv(c);
    RunKeepsFrom(c, es, 0);
  }

  lemma InitialInv(c: Codec)
    ensures After(c, []) == Some(INITIAL) && Inv(c, INITIAL)
  {
  }

  // ---------- Generations are immutable ----------

  lemma StepKeepsDests(c: Codec, s: State, e: Event)
    requires Inv(c, s) && Enabled(s, e)
    ensures SameDests(s, Apply(c, s, e))
  {
    hide Inv, Verified, Complete;
    if e.Rename? {
      var g := s.pubs[e.id].job.gen;
      if g in s.dests {
        DestNotEmpty(c, s, g);
      }
    }
  }

  /** A generation goes from absent to present once: from then on it never changes. */
  lemma {:induction false} GenerationsAreImmutable(c: Codec, es: seq<Event>, i: nat)
    requires RoundTrips(c) && Orderly(c, es) && After(c, es).Some? && i <= |es|
    ensures After(c, es[..i]).Some? && SameDests(After(c, es[..i]).value, After(c, es).value)
    decreases |es|
  {
    hide Apply, Enabled, NameIsFree, WellFormed, RoundTrips, Inv, OrderlyFrom;
    if i == |es| {
      assert es[..i] == es;
    } else {
      var n := |es| - 1;
      OrderlyPrefix(c, es, 0, n);
      assert es[..n][..i] == es[..i];
      GenerationsAreImmutable(c, es[..n], i);
      RunKeeps(c, es[..n]);
      StepKeepsDests(c, After(c, es[..n]).value, es[n]);
    }
  }

  /** And it is never seen half written: it holds every file of one job begun for it, and nothing
      else. */
  lemma GenerationsAreComplete(c: Codec, es: seq<Event>, g: string) returns (id: nat)
    requires RoundTrips(c) && Orderly(c, es) && After(c, es).Some? && g in After(c, es).value.dests
    ensures
      var s := After(c, es).value;
      id in s.begun && s.begun[id].gen == g && s.dests[g] == Complete(c, s.begun[id])
  {
    hide *;
    RunKeeps(c, es);
    var s := After(c, es).value;
    InvDest(c, s, g);
    id := TheJob(c, s, g);
  }

  lemma InvDest(c: Codec, s: State, g: string)
    requires Inv(c, s) && g in s.dests
    ensures DestOk(c, s, g)
  {
    hide PubOk, DestOk, Apart, WellFormed, Kept;
  }

  lemma TheJob(c: Codec, s: State, g: string) returns (id: nat)
    requires g in s.dests && DestOk(c, s, g)
    ensures id in s.begun && s.begun[id].gen == g && s.dests[g] == Complete(c, s.begun[id])
  {
    hide Complete;
    id :| id in s.begun && s.begun[id].gen == g && s.dests[g] == Complete(c, s.begun[id]);
  }

  // ---------- Returning means it is there ----------

  /** A publisher that returned normally left its generation in place, verified against its own
      manifest, now and for ever after. */
  lemma NormalReturnsVerify(c: Codec, es: seq<Event>, i: nat, id: nat)
    requires RoundTrips(c) && Orderly(c, es) && After(c, es).Some? && i <= |es|
    requires
      var s := After(c, es[..i]);
      s.Some? && id in s.value.returned && s.value.returned[id]
    ensures
      var s, now := After(c, es[..i]).value, After(c, es).value;
      && id in s.begun
      && s.begun[id].gen in now.dests
      && Verified(c, now.dests[s.begun[id].gen], s.begun[id].manifest)
  {
    hide Apply, Enabled, NameIsFree, WellFormed, RoundTrips, Verified, OrderlyFrom, Inv, After;
    OrderlyPrefix(c, es, 0, i);
    RunKeeps(c, es[..i]);
    GenerationsAreImmutable(c, es, i);
    ReturnedBegun(c, After(c, es[..i]).value, id);
  }

  /** So when all jobs of a generation are the same, a normal return means exactly that job's files
      are there. */
  lemma NormalReturnsPublish(c: Codec, es: seq<Event>, id: nat)
    requires RoundTrips(c) && Orderly(c, es) && After(c, es).Some?
    requires id in After(c, es).value.returned && After(c, es).value.returned[id]
    requires
      var s := After(c, es).value;
      forall i, j :: i in s.begun && j in s.begun && s.begun[i].gen == s.begun[j].gen ==> s.begun[i] == s.begun[j]
    ensures
      var s := After(c, es).value;
      id in s.begun && s.begun[id].gen in s.dests && s.dests[s.begun[id].gen] == Complete(c, s.begun[id])
  {
    hide After, RoundTrips, Orderly, Complete, Verified;
    var s := After(c, es).value;
    assert es[..|es|] == es;
    NormalReturnsVerify(c, es, |es|, id);
    var other := GenerationsAreComplete(c, es, s.begun[id].gen);
    assert s.begun[other] == s.begun[id];
  }

  // ---------- One generation needs no luck with names ----------

  /** When every job is for the same generation, any names will do. */
  lemma OneGenerationIsOrderly(c: Codec, es: seq<Event>, g: string)
    requires forall e :: e in es && e.Start? ==> e.job.gen == g && WellFormed(c, e.job)
    ensures Orderly(c, es)
  {
    hide Apply, Enabled, WellFormed, After;
    forall i | 0 <= i < |es| && After(c, es[..i]).Some?
      ensures NameIsFree(After(c, es[..i]).value, es[i]) && (es[i].Start? ==> WellFormed(c, es[i].job))
    {
      assert es[i] in es;
      assert forall e :: e in es[..i] ==> e in es;
      OnlyGeneration(c, es[..i], g);
    }
  }

  lemma {:induction false} OnlyGeneration(c: Codec, es: seq<Event>, g: string)
    requires After(c, es).Some? && forall e :: e in es && e.Start? ==> e.job.gen == g
    ensures forall q :: q in After(c, es).value.pubs ==> After(c, es).value.pubs[q].job.gen == g
  {
    hide Apply, Enabled;
    if es != [] {
      var n := |es| - 1;
      assert es[n] in es && forall e :: e in es[..n] ==> e in es;
      OnlyGeneration(c, es[..n], g);
      StepKeepsJobs(c, After(c, es[..n]).value, es[n]);
    }
  }

  /** Every publisher of `s'` was there before, with the same job. */
  ghost predicate SameJobs(s: State, s': State) {
    forall q :: q in s'.pubs ==> q in s.pubs && s'.pubs[q].job == s.pubs[q].job
  }

  lemma PutJobs(s: State, id: nat, ok: bool, partial: Option<Bytes>)
    requires Enabled(s, Put(id, ok, partial))
    ensures SameJobs(s, ApplyPut(s, id, ok, partial))
  {
  }

  lemma PutManifestJobs(c: Codec, s: State, id: nat, ok: bool, partial: Option<Bytes>)
    requires Enabled(s, PutManifest(id, ok, partial))
    ensures SameJobs(s, ApplyPutManifest(c, s, id, ok, partial))
  {
  }

  lemma SweepJobs(s: State, id: nat, files: set<string>, gone: bool)
    requires Enabled(s, Sweep(id, files, gone))
    ensures SameJobs(s, ApplySweep(s, id, files, gone))
  {
  }

  lemma StepKeepsJobs(c: Codec, s: State, e: Event)
    requires Enabled(s, e)
    ensures
      var s' := Apply(c, s, e);
      forall q :: q in s'.pubs ==>
        (q in s.pubs && s'.pubs[q].job == s.pubs[q].job) || (e.Start? && s'.pubs[q].job == e.job)
  {
    hide Verified, Check, ApplyPut, ApplyPutManifest, ApplySweep;
    match e
    case Put(id, ok, partial) => PutJobs(s, id, ok, partial);
    case PutManifest(id, ok, partial) => PutManifestJobs(c, s, id, ok, partial);
    case Sweep(id, files, gone) => SweepJobs(s, id, files, gone);
    case _ =>
  }
}
