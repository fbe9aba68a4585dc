/** What a verified generation holds, and that publishers left alone succeed. */
module PublishVerified {
  import opened Common
  import opened Publish
  import opened PublishSafety
  import opened PublishSteps
  import opened PublishResults
  import opened PublishTorn

  // ---------- What verification accepts ----------

  /** The files of `tree` are those of the job, each with the right contents or with others of the
      same hash. */
  ghost predicate SameHashes(c: Codec, tree: Tree, job: Job) {
    && tree.Keys == (set o | o in job.outputs :: o.name) + {"manifest.json"}
    && forall o :: o in job.outputs ==> o.name in tree && c.hash(tree[o.name]) == c.hash(o.bytes)
  }

  lemma WrittenNames(outputs: seq<Output>)
    ensures Written(outputs).Keys == set o | o in outputs :: o.name
  {
    if outputs != [] {
      var n := |outputs| - 1;
      WrittenNames(outputs[..n]);
      assert outputs == outputs[..n] + [outputs[n]];
    }
  }

  /** Verification accepts a tree exactly when its manifest is the job's and its other files are the
      job's outputs up to their hashes: an edited, missing or additional file is refused. */
  lemma VerifiedExactly(c: Codec, tree: Tree, job: Job)
    requires WellFormed(c, job)
    ensures Verified(c, tree, job.manifest)
       <==> && "manifest.json" in tree && c.parse(tree["manifest.json"]) == Some(job.manifest)
            && SameHashes(c, tree, job)
  {
    WrittenNames(job.outputs);
    var hashes := job.manifest.hashes;
    forall o | o in job.outputs
      ensures o.name in hashes && hashes[o.name] == c.hash(o.bytes)
    {
    }
    forall name | name in hashes
      ensures exists o :: o in job.outputs && o.name == name
    {
      assert name in Written(job.outputs).Keys;
    }
  }

  ghost predicate Injective(c: Codec) { forall x, y :: c.hash(x) == c.hash(y) ==> x == y }

  /** Two contents with one hash. */
  ghost predicate Collides(c: Codec, x: Bytes, y: Bytes) { x != y && c.hash(x) == c.hash(y) }

  /** So a verified tree holds exactly the job's outputs beside its manifest, or one of its files and
      the output of that name are a hash collision. */
  lemma VerifiedHoldsOutputs(c: Codec, tree: Tree, job: Job)
    requires WellFormed(c, job) && Verified(c, tree, job.manifest)
    ensures tree - {MANIFEST} == Written(job.outputs)
         || exists o :: o in job.outputs && o.name in tree && Collides(c, tree[o.name], o.bytes)
    ensures Injective(c) ==> tree - {MANIFEST} == Written(job.outputs)
  {
    VerifiedExactly(c, tree, job);
    WrittenNames(job.outputs);
    hide Verified, Written;
    if forall o :: o in job.outputs ==> tree[o.name] == o.bytes {
      var rest := tree - {MANIFEST};
      NotTheManifest(c, job);
      assert rest.Keys == Written(job.outputs).Keys;
      forall name | name in rest
        ensures rest[name] == Written(job.outputs)[name]
      {
        var o :| o in job.outputs && o.name == name;
        OutputWritten(c, job, o);
      }
    } else {
      var o :| o in job.outputs && tree[o.name] != o.bytes;
      assert Collides(c, tree[o.name], o.bytes);
    }
  }

  lemma NotTheManifest(c: Codec, job: Job)
    requires WellFormed(c, job)
    ensures forall o :: o in job.outputs ==> o.name != MANIFEST
  {
  }

  lemma OutputWritten(c: Codec, job: Job, o: Output)
    requires WellFormed(c, job) && o in job.outputs
    ensures o.name in Written(job.outputs) && Written(job.outputs)[o.name] == o.bytes
  {
    var k :| 0 <= k < |job.outputs| && job.outputs[k] == o;
    WrittenHas(job.outputs, k);
  }

  /** A normal return therefore means that exactly this job's outputs are there, now and for ever
      after, whatever else was published, unless the hash collides. */
  lemma NormalReturnsHoldOutputs(c: Codec, es: seq<Event>, i: nat, id: nat)
    requires RoundTrips(c) && Orderly(c, es) && After(c, es).Some? && i <= |es|
    requires
      var s := After(c, es[..i]);
      s.Some? && id in s.value.returned && s.value.returned[id]
    ensures
      var s, now := After(c, es[..i]).value, After(c, es).value;
      && id in s.begun && s.begun[id].gen in now.dests
      && var job, tree := s.begun[id], now.dests[s.begun[id].gen];
         || tree - {MANIFEST} == Written(job.outputs)
         || exists o :: o in job.outputs && o.name in tree && Collides(c, tree[o.name], o.bytes)
  {
    hide After, RoundTrips, OrderlyFrom, Verified, WellFormed, Inv, Written, Collides;
    NormalReturnsVerify(c, es, i, id);
    OrderlyPrefix(c, es, 0, i);
    RunKeeps(c, es[..i]);
    var s, now := After(c, es[..i]).value, After(c, es).value;
    BegunIsWellFormed(c, s, id);
    VerifiedHoldsOutputs(c, now.dests[s.begun[id].gen], s.begun[id]);
  }

  // ---------- Publishers left alone ----------

  /** A publisher whose generation is not there, left alone without faults, publishes it complete,
      reports success and leaves nothing else behind. */
  lemma AlonePublishes(c: Codec, es: seq<Event>, id: nat, name: string) returns (more: seq<Event>)
    requires After(c, es).Some?
    requires
      var s := After(c, es).value;
      At(s, id, Looking) && s.pubs[id].job.gen !in s.dests && name !in s.stagings
    ensures es <= more && After(c, more).Some?
    ensures
      var s, t := After(c, es).value, After(c, more).value;
      && t.dests == s.dests[s.pubs[id].job.gen := Complete(c, s.pubs[id].job)]
      && t.stagings == s.stagings && t.pubs == s.pubs - {id} && t.begun == s.begun
      && t.returned == s.returned[id := true]
  {
    hide After, Written;
    var s := After(c, es).value;
    var job := s.pubs[id].job;
    var e1, e2 := Look(id), Make(id, name, true);
    Snoc(c, es, e1);
    Snoc(c, es + [e1], e2);
    var made := es + [e1] + [e2];
    NothingWritten(job.outputs);
    var put := PutAll(c, made, id, 0);
    Finishes(c, put, id);
    var e3, e4, e5 := PutManifest(id, true, None), Rename(id, true), Leave(id);
    more := put + [e3] + [e4] + [e5];
    assert s.stagings == s.stagings[name := map[]] - {name};
  }

  lemma NothingWritten(outputs: seq<Output>)
    ensures outputs[..0] == [] && Written(outputs[..0]) == map[]
  {
  }

  lemma Finishes(c: Codec, es: seq<Event>, id: nat)
    requires After(c, es).Some? && id in After(c, es).value.pubs
    requires
      var s := After(c, es).value;
      var p := s.pubs[id];
      && p.phase == Writing(|p.job.outputs|) && p.job.gen !in s.dests
      && p.staging in s.stagings && s.stagings[p.staging] == Written(p.job.outputs)
    ensures
      var more := es + [PutManifest(id, true, None)] + [Rename(id, true)] + [Leave(id)];
      && After(c, more).Some?
      && var s, t := After(c, es).value, After(c, more).value;
         && t.dests == s.dests[s.pubs[id].job.gen := Complete(c, s.pubs[id].job)]
         && t.stagings == s.stagings - {s.pubs[id].staging} && t.pubs == s.pubs - {id} && t.begun == s.begun
         && t.returned == s.returned[id := true]
  {
    hide After, Written, Verified;
    var s := After(c, es).value;
    var e3, e4, e5 := PutManifest(id, true, None), Rename(id, true), Leave(id);
    Snoc(c, es, e3);
    Snoc(c, es + [e3], e4);
    Snoc(c, es + [e3] + [e4], e5);
  }

  /** A publisher that finds its generation, or loses the race to it, reports success exactly when the
      generation can be read and verifies; then it changes nothing but its own directory. */
  lemma PresentIsChecked(c: Codec, es: seq<Event>, id: nat, readable: bool) returns (more: seq<Event>)
    requires After(c, es).Some?
    requires
      var s := After(c, es).value;
      && id in s.pubs && s.pubs[id].job.gen in s.dests && s.dests[s.pubs[id].job.gen] != map[]
      && (s.pubs[id].phase.Looking? || (s.pubs[id].phase.Renaming? && s.pubs[id].staging in s.stagings))
    ensures es <= more && After(c, more).Some?
    ensures
      var s, t := After(c, es).value, After(c, more).value;
      var p := s.pubs[id];
      && t.dests == s.dests && t.begun == s.begun && t.pubs == s.pubs - {id}
      && t.stagings == (if p.phase.Looking? then s.stagings else s.stagings - {p.staging})
      && t.returned == s.returned[id := readable && Verified(c, s.dests[p.job.gen], p.job.manifest)]
  {
    hide After, Verified;
    var s := After(c, es).value;
    var p := s.pubs[id];
    if p.phase.Looking? {
      Snoc(c, es, Look(id));
      Snoc(c, es + [Look(id)], Reuse(id, readable));
      more := es + [Look(id)] + [Reuse(id, readable)];
    } else {
      var e1, e2, e3 := Rename(id, true), Recheck(id, readable), Leave(id);
      var files := s.stagings[p.staging].Keys;
      Snoc(c, es, e1);
      Snoc(c, es + [e1], e2);
      Snoc(c, es + [e1] + [e2], e3);
      assert s.stagings[p.staging] - files == map[];
      Snoc(c, es + [e1] + [e2] + [e3], Sweep(id, files, true));
      more := es + [e1] + [e2] + [e3] + [Sweep(id, files, true)];
    }
  }
}
