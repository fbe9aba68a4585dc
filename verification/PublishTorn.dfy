/** Exactly which names a new staging directory must not take: one that a publisher of another
    generation still owns, whose cleanup would empty it before it is published. */
module PublishTorn {
  import opened Common
  import opened Publish
  import opened PublishSafety
  import opened PublishSteps
  import opened PublishResults

  // ---------- Extending a run ----------

  lemma Snoc(c: Codec, es: seq<Event>, e: Event)
    requires After(c, es).Some? && Enabled(After(c, es).value, e)
    ensures After(c, es + [e]) == Some(Apply(c, After(c, es).value, e))
  {
    assert (es + [e])[..|es|] == es;
  }

  /** `es` goes on, without starting jobs or making directories. */
  ghost predicate Extends(es: seq<Event>, more: seq<Event>) {
    es <= more && forall i :: |es| <= i < |more| ==> !more[i].Make? && !more[i].Start?
  }

  lemma ExtendsIsOrderly(c: Codec, es: seq<Event>, more: seq<Event>)
    requires Extends(es, more)
    ensures OrderlyFrom(c, more, |es|)
  {
    hide After;
  }

  /** The state with one publisher in another phase and one directory with other files. */
  function With(s: State, id: nat, phase: Phase, tree: Tree): State
    requires id in s.pubs
  {
    s.(pubs := s.pubs[id := s.pubs[id].(phase := phase)], stagings := s.stagings[s.pubs[id].staging := tree])
  }

  /** A publisher left to itself writes all its outputs. */
  lemma {:induction false} PutAll(c: Codec, es: seq<Event>, id: nat, k: nat) returns (more: seq<Event>)
    requires After(c, es).Some? && id in After(c, es).value.pubs
    requires
      var s := After(c, es).value;
      var p := s.pubs[id];
      && k <= |p.job.outputs| && p.phase == Writing(k)
      && p.staging in s.stagings && s.stagings[p.staging] == Written(p.job.outputs[..k])
    ensures Extends(es, more)
    ensures
      var s := After(c, es).value;
      var outputs := s.pubs[id].job.outputs;
      After(c, more) == Some(With(s, id, Writing(|outputs|), Written(outputs)))
    decreases |After(c, es).value.pubs[id].job.outputs| - k
  {
    hide After, Written;
    var s := After(c, es).value;
    var p := s.pubs[id];
    if k == |p.job.outputs| {
      more := es;
      assert p.job.outputs[..k] == p.job.outputs;
      assert With(s, id, Writing(k), Written(p.job.outputs)) == s by { WithSame(s, id); }
    } else {
      var e := Put(id, true, None);
      Snoc(c, es, e);
      WrittenNext(p.job.outputs, k);
      PutStep(s, id, k);
      more := PutAll(c, es + [e], id, k + 1);
      WithTwice(s, id, Writing(k + 1), Written(p.job.outputs[..k + 1]), Writing(|p.job.outputs|),
          Written(p.job.outputs));
      assert es <= more by { assert es + [e] <= more; }
    }
  }

  lemma WithSame(s: State, id: nat)
    requires id in s.pubs && s.pubs[id].staging in s.stagings
    ensures With(s, id, s.pubs[id].phase, s.stagings[s.pubs[id].staging]) == s
  {
    assert s.pubs == s.pubs[id := s.pubs[id].(phase := s.pubs[id].phase)];
    assert s.stagings == s.stagings[s.pubs[id].staging := s.stagings[s.pubs[id].staging]];
  }

  lemma WithTwice(s: State, id: nat, f: Phase, t: Tree, g: Phase, u: Tree)
    requires id in s.pubs
    ensures With(With(s, id, f, t), id, g, u) == With(s, id, g, u)
  {
    var p, n := s.pubs[id], s.pubs[id].staging;
    assert s.pubs[id := p.(phase := f)][id := p.(phase := g)] == s.pubs[id := p.(phase := g)];
    assert s.stagings[n := t][n := u] == s.stagings[n := u];
  }

  lemma PutStep(s: State, id: nat, k: nat)
    requires id in s.pubs && s.pubs[id].phase == Writing(k) && k < |s.pubs[id].job.outputs|
    requires s.pubs[id].staging in s.stagings && s.stagings[s.pubs[id].staging] == Written(s.pubs[id].job.outputs[..k])
    ensures Enabled(s, Put(id, true, None))
    ensures ApplyPut(s, id, true, None) == With(s, id, Writing(k + 1), Written(s.pubs[id].job.outputs[..k + 1]))
  {
    WrittenNext(s.pubs[id].job.outputs, k);
  }

  // ---------- Every holder can come to sweep its directory ----------

  /** One step closer to sweeping, touching no file. */
  function TowardsSweep(p: Publisher, id: nat): Event {
    match p.phase
    case Writing(k) => if k < |p.job.outputs| then Put(id, false, None) else PutManifest(id, false, None)
    case Renaming => Rename(id, false)
    case Blocked => Recheck(id, false)
    case _ => Leave(id)
  }

  function Distance(phase: Phase): nat {
    match phase
    case Renaming => 3
    case Blocked => 2
    case Leaving(_) => 1
    case Sweeping(_) => 0
    case _ => 2
  }

  lemma TowardsSweepStep(c: Codec, s: State, id: nat) returns (phase: Phase)
    requires id in s.pubs && Holding(s.pubs[id]) && !s.pubs[id].phase.Sweeping? && s.pubs[id].staging in s.stagings
    requires s.pubs[id].phase.Writing? ==> s.pubs[id].phase.done <= |s.pubs[id].job.outputs|
    ensures
      var e := TowardsSweep(s.pubs[id], id);
      && Enabled(s, e) && !e.Make? && !e.Start? && Apply(c, s, e) == Move(s, id, phase)
      && Distance(phase) < Distance(s.pubs[id].phase) && (phase.Blocked? || phase.Leaving? || phase.Sweeping?)
  {
    hide Verified;
    phase := match s.pubs[id].phase
      case Renaming => Blocked
      case Leaving(ok) => Sweeping(ok)
      case _ => Leaving(false);
  }

  lemma {:induction false} ComesToSweep(c: Codec, es: seq<Event>, id: nat) returns (more: seq<Event>, ok: bool)
    requires After(c, es).Some? && id in After(c, es).value.pubs
    requires
      var s := After(c, es).value;
      && Holding(s.pubs[id]) && s.pubs[id].staging in s.stagings
      && (s.pubs[id].phase.Writing? ==> s.pubs[id].phase.done <= |s.pubs[id].job.outputs|)
    ensures Extends(es, more) && After(c, more) == Some(Move(After(c, es).value, id, Sweeping(ok)))
    decreases Distance(After(c, es).value.pubs[id].phase)
  {
    hide After, Apply, Enabled, TowardsSweep;
    var s := After(c, es).value;
    if s.pubs[id].phase.Sweeping? {
      more, ok := es, s.pubs[id].phase.ok;
      assert s.pubs == s.pubs[id := s.pubs[id].(phase := s.pubs[id].phase)];
    } else {
      var e := TowardsSweep(s.pubs[id], id);
      var phase := TowardsSweepStep(c, s, id);
      Snoc(c, es, e);
      more, ok := ComesToSweep(c, es + [e], id);
      MoveTwice(s, id, phase, Sweeping(ok));
      assert es <= more by { assert es + [e] <= more; }
    }
  }

  lemma MoveTwice(s: State, id: nat, f: Phase, g: Phase)
    requires id in s.pubs
    ensures Move(Move(s, id, f), id, g) == Move(s, id, g)
  {
    var p := s.pubs[id];
    assert s.pubs[id := p.(phase := f)][id := p.(phase := g)] == s.pubs[id := p.(phase := g)];
  }

  // ---------- Half a generation ----------

  /** Where publishing half a generation ends: its manifest alone is there, and its publisher has
      reported success. */
  ghost predicate HalfPublished(c: Codec, s: State, id: nat, job: Job) {
    && job.gen in s.dests && s.dests[job.gen] == map[MANIFEST := c.dump(job.manifest)]
    && id in s.returned && s.returned[id]
  }

  /** From the moment a publisher has made a directory whose name another still owns, this can happen:
      the owner empties it before the manifest is written, and the rest is published. */
  lemma CanPublishHalf(c: Codec, es: seq<Event>, id: nat, q: nat) returns (more: seq<Event>)
    requires After(c, es).Some? && id in After(c, es).value.pubs && q in After(c, es).value.pubs && id != q
    requires
      var s := After(c, es).value;
      var p, o := s.pubs[id], s.pubs[q];
      && p.phase == Writing(0) && p.staging in s.stagings && s.stagings[p.staging] == map[]
      && p.job.gen !in s.dests
      && Holding(o) && o.staging == p.staging && (o.phase.Writing? ==> o.phase.done <= |o.job.outputs|)
    ensures Extends(es, more) && After(c, more).Some?
    ensures After(c, more).value.begun == After(c, es).value.begun
    ensures HalfPublished(c, After(c, more).value, id, After(c, es).value.pubs[id].job)
  {
    hide After, Apply, Enabled;
    var s := After(c, es).value;
    var p := s.pubs[id];
    var run, ok := ComesToSweep(c, es, q);
    assert p.job.outputs[..0] == [] && Written([]) == map[];
    var put := PutAll(c, run, id, 0);
    var t := After(c, put).value;
    more := HalfSteps(c, put, id, q);
    hide Written;
    assert es <= more && forall i :: |es| <= i < |more| ==> !more[i].Make? && !more[i].Start?;
  }

  /** The last four steps: sweep, manifest, rename, leave. */
  lemma HalfSteps(c: Codec, es: seq<Event>, id: nat, q: nat) returns (more: seq<Event>)
    requires After(c, es).Some? && id in After(c, es).value.pubs && q in After(c, es).value.pubs && id != q
    requires
      var s := After(c, es).value;
      var p, o := s.pubs[id], s.pubs[q];
      && p.phase == Writing(|p.job.outputs|) && p.staging in s.stagings && p.job.gen !in s.dests
      && o.phase.Sweeping? && o.staging == p.staging
    ensures Extends(es, more) && After(c, more).Some?
    ensures After(c, more).value.begun == After(c, es).value.begun
    ensures HalfPublished(c, After(c, more).value, id, After(c, es).value.pubs[id].job)
  {
    hide After;
    var s := After(c, es).value;
    var p := s.pubs[id];
    var files := s.stagings[p.staging].Keys;
    var e1, e2, e3, e4 := Sweep(q, files, false), PutManifest(id, true, None), Rename(id, true), Leave(id);
    Snoc(c, es, e1);
    assert s.stagings[p.staging] - files == map[];
    var s1 := After(c, es + [e1]).value;
    assert s1.pubs == s.pubs && s1.dests == s.dests && s1.begun == s.begun && s1.stagings[p.staging] == map[];
    Snoc(c, es + [e1], e2);
    var s2 := After(c, es + [e1] + [e2]).value;
    assert s2.stagings[p.staging] == map[MANIFEST := c.dump(p.job.manifest)];
    Snoc(c, es + [e1] + [e2], e3);
    Snoc(c, es + [e1] + [e2] + [e3], e4);
    more := es + [e1] + [e2] + [e3] + [e4];
  }

  lemma {:induction false} WrittenSome(outputs: seq<Output>)
    requires outputs != []
    ensures outputs[|outputs| - 1].name in Written(outputs)
  {
  }

  /** Half a generation is not safe, when every job has outputs. */
  lemma HalfIsUnsafe(c: Codec, s: State, id: nat, job: Job)
    requires HalfPublished(c, s, id, job)
    requires forall i :: i in s.begun ==> WellFormed(c, s.begun[i]) && s.begun[i].outputs != []
    ensures !DestsOk(c, s)
    ensures WellFormed(c, job) && job.outputs != [] ==> !Verified(c, s.dests[job.gen], job.manifest)
  {
    hide Written;
    var tree := s.dests[job.gen];
    forall i | i in s.begun
      ensures tree != Complete(c, s.begun[i])
    {
      var outputs := s.begun[i].outputs;
      WrittenSome(outputs);
      assert outputs[|outputs| - 1].name in Complete(c, s.begun[i]) && outputs[|outputs| - 1].name !in tree;
    }
    assert !DestOk(c, s, job.gen);
    if WellFormed(c, job) && job.outputs != [] {
      assert job.outputs[0].name in job.manifest.hashes && job.outputs[0].name !in tree;
    }
  }

  // ---------- Exactly the names to keep off ----------

  /** What publishing promises of a state: every generation complete, every normal return verified. */
  ghost predicate Safe(c: Codec, s: State) { DestsOk(c, s) && ReturnedOk(c, s) }

  /** However a run goes on after `es` and `e`, so long as it goes on in order, it stays safe. */
  ghost predicate Harmless(c: Codec, es: seq<Event>, e: Event) {
    forall run :: es + [e] <= run && OrderlyFrom(c, run, |es| + 1) && After(c, run).Some? ==>
         Safe(c, After(c, run).value)
  }

  /** After an orderly run, making a directory is harmless exactly when its name is free: no publisher
      of another generation still owns it, or the maker's generation is there already. */
  lemma HarmlessExactly(c: Codec, es: seq<Event>, id: nat, name: string)
    requires RoundTrips(c) && Orderly(c, es) && After(c, es).Some? && Enabled(After(c, es).value, Make(id, name, true))
    requires forall i :: i in After(c, es).value.begun ==> After(c, es).value.begun[i].outputs != []
    ensures Harmless(c, es, Make(id, name, true)) <==> NameIsFree(After(c, es).value, Make(id, name, true))
  {
    hide RoundTrips, OrderlyFrom, After, Enabled, Safe;
    var s, e := After(c, es).value, Make(id, name, true);
    RunKeeps(c, es);
    if NameIsFree(s, e) {
      forall run | es + [e] <= run && OrderlyFrom(c, run, |es| + 1) && After(c, run).Some?
        ensures Safe(c, After(c, run).value)
      {
        FreeIsSafe(c, es, e, run);
      }
    } else {
      hide Inv, Apply;
      var run := TakenIsUnsafe(c, es, id, name);
    }
  }

  lemma FreeIsSafe(c: Codec, es: seq<Event>, e: Event, run: seq<Event>)
    requires RoundTrips(c) && After(c, es).Some? && Inv(c, After(c, es).value)
    requires Enabled(After(c, es).value, e) && NameIsFree(After(c, es).value, e) && e.Make?
    requires es + [e] <= run && OrderlyFrom(c, run, |es| + 1) && After(c, run).Some?
    ensures Safe(c, After(c, run).value)
  {
    hide RoundTrips, OrderlyFrom, After, Apply, Enabled, NameIsFree, PubsOk, AllApart, DestsOk, ReturnedOk, BegunOk;
    var n := |es| + 1;
    Snoc(c, es, e);
    AnyStepKeeps(c, After(c, es).value, e);
    assert run[..n] == es + [e];
    RunKeepsFrom(c, run, n);
  }

  lemma TakenIsUnsafe(c: Codec, es: seq<Event>, id: nat, name: string) returns (run: seq<Event>)
    requires After(c, es).Some? && Inv(c, After(c, es).value)
    requires Enabled(After(c, es).value, Make(id, name, true)) && !NameIsFree(After(c, es).value, Make(id, name, true))
    requires forall i :: i in After(c, es).value.begun ==> After(c, es).value.begun[i].outputs != []
    ensures es + [Make(id, name, true)] <= run && OrderlyFrom(c, run, |es| + 1)
    ensures After(c, run).Some? && !Safe(c, After(c, run).value)
  {
    hide After, OrderlyFrom, DestsOk, ReturnedOk, WellFormed, Kept, Apart;
    var s, e := After(c, es).value, Make(id, name, true);
    var q :| q in s.pubs && Holding(s.pubs[q]) && s.pubs[q].staging == name && s.pubs[q].job.gen != s.pubs[id].job.gen;
    Snoc(c, es, e);
    var t := After(c, es + [e]).value;
    WritingInRange(c, s, q);
    run := CanPublishHalf(c, es + [e], id, q);
    ExtendsIsOrderly(c, es + [e], run);
    assert BegunOk(c, s) by { InvApart(c, s); }
    HalfIsUnsafe(c, After(c, run).value, id, s.pubs[id].job);
  }

  /** A publisher has never written more than its outputs. */
  lemma WritingInRange(c: Codec, s: State, q: nat)
    requires Inv(c, s) && q in s.pubs
    ensures s.pubs[q].phase.Writing? ==> s.pubs[q].phase.done <= |s.pubs[q].job.outputs|
  {
    hide Verified, Complete, Written;
    assert PubOk(c, s, q);
  }

  // ---------- A run that publishes half a generation ----------

  /** The first publisher has published and not yet left; it still counts "s" as its own. */
  function Published(c: Codec, a: Job): State {
    State(map[a.gen := Complete(c, a)], map[], map[0 := Publisher(a, Leaving(true), "s")], map[0 := a], map[])
  }

  lemma NothingYet(c: Codec)
    ensures After(c, []) == Some(INITIAL)
  {
  }

  lemma FirstMakes(c: Codec, a: Job) returns (es: seq<Event>)
    ensures After(c, es) == Some(State(map[], map["s" := map[]], map[0 := Publisher(a, Writing(0), "s")],
        map[0 := a], map[]))
  {
    hide After;
    NothingYet(c);
    Snoc(c, [], Start(0, a));
    Snoc(c, [] + [Start(0, a)], Look(0));
    Snoc(c, [] + [Start(0, a)] + [Look(0)], Make(0, "s", true));
    es := [] + [Start(0, a)] + [Look(0)] + [Make(0, "s", true)];
    assert After(c, es).value.pubs == map[0 := Publisher(a, Writing(0), "s")];
  }

  lemma FirstPublishes(c: Codec, a: Job) returns (es: seq<Event>)
    ensures After(c, es) == Some(Published(c, a))
  {
    hide After;
    var made := FirstMakes(c, a);
    assert a.outputs[..0] == [] && Written([]) == map[];
    var put := PutAll(c, made, 0, 0);
    hide Written;
    var s := After(c, put).value;
    assert s.pubs[0] == Publisher(a, Writing(|a.outputs|), "s") && s.stagings["s"] == Written(a.outputs);
    Snoc(c, put, PutManifest(0, true, None));
    Snoc(c, put + [PutManifest(0, true, None)], Rename(0, true));
    es := put + [PutManifest(0, true, None)] + [Rename(0, true)];
    var t := After(c, es).value;
    assert t.pubs == Published(c, a).pubs;
    assert t.dests == Published(c, a).dests;
    assert t.stagings == map[];
  }

  lemma SecondMakes(c: Codec, a: Job, b: Job) returns (es: seq<Event>)
    requires a.gen != b.gen
    ensures After(c, es).Some?
    ensures
      var s := After(c, es).value;
      && s.begun == map[0 := a, 1 := b] && b.gen !in s.dests && s.stagings == map["s" := map[]]
      && s.pubs == map[0 := Publisher(a, Leaving(true), "s"), 1 := Publisher(b, Writing(0), "s")]
  {
    hide After;
    var first := FirstPublishes(c, a);
    Snoc(c, first, Start(1, b));
    Snoc(c, first + [Start(1, b)], Look(1));
    Snoc(c, first + [Start(1, b)] + [Look(1)], Make(1, "s", true));
    es := first + [Start(1, b)] + [Look(1)] + [Make(1, "s", true)];
    var s := After(c, es).value;
    assert s.pubs == map[0 := Publisher(a, Leaving(true), "s"), 1 := Publisher(b, Writing(0), "s")];
  }

  /** Any two jobs of different generations can meet this way: the first publishes, the second takes
      its staging name, and the first, leaving, empties it. The second reports success. */
  lemma ReusedNamePublishesHalf(c: Codec, a: Job, b: Job) returns (es: seq<Event>)
    requires WellFormed(c, a) && WellFormed(c, b) && a.outputs != [] && b.outputs != [] && a.gen != b.gen
    ensures After(c, es).Some?
    ensures
      var s := After(c, es).value;
      && s.begun == map[0 := a, 1 := b] && 1 in s.returned && s.returned[1]
      && b.gen in s.dests && s.dests[b.gen] != Complete(c, b) && !Verified(c, s.dests[b.gen], b.manifest)
  {
    hide After, WellFormed, Verified, Written;
    var made := SecondMakes(c, a, b);
    es := CanPublishHalf(c, made, 1, 0);
    var s := After(c, es).value;
    HalfIsUnsafe(c, s, 1, b);
    WrittenSome(b.outputs);
    LastNameIsNoManifest(c, b);
    var name := b.outputs[|b.outputs| - 1].name;
    assert name in Complete(c, b) && name !in s.dests[b.gen];
  }

  lemma LastNameIsNoManifest(c: Codec, job: Job)
    requires WellFormed(c, job) && job.outputs != []
    ensures job.outputs[|job.outputs| - 1].name != MANIFEST
  {
  }
}
