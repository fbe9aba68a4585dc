/** What the drain guarantees about stragglers, and about the flavour of a stop. */
module DrainResults {
  import opened Common
  import opened Drain

  // ---------- Honest classification ----------

  /** The search reports exactly the arm that ran, whatever the log held before it and whatever
      other transitions followed. */
  lemma {:induction false} NewestStopIsTheArm(prior: seq<Cause>, arm: Cause, rest: seq<Cause>)
    requires arm.StopGraceful? || arm.StopForced?
    requires forall c :: c in rest ==> c.OtherCause?
    ensures Classify(Events(prior + [arm] + rest)) == if arm.StopGraceful? then Graceful else Forced
    decreases |rest|
  {
    var log := prior + [arm] + rest;
    if rest != [] {
      var n := |rest| - 1;
      assert rest[n] in rest && forall c :: c in rest[..n] ==> c in rest;
      assert log[..|log| - 1] == prior + [arm] + rest[..n];
      NewestStopIsTheArm(prior, arm, rest[..n]);
    }
  }

  /** It gives up exactly when the log is unreadable or holds no stop transition. */
  lemma {:induction false} UnverifiedExactly(reply: EventsReply)
    ensures Classify(reply) == Unverified <==> reply.EventsError? || forall c :: c in reply.causes ==> c.OtherCause?
    decreases if reply.Events? then |reply.causes| else 0
  {
    assert forall c: Cause :: c.OtherCause? <==> !IsStop(c);
    if reply.Events? && reply.causes != [] {
      var n := |reply.causes| - 1;
      assert reply.causes == reply.causes[..n] + [reply.causes[n]];
      UnverifiedExactly(Events(reply.causes[..n]));
    }
  }

  /** `i` is the fleet's first row of that name. */
  predicate FirstRow(entries: seq<FleetEntry>, name: string, i: nat) {
    i < |entries| && entries[i].name == name && forall j :: 0 <= j < i ==> entries[j].name != name
  }

  lemma {:induction false} StateOfFirst(entries: seq<FleetEntry>, name: string, i: nat)
    requires FirstRow(entries, name, i)
    ensures StateOf(entries, name) == Some(entries[i].state)
  {
    if i != 0 {
      StateOfFirst(entries[1..], name, i - 1);
    }
  }

  lemma {:induction false} StateHasRow(entries: seq<FleetEntry>, name: string) returns (i: nat)
    requires StateOf(entries, name).Some?
    ensures FirstRow(entries, name, i) && StateOf(entries, name) == Some(entries[i].state)
  {
    if entries[0].name == name {
      i := 0;
    } else {
      var k := StateHasRow(entries[1..], name);
      i := k + 1;
    }
  }

  /** A failed stop counts as ended on its own exactly when the fleet can be read and its first row
      of that name says stopped or failed; then it reports that state. */
  lemma EndedExactly(reply: FleetReply, name: string, state: LifecycleState)
    ensures ClassifyFailure(reply, name) == ExitedOnItsOwn(state)
       <==> && (state.Stopped? || state.Failed?) && reply.Fleet?
            && exists i: nat :: FirstRow(reply.entries, name, i) && reply.entries[i].state == state
    ensures ClassifyFailure(reply, name).ExitedOnItsOwn? || ClassifyFailure(reply, name).NotStopped?
  {
    hide StateOf;
    if reply.Fleet? {
      if StateOf(reply.entries, name).Some? {
        var i := StateHasRow(reply.entries, name);
      }
      forall i: nat | FirstRow(reply.entries, name, i)
        ensures StateOf(reply.entries, name) == Some(reply.entries[i].state)
      {
        StateOfFirst(reply.entries, name, i);
      }
    }
  }

  // ---------- The calls of the second pass ----------

  lemma {:induction false} CallAt(world: World, at: nat, plan: seq<string>, j: nat)
    requires j < |plan|
    ensures StopCalls(world, at, plan)[2 * j] == Stop(plan[j]) && !StopCalls(world, at, plan)[2 * j + 1].Stop?
  {
    var n := |plan| - 1;
    if j < n {
      CallAt(world, at, plan[..n], j);
    }
  }

  /** The second pass stops the `j`-th name of its plan at its own call, and makes no other stops. */
  lemma SecondCallAt(world: World, j: nat)
    requires j < |SecondPlan(world)|
    ensures
      var i := SecondAt(world) + 1 + 2 * j;
      i + 1 < LastAt(world) && RunLog(world)[i] == Stop(SecondPlan(world)[j]) && !RunLog(world)[i + 1].Stop?
  {
    hide StopCalls, Planned;
    CallAt(world, SecondAt(world) + 1, SecondPlan(world), j);
    var second := PassCalls(world, SecondAt(world), Tried(world));
    assert second[1 + 2 * j] == Stop(SecondPlan(world)[j]);
    assert RunLog(world)[SecondAt(world)..][..|second|] == second;
    assert second[1 + 2 * j] == RunLog(world)[SecondAt(world) + 1 + 2 * j];
    assert second[2 + 2 * j] == RunLog(world)[SecondAt(world) + 2 + 2 * j];
  }

  lemma SecondReads(world: World)
    ensures !RunLog(world)[SecondAt(world)].Stop?
  {
    hide StopCalls, Planned;
    var second := PassCalls(world, SecondAt(world), Tried(world));
    assert RunLog(world)[SecondAt(world)..][..|second|] == second;
    assert second[0] == RunLog(world)[SecondAt(world)];
  }

  /** And every stop of the second pass is such a call. */
  lemma SecondStopIs(world: World, i: nat) returns (j: nat)
    requires SecondAt(world) <= i < LastAt(world) && RunLog(world)[i].Stop?
    ensures j < |SecondPlan(world)| && i == SecondAt(world) + 1 + 2 * j
        && RunLog(world)[i] == Stop(SecondPlan(world)[j])
  {
    hide RunLog, StopCalls, Planned;
    SecondReads(world);
    j := (i - SecondAt(world) - 1) / 2;
    SecondCallAt(world, j);
  }

  // ---------- Who is alive when ----------

  /** The instances alive when each call is made. */
  type Timeline = nat -> set<string>

  function LiveNames(reply: FleetReply): set<string>
    requires reply.Fleet?
  {
    set e | e in reply.entries && IsLive(e.state) :: e.name
  }

  /** Every read that succeeds shows who is alive. */
  ghost predicate Shows(world: World, live: Timeline) {
    forall i: nat :: i <= LastAt(world) && world.fleet(i).Fleet? ==> LiveNames(world.fleet(i)) == live(i)
  }

  /** The instance a call stops; `None` unless it is a stop and succeeds. */
  function StoppedBy(world: World, i: nat): Option<string>
    requires i <= LastAt(world)
  {
    if RunLog(world)[i].Stop? && world.stopOk(i) then Some(RunLog(world)[i].name) else None
  }

  /** A stop that succeeds ends its instance. */
  ghost predicate StopsWork(world: World, live: Timeline) {
    forall i: nat :: i < LastAt(world) && StoppedBy(world, i).Some? ==> StoppedBy(world, i).value !in live(i + 1)
  }

  /** After the second snapshot nothing becomes live. */
  ghost predicate NothingNew(world: World, live: Timeline) {
    forall i: nat :: SecondAt(world) <= i < LastAt(world) ==> live(i + 1) <= live(i)
  }

  /** After the second snapshot instances end by successful stops alone. */
  ghost predicate OnlyStopsEnd(world: World, live: Timeline) {
    forall i: nat, n :: SecondAt(world) <= i < LastAt(world) && n in live(i) && n !in live(i + 1) ==>
      StoppedBy(world, i) == Some(n)
  }

  /** The second pass tried to stop `n` and could not. */
  ghost predicate StopFailed(world: World, n: string) {
    exists i: nat :: SecondAt(world) <= i < LastAt(world) && RunLog(world)[i] == Stop(n) && !world.stopOk(i)
  }

  // ---------- Stragglers ----------

  lemma {:induction false} LiveBefore(world: World, live: Timeline, i: nat, j: nat, n: string)
    requires NothingNew(world, live) && SecondAt(world) <= i <= j <= LastAt(world) && n in live(j)
    ensures n in live(i)
    decreases j
  {
    hide RunLog, SecondAt, LastAt;
    if i < j {
      assert live(j - 1 + 1) <= live(j - 1);
      LiveBefore(world, live, i, j - 1, n);
    }
  }

  lemma InSecondPlan(world: World, n: string)
    requires world.fleet(SecondAt(world)).Fleet?
    ensures n in SecondPlan(world) <==> n in LiveNames(world.fleet(SecondAt(world))) && n !in Tried(world)
  {
  }

  /** If nothing becomes live after the second snapshot and successful stops work, whoever is alive at
      the end was alive at the second snapshot, and the first pass had tried it, so that the second
      passed it over, or its second stop failed. */
  lemma StragglersWereTried(world: World, live: Timeline, n: string)
    requires Shows(world, live) && StopsWork(world, live) && NothingNew(world, live)
    requires world.fleet(SecondAt(world)).Fleet? && n in live(LastAt(world))
    ensures n in live(SecondAt(world)) && (n in Tried(world) || StopFailed(world, n))
  {
    hide RunLog, SecondPlan, Tried, LiveNames, Planned;
    LiveBefore(world, live, SecondAt(world), LastAt(world), n);
    InSecondPlan(world, n);
    if n !in Tried(world) {
      var j :| 0 <= j < |SecondPlan(world)| && SecondPlan(world)[j] == n;
      SecondCallAt(world, j);
      var i := SecondAt(world) + 1 + 2 * j;
      LiveBefore(world, live, i + 1, LastAt(world), n);
      assert StoppedBy(world, i) != Some(n);
    }
  }

  lemma PlannedDistinct(reply: FleetReply, tried: set<string>)
    ensures Distinct(Planned(reply, tried))
  {
  }

  /** A name the second pass could not stop is not stopped by another of its calls. */
  lemma FailedIsNotStopped(world: World, n: string, i: nat)
    requires StopFailed(world, n) && SecondAt(world) <= i < LastAt(world)
    ensures StoppedBy(world, i) != Some(n)
  {
    hide RunLog, Planned, StopCalls, Distinct;
    if StoppedBy(world, i) == Some(n) {
      var k: nat :| SecondAt(world) <= k < LastAt(world) && RunLog(world)[k] == Stop(n) && !world.stopOk(k);
      var j := SecondStopIs(world, i);
      var l := SecondStopIs(world, k);
      PlannedDistinct(world.fleet(SecondAt(world)), Tried(world));
      OnePlace(SecondPlan(world), j, l);
    }
  }

  lemma OnePlace(names: seq<string>, j: nat, l: nat)
    requires Distinct(names) && j < |names| && l < |names| && names[j] == names[l]
    ensures j == l
  {
  }

  lemma {:induction false} LiveAfter(world: World, live: Timeline, j: nat, n: string)
    requires OnlyStopsEnd(world, live) && SecondAt(world) <= j <= LastAt(world) && n in live(SecondAt(world))
    requires forall i: nat :: SecondAt(world) <= i < LastAt(world) ==> StoppedBy(world, i) != Some(n)
    ensures n in live(j)
    decreases j
  {
    hide RunLog, SecondAt, LastAt, StoppedBy;
    if SecondAt(world) < j {
      LiveAfter(world, live, j - 1, n);
      assert StoppedBy(world, j - 1) != Some(n);
      assert n in live(j - 1 + 1);
    }
  }

  lemma TriedIsNotStopped(world: World, n: string, i: nat)
    requires n in Tried(world) && SecondAt(world) <= i < LastAt(world)
    ensures StoppedBy(world, i) != Some(n)
  {
    hide RunLog, DrainPlan, StopCalls;
    if StoppedBy(world, i) == Some(n) {
      var j := SecondStopIs(world, i);
    }
  }

  /** Who is alive at the end, when besides only stops end anyone: exactly the instances alive at the
      second snapshot that the first pass had tried or the second could not stop. */
  lemma StragglersExactly(world: World, live: Timeline, n: string)
    requires Shows(world, live) && StopsWork(world, live) && NothingNew(world, live) && OnlyStopsEnd(world, live)
    requires world.fleet(SecondAt(world)).Fleet?
    ensures n in live(LastAt(world)) <==> n in live(SecondAt(world)) && (n in Tried(world) || StopFailed(world, n))
  {
    hide RunLog, SecondPlan, Tried, StoppedBy, Planned, StopFailed;
    if n in live(LastAt(world)) {
      StragglersWereTried(world, live, n);
    }
    if n in live(SecondAt(world)) && (n in Tried(world) || StopFailed(world, n)) {
      forall i: nat | SecondAt(world) <= i < LastAt(world)
        ensures StoppedBy(world, i) != Some(n)
      {
        if n in Tried(world) {
          TriedIsNotStopped(world, n, i);
        } else {
          FailedIsNotStopped(world, n, i);
        }
      }
      LiveAfter(world, live, LastAt(world), n);
    }
  }

  lemma PlanIsLive(entries: seq<FleetEntry>)
    ensures DrainPlan(entries) == [] <==> LiveNames(Fleet(entries)) == {}
    ensures forall n :: n in DrainPlan(entries) <==> n in LiveNames(Fleet(entries))
  {
    var names, live := DrainPlan(entries), LiveNames(Fleet(entries));
    forall n
      ensures n in names <==> n in live
    {
    }
    if names != [] {
      assert names[0] in names;
    }
  }

  /** So the drain is complete, and its roll-up silent, exactly when no instance alive at the second
      snapshot had been tried by the first pass or resisted the second. */
  lemma CompleteIff(world: World, live: Timeline)
    requires Shows(world, live) && StopsWork(world, live) && NothingNew(world, live) && OnlyStopsEnd(world, live)
    requires world.fleet(SecondAt(world)).Fleet? && world.fleet(LastAt(world)).Fleet?
    ensures FinalNotes(world.fleet(LastAt(world))) == []
       <==> forall n :: n in live(SecondAt(world)) ==> n !in Tried(world) && !StopFailed(world, n)
  {
    hide RunLog, SecondPlan, Tried, StoppedBy, Planned, StopFailed, DrainPlan, LiveNames;
    var reply := world.fleet(LastAt(world));
    PlanIsLive(reply.entries);
    assert LiveNames(reply) == live(LastAt(world));
    forall n
      ensures n in live(LastAt(world)) <==> n in live(SecondAt(world)) && (n in Tried(world) || StopFailed(world, n))
    {
      StragglersExactly(world, live, n);
    }
  }

  // ---------- A restarted instance ----------

  /** "a" runs; it is stopped at call 1, gone at call 2, and back from call 3 on. */
  function Restarted(i: nat): set<string> { if i == 2 then {} else {"a"} }

  function RestartedFleet(i: nat): FleetReply { Fleet([FleetEntry("a", if i == 2 then Stopped else Running)]) }

  const RESTARTED := World(RestartedFleet, (i: nat) => true, (i: nat) => Events([StopGraceful]))

  lemma RestartedRun()
    ensures FirstPlan(RESTARTED) == ["a"] && SecondAt(RESTARTED) == 3 && Tried(RESTARTED) == {"a"}
    ensures SecondPlan(RESTARTED) == [] && LastAt(RESTARTED) == 4
    ensures RunLog(RESTARTED) == [ReadFleet, Stop("a"), ReadEvents("a"), ReadFleet, ReadFleet]
    ensures DrainPlan(RestartedFleet(4).entries) == ["a"]
  {
    var entries := [FleetEntry("a", Running)];
    assert entries[1..] == [] && ["a"][1..] == [];
    assert DrainPlan(entries[1..]) == [];
    assert DrainPlan(entries) == ["a"];
    assert NewNames(["a"], {}) == ["a"] + NewNames([], {"a"});
    assert FirstPlan(RESTARTED) == ["a"];
    assert ["a"][..0] == [];
    assert StopCalls(RESTARTED, 1, ["a"]) == StopCalls(RESTARTED, 1, []) + StopPair(RESTARTED, 1, "a");
  }

  /** An instance restarted between its stop and the second snapshot survives the drain: every stop
      succeeds and ends its instance, nothing becomes live after that snapshot, and only stops end
      anyone. The drain says so. */
  method RestartedInstanceSurvives() returns (r: seq<Outcome>, notes: seq<Note>)
    ensures Shows(RESTARTED, Restarted) && StopsWork(RESTARTED, Restarted)
    ensures NothingNew(RESTARTED, Restarted) && OnlyStopsEnd(RESTARTED, Restarted)
    ensures !StopFailed(RESTARTED, "a")
    ensures NamesOf(r) == ["a"] && r[0].result == Graceful
    ensures StillAlive(["a"]) in notes
  {
    RestartedTimeline();
    RestartedRun();
    hide DrainPlan, Planned, StopsIn, OutcomesOf, PassNotes, Covered, NewNames, RunLog, Shows, StopsWork, NothingNew;
    hide OnlyStopsEnd, StopFailed, FirstPlan, SecondPlan, LastAt, SecondAt;
    var engine := new Engine(RESTARTED);
    var drainer := new Drainer();
    r := drainer.DrainAndStop(engine);
    notes := drainer.notes;
    AllGraceful(RESTARTED, engine.log);
    assert r[0] in r && FinalNotes(RESTARTED.fleet(4)) == [StillAlive(["a"])];
  }

  lemma RestartedTimeline()
    ensures Shows(RESTARTED, Restarted) && StopsWork(RESTARTED, Restarted)
    ensures NothingNew(RESTARTED, Restarted) && OnlyStopsEnd(RESTARTED, Restarted)
    ensures !StopFailed(RESTARTED, "a")
  {
    RestartedRun();
    hide RunLog, SecondAt, LastAt, DrainPlan;
    forall i: nat | i <= 4
      ensures LiveNames(RestartedFleet(i)) == Restarted(i)
    {
      var e := RestartedFleet(i).entries[0];
      assert RestartedFleet(i).entries == [e];
    }
  }

  lemma {:induction false} AllGraceful(world: World, log: seq<Call>)
    requires forall i: nat :: world.stopOk(i) && world.events(i) == Events([StopGraceful])
    ensures forall o :: o in OutcomesOf(world, log) ==> o.result == Graceful
  {
    if log != [] {
      AllGraceful(world, log[..|log| - 1]);
    }
  }
}
