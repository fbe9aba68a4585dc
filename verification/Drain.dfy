/** `crates/hekma-engine/src/shutdown.rs`: the two-pass shutdown drain, against a fleet that may
    change between any two of its calls. */
module Drain {
  import opened Common

  datatype LifecycleState = Registered | Starting | Running | Paused | Stopping | Stopped | Failed

  datatype FleetEntry = FleetEntry(name: string, state: LifecycleState)

  datatype Cause = StopGraceful | StopForced | OtherCause

  /** What the engine answers; nothing relates one answer to the next. */
  datatype FleetReply = Fleet(entries: seq<FleetEntry>) | FleetError
  datatype EventsReply = Events(causes: seq<Cause>) | EventsError

  /** The answers to the `i`-th call of a run, chosen by an adversary. */
  datatype World = World(fleet: nat -> FleetReply, stopOk: nat -> bool, events: nat -> EventsReply)

  datatype Call = ReadFleet | Stop(name: string) | ReadEvents(name: string)

  class Engine {
    const world: World
    var log: seq<Call>

    constructor (world: World)
      ensures this.world == world && log == []
    {
      this.world := world;
      log := [];
    }

    method FleetNow() returns (r: FleetReply)
      modifies this
      ensures log == old(log) + [ReadFleet] && r == world.fleet(|old(log)|)
    {
      r := world.fleet(|log|);
      log := log + [ReadFleet];
    }

    method StopInstance(name: string) returns (ok: bool)
      modifies this
      ensures log == old(log) + [Stop(name)] && ok == world.stopOk(|old(log)|)
    {
      ok := world.stopOk(|log|);
      log := log + [Stop(name)];
    }

    method TransitionEvents(name: string) returns (r: EventsReply)
      modifies this
      ensures log == old(log) + [ReadEvents(name)] && r == world.events(|old(log)|)
    {
      r := world.events(|log|);
      log := log + [ReadEvents(name)];
    }
  }

  // ---------- The plan ----------

  predicate IsLive(state: LifecycleState) { state.Running? || state.Paused? }

  /** The live rows' names, in fleet order. */
  function DrainPlan(entries: seq<FleetEntry>): (names: seq<string>)
    ensures forall n :: n in names <==> exists e :: e in entries && e.name == n && (e.state.Running? || e.state.Paused?)
  {
    if entries == [] then []
    else
      assert forall e :: e in entries <==> e == entries[0] || e in entries[1..];
      (if IsLive(entries[0].state) then [entries[0].name] else []) + DrainPlan(entries[1..])
  }

  /** The names not attempted yet, each once, in order: a filter that records what it lets pass. */
  function NewNames(names: seq<string>, attempted: set<string>): (r: seq<string>)
    ensures forall n :: n in r <==> n in names && n !in attempted
    ensures Distinct(r)
  {
    if names == [] then []
    else if names[0] in attempted then NewNames(names[1..], attempted)
    else [names[0]] + NewNames(names[1..], attempted + {names[0]})
  }

  /** The plan takes exactly the running and paused rows, one name a row, in fleet order: `rows` are
      their places. */
  lemma {:induction false} PlanInFleetOrder(entries: seq<FleetEntry>) returns (rows: seq<nat>)
    ensures |rows| == |DrainPlan(entries)| && Increasing(rows)
    ensures forall i :: 0 <= i < |rows| ==> rows[i] < |entries| && DrainPlan(entries)[i] == entries[rows[i]].name
    ensures forall k :: 0 <= k < |entries| ==> (k in rows <==> entries[k].state in {Running, Paused})
  {
    hide DrainPlan, IsLive;
    if entries == [] {
      rows := [];
      EmptyPlan();
    } else {
      var n := |entries| - 1;
      rows := PlanInFleetOrder(entries[..n]);
      PlanGrows(entries[..n], entries[n]);
      assert entries == entries[..n] + [entries[n]];
      if entries[n].state in {Running, Paused} {
        rows := rows + [n];
      }
    }
  }

  lemma EmptyPlan()
    ensures DrainPlan([]) == []
  {
  }

  lemma {:induction false} PlanGrows(entries: seq<FleetEntry>, e: FleetEntry)
    ensures DrainPlan(entries + [e]) == DrainPlan(entries) + if e.state in {Running, Paused} then [e.name] else []
  {
    hide DrainPlan, IsLive;
    if entries == [] {
      EmptyPlan();
      PlanStarts(e, []);
      assert [] + [e] == [e] + [];
    } else {
      PlanGrows(entries[1..], e);
      PlanStarts(entries[0], entries[1..]);
      PlanStarts(entries[0], entries[1..] + [e]);
      assert entries == [entries[0]] + entries[1..];
      assert entries + [e] == [entries[0]] + (entries[1..] + [e]);
    }
  }

  lemma PlanStarts(e: FleetEntry, rest: seq<FleetEntry>)
    ensures DrainPlan([e] + rest) == (if e.state in {Running, Paused} then [e.name] else []) + DrainPlan(rest)
  {
    assert ([e] + rest)[1..] == rest;
  }

  /** The recording filter keeps the first mention of each new name, in order: `places` are theirs. */
  lemma {:induction false} NewNamesInOrder(names: seq<string>, attempted: set<string>) returns (places: seq<nat>)
    ensures |places| == |NewNames(names, attempted)| && Increasing(places)
    ensures forall i :: 0 <= i < |places| ==>
        places[i] < |names| && NewNames(names, attempted)[i] == names[places[i]]
    ensures forall k :: 0 <= k < |names| ==>
        (k in places <==> names[k] !in attempted && names[k] !in names[..k])
  {
    hide NewNames, Increasing;
    if names == [] {
      places := [];
      NoNewNames(attempted);
    } else {
      var n := |names| - 1;
      places := NewNamesInOrder(names[..n], attempted);
      assert names == names[..n] + [names[n]];
      NewNamesGrow(names[..n], names[n], attempted);
      OneMore(places, n);
      if names[n] !in attempted && names[n] !in names[..n] {
        places := places + [n];
      }
      assert forall k :: 0 <= k < n ==> names[..n][..k] == names[..k];
    }
  }

  lemma NoNewNames(attempted: set<string>)
    ensures NewNames([], attempted) == [] && Increasing([])
  {
  }

  lemma {:induction false} NewNamesGrow(names: seq<string>, name: string, attempted: set<string>)
    ensures NewNames(names + [name], attempted)
         == NewNames(names, attempted) + if name in attempted || name in names then [] else [name]
  {
    if names == [] {
      assert ([] + [name])[1..] == [];
    } else {
      assert (names + [name])[1..] == names[1..] + [name];
      NewNamesGrow(names[1..], name, if names[0] in attempted then attempted else attempted + {names[0]});
    }
  }

  // ---------- One stop ----------

  datatype StopResult =
    | Graceful
    | Forced
    | Unverified
    | ExitedOnItsOwn(state: LifecycleState)
    | NotStopped

  datatype Outcome = Outcome(name: string, result: StopResult)

  predicate IsStop(c: Cause) { c.StopGraceful? || c.StopForced? }

  /** The newest stop transition of a log kept oldest first. */
  function NewestStop(causes: seq<Cause>): Option<Cause> {
    if causes == [] then None
    else if IsStop(causes[|causes| - 1]) then Some(causes[|causes| - 1])
    else NewestStop(causes[..|causes| - 1])
  }

  function Classify(reply: EventsReply): StopResult {
    match reply
    case EventsError => Unverified
    case Events(causes) =>
      match NewestStop(causes)
      case Some(StopGraceful) => Graceful
      case Some(StopForced) => Forced
      case _ => Unverified
  }

  function StateOf(entries: seq<FleetEntry>, name: string): Option<LifecycleState> {
    if entries == [] then None
    else if entries[0].name == name then Some(entries[0].state)
    else StateOf(entries[1..], name)
  }

  /** A stop that failed: the instance may have ended on its own. */
  function ClassifyFailure(reply: FleetReply, name: string): StopResult {
    match reply
    case FleetError => NotStopped
    case Fleet(entries) =>
      match StateOf(entries, name)
      case Some(Stopped) => ExitedOnItsOwn(Stopped)
      case Some(Failed) => ExitedOnItsOwn(Failed)
      case _ => NotStopped
  }

  method StopOne(engine: Engine, name: string) returns (outcome: Outcome)
    modifies engine
    ensures
      var at := |old(engine.log)|;
      && outcome.name == name
      && engine.log == old(engine.log) + [Stop(name), if engine.world.stopOk(at) then ReadEvents(name) else ReadFleet]
      && outcome.result == if engine.world.stopOk(at) then Classify(engine.world.events(at + 1))
                           else ClassifyFailure(engine.world.fleet(at + 1), name)
  {
    var ok := engine.StopInstance(name);
    if ok {
      var events := engine.TransitionEvents(name);
      outcome := Outcome(name, Classify(events));
    } else {
      var fleet := engine.FleetNow();
      outcome := Outcome(name, ClassifyFailure(fleet, name));
    }
  }

  // ---------- The drain ----------

  datatype Note =
    | EnumerationFailed
    | StopIssued(name: string)
    | Settled(outcome: Outcome)
    | NothingToStop
    | StillAlive(names: seq<string>)
    | UnverifiedDrain

  /** Each stop is announced, and its outcome noted as it settles. */
  function StopNotes(outcomes: seq<Outcome>): seq<Note> {
    if outcomes == [] then []
    else
      var n := |outcomes| - 1;
      StopNotes(outcomes[..n]) + [StopIssued(outcomes[n].name), Settled(outcomes[n])]
  }

  /** What a pass says, given its snapshot and the outcomes it adds; only an unreadable fleet that
      left nothing tried is called a failed enumeration. */
  function PassNotes(reply: FleetReply, nothingYet: bool, added: seq<Outcome>): seq<Note> {
    if reply.FleetError? then (if nothingYet then [EnumerationFailed] else []) else StopNotes(added)
  }

  /** The roll-up: what is still alive, or that nobody could tell. */
  function FinalNotes(reply: FleetReply): seq<Note> {
    match reply
    case FleetError => [UnverifiedDrain]
    case Fleet(entries) => if DrainPlan(entries) == [] then [] else [StillAlive(DrainPlan(entries))]
  }

  lemma {:induction false} StopNotesAt(outcomes: seq<Outcome>)
    ensures |StopNotes(outcomes)| == 2 * |outcomes|
    ensures forall i :: 0 <= i < |outcomes| ==>
        && StopNotes(outcomes)[2 * i] == StopIssued(outcomes[i].name)
        && StopNotes(outcomes)[2 * i + 1] == Settled(outcomes[i])
  {
    if outcomes != [] {
      var n := |outcomes| - 1;
      StopNotesAt(outcomes[..n]);
    }
  }

  /** What the notes of a whole drain tell. */
  lemma NotesSay(first: FleetReply, second: FleetReply, last: FleetReply, r: seq<Outcome>, n: nat)
    requires n <= |r| && (first.FleetError? ==> n == 0) && (second.FleetError? ==> n == |r|)
    ensures
      var notes := PassNotes(first, true, r[..n]) + PassNotes(second, n == 0, r[n..])
                   + (if r == [] then [NothingToStop] else []) + FinalNotes(last);
      && (EnumerationFailed in notes <==> first.FleetError? || (n == 0 && second.FleetError?))
      && (forall o :: Settled(o) in notes <==> o in r)
      && (NothingToStop in notes <==> r == [])
      && (UnverifiedDrain in notes <==> last.FleetError?)
      && (forall names :: StillAlive(names) in notes <==> StillAlive(names) in FinalNotes(last))
  {
    var a, b := PassNotes(first, true, r[..n]), PassNotes(second, n == 0, r[n..]);
    var c, d := if r == [] then [NothingToStop] else [], FinalNotes(last);
    FinalKinds(last);
    PassSays(first, true, r[..n]);
    PassSays(second, n == 0, r[n..]);
    hide PassNotes, FinalNotes;
    OfEitherPass(a, b, r, n);
    Gathered(a, b, c, d);
  }

  /** The notes of two passes, of an idle drain and of its end, told apart by their kinds. */
  lemma Gathered(a: seq<Note>, b: seq<Note>, c: seq<Note>, d: seq<Note>)
    requires forall x :: x in a || x in b ==> !x.NothingToStop? && !x.UnverifiedDrain? && !x.StillAlive?
    requires forall x :: x in c ==> x.NothingToStop?
    requires forall x :: x in d ==> x.StillAlive? || x.UnverifiedDrain?
    ensures EnumerationFailed in a + b + c + d <==> EnumerationFailed in a || EnumerationFailed in b
    ensures forall o :: Settled(o) in a + b + c + d <==> Settled(o) in a || Settled(o) in b
    ensures NothingToStop in a + b + c + d <==> NothingToStop in c
    ensures UnverifiedDrain in a + b + c + d <==> UnverifiedDrain in d
    ensures forall names :: StillAlive(names) in a + b + c + d <==> StillAlive(names) in d
  {
    InFour(a, b, c, d);
  }

  lemma OfEitherPass(a: seq<Note>, b: seq<Note>, r: seq<Outcome>, n: nat)
    requires n <= |r|
    requires forall o :: Settled(o) in a <==> o in r[..n]
    requires forall o :: Settled(o) in b <==> o in r[n..]
    ensures forall o :: Settled(o) in a || Settled(o) in b <==> o in r
  {
    assert r == r[..n] + r[n..];
  }

  lemma InFour(a: seq<Note>, b: seq<Note>, c: seq<Note>, d: seq<Note>)
    ensures forall x :: x in a + b + c + d <==> x in a || x in b || x in c || x in d
  {
  }

  lemma PassSays(reply: FleetReply, nothingYet: bool, added: seq<Outcome>)
    requires reply.FleetError? ==> added == []
    ensures
      var notes := PassNotes(reply, nothingYet, added);
      && (EnumerationFailed in notes <==> reply.FleetError? && nothingYet)
      && (forall o :: Settled(o) in notes <==> o in added)
      && (forall x :: x in notes ==> !x.NothingToStop? && !x.UnverifiedDrain? && !x.StillAlive?)
  {
    OnlyStopNotes(added);
    hide StopNotes;
  }

  lemma {:induction false} OnlyStopNotes(outcomes: seq<Outcome>)
    ensures forall x :: x in StopNotes(outcomes) ==> x.StopIssued? || x.Settled?
    ensures forall o :: Settled(o) in StopNotes(outcomes) <==> o in outcomes
  {
    if outcomes != [] {
      OnlyStopNotes(outcomes[..|outcomes| - 1]);
      assert outcomes == outcomes[..|outcomes| - 1] + [outcomes[|outcomes| - 1]];
    }
  }

  lemma FinalKinds(last: FleetReply)
    ensures forall x :: x in FinalNotes(last) ==> x.StillAlive? || x.UnverifiedDrain?
    ensures UnverifiedDrain in FinalNotes(last) <==> last.FleetError?
  {
  }

  lemma FinalSays(last: FleetReply)
    ensures
      var notes := FinalNotes(last);
      && (last.Fleet? ==> forall e :: e in last.entries && (e.state.Running? || e.state.Paused?) ==>
            exists names :: StillAlive(names) in notes && e.name in names)
      && (forall names :: StillAlive(names) in notes ==> last.Fleet? && forall n :: n in names ==>
            exists e :: e in last.entries && e.name == n && (e.state.Running? || e.state.Paused?))
  {
    if last.Fleet? {
      var plan := DrainPlan(last.entries);
      forall e | e in last.entries && (e.state.Running? || e.state.Paused?)
        ensures StillAlive(plan) in FinalNotes(last) && e.name in plan
      {
        assert e.name in plan;
      }
    }
  }

  /** The stop calls of a log, in order. */
  function StopsIn(log: seq<Call>): seq<string> {
    if log == [] then []
    else
      var n := |log| - 1;
      StopsIn(log[..n]) + if log[n].Stop? then [log[n].name] else []
  }

  lemma {:induction false} StopsConcat(a: seq<Call>, b: seq<Call>)
    ensures StopsIn(a + b) == StopsIn(a) + StopsIn(b)
  {
    if b == [] {
      assert a + b == a;
    } else {
      var n := |b| - 1;
      assert (a + b)[..|a + b| - 1] == a + b[..n];
      StopsConcat(a, b[..n]);
    }
  }

  lemma StopsOfOne(name: string, c: Call)
    requires !c.Stop?
    ensures StopsIn([Stop(name), c]) == [name]
    ensures StopsIn([c]) == []
  {
    assert [Stop(name), c][..1] == [Stop(name)];
    assert [Stop(name)][..0] == [];
    assert [c][..0] == [];
    assert StopsIn([Stop(name)]) == StopsIn([]) + [name];
  }

  function NamesOf(outcomes: seq<Outcome>): (names: seq<string>)
    ensures |names| == |outcomes| && forall i :: 0 <= i < |names| ==> names[i] == outcomes[i].name
  {
    seq(|outcomes|, i requires 0 <= i < |outcomes| => outcomes[i].name)
  }

  /** The outcome each stop call of a log earned, from the answers around it. */
  function OutcomesOf(world: World, log: seq<Call>): seq<Outcome> {
    if log == [] then []
    else
      var n := |log| - 1;
      OutcomesOf(world, log[..n])
      + if log[n].Stop? then
          [Outcome(log[n].name, if world.stopOk(n) then Classify(world.events(n + 1))
                                else ClassifyFailure(world.fleet(n + 1), log[n].name))]
        else []
  }

  /** The calls that stop `plan` in turn, from call number `at` on. */
  function StopCalls(world: World, at: nat, plan: seq<string>): (calls: seq<Call>)
    ensures |calls| == 2 * |plan|
  {
    if plan == [] then []
    else
      var n := |plan| - 1;
      StopCalls(world, at, plan[..n]) + StopPair(world, at + 2 * n, plan[n])
  }

  /** A stop, and the read its result calls for. */
  function StopPair(world: World, at: nat, name: string): (calls: seq<Call>)
    ensures |calls| == 2
  {
    [Stop(name), if world.stopOk(at) then ReadEvents(name) else ReadFleet]
  }

  lemma {:induction false} StopsOfCalls(world: World, at: nat, plan: seq<string>)
    ensures StopsIn(StopCalls(world, at, plan)) == plan
  {
    if plan != [] {
      var n := |plan| - 1;
      StopsOfCalls(world, at, plan[..n]);
      var pair := StopPair(world, at + 2 * n, plan[n]);
      StopsConcat(StopCalls(world, at, plan[..n]), pair);
      StopsOfOne(plan[n], pair[1]);
      assert plan == plan[..n] + [plan[n]];
    }
  }

  lemma StopNotesGrow(outcomes: seq<Outcome>, o: Outcome)
    ensures StopNotes(outcomes + [o]) == StopNotes(outcomes) + [StopIssued(o.name), Settled(o)]
  {
    assert (outcomes + [o])[..|outcomes|] == outcomes;
  }

  lemma {:induction false} OutcomesNameStops(world: World, log: seq<Call>)
    ensures NamesOf(OutcomesOf(world, log)) == StopsIn(log)
  {
    if log != [] {
      OutcomesNameStops(world, log[..|log| - 1]);
    }
  }

  lemma OutcomesExtend(world: World, log: seq<Call>, name: string, c: Call)
    requires !c.Stop?
    ensures OutcomesOf(world, log + [c]) == OutcomesOf(world, log)
    ensures OutcomesOf(world, log + [Stop(name), c])
         == OutcomesOf(world, log)
            + [Outcome(name, if world.stopOk(|log|) then Classify(world.events(|log| + 1))
                             else ClassifyFailure(world.fleet(|log| + 1), name))]
  {
    hide Classify, ClassifyFailure;
    var longer := log + [Stop(name), c];
    assert longer[..|log| + 1] == log + [Stop(name)];
    assert (log + [Stop(name)])[..|log|] == log;
    assert (log + [c])[..|log|] == log;
  }

  class Drainer {
    var attempted: set<string>
    var outcomes: seq<Outcome>
    var notes: seq<Note>

    constructor ()
      ensures attempted == {} && outcomes == [] && notes == []
    {
      attempted, outcomes, notes := {}, [], [];
    }

    /** What every pass keeps: exactly the names attempted were stopped, once each, and each has
        the outcome its own stop call earned, in the order of the calls. */
    ghost predicate Valid(engine: Engine)
      reads this, engine
    {
      && outcomes == OutcomesOf(engine.world, engine.log)
      && Distinct(StopsIn(engine.log))
      && forall n :: n in attempted <==> n in StopsIn(engine.log)
    }

    /** One pass: exactly its snapshot's live names that were not tried before are stopped, in order. */
    method StopPass(engine: Engine) returns (issued: bool)
      requires Valid(engine)
      modifies this, engine
      ensures Valid(engine)
      ensures engine.log == old(engine.log) + PassCalls(engine.world, |old(engine.log)|, old(attempted))
      ensures old(outcomes) <= outcomes
      ensures
        var at := |old(engine.log)|;
        notes == old(notes) + PassNotes(engine.world.fleet(at), old(attempted) == {} && old(outcomes) == [],
                                        outcomes[|old(outcomes)|..])
      ensures
        var plan := Planned(engine.world.fleet(|old(engine.log)|), old(attempted));
        && issued == (plan != [])
        && StopsIn(engine.log) == StopsIn(old(engine.log)) + plan
        && attempted == old(attempted) + set n | n in plan
      ensures Covered(engine.world.fleet(|old(engine.log)|), StopsIn(engine.log))
    {
      hide OutcomesOf, StopsIn, DrainPlan, NewNames, StopCalls;
      ghost var log0, stops0 := engine.log, StopsIn(engine.log);
      var fleet := engine.FleetNow();
      StopsConcat(log0, [ReadFleet]);
      OutcomesExtend(engine.world, log0, "", ReadFleet);
      StopsOfOne("", ReadFleet);
      assert stops0 + [] == stops0;
      NoCalls(engine.world, |log0| + 1);
      if fleet.FleetError? {
        if attempted == {} && outcomes == [] {
          notes := notes + [EnumerationFailed];
        }
        return false;
      }
      var plan := NewNames(DrainPlan(fleet.entries), attempted);
      AppendDistinct(stops0, plan);
      attempted := attempted + set n | n in plan;
      StopEach(engine, plan);
      issued := plan != [];
    }

    lemma NoCalls(world: World, at: nat)
      ensures StopCalls(world, at, []) == []
    {
    }

    /** Announce a stop, issue it, and note its outcome. */
    method StopNext(engine: Engine, name: string)
      requires outcomes == OutcomesOf(engine.world, engine.log)
      modifies this, engine
      ensures attempted == old(attempted)
      ensures engine.log == old(engine.log) + StopPair(engine.world, |old(engine.log)|, name)
      ensures outcomes == OutcomesOf(engine.world, engine.log)
      ensures |outcomes| == |old(outcomes)| + 1 && old(outcomes) == outcomes[..|old(outcomes)|]
      ensures var o := outcomes[|old(outcomes)|]; o.name == name && notes == old(notes) + [StopIssued(name), Settled(o)]
    {
      hide StopsIn, OutcomesOf, Classify, ClassifyFailure;
      notes := notes + [StopIssued(name)];
      ghost var before := engine.log;
      var outcome := StopOne(engine, name);
      ghost var c := engine.log[|before| + 1];
      assert engine.log == before + [Stop(name), c];
      OutcomesExtend(engine.world, before, name, c);
      notes := notes + [Settled(outcome)];
      outcomes := outcomes + [outcome];
    }

    /** Stop every planned instance in turn, whatever becomes of each. */
    method StopEach(engine: Engine, plan: seq<string>)
      requires outcomes == OutcomesOf(engine.world, engine.log)
      modifies this, engine
      ensures attempted == old(attempted)
      ensures engine.log == old(engine.log) + StopCalls(engine.world, |old(engine.log)|, plan)
      ensures old(outcomes) <= outcomes
      ensures notes == old(notes) + StopNotes(outcomes[|old(outcomes)|..])
      ensures StopsIn(engine.log) == StopsIn(old(engine.log)) + plan
      ensures outcomes == OutcomesOf(engine.world, engine.log)
    {
      hide StopsIn, OutcomesOf, StopNotes, StopCalls, StopPair;
      ghost var log0, n := engine.log, |outcomes|;
      NothingToNote();
      NoCalls(engine.world, |log0|);
      assert outcomes[n..] == [];
      for i := 0 to |plan|
        invariant attempted == old(attempted)
        invariant old(outcomes) <= outcomes
        invariant notes == old(notes) + StopNotes(outcomes[n..])
        invariant engine.log == log0 + StopCalls(engine.world, |log0|, plan[..i])
        invariant outcomes == OutcomesOf(engine.world, engine.log)
      {
        ghost var added := outcomes[n..];
        NextCalls(engine.world, |log0|, plan, i);
        StopNext(engine, plan[i]);
        ghost var o := outcomes[|outcomes| - 1];
        StopNotesGrow(added, o);
        assert outcomes[n..] == added + [o];
      }
      assert plan[..|plan|] == plan;
      StopsOfCalls(engine.world, |log0|, plan);
      StopsConcat(log0, StopCalls(engine.world, |log0|, plan));
    }

    lemma NextCalls(world: World, at: nat, plan: seq<string>, i: nat)
      requires i < |plan|
      ensures StopCalls(world, at, plan[..i + 1])
          == StopCalls(world, at, plan[..i]) + StopPair(world, at + 2 * i, plan[i])
    {
      hide StopPair;
      assert plan[..i + 1][..i] == plan[..i];
    }

    lemma NothingToNote()
      ensures StopNotes([]) == []
    {
    }

    /** `drain_and_stop`: two passes, then an honest roll-up. What it does is settled by the world: the
        calls it makes, the outcomes they earn and the notes it leaves. */
    method DrainAndStop(engine: Engine) returns (r: seq<Outcome>)
      requires engine.log == [] && attempted == {} && outcomes == [] && notes == []
      modifies this, engine
      ensures engine.log == RunLog(engine.world)
      ensures r == outcomes == OutcomesOf(engine.world, engine.log)
      ensures NamesOf(r) == FirstPlan(engine.world) + SecondPlan(engine.world) && Distinct(NamesOf(r))
      ensures Covered(engine.world.fleet(0), NamesOf(r))
      ensures Covered(engine.world.fleet(SecondAt(engine.world)), NamesOf(r))
      ensures
        var n, last := |FirstPlan(engine.world)|, engine.world.fleet(|engine.log| - 1);
        && (EnumerationFailed in notes
            <==> || engine.world.fleet(0).FleetError?
                 || (n == 0 && engine.world.fleet(SecondAt(engine.world)).FleetError?))
        && (forall o :: Settled(o) in notes <==> o in r)
        && (NothingToStop in notes <==> r == [])
        && (UnverifiedDrain in notes <==> last.FleetError?)
        && (last.Fleet? ==> forall e :: e in last.entries && (e.state.Running? || e.state.Paused?) ==>
              exists names :: StillAlive(names) in notes && e.name in names)
        && (forall names :: StillAlive(names) in notes ==> last.Fleet? && forall n :: n in names ==>
              exists e :: e in last.entries && e.name == n && (e.state.Running? || e.state.Paused?))
      ensures
        var n := |FirstPlan(engine.world)|;
        && n <= |r|
        && notes == PassNotes(engine.world.fleet(0), true, r[..n])
                    + PassNotes(engine.world.fleet(SecondAt(engine.world)), n == 0, r[n..])
                    + (if r == [] then [NothingToStop] else []) + FinalNotes(engine.world.fleet(LastAt(engine.world)))
    {
      hide OutcomesOf, StopsIn, DrainPlan, NewNames, PassNotes, FinalNotes, StopCalls, Planned, Covered, Distinct;
      var foundAny, newcomerFound := TwoPasses(engine);
      if !foundAny && !newcomerFound {
        notes := notes + [NothingToStop];
      }
      ghost var before := engine.log;
      RollUp(engine);
      OutcomesNameStops(engine.world, engine.log);
      StopsConcat(before, [ReadFleet]);
      StopsOfOne("", ReadFleet);
      assert StopsIn(before) + [] == StopsIn(before);
      assert NamesOf(outcomes) == StopsIn(engine.log) == FirstPlan(engine.world) + SecondPlan(engine.world);
      assert |NamesOf(outcomes)| == |outcomes|;
      r := outcomes;
      ghost var world := engine.world;
      FailedPassesAddNothing(world);
      FinalSays(world.fleet(LastAt(world)));
      NotesSay(world.fleet(0), world.fleet(SecondAt(world)), world.fleet(LastAt(world)), r, |FirstPlan(world)|);
    }

    lemma FailedPassesAddNothing(world: World)
      ensures world.fleet(0).FleetError? ==> |FirstPlan(world)| == 0
      ensures world.fleet(SecondAt(world)).FleetError? ==> |SecondPlan(world)| == 0
    {
    }

    method TwoPasses(engine: Engine) returns (foundAny: bool, newcomerFound: bool)
      requires engine.log == [] && attempted == {} && outcomes == [] && notes == []
      modifies this, engine
      ensures Valid(engine)
      ensures engine.log == PassCalls(engine.world, 0, {}) + PassCalls(engine.world, SecondAt(engine.world),
          Tried(engine.world))
      ensures StopsIn(engine.log) == FirstPlan(engine.world) + SecondPlan(engine.world)
      ensures Covered(engine.world.fleet(0), StopsIn(engine.log))
      ensures Covered(engine.world.fleet(SecondAt(engine.world)), StopsIn(engine.log))
      ensures foundAny || newcomerFound <==> StopsIn(engine.log) != []
      ensures
        var n := |FirstPlan(engine.world)|;
        && n <= |outcomes|
        && notes == PassNotes(engine.world.fleet(0), true, outcomes[..n])
                    + PassNotes(engine.world.fleet(SecondAt(engine.world)), n == 0, outcomes[n..])
    {
      hide OutcomesOf, StopsIn, DrainPlan, NewNames, Valid, Planned, Covered, Distinct, PassNotes, NamesOf, StopCalls;
      NothingDone(engine);
      foundAny := StopPass(engine);
      ghost var log1, done := engine.log, outcomes;
      OneOutcomeEach(engine);
      assert attempted == Tried(engine.world) && |log1| == SecondAt(engine.world);
      newcomerFound := StopPass(engine);
      CoveredGrows(engine.world.fleet(0), StopsIn(log1), StopsIn(engine.log));
      assert outcomes[..|done|] == done;
    }

    lemma OneOutcomeEach(engine: Engine)
      requires Valid(engine)
      ensures |outcomes| == |StopsIn(engine.log)|
      ensures attempted == {} <==> |outcomes| == 0
    {
      OutcomesNameStops(engine.world, engine.log);
      hide StopsIn, OutcomesOf;
      assert |NamesOf(outcomes)| == |outcomes|;
      if outcomes != [] {
        assert StopsIn(engine.log)[0] in attempted;
      }
    }

    lemma NothingDone(engine: Engine)
      requires engine.log == [] && attempted == {} && outcomes == []
      ensures Valid(engine) && StopsIn(engine.log) == []
    {
    }

    /** Name what is still alive, or say that nobody could tell. */
    method RollUp(engine: Engine)
      requires Valid(engine)
      modifies this`notes, engine
      ensures engine.log == old(engine.log) + [ReadFleet]
      ensures notes == old(notes) + FinalNotes(engine.world.fleet(|old(engine.log)|))
      ensures Valid(engine)
    {
      ghost var before := engine.log;
      var fleet := engine.FleetNow();
      match fleet {
        case Fleet(entries) =>
          var stillAlive := DrainPlan(entries);
          if stillAlive != [] {
            notes := notes + [StillAlive(stillAlive)];
          }
        case FleetError =>
          notes := notes + [UnverifiedDrain];
      }
      StopsConcat(before, [ReadFleet]);
      StopsOfOne("", ReadFleet);
      OutcomesExtend(engine.world, before, "", ReadFleet);
      hide StopsIn, OutcomesOf, DrainPlan;
    }
  }

  // ---------- The run a world settles ----------

  /** The calls of one pass, from its snapshot on. */
  function PassCalls(world: World, at: nat, tried: set<string>): seq<Call> {
    [ReadFleet] + StopCalls(world, at + 1, Planned(world.fleet(at), tried))
  }

  /** What the first pass stops, and the call that reads the second snapshot. */
  function FirstPlan(world: World): seq<string> { Planned(world.fleet(0), {}) }

  function SecondAt(world: World): nat { 1 + 2 * |FirstPlan(world)| }

  function Tried(world: World): set<string> { set n | n in FirstPlan(world) }

  /** What the second pass stops, and the call that reads the fleet for the roll-up. */
  function SecondPlan(world: World): seq<string> { Planned(world.fleet(SecondAt(world)), Tried(world)) }

  function LastAt(world: World): nat { SecondAt(world) + 1 + 2 * |SecondPlan(world)| }

  function RunLog(world: World): (log: seq<Call>)
    ensures |log| == LastAt(world) + 1
  {
    PassCalls(world, 0, {}) + PassCalls(world, SecondAt(world), Tried(world)) + [ReadFleet]
  }

  /** What a pass stops, given its snapshot and the names tried before it. */
  function Planned(reply: FleetReply, tried: set<string>): seq<string> {
    match reply
    case FleetError => []
    case Fleet(entries) => NewNames(DrainPlan(entries), tried)
  }

  /** Every row live in a readable snapshot is among the names. */
  ghost predicate Covered(reply: FleetReply, names: seq<string>) {
    reply.Fleet? ==> forall e :: e in reply.entries && (e.state.Running? || e.state.Paused?) ==> e.name in names
  }

  lemma CoveredGrows(reply: FleetReply, a: seq<string>, b: seq<string>)
    requires Covered(reply, a) && a <= b
    ensures Covered(reply, b)
  {
    assert forall n :: n in a ==> n in b;
  }

  lemma AppendDistinct(stops: seq<string>, plan: seq<string>)
    requires Distinct(stops) && Distinct(plan) && forall n :: n in plan ==> n !in stops
    ensures Distinct(stops + plan)
  {
    forall i, j | 0 <= i < j < |stops + plan|
      ensures (stops + plan)[i] != (stops + plan)[j]
    {
      if i < |stops| <= j {
        assert stops[i] in stops && plan[j - |stops|] in plan;
      }
    }
  }
}
