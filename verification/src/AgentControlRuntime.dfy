/** Agent Control's runtime as it is written (agent-control/src/agent_control.rs): loops over hash maps
    in whatever order they yield, and step-by-step bookkeeping, proved against module AgentControlSpec. */
module AgentControlRuntime {
  import opened ConfigTypes
  import opened ConfigRepository
  import opened AgentTypeIds
  import opened Reconciliation
  import opened DynamicConfig
  import opened SubAgentSpec
  import opened SubAgentAgreement
  import opened AgentControlSpec
  import opened AgentControlRuns

  const AGENT_CONTROL_ID: AgentId := "agent-control"

  /** Extending an enumeration by one more key. */
  lemma EnumeratesMore(order: seq<string>, done: set<string>, key: string)
    requires Enumerates(order, done) && key !in done
    ensures Enumerates(order + [key], done + {key})
  {
    assert forall k :: k in order + [key] <==> k in order || k == key;
  }

  /** These acts are what a delivery does with each agent. */
  ghost predicate ActedOn(acts: seq<Act>, c: Control, config: Incoming, io: Io) {
    forall id :: ActsOf(acts, id) == DeliveryActs(c, config, io, id)
  }

  /** These acts are what the loop has done with each agent when it has `rest` still to come. */
  ghost predicate ActedSoFar(acts: seq<Act>, start: Control, events: seq<ControlEvent>, now: Control,
                             rest: seq<ControlEvent>) {
    forall id :: LoopActs(start, events, id) == ActsOf(acts, id) + LoopActs(now, rest, id)
  }

  lemma ActedMore(acts: seq<Act>, more: seq<Act>, start: Control, events: seq<ControlEvent>, now: Control,
                  d: AgentControlSpec.Delivery, rest: seq<ControlEvent>)
    requires ActedSoFar(acts, start, events, now, [RemoteConfigReceived(d)] + rest)
    requires ActedOn(more, now, d.config, d.io)
    ensures ActedSoFar(acts + more, start, events, Deliver(now, d.config, d.io), rest)
  {
    var all, next := [RemoteConfigReceived(d)] + rest, Deliver(now, d.config, d.io);
    assert all[1..] == rest;
    forall id
      ensures LoopActs(start, events, id) == ActsOf(acts + more, id) + LoopActs(next, rest, id)
    {
      ActsAppend(acts, more, id);
      assert LoopActs(now, all, id) == ActsOf(more, id) + LoopActs(next, rest, id);
      Regroup(ActsOf(acts, id), ActsOf(more, id), LoopActs(next, rest, id));
    }
  }

  lemma ActedPast(acts: seq<Act>, start: Control, events: seq<ControlEvent>, now: Control, rest: seq<ControlEvent>)
    requires ActedSoFar(acts, start, events, now, rest) && rest != [] && rest[0].Notice?
    ensures ActedSoFar(acts, start, events, now, rest[1..])
  {
    forall id
      ensures LoopActs(start, events, id) == ActsOf(acts, id) + LoopActs(now, rest[1..], id)
    {
      assert LoopActs(now, rest, id) == LoopActs(now, rest[1..], id);
    }
  }

  /** The acts of a loop that a shutdown ends. */
  lemma ActedAll(acts: seq<Act>, more: seq<Act>, start: Control, events: seq<ControlEvent>, now: Control,
                 rest: seq<ControlEvent>)
    requires ActedSoFar(acts, start, events, now, rest) && rest != [] && rest[0].Shutdown?
    requires EachStopped(more, now.running, map[])
    ensures forall id :: ActsOf(acts + more, id) == LoopActs(start, events, id)
  {
    forall id
      ensures ActsOf(acts + more, id) == LoopActs(start, events, id)
    {
      ActsAppend(acts, more, id);
      assert ActsOf(more, id) == LoopActs(now, rest, id);
    }
  }

  /** These acts are what a start has done with the agents that are no longer to do. */
  ghost predicate StartedBut(acts: seq<Act>, agents: Agents, todo: set<AgentId>, io: AgentId -> AgentIo) {
    forall id :: ActsOf(acts, id) == if id in todo then [] else StartActs(agents, io, id)
  }

  lemma FleetOneMore(agents: Agents, todo: set<AgentId>, io: AgentId -> AgentIo, id: AgentId)
    requires id in todo && id in agents
    ensures BootFleet(agents - (todo - {id}), io)
         == if io(id).build.None? then BootFleet(agents - todo, io)
            else BootFleet(agents - todo, io)[id := Instance(agents[id], io(id).build.value)]
  {
  }

  lemma StartedOneMore(acts: seq<Act>, agents: Agents, todo: set<AgentId>, io: AgentId -> AgentIo, id: AgentId)
    requires StartedBut(acts, agents, todo, io) && id in todo && id in agents
    ensures StartedBut(acts + StartActs(agents, io, id), agents, todo - {id}, io)
  {
    var more := StartActs(agents, io, id);
    forall other
      ensures ActsOf(acts + more, other) == if other in todo - {id} then [] else StartActs(agents, io, other)
    {
      ActsPart(acts, more, id, other);
      assert ActsOf(acts, id) == [] && [] + more == more;
    }
  }

  /** Exactly the agents no longer left have been stopped, each once and as it was running. */
  ghost predicate EachStopped(acts: seq<Act>, was: Running, left: Running) {
    && (forall id :: id in left ==> id in was && left[id] == was[id])
    && (forall id :: ActsOf(acts, id) == if id in was && id !in left then [Stopped(id, was[id])] else [])
  }

  lemma OneMoreStopped(acts: seq<Act>, was: Running, left: Running, id: AgentId)
    requires EachStopped(acts, was, left) && id in left
    ensures EachStopped(acts + [Stopped(id, left[id])], was, left - {id})
  {
    assert (acts + [Stopped(id, left[id])])[..|acts|] == acts;
  }

  class AgentControl {
    const repo: ConfigRepo
    var running: Running
    var current: Dynamic
    var reports: seq<StatusReport>
    var acts: seq<Act>
    ghost var origin: Durable
    ghost var log: seq<Effect>

    ghost function State(): Durable
      reads this, repo
    {
      Durable(Lookup(repo.remote, AGENT_CONTROL_ID), reports)
    }

    ghost function Whole(): Control
      reads this, repo
    {
      Control(State(), running, current)
    }

    /** What is stored and what was reported is the replay of everything done so far. */
    ghost predicate Valid()
      reads this, repo
    {
      State() == Replay(origin, log)
    }

    /** The object did `effects` and left the sub-agents' configurations alone. */
    twostate predicate Did(effects: seq<Effect>)
      reads this, repo
    {
      && Valid()
      && log == old(log) + effects
      && origin == old(origin)
      && repo.local == old(repo.local)
      && repo.remote - {AGENT_CONTROL_ID} == old(repo.remote) - {AGENT_CONTROL_ID}
    }

    twostate lemma Logged(e: Effect)
      requires old(Valid())
      requires origin == old(origin) && log == old(log) + [e] && State() == Do(old(State()), e)
      ensures Valid()
    {
      ReplayAppend(origin, old(log), [e]);
      ThroughoutOne(old(State()), e);
    }

    constructor (repo: ConfigRepo, initial: Dynamic)
      ensures this.repo == repo && Valid() && current == initial
      ensures running == map[] && acts == [] && log == [] && reports == []
    {
      this.repo := repo;
      running, current, reports, acts, log := map[], initial, [], [], [];
      origin := Durable(Lookup(repo.remote, AGENT_CONTROL_ID), []);
    }

    // ---- Agents ----

    method StopAndRemoveSubAgent(id: AgentId) returns (error: Option<Fault>)
      modifies this`running, this`acts
      ensures error == if id in old(running) then None else Some(NotRunning)
      ensures running == old(running) - {id}
      ensures acts == old(acts) + if id in old(running) then [Stopped(id, old(running)[id])] else []
    {
      if id !in running {
        return Some(NotRunning);
      }
      acts := acts + [Stopped(id, running[id])];
      running := running - {id};
      return None;
    }

    method BuildAndRunSubAgent(id: AgentId, agentType: AgentTypeId, io: AgentIo) returns (error: Option<Fault>)
      modifies this`running, this`acts
      ensures error == if io.build.Some? then None else Some(BuildFailed)
      ensures running
              == if io.build.Some? then old(running)[id := Instance(agentType, io.build.value)] else old(running)
      ensures acts == old(acts) + if io.build.Some? then [Built(id, Instance(agentType, io.build.value))] else []
    {
      if io.build.None? {
        return Some(BuildFailed);
      }
      running := running[id := Instance(agentType, io.build.value)];
      acts := acts + [Built(id, Instance(agentType, io.build.value))];
      return None;
    }

    method RecreateSubAgent(id: AgentId, agentType: AgentTypeId, io: AgentIo) returns (error: Option<Fault>)
      modifies this`running, this`acts
      ensures
        var f := Recreate(Fleet(old(running), [], []), id, agentType, io);
        && running == f.running && acts == old(acts) + f.acts
        && (if error.Some? then [AgentError(id, error.value)] else []) == f.errors
    {
      error := StopAndRemoveSubAgent(id);
      if error.Some? {
        return;
      }
      error := BuildAndRunSubAgent(id, agentType, io);
    }

    /** One turn of the first loop of `apply_remote_config_agents`. */
    method ApplyWanted(id: AgentId, wanted: Agents, io: AgentIo) returns (error: Option<Fault>)
      requires id in wanted
      modifies this`running, this`acts
      ensures
        var f := VisitWanted(Fleet(old(running), [], []), id, current.agents, wanted, io);
        && running == f.running && acts == old(acts) + f.acts
        && (if error.Some? then [AgentError(id, error.value)] else []) == f.errors
    {
      if id in current.agents && current.agents[id] == wanted[id] {
        error := None;
      } else if id in current.agents {
        error := RecreateSubAgent(id, wanted[id], io);
      } else {
        error := BuildAndRunSubAgent(id, wanted[id], io);
      }
    }

    /** One turn of the second loop. */
    method ApplyRemoved(id: AgentId, io: AgentIo) returns (errors: seq<AgentError>)
      requires id in current.agents
      modifies this`running, this`acts
      ensures
        var f := VisitRemoved(Fleet(old(running), [], []), id, current.agents, io);
        running == f.running && acts == old(acts) + f.acts && errors == f.errors
    {
      errors := [];
      var error := StopAndRemoveSubAgent(id);
      if error.Some? {
        errors := errors + [AgentError(id, error.value)];
      }
      acts := acts + [CleanAttempted(id, current.agents[id])];
      if !io.cleanOk {
        errors := errors + [AgentError(id, CleanFailed)];
      }
      acts := acts + [RemovalBroadcast(id)];
    }

    /** One turn of the first loop, with what it adds to the acts and errors. */
    method ApplyNextWanted(id: AgentId, wanted: Agents, io: AgentIo, errors0: seq<AgentError>, ghost base: seq<Act>,
                           ghost mine0: seq<Act>)
      returns (errors: seq<AgentError>, ghost mine: seq<Act>)
      requires id in wanted && acts == base + mine0
      modifies this`running, this`acts
      ensures acts == base + mine
      ensures Fleet(running, mine, errors)
              == VisitWanted(Fleet(old(running), mine0, errors0), id, current.agents, wanted, io)
    {
      var error := ApplyWanted(id, wanted, io);
      errors := errors0;
      if error.Some? {
        errors := errors + [AgentError(id, error.value)];
      }
      ghost var f := VisitWanted(Fleet(old(running), [], []), id, current.agents, wanted, io);
      WantedShift(Fleet(old(running), mine0, errors0), id, current.agents, wanted, io);
      Regroup(base, mine0, f.acts);
      mine := mine0 + f.acts;
    }

    /** The first loop of `apply_remote_config_agents`, over the wanted agents in any order. */
    method ApplyAllWanted(wanted: Agents, io: AgentId -> AgentIo)
      returns (errors: seq<AgentError>, ghost mine: seq<Act>, ghost first: seq<AgentId>)
      modifies this`running, this`acts
      ensures acts == old(acts) + mine && Enumerates(first, wanted.Keys)
      ensures Fleet(running, mine, errors)
              == VisitAllWanted(Fleet(old(running), [], []), first, current.agents, wanted, io)
    {
      ghost var start := Fleet(running, [], []);
      errors, mine, first := [], [], [];
      var todo := wanted.Keys;
      while todo != {}
        invariant todo <= wanted.Keys && Enumerates(first, wanted.Keys - todo)
        invariant acts == old(acts) + mine
        invariant Fleet(running, mine, errors) == VisitAllWanted(start, first, current.agents, wanted, io)
      {
        var id :| id in todo;
        VisitedOneMore(start, first, id, current.agents, wanted, io);
        errors, mine := ApplyNextWanted(id, wanted, io(id), errors, old(acts), mine);
        EnumeratesMore(first, wanted.Keys - todo, id);
        first := first + [id];
        assert wanted.Keys - (todo - {id}) == wanted.Keys - todo + {id};
        todo := todo - {id};
      }
      assert wanted.Keys - todo == wanted.Keys;
    }

    /** `apply_remote_config_agents`: whatever order the maps are walked in, the agents end up with the
        order-free outcome, and each has its own share of the acts and errors. */
    method ApplyRemoteConfigAgents(wanted: Agents, io: AgentId -> AgentIo) returns (errors: seq<AgentError>)
      modifies this`running, this`acts
      ensures running == Reconciled(old(running), current.agents, wanted, io)
      ensures errors == [] <==> AllWell(old(running), current.agents, wanted, io)
      ensures old(acts) <= acts
      ensures forall id :: ShareOf(Fleet(running, acts[|old(acts)|..], errors), id)
                           == FateOf(id, old(running), current.agents, wanted, io)
    {
      ghost var mine, first;
      errors, mine, first := ApplyAllWanted(wanted, io);
      errors := RemoveUnwanted(wanted, io, errors, mine, first, Fleet(old(running), [], []), old(acts));
    }

    /** One turn of the second loop, with what it adds to the acts and errors. */
    method ApplyNextRemoved(id: AgentId, io: AgentIo, errors0: seq<AgentError>, ghost base: seq<Act>,
                            ghost mine0: seq<Act>)
      returns (errors: seq<AgentError>, ghost mine: seq<Act>)
      requires id in current.agents && acts == base + mine0
      modifies this`running, this`acts
      ensures acts == base + mine
      ensures Fleet(running, mine, errors) == VisitRemoved(Fleet(old(running), mine0, errors0), id, current.agents, io)
    {
      var more := ApplyRemoved(id, io);
      errors := errors0 + more;
      ghost var f := VisitRemoved(Fleet(old(running), [], []), id, current.agents, io);
      RemovedShift(Fleet(old(running), mine0, errors0), id, current.agents, io);
      Regroup(base, mine0, f.acts);
      mine := mine0 + f.acts;
    }

    /** The second loop of `apply_remote_config_agents`, over the agents no longer wanted in any order. */
    method RemoveUnwanted(wanted: Agents, io: AgentId -> AgentIo, errors0: seq<AgentError>, ghost mine0: seq<Act>,
                          ghost first: seq<AgentId>, ghost start: Fleet, ghost base: seq<Act>)
      returns (errors: seq<AgentError>)
      requires acts == base + mine0 && start.acts == [] && start.errors == []
      requires Enumerates(first, wanted.Keys)
      requires Fleet(running, mine0, errors0) == VisitAllWanted(start, first, current.agents, wanted, io)
      modifies this`running, this`acts
      ensures running == Reconciled(start.running, current.agents, wanted, io)
      ensures errors == [] <==> AllWell(start.running, current.agents, wanted, io)
      ensures base <= acts
      ensures forall id :: ShareOf(Fleet(running, acts[|base|..], errors), id)
                           == FateOf(id, start.running, current.agents, wanted, io)
    {
      errors := errors0;
      ghost var visited := Fleet(running, mine0, errors0);
      ghost var mine, second: seq<AgentId> := mine0, [];
      ghost var unwanted := current.agents.Keys - wanted.Keys;
      var todo := current.agents.Keys - wanted.Keys;
      while todo != {}
        invariant todo <= unwanted && Enumerates(second, unwanted - todo)
        invariant acts == base + mine
        invariant Fleet(running, mine, errors) == VisitAllRemoved(visited, second, current.agents, io)
      {
        var id :| id in todo;
        assert (second + [id])[..|second|] == second;
        errors, mine := ApplyNextRemoved(id, io(id), errors, base, mine);
        EnumeratesMore(second, unwanted - todo, id);
        second := second + [id];
        assert unwanted - (todo - {id}) == unwanted - todo + {id};
        todo := todo - {id};
      }
      assert unwanted - todo == unwanted;
      assert acts[|base|..] == mine;
      ReconcileIsOrderFree(start.running, first, second, current.agents, wanted, io);
      WalkDecidesFates(start.running, first, second, current.agents, wanted, io);
    }

    // ---- Remote configurations ----

    method ReportState(hash: Hash, state: ConfigState, ok: bool)
      requires Valid()
      modifies this`reports, this`log
      ensures Did(if ok then Reporting(hash, state) else [])
      ensures State().stored == old(State().stored)
    {
      if ok {
        reports := reports + [StatusReport(hash, state)];
        log := log + [Report(StatusReport(hash, state))];
        Logged(Report(StatusReport(hash, state)));
      }
    }

    method StoreConfig(config: RemoteConfig, ok: bool)
      requires Valid()
      modifies this`log, repo`remote
      ensures Did(if ok then [Store(config)] else [])
    {
      var error := repo.StoreRemote(AGENT_CONTROL_ID, config, ok);
      if error.None? {
        log := log + [Store(config)];
        Logged(Store(config));
      }
    }

    method DeleteConfig(ok: bool)
      requires Valid()
      modifies this`log, repo`remote
      ensures Did(if ok then [Delete] else [])
    {
      var error := repo.DeleteRemote(AGENT_CONTROL_ID, ok);
      if error.None? {
        log := log + [Delete];
        Logged(Delete);
      }
    }

    /** Fails when nothing is stored, as well as when the store does. */
    method PersistState(state: ConfigState, readOk: bool, writeOk: bool) returns (done: bool)
      requires Valid()
      modifies this`log, repo`remote
      ensures done == (readOk && writeOk && old(State().stored).Some?)
      ensures Did(if done then [Persist(state)] else [])
    {
      var error := repo.UpdateState(AGENT_CONTROL_ID, state, readOk, writeOk);
      done := error.None?;
      if done {
        log := log + [Persist(state)];
        Logged(Persist(state));
      }
    }

    /** The checks and writes of `validate_apply_store_remote_config` before the agents are touched. */
    method PrepareConfig(config: Incoming, io: Io) returns (wanted: Option<Dynamic>)
      requires Valid()
      modifies this`log, repo`remote
      ensures Did(Prepare(config, io).written)
      ensures wanted == if Prepare(config, io).Reached? then Some(Prepare(config, io).wanted) else None
    {
      if config.preFailed.Some? || !io.validated {
        return None;
      }
      var dynamic;
      if config.empty {
        DeleteConfig(io.deleteOk);
        if !io.deleteOk || io.local.None? {
          return None;
        }
        dynamic := io.local.value;
      } else {
        if io.merged.None? {
          return None;
        }
        dynamic := io.merged.value;
      }
      if !io.accepted || !io.updated {
        return None;
      }
      if !config.empty {
        if io.encoded.None? {
          return None;
        }
        StoreConfig(RemoteConfig(io.encoded.value, config.hash, Applying), io.storeOk);
        if !io.storeOk {
          return None;
        }
      }
      return Some(dynamic);
    }

    /** What `handle_remote_config` does once the agents were reconciled. */
    method ConcludeConfig(hash: Hash, state: ConfigState, io: Io) returns (done: bool)
      requires Valid()
      modifies this`reports, this`log, repo`remote
      ensures Did(Conclude(old(State().stored), hash, state, io))
      ensures done == BookkeepingDone(old(State().stored), io)
    {
      var persisted := PersistState(state, io.updateReadOk, io.updateWriteOk);
      if !persisted {
        return false;
      }
      ReportState(hash, state, io.reported);
      return io.reported && io.published;
    }

    method ReconcileAndConclude(config: Incoming, wanted: Dynamic, io: Io) returns (applied: Option<Dynamic>)
      requires Valid() && Prepare(config, io).Reached? && Prepare(config, io).wanted == wanted
      modifies this`running, this`acts, this`reports, this`log, repo`remote
      ensures running == Reconciled(old(running), current.agents, wanted.agents, io.agents)
      ensures Did(Conclude(old(State().stored), config.hash, Verdict(old(Whole()), config, io), io))
      ensures applied == if AllWell(old(running), current.agents, wanted.agents, io.agents)
                            && BookkeepingDone(old(State().stored), io) then Some(wanted) else None
      ensures old(acts) <= acts
      ensures forall id :: ActsOf(acts[|old(acts)|..], id)
                           == FateOf(id, old(running), current.agents, wanted.agents, io.agents).acts
    {
      var errors := ApplyRemoteConfigAgents(wanted.agents, io.agents);
      assert forall id :: ActsOf(acts[|old(acts)|..], id)
                          == ShareOf(Fleet(running, acts[|old(acts)|..], errors), id).acts;
      if errors != [] {
        var state := Failed("Error applying Agent Control remote config for some agents: " + io.text);
        var _ := ConcludeConfig(config.hash, state, io);
        return None;
      }
      var done := ConcludeConfig(config.hash, Applied, io);
      return if done then Some(wanted) else None;
    }

    /** What `handle_remote_config` does with the result of the preparation. */
    method FinishConfig(config: Incoming, wanted: Option<Dynamic>, io: Io) returns (applied: Option<Dynamic>)
      requires Valid()
      requires wanted == if Prepare(config, io).Reached? then Some(Prepare(config, io).wanted) else None
      modifies this`running, this`acts, this`reports, this`log, repo`remote
      ensures Did(Finish(old(Whole()), old(State().stored), config, io))
      ensures running
              == if wanted.Some? then Reconciled(old(running), current.agents, wanted.value.agents, io.agents)
                 else old(running)
      ensures applied == if wanted.Some? && AllWell(old(running), current.agents, wanted.value.agents, io.agents)
                            && BookkeepingDone(old(State().stored), io) then wanted else None
      ensures old(acts) <= acts && (io.announced ==> ActedOn(acts[|old(acts)|..], old(Whole()), config, io))
    {
      if wanted.None? {
        ReportState(config.hash, Failed("Error applying Agent Control remote config: " + io.text), io.reported);
        return None;
      }
      applied := ReconcileAndConclude(config, wanted.value, io);
    }

    method AnnounceAndPrepare(config: Incoming, io: Io) returns (wanted: Option<Dynamic>)
      requires Valid() && io.announced
      modifies this`reports, this`log, repo`remote
      ensures Did(Reporting(config.hash, Applying) + Prepare(config, io).written)
      ensures State().stored == StoredAfter(old(Whole()), Prepare(config, io))
      ensures wanted == if Prepare(config, io).Reached? then Some(Prepare(config, io).wanted) else None
    {
      ReportState(config.hash, Applying, true);
      ghost var announced := log;
      wanted := PrepareConfig(config, io);
      assert log[|announced|..] == Prepare(config, io).written;
      SavedBy(announced);
      Regroup(old(log), Reporting(config.hash, Applying), Prepare(config, io).written);
    }

    method HandleRemoteConfig(config: Incoming, io: Io) returns (applied: Option<Dynamic>)
      requires Valid()
      modifies this`running, this`acts, this`reports, this`log, repo`remote
      ensures Did(Effects(old(Whole()), config, io))
      ensures running == Deliver(old(Whole()), config, io).running
      ensures applied == if Advances(old(Whole()), config, io) then Some(Prepare(config, io).wanted) else None
      ensures old(acts) <= acts && ActedOn(acts[|old(acts)|..], old(Whole()), config, io)
    {
      if !io.announced {
        return None;
      }
      var wanted := AnnounceAndPrepare(config, io);
      ghost var prepared := log;
      ghost var before := Whole();
      applied := FinishConfig(config, wanted, io);
      assert forall id :: DeliveryActs(before, config, io, id) == DeliveryActs(old(Whole()), config, io, id);
      Regroup(old(log), Reporting(config.hash, Applying) + Prepare(config, io).written, log[|prepared|..]);
    }

    /** What is stored after the preparation follows from what it wrote. */
    twostate lemma SavedBy(announced: seq<Effect>)
      requires old(Valid()) && Valid() && origin == old(origin)
      requires |announced| == |old(log)| + 1 && announced[..|old(log)|] == old(log) && announced[|old(log)|].Report?
      requires announced <= log
      ensures State().stored == Replay(old(State()), log[|announced|..]).stored
    {
      var report, written := announced[|old(log)|], log[|announced|..];
      assert log == announced + written && announced == old(log) + [report];
      ReplayAppend(origin, announced, written);
      ReplayAppend(origin, old(log), [report]);
      ThroughoutOne(old(State()), report);
      StoredIgnoresReports(Do(old(State()), report), old(State()).reports, written);
    }

    /** `StartedSubAgents::stop`: each running agent is stopped once, in any order. */
    method StopAllSubAgents()
      modifies this`running, this`acts
      ensures running == map[]
      ensures old(acts) <= acts
      ensures EachStopped(acts[|old(acts)|..], old(running), map[])
    {
      ghost var mine: seq<Act> := [];
      while running != map[]
        invariant acts == old(acts) + mine
        invariant EachStopped(mine, old(running), running)
        decreases |running|
      {
        var id :| id in running;
        ghost var stopped := Stopped(id, running[id]);
        OneMoreStopped(mine, old(running), running, id);
        var _ := StopAndRemoveSubAgent(id);
        Regroup(old(acts), mine, [stopped]);
        mine := mine + [stopped];
      }
      assert acts[|old(acts)|..] == mine;
    }

    /** The event loop: an applied configuration becomes the current one, a shutdown ends it. What it does with each
        agent is what the lifetime theorems count. */
    method ProcessEvents(events: seq<ControlEvent>) returns (reason: Option<ShutdownReason>)
      requires Valid()
      modifies this`running, this`current, this`acts, this`reports, this`log, repo`remote
      ensures Valid() && (Whole(), reason) == Serve(old(Whole()), events)
      ensures old(acts) <= acts
      ensures forall id :: ActsOf(acts[|old(acts)|..], id) == LoopActs(old(Whole()), events, id)
    {
      var i := 0;
      ghost var mine: seq<Act> := [];
      assert events[0..] == events;
      while i < |events|
        invariant 0 <= i <= |events|
        invariant Valid() && Serve(old(Whole()), events) == Serve(Whole(), events[i..])
        invariant acts == old(acts) + mine && ActedSoFar(mine, old(Whole()), events, Whole(), events[i..])
      {
        assert events[i..] == [events[i]] + events[i + 1..] && events[i..][1..] == events[i + 1..];
        ghost var before, now := acts, Whole();
        match events[i] {
          case Notice =>
            ActedPast(mine, old(Whole()), events, now, events[i..]);
            assert mine + acts[|before|..] == mine;
          case RemoteConfigReceived(delivery) =>
            ProcessOne(delivery.config, delivery.io);
            ActedMore(mine, acts[|before|..], old(Whole()), events, now, delivery, events[i + 1..]);
          case Shutdown(why) =>
            StopAllSubAgents();
            ActedAll(mine, acts[|before|..], old(Whole()), events, now, events[i..]);
            assert acts[|old(acts)|..] == mine + acts[|before|..];
            return Some(why);
        }
        mine := mine + acts[|before|..];
        i := i + 1;
      }
      assert acts[|old(acts)|..] == mine;
      return None;
    }

    method ProcessOne(config: Incoming, io: Io)
      requires Valid()
      modifies this`running, this`current, this`acts, this`reports, this`log, repo`remote
      ensures Valid() && Whole() == Deliver(old(Whole()), config, io)
      ensures old(acts) <= acts && ActedOn(acts[|old(acts)|..], old(Whole()), config, io)
    {
      var applied := HandleRemoteConfig(config, io);
      ReplayAppend(origin, old(log), Effects(old(Whole()), config, io));
      if applied.Some? {
        current := applied.value;
      }
    }

    // ---- Start ----

    method BuildAndRunSubAgents(agents: Agents, io: AgentId -> AgentIo) returns (errors: seq<AgentError>)
      modifies this`running, this`acts
      ensures running == BootFleet(agents, io)
      ensures errors == [] <==> forall id :: id in agents ==> io(id).build.Some?
      ensures old(acts) <= acts && StartedBut(acts[|old(acts)|..], agents, {}, io)
    {
      running := map[];
      errors := [];
      var todo := agents.Keys;
      ghost var mine: seq<Act> := [];
      while todo != {}
        invariant todo <= agents.Keys
        invariant running == BootFleet(agents - todo, io)
        invariant errors == [] <==> forall id :: id in agents && id !in todo ==> io(id).build.Some?
        invariant acts == old(acts) + mine && StartedBut(mine, agents, todo, io)
      {
        var id :| id in todo;
        var error := BuildAndRunSubAgent(id, agents[id], io(id));
        if error.Some? {
          errors := errors + [AgentError(id, error.value)];
        }
        FleetOneMore(agents, todo, io, id);
        StartedOneMore(mine, agents, todo, io, id);
        Regroup(old(acts), mine, StartActs(agents, io, id));
        mine := mine + StartActs(agents, io, id);
        todo := todo - {id};
      }
      assert agents - todo == agents;
      assert acts[|old(acts)|..] == mine;
    }

    /** The start of `run`: builds the current configuration's agents and, with an OpAMP client, corrects the
        stored status. A report, an update or the effective configuration that cannot be sent ends it. */
    method Start(io: AgentId -> AgentIo, text: string, opamp: bool, readOk: bool, reported: bool,
                 updateReadOk: bool, updateWriteOk: bool, published: bool)
      returns (started: bool)
      requires Valid()
      modifies this`running, this`acts, this`reports, this`log, repo`remote
      ensures running == BootFleet(current.agents, io)
      ensures old(acts) <= acts && StartedBut(acts[|old(acts)|..], current.agents, {}, io)
      ensures
        var stored, state := old(State().stored), BootState(current.agents, io, text);
        var updateOk := updateReadOk && updateWriteOk;
        && Did(if opamp then BootEffects(stored, state, readOk, reported, updateOk) else [])
        && (started <==> !opamp || (published && (Corrects(stored, state, readOk, true) ==> reported && updateOk)))
    {
      var errors := BuildAndRunSubAgents(current.agents, io);
      var state := if errors == [] then Applied else Failed("Failed to build and start agents: " + text);
      if !opamp {
        return true;
      }
      var stored := repo.GetRemoteConfig(AGENT_CONTROL_ID, readOk);
      if stored.Success? && stored.value.Some? && stored.value.value.state != state {
        ReportState(stored.value.value.hash, state, reported);
        if !reported {
          return false;
        }
        var persisted := PersistState(state, updateReadOk, updateWriteOk);
        if !persisted {
          return false;
        }
      }
      return published;
    }
  }

  lemma VisitedOneMore(f: Fleet, order: seq<AgentId>, id: AgentId, current: Agents, wanted: Agents,
                       io: AgentId -> AgentIo)
    requires id in wanted && forall x :: x in order ==> x in wanted
    ensures VisitAllWanted(f, order + [id], current, wanted, io)
         == VisitWanted(VisitAllWanted(f, order, current, wanted, io), id, current, wanted, io(id))
  {
    assert (order + [id])[..|order|] == order;
  }

  /** Visits only append to the acts and errors so far. */
  lemma WantedShift(f: Fleet, id: AgentId, current: Agents, wanted: Agents, io: AgentIo)
    requires id in wanted
    ensures
      var alone := VisitWanted(Fleet(f.running, [], []), id, current, wanted, io);
      VisitWanted(f, id, current, wanted, io) == Fleet(alone.running, f.acts + alone.acts, f.errors + alone.errors)
  {
  }

  lemma RemovedShift(f: Fleet, id: AgentId, current: Agents, io: AgentIo)
    requires id in current
    ensures
      var alone := VisitRemoved(Fleet(f.running, [], []), id, current, io);
      VisitRemoved(f, id, current, io) == Fleet(alone.running, f.acts + alone.acts, f.errors + alone.errors)
  {
  }
}
