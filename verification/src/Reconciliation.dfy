/** Reconciling the running sub-agents with a new configuration, with partial failure
    (agent-control/src/agent_control.rs, agent-control/src/sub_agent/collection.rs). */
module Reconciliation {
  import opened ConfigTypes
  import opened ConfigRepository
  import opened AgentTypeIds
  import DynamicConfig

  type Agents = DynamicConfig.Agents

  /** A started sub-agent; the serial tells two instances of the same type apart. */
  datatype Instance = Instance(agentType: AgentTypeId, serial: nat)

  type Running = map<AgentId, Instance>

  /** How the builder and the resource cleaner answer for one agent; each is asked at most once. */
  datatype AgentIo = AgentIo(build: Option<nat>, cleanOk: bool)

  datatype Act =
    | Stopped(id: AgentId, instance: Instance)
    | Built(id: AgentId, instance: Instance)
    | CleanAttempted(id: AgentId, agentType: AgentTypeId)
    | RemovalBroadcast(id: AgentId)

  datatype Fault = BuildFailed | NotRunning | CleanFailed

  datatype AgentError = AgentError(id: AgentId, fault: Fault)

  datatype Fleet = Fleet(running: Running, acts: seq<Act>, errors: seq<AgentError>)

  // ---- The loop bodies ----

  function StopAndRemove(f: Fleet, id: AgentId): Fleet {
    if id in f.running then Fleet(f.running - {id}, f.acts + [Stopped(id, f.running[id])], f.errors)
    else f.(errors := f.errors + [AgentError(id, NotRunning)])
  }

  function BuildAndRun(f: Fleet, id: AgentId, agentType: AgentTypeId, io: AgentIo): Fleet {
    match io.build
    case None => f.(errors := f.errors + [AgentError(id, BuildFailed)])
    case Some(serial) =>
      var instance := Instance(agentType, serial);
      Fleet(f.running[id := instance], f.acts + [Built(id, instance)], f.errors)
  }

  /** `recreate_sub_agent`: an agent that cannot be stopped is not rebuilt either. */
  function Recreate(f: Fleet, id: AgentId, agentType: AgentTypeId, io: AgentIo): Fleet {
    if id in f.running then BuildAndRun(StopAndRemove(f, id), id, agentType, io) else StopAndRemove(f, id)
  }

  function VisitWanted(f: Fleet, id: AgentId, current: Agents, wanted: Agents, io: AgentIo): Fleet
    requires id in wanted
  {
    if id in current && current[id] == wanted[id] then f
    else if id in current then Recreate(f, id, wanted[id], io)
    else BuildAndRun(f, id, wanted[id], io)
  }

  function VisitRemoved(f: Fleet, id: AgentId, current: Agents, io: AgentIo): Fleet
    requires id in current
  {
    Clean(StopAndRemove(f, id), id, current[id], io)
  }

  /** One clean attempt and one removal broadcast, whether or not the agent could be stopped. */
  function Clean(f: Fleet, id: AgentId, agentType: AgentTypeId, io: AgentIo): Fleet {
    Fleet(f.running, f.acts + [CleanAttempted(id, agentType), RemovalBroadcast(id)],
          f.errors + if io.cleanOk then [] else [AgentError(id, CleanFailed)])
  }

  // ---- Any enumeration order ----

  function VisitAllWanted(f: Fleet, order: seq<AgentId>, current: Agents, wanted: Agents, io: AgentId -> AgentIo): Fleet
    requires forall id :: id in order ==> id in wanted
  {
    if order == [] then f
    else
      var last := order[|order| - 1];
      VisitWanted(VisitAllWanted(f, order[..|order| - 1], current, wanted, io), last, current, wanted, io(last))
  }

  function VisitAllRemoved(f: Fleet, order: seq<AgentId>, current: Agents, io: AgentId -> AgentIo): Fleet
    requires forall id :: id in order ==> id in current
  {
    if order == [] then f
    else
      var last := order[|order| - 1];
      VisitRemoved(VisitAllRemoved(f, order[..|order| - 1], current, io), last, current, io(last))
  }

  // ---- One agent's share of a fleet ----

  function ActsOf(acts: seq<Act>, id: AgentId): seq<Act> {
    if acts == [] then []
    else
      var last := acts[|acts| - 1];
      ActsOf(acts[..|acts| - 1], id) + if last.id == id then [last] else []
  }

  function FaultsOf(errors: seq<AgentError>, id: AgentId): seq<Fault> {
    if errors == [] then []
    else
      var last := errors[|errors| - 1];
      FaultsOf(errors[..|errors| - 1], id) + if last.id == id then [last.fault] else []
  }

  datatype Share = Share(now: Option<Instance>, acts: seq<Act>, faults: seq<Fault>)

  function ShareOf(f: Fleet, id: AgentId): Share {
    Share(Lookup(f.running, id), ActsOf(f.acts, id), FaultsOf(f.errors, id))
  }

  function StopFate(id: AgentId, was: Share): Share {
    if was.now.Some? then Share(None, was.acts + [Stopped(id, was.now.value)], was.faults)
    else was.(faults := was.faults + [NotRunning])
  }

  function BuildFate(id: AgentId, was: Share, agentType: AgentTypeId, io: AgentIo): Share {
    match io.build
    case None => was.(faults := was.faults + [BuildFailed])
    case Some(serial) =>
      var instance := Instance(agentType, serial);
      Share(Some(instance), was.acts + [Built(id, instance)], was.faults)
  }

  function CleanFate(id: AgentId, was: Share, agentType: AgentTypeId, io: AgentIo): Share {
    Share(was.now, was.acts + [CleanAttempted(id, agentType), RemovalBroadcast(id)],
          was.faults + if io.cleanOk then [] else [CleanFailed])
  }

  /** What reconciliation does to one agent, from its own history and its own collaborators alone. */
  function Fate(id: AgentId, was: Share, current: Agents, wanted: Agents, io: AgentIo): Share {
    if id in wanted then
      if id !in current then BuildFate(id, was, wanted[id], io)
      else if current[id] == wanted[id] then was
      else if was.now.Some? then BuildFate(id, StopFate(id, was), wanted[id], io)
      else StopFate(id, was)
    else if id in current then CleanFate(id, StopFate(id, was), current[id], io)
    else was
  }

  lemma {:induction false} ActsAppend(acts: seq<Act>, more: seq<Act>, id: AgentId)
    ensures ActsOf(acts + more, id) == ActsOf(acts, id) + ActsOf(more, id)
  {
    if more == [] {
      assert acts + more == acts;
    } else {
      assert (acts + more)[..|acts + more| - 1] == acts + more[..|more| - 1];
      ActsAppend(acts, more[..|more| - 1], id);
    }
  }

  lemma {:induction false} FaultsAppend(errors: seq<AgentError>, more: seq<AgentError>, id: AgentId)
    ensures FaultsOf(errors + more, id) == FaultsOf(errors, id) + FaultsOf(more, id)
  {
    if more == [] {
      assert errors + more == errors;
    } else {
      assert (errors + more)[..|errors + more| - 1] == errors + more[..|more| - 1];
      FaultsAppend(errors, more[..|more| - 1], id);
    }
  }

  lemma ActsPart(acts: seq<Act>, more: seq<Act>, id: AgentId, other: AgentId)
    requires forall a :: a in more ==> a.id == id
    ensures ActsOf(acts + more, id) == ActsOf(acts, id) + more
    ensures other != id ==> ActsOf(acts + more, other) == ActsOf(acts, other)
  {
    ActsAppend(acts, more, id);
    ActsAppend(acts, more, other);
    SmallActs(more, id, other);
    assert ActsOf(acts, other) + [] == ActsOf(acts, other);
  }

  lemma FaultsPart(errors: seq<AgentError>, more: seq<AgentError>, id: AgentId, other: AgentId)
    requires |more| <= 1 && forall e :: e in more ==> e.id == id
    ensures FaultsOf(errors + more, id) == FaultsOf(errors, id) + if more == [] then [] else [more[0].fault]
    ensures other != id ==> FaultsOf(errors + more, other) == FaultsOf(errors, other)
  {
    FaultsAppend(errors, more, id);
    FaultsAppend(errors, more, other);
    assert FaultsOf(errors, other) + [] == FaultsOf(errors, other);
    if more != [] {
      assert more[0] in more && more[..0] == [] && FaultsOf(more[..0], id) == [] && FaultsOf(more[..0], other) == [];
    }
  }

  /** Adding to a fleet things that concern `id` only. */
  lemma ShareAppend(f: Fleet, g: Fleet, id: AgentId, acts: seq<Act>, faults: seq<AgentError>, other: AgentId)
    requires g.acts == f.acts + acts && g.errors == f.errors + faults
    requires g.running - {id} == f.running - {id}
    requires (forall a :: a in acts ==> a.id == id) && (forall e :: e in faults ==> e.id == id)
    requires |acts| <= 2 && |faults| <= 1
    ensures other != id ==> ShareOf(g, other) == ShareOf(f, other)
    ensures ActsOf(g.acts, id) == ActsOf(f.acts, id) + acts
    ensures FaultsOf(g.errors, id) == FaultsOf(f.errors, id) + if faults == [] then [] else [faults[0].fault]
  {
    ActsPart(f.acts, acts, id, other);
    FaultsPart(f.errors, faults, id, other);
    if other != id {
      assert Lookup(g.running, other) == Lookup(g.running - {id}, other);
      assert Lookup(f.running, other) == Lookup(f.running - {id}, other);
    }
  }

  lemma {:induction false} OwnActs(acts: seq<Act>, id: AgentId)
    requires forall i :: 0 <= i < |acts| ==> acts[i].id == id
    ensures ActsOf(acts, id) == acts
  {
    if acts != [] {
      var init, last := acts[..|acts| - 1], acts[|acts| - 1];
      OwnActs(init, id);
      assert acts == init + [last];
    }
  }

  lemma {:induction false} ForeignActs(acts: seq<Act>, id: AgentId)
    requires forall i :: 0 <= i < |acts| ==> acts[i].id != id
    ensures ActsOf(acts, id) == []
  {
    if acts != [] {
      ForeignActs(acts[..|acts| - 1], id);
    }
  }

  lemma SmallActs(acts: seq<Act>, id: AgentId, other: AgentId)
    requires forall a :: a in acts ==> a.id == id
    ensures ActsOf(acts, id) == acts
    ensures other != id ==> ActsOf(acts, other) == []
  {
    assert forall i :: 0 <= i < |acts| ==> acts[i] in acts;
    OwnActs(acts, id);
    if other != id {
      ForeignActs(acts, other);
    }
  }

  lemma StopShare(f: Fleet, id: AgentId, other: AgentId)
    ensures other != id ==> ShareOf(StopAndRemove(f, id), other) == ShareOf(f, other)
    ensures ShareOf(StopAndRemove(f, id), id) == StopFate(id, ShareOf(f, id))
  {
    if id in f.running {
      ShareAppend(f, StopAndRemove(f, id), id, [Stopped(id, f.running[id])], [], other);
    } else {
      ShareAppend(f, StopAndRemove(f, id), id, [], [AgentError(id, NotRunning)], other);
    }
  }

  lemma BuildShare(f: Fleet, id: AgentId, agentType: AgentTypeId, io: AgentIo, other: AgentId)
    ensures other != id ==> ShareOf(BuildAndRun(f, id, agentType, io), other) == ShareOf(f, other)
    ensures ShareOf(BuildAndRun(f, id, agentType, io), id) == BuildFate(id, ShareOf(f, id), agentType, io)
  {
    if io.build.None? {
      ShareAppend(f, BuildAndRun(f, id, agentType, io), id, [], [AgentError(id, BuildFailed)], other);
    } else {
      var instance := Instance(agentType, io.build.value);
      ShareAppend(f, BuildAndRun(f, id, agentType, io), id, [Built(id, instance)], [], other);
    }
  }

  lemma CleanShare(f: Fleet, id: AgentId, agentType: AgentTypeId, io: AgentIo, other: AgentId)
    ensures other != id ==> ShareOf(Clean(f, id, agentType, io), other) == ShareOf(f, other)
    ensures ShareOf(Clean(f, id, agentType, io), id) == CleanFate(id, ShareOf(f, id), agentType, io)
  {
    ShareAppend(f, Clean(f, id, agentType, io), id, [CleanAttempted(id, agentType), RemovalBroadcast(id)],
                if io.cleanOk then [] else [AgentError(id, CleanFailed)], other);
  }

  lemma RecreateShare(f: Fleet, id: AgentId, agentType: AgentTypeId, io: AgentIo, other: AgentId)
    ensures other != id ==> ShareOf(Recreate(f, id, agentType, io), other) == ShareOf(f, other)
    ensures
      var was := ShareOf(f, id);
      ShareOf(Recreate(f, id, agentType, io), id)
      == if was.now.Some? then BuildFate(id, StopFate(id, was), agentType, io) else StopFate(id, was)
  {
    StopShare(f, id, other);
    BuildShare(StopAndRemove(f, id), id, agentType, io, other);
  }

  /** Visiting an agent decides its fate and touches no other. */
  lemma WantedShare(f: Fleet, id: AgentId, current: Agents, wanted: Agents, io: AgentIo, other: AgentId)
    requires id in wanted
    ensures other != id ==> ShareOf(VisitWanted(f, id, current, wanted, io), other) == ShareOf(f, other)
    ensures ShareOf(VisitWanted(f, id, current, wanted, io), id) == Fate(id, ShareOf(f, id), current, wanted, io)
  {
    if id !in current {
      BuildShare(f, id, wanted[id], io, other);
    } else if current[id] != wanted[id] {
      RecreateShare(f, id, wanted[id], io, other);
    }
  }

  lemma RemovedShare(f: Fleet, id: AgentId, current: Agents, wanted: Agents, io: AgentIo, other: AgentId)
    requires id in current && id !in wanted
    ensures other != id ==> ShareOf(VisitRemoved(f, id, current, io), other) == ShareOf(f, other)
    ensures ShareOf(VisitRemoved(f, id, current, io), id) == Fate(id, ShareOf(f, id), current, wanted, io)
  {
    StopShare(f, id, other);
    CleanShare(StopAndRemove(f, id), id, current[id], io, other);
  }

  lemma {:induction false} AllWantedShare(f: Fleet, order: seq<AgentId>, current: Agents, wanted: Agents,
                                          io: AgentId -> AgentIo, id: AgentId)
    requires Distinct(order) && forall x :: x in order ==> x in wanted
    ensures ShareOf(VisitAllWanted(f, order, current, wanted, io), id)
            == if id in order then Fate(id, ShareOf(f, id), current, wanted, io(id)) else ShareOf(f, id)
  {
    if order != [] {
      var init, last := order[..|order| - 1], order[|order| - 1];
      var before := VisitAllWanted(f, init, current, wanted, io);
      assert order == init + [last] && last !in init;
      AllWantedShare(f, init, current, wanted, io, id);
      WantedShare(before, last, current, wanted, io(last), id);
      assert VisitAllWanted(f, order, current, wanted, io) == VisitWanted(before, last, current, wanted, io(last));
    }
  }

  lemma {:induction false} AllRemovedShare(f: Fleet, order: seq<AgentId>, current: Agents, wanted: Agents,
                                           io: AgentId -> AgentIo, id: AgentId)
    requires Distinct(order) && forall x :: x in order ==> x in current && x !in wanted
    ensures ShareOf(VisitAllRemoved(f, order, current, io), id)
            == if id in order then Fate(id, ShareOf(f, id), current, wanted, io(id)) else ShareOf(f, id)
  {
    if order != [] {
      var init, last := order[..|order| - 1], order[|order| - 1];
      var before := VisitAllRemoved(f, init, current, io);
      assert order == init + [last] && last !in init;
      AllRemovedShare(f, init, current, wanted, io, id);
      RemovedShare(before, last, current, wanted, io(last), id);
      assert VisitAllRemoved(f, order, current, io) == VisitRemoved(before, last, current, io(last));
    }
  }

  // ---- The whole reconciliation ----

  ghost predicate Orders(first: seq<AgentId>, second: seq<AgentId>, current: Agents, wanted: Agents) {
    Enumerates(first, wanted.Keys) && Enumerates(second, current.Keys - wanted.Keys)
  }

  /** `apply_remote_config_agents`, walking both maps in the given orders. */
  function Reconcile(f: Fleet, first: seq<AgentId>, second: seq<AgentId>, current: Agents, wanted: Agents,
                     io: AgentId -> AgentIo): Fleet
    requires Orders(first, second, current, wanted)
  {
    VisitAllRemoved(VisitAllWanted(f, first, current, wanted, io), second, current, io)
  }

  /** For every enumeration order, each agent meets the fate decided by its own entries and answers. */
  lemma FatesAreIndependent(f: Fleet, first: seq<AgentId>, second: seq<AgentId>, current: Agents, wanted: Agents,
                            io: AgentId -> AgentIo, id: AgentId)
    requires Orders(first, second, current, wanted)
    ensures ShareOf(Reconcile(f, first, second, current, wanted, io), id)
            == Fate(id, ShareOf(f, id), current, wanted, io(id))
  {
    AllWantedShare(f, first, current, wanted, io, id);
    AllRemovedShare(VisitAllWanted(f, first, current, wanted, io), second, current, wanted, io, id);
  }

  /** The running map after reconciliation, order-free. */
  function Reconciled(running: Running, current: Agents, wanted: Agents, io: AgentId -> AgentIo): Running {
    map id | id in running.Keys + wanted.Keys && FateOf(id, running, current, wanted, io).now.Some?
      :: FateOf(id, running, current, wanted, io).now.value
  }

  function FateOf(id: AgentId, running: Running, current: Agents, wanted: Agents, io: AgentId -> AgentIo): Share {
    Fate(id, Share(Lookup(running, id), [], []), current, wanted, io(id))
  }

  /** No agent reported a fault. */
  predicate AllWell(running: Running, current: Agents, wanted: Agents, io: AgentId -> AgentIo) {
    forall id :: id in current.Keys + wanted.Keys ==> FateOf(id, running, current, wanted, io).faults == []
  }

  lemma {:induction false} NoFaultsMeansNoErrors(errors: seq<AgentError>)
    ensures errors == [] <==> forall id :: FaultsOf(errors, id) == []
  {
    if errors != [] {
      assert FaultsOf(errors, errors[|errors| - 1].id) != [];
    }
  }

  /** A walk that starts with a clean slate gives every agent exactly its own fate. */
  lemma WalkDecidesFates(running: Running, first: seq<AgentId>, second: seq<AgentId>, current: Agents, wanted: Agents,
                         io: AgentId -> AgentIo)
    requires Orders(first, second, current, wanted)
    ensures forall id :: ShareOf(Reconcile(Fleet(running, [], []), first, second, current, wanted, io), id)
                         == FateOf(id, running, current, wanted, io)
  {
    forall id
      ensures ShareOf(Reconcile(Fleet(running, [], []), first, second, current, wanted, io), id)
              == FateOf(id, running, current, wanted, io)
    {
      FatesAreIndependent(Fleet(running, [], []), first, second, current, wanted, io, id);
    }
  }

  lemma FatesDetermineRunning(f: Fleet, running: Running, current: Agents, wanted: Agents, io: AgentId -> AgentIo)
    requires forall id :: ShareOf(f, id) == FateOf(id, running, current, wanted, io)
    ensures f.running == Reconciled(running, current, wanted, io)
  {
    forall id
      ensures Lookup(f.running, id) == Lookup(Reconciled(running, current, wanted, io), id)
    {
      assert ShareOf(f, id).now == FateOf(id, running, current, wanted, io).now;
    }
    SameLookups(f.running, Reconciled(running, current, wanted, io));
  }

  lemma FatesDetermineErrors(f: Fleet, running: Running, current: Agents, wanted: Agents, io: AgentId -> AgentIo)
    requires forall id :: ShareOf(f, id) == FateOf(id, running, current, wanted, io)
    ensures f.errors == [] <==> AllWell(running, current, wanted, io)
  {
    NoFaultsMeansNoErrors(f.errors);
    forall id
      ensures FaultsOf(f.errors, id) == FateOf(id, running, current, wanted, io).faults
      ensures id !in current.Keys + wanted.Keys ==> FaultsOf(f.errors, id) == []
    {
      assert ShareOf(f, id).faults == FateOf(id, running, current, wanted, io).faults;
    }
  }

  /** The running map after a walk does not depend on the order, and the walk reports an error exactly
      when some agent has a fault. */
  lemma ReconcileIsOrderFree(running: Running, first: seq<AgentId>, second: seq<AgentId>, current: Agents,
                             wanted: Agents, io: AgentId -> AgentIo)
    requires Orders(first, second, current, wanted)
    ensures
      var f := Reconcile(Fleet(running, [], []), first, second, current, wanted, io);
      f.running == Reconciled(running, current, wanted, io)
        && (f.errors == [] <==> AllWell(running, current, wanted, io))
  {
    var f := Reconcile(Fleet(running, [], []), first, second, current, wanted, io);
    WalkDecidesFates(running, first, second, current, wanted, io);
    FatesDetermineRunning(f, running, current, wanted, io);
    FatesDetermineErrors(f, running, current, wanted, io);
  }

  lemma SameLookups(a: Running, b: Running)
    requires forall id :: Lookup(a, id) == Lookup(b, id)
    ensures a == b
  {
    assert forall id :: id in a <==> Lookup(a, id).Some?;
    assert forall id :: id in b <==> Lookup(b, id).Some?;
    assert forall id :: id in a ==> Lookup(a, id) == Some(a[id]);
    assert forall id :: id in b ==> Lookup(b, id) == Some(b[id]);
  }

  /** What the walk promises each agent, spelled out: unchanged agents keep their very instance and
      nothing happens to them; a changed agent is stopped and then rebuilt, and is gone if that fails; an
      added one is built; a removed one is stopped,
      gets exactly one clean attempt and one broadcast; and no other agent's failure enters into it. */
  lemma PromisesToEachAgent(running: Running, first: seq<AgentId>, second: seq<AgentId>, current: Agents,
                            wanted: Agents, io: AgentId -> AgentIo, id: AgentId)
    requires Orders(first, second, current, wanted)
    ensures
      var f := Reconcile(Fleet(running, [], []), first, second, current, wanted, io);
      var acts := ActsOf(f.acts, id);
      && (id in wanted && id in current && current[id] == wanted[id] ==>
            acts == [] && Lookup(f.running, id) == Lookup(running, id))
      && (id in wanted && id in current && current[id] != wanted[id] && id in running && io(id).build.Some? ==>
            acts == [Stopped(id, running[id]), Built(id, Instance(wanted[id], io(id).build.value))]
            && Lookup(f.running, id) == Some(Instance(wanted[id], io(id).build.value)))
      && (id in wanted && id in current && current[id] != wanted[id] && (id !in running || io(id).build.None?) ==>
            acts == (if id in running then [Stopped(id, running[id])] else []) && id !in f.running)
      && (id in wanted && id !in current && io(id).build.None? ==>
            acts == [] && Lookup(f.running, id) == Lookup(running, id))
      && (id in wanted && id !in current && io(id).build.Some? ==>
            acts == [Built(id, Instance(wanted[id], io(id).build.value))]
            && Lookup(f.running, id) == Some(Instance(wanted[id], io(id).build.value)))
      && (id in current && id !in wanted ==>
            id !in f.running
            && acts == (if id in running then [Stopped(id, running[id])] else [])
                       + [CleanAttempted(id, current[id]), RemovalBroadcast(id)])
      && (id !in current && id !in wanted ==> acts == [] && Lookup(f.running, id) == Lookup(running, id))
  {
    var f := Reconcile(Fleet(running, [], []), first, second, current, wanted, io);
    FatesAreIndependent(Fleet(running, [], []), first, second, current, wanted, io, id);
    assert ShareOf(f, id) == FateOf(id, running, current, wanted, io);
  }

  /** And what it reports of each agent: a build that failed, a stop of one that does not run, a clean that failed,
      each exactly once and in that order, and nothing else. */
  lemma FaultsOfEachAgent(running: Running, first: seq<AgentId>, second: seq<AgentId>, current: Agents,
                          wanted: Agents, io: AgentId -> AgentIo, id: AgentId)
    requires Orders(first, second, current, wanted)
    ensures
      var f := Reconcile(Fleet(running, [], []), first, second, current, wanted, io);
      var changed := id in wanted && id in current && current[id] != wanted[id];
      var removed := id in current && id !in wanted;
      var added := id in wanted && id !in current;
      FaultsOf(f.errors, id)
      == (if (changed || removed) && id !in running then [NotRunning] else [])
         + (if (added || (changed && id in running)) && io(id).build.None? then [BuildFailed] else [])
         + (if removed && !io(id).cleanOk then [CleanFailed] else [])
  {
    var f := Reconcile(Fleet(running, [], []), first, second, current, wanted, io);
    FatesAreIndependent(Fleet(running, [], []), first, second, current, wanted, io, id);
    assert ShareOf(f, id) == FateOf(id, running, current, wanted, io);
  }

  function Builds(acts: seq<Act>): nat {
    if acts == [] then 0 else Builds(acts[1..]) + if acts[0].Built? then 1 else 0
  }

  function Stops(acts: seq<Act>): nat {
    if acts == [] then 0 else Stops(acts[1..]) + if acts[0].Stopped? then 1 else 0
  }

  /** The agent is built although an instance that the current configuration does not know is running. */
  predicate Overwrites(id: AgentId, running: Running, current: Agents, wanted: Agents, io: AgentId -> AgentIo) {
    id in wanted && id !in current && id in running && io(id).build.Some?
  }

  /** Every instance that is built is stopped or still runs, exactly unless the walk builds an agent that
      the current configuration does not know but that is running: the running instance is replaced
      without being stopped. */
  lemma InstancesAreConservedExactly(running: Running, first: seq<AgentId>, second: seq<AgentId>, current: Agents,
                                     wanted: Agents, io: AgentId -> AgentIo, id: AgentId)
    requires Orders(first, second, current, wanted)
    ensures
      var f := Reconcile(Fleet(running, [], []), first, second, current, wanted, io);
      var acts := ActsOf(f.acts, id);
      var before, after := if id in running then 1 else 0, if id in f.running then 1 else 0;
      Builds(acts) - Stops(acts) == after - before <==> !Overwrites(id, running, current, wanted, io)
  {
    var f := Reconcile(Fleet(running, [], []), first, second, current, wanted, io);
    FatesAreIndependent(Fleet(running, [], []), first, second, current, wanted, io, id);
    assert ShareOf(f, id) == FateOf(id, running, current, wanted, io);
    FateConserves(id, running, current, wanted, io);
  }

  lemma CountOne(act: Act, rest: seq<Act>)
    ensures Builds([act] + rest) == Builds(rest) + if act.Built? then 1 else 0
    ensures Stops([act] + rest) == Stops(rest) + if act.Stopped? then 1 else 0
  {
    assert ([act] + rest)[1..] == rest;
  }

  lemma FateConserves(id: AgentId, running: Running, current: Agents, wanted: Agents, io: AgentId -> AgentIo)
    ensures
      var fate := FateOf(id, running, current, wanted, io);
      var before, after := if id in running then 1 else 0, if fate.now.Some? then 1 else 0;
      Builds(fate.acts) - Stops(fate.acts)
      == after - before + if Overwrites(id, running, current, wanted, io) then 1 else 0
  {
    FewActs(FateOf(id, running, current, wanted, io).acts);
  }

  lemma FewActs(acts: seq<Act>)
    requires |acts| <= 3
    ensures Builds(acts) == BuildsAt(acts, 0) + BuildsAt(acts, 1) + BuildsAt(acts, 2)
    ensures Stops(acts) == StopsAt(acts, 0) + StopsAt(acts, 1) + StopsAt(acts, 2)
  {
    if |acts| >= 1 {
      assert acts == [acts[0]] + acts[1..];
      CountOne(acts[0], acts[1..]);
    }
    if |acts| >= 2 {
      assert acts[1..] == [acts[1]] + acts[2..];
      CountOne(acts[1], acts[2..]);
    }
    if |acts| >= 3 {
      assert acts[2..] == [acts[2]] + acts[3..];
      CountOne(acts[2], acts[3..]);
    }
  }

  function BuildsAt(acts: seq<Act>, i: nat): nat {
    if i < |acts| && acts[i].Built? then 1 else 0
  }

  function StopsAt(acts: seq<Act>, i: nat): nat {
    if i < |acts| && acts[i].Stopped? then 1 else 0
  }

  /** Two walks in different orders give every agent the same share and the same running map. */
  lemma OrderDoesNotMatter(running: Running, first: seq<AgentId>, second: seq<AgentId>, first': seq<AgentId>,
                           second': seq<AgentId>, current: Agents, wanted: Agents, io: AgentId -> AgentIo)
    requires Orders(first, second, current, wanted) && Orders(first', second', current, wanted)
    ensures
      var f := Reconcile(Fleet(running, [], []), first, second, current, wanted, io);
      var g := Reconcile(Fleet(running, [], []), first', second', current, wanted, io);
      f.running == g.running && (f.errors == [] <==> g.errors == []) && forall id :: ShareOf(f, id) == ShareOf(g, id)
  {
    ReconcileIsOrderFree(running, first, second, current, wanted, io);
    ReconcileIsOrderFree(running, first', second', current, wanted, io);
    WalkDecidesFates(running, first, second, current, wanted, io);
    WalkDecidesFates(running, first', second', current, wanted, io);
  }

  /** A failure is contained: agents whose own answers are the same in two walks fare the same,
      whatever happens to the others. */
  lemma FailuresAreIsolated(running: Running, first: seq<AgentId>, second: seq<AgentId>, current: Agents,
                            wanted: Agents, io: AgentId -> AgentIo, io': AgentId -> AgentIo, id: AgentId)
    requires Orders(first, second, current, wanted) && io(id) == io'(id)
    ensures ShareOf(Reconcile(Fleet(running, [], []), first, second, current, wanted, io), id)
            == ShareOf(Reconcile(Fleet(running, [], []), first, second, current, wanted, io'), id)
  {
    FatesAreIndependent(Fleet(running, [], []), first, second, current, wanted, io, id);
    FatesAreIndependent(Fleet(running, [], []), first, second, current, wanted, io', id);
  }
}
