/** Whole lives of Agent Control: starts, deliveries, crashes and shutdowns in any order
    (agent-control/src/agent_control.rs). */
module AgentControlRuns {
  import opened ConfigTypes
  import opened ConfigRepository
  import opened Reconciliation
  import opened DynamicConfig
  import opened SubAgentSpec
  import opened SubAgentAgreement
  import opened AgentControlSpec

  // ---- The start of a fleet ----

  /** What a start runs, with the configuration it takes as current. */
  function Fresh(d: Durable, current: Dynamic, io: AgentId -> AgentIo): Control {
    Control(d, BootFleet(current.agents, io), current)
  }

  /** A start is converged exactly if every agent builds, and it loses exactly those that do not. */
  lemma StartConvergesExactly(d: Durable, current: Dynamic, io: AgentId -> AgentIo)
    ensures
      var c := Fresh(d, current, io);
      && (Converged(c) <==> forall id :: id in current.agents ==> io(id).build.Some?)
      && (forall id :: Lost(c, id) <==> id in current.agents && io(id).build.None?)
  {
    var c := Fresh(d, current, io);
    TypesMatch(c.running, current.agents);
    if forall id :: id in current.agents ==> io(id).build.Some? {
      assert Types(c.running) == current.agents;
    }
  }

  /** An agent that did not build at the start is not started by any sequence of configurations. */
  lemma LostAtStartStaysLost(d: Durable, current: Dynamic, io: AgentId -> AgentIo, deliveries: seq<Delivery>,
                             id: AgentId)
    requires id in current.agents && io(id).build.None?
    ensures Lost(DeliverAll(Fresh(d, current, io), deliveries), id)
  {
    LostAgentsStayLost(Fresh(d, current, io), deliveries, id);
  }

  /** From a start that builds everything the fleet stays converged over any sequence of configurations that are
      rejected or fully applied. */
  lemma FleetConvergesFromStart(d: Durable, current: Dynamic, io: AgentId -> AgentIo, deliveries: seq<Delivery>, n: nat)
    requires forall id :: id in current.agents ==> io(id).build.Some?
    requires AllOrNothing(Fresh(d, current, io), deliveries) && n <= |deliveries|
    ensures Converged(DeliverAll(Fresh(d, current, io), deliveries[..n]))
  {
    StartConvergesExactly(d, current, io);
    FleetConverges(Fresh(d, current, io), deliveries, n);
  }

  // ---- Agreement over a life ----

  /** What happens to Agent Control: a configuration is handled; the process dies after k effects of handling one;
      or it starts with some configuration. */
  datatype LifeEvent =
    | Delivered(config: Incoming, io: Io)
    | Killed(config: Incoming, io: Io, k: nat)
    | Started(initial: Dynamic, agents: AgentId -> AgentIo, text: string, readOk: bool, reported: bool, updateOk: bool)

  function Cut(effects: seq<Effect>, k: nat): seq<Effect> {
    if k < |effects| then effects[..k] else effects
  }

  function Live(c: Control, e: LifeEvent): Control {
    match e
    case Delivered(config, io) => Deliver(c, config, io)
    case Killed(config, io, k) => Control(Replay(c.durable, Cut(Effects(c, config, io), k)), map[], c.current)
    case Started(initial, agents, text, readOk, reported, updateOk) =>
      var state := BootState(initial.agents, agents, text);
      Fresh(Replay(c.durable, BootEffects(c.durable.stored, state, readOk, reported, updateOk)), initial, agents)
  }

  function LiveAll(c: Control, events: seq<LifeEvent>): Control
    decreases |events|
  {
    if events == [] then c else Live(LiveAll(c, events[..|events| - 1]), events[|events| - 1])
  }

  /** Dying here leaves a disagreement: right after a settled hash was announced again, after its rejection was
      reported as something else than is stored, or between persisting a verdict and reporting it. */
  predicate DeathUpsets(c: Control, config: Incoming, io: Io, k: nat) {
    var stage, n := Prepare(config, io), |Cut(Effects(c, config, io), k)|;
    || (n == 1 && Settled(c.durable, config.hash))
    || (n == 2 && stage.written == [] && Settled(c.durable, config.hash)
        && c.durable.stored.value.state != Verdict(c, config, io))
    || (n == 3 && stage.Reached?)
  }

  predicate Upsets(c: Control, e: LifeEvent) {
    match e
    case Delivered(config, io) => LeavesDisagreement(c, config, io)
    case Killed(config, io, k) => DeathUpsets(c, config, io, k)
    case Started(initial, agents, text, readOk, reported, updateOk) =>
      && Corrects(c.durable.stored, BootState(initial.agents, agents, text), readOk, reported)
      && !updateOk && c.durable.stored.value.state.Terminal()
  }

  lemma ReplayMore(d: Durable, effects: seq<Effect>, k: nat)
    requires k < |effects|
    ensures Replay(d, effects[..k + 1]) == Do(Replay(d, effects[..k]), effects[k])
    ensures Replay(d, effects[..0]) == d
  {
    assert effects[..k + 1] == effects[..k] + [effects[k]];
    ReplayAppend(d, effects[..k], [effects[k]]);
    ThroughoutOne(Replay(d, effects[..k]), effects[k]);
  }

  /** The durable states that a rejected delivery goes through. */
  lemma RejectedStates(c: Control, config: Incoming, io: Io, n: nat)
    requires io.announced && Prepare(config, io).Rejected? && n <= |Effects(c, config, io)|
    ensures
      var d, written := c.durable, Prepare(config, io).written;
      var told := d.reports + [StatusReport(config.hash, Applying)];
      var both := told + [StatusReport(config.hash, Verdict(c, config, io))];
      Replay(d, Effects(c, config, io)[..n])
      == if n == 0 then d
         else if n == 1 then Durable(d.stored, told)
         else if written == [] then Durable(d.stored, both)
         else Durable(None, if n == 2 then told else both)
  {
    var effects, d := Effects(c, config, io), c.durable;
    assert effects[..0] == [] && Replay(d, []) == d;
    if n >= 1 {
      ReplayMore(d, effects, 0);
    }
    if n >= 2 {
      ReplayMore(d, effects, 1);
    }
    if n >= 3 {
      ReplayMore(d, effects, 2);
    }
  }

  lemma RejectedDeath(c: Control, config: Incoming, io: Io, n: nat)
    requires Agrees(c.durable) && io.announced && Prepare(config, io).Rejected? && n <= |Effects(c, config, io)|
    ensures Agrees(Replay(c.durable, Effects(c, config, io)[..n])) <==> !DeathUpsets(c, config, io, n)
  {
    var d := c.durable;
    var hash := if d.stored.Some? then d.stored.value.hash else config.hash;
    assert |Cut(Effects(c, config, io), n)| == n;
    RejectedStates(c, config, io, n);
    LatestAfterReport(d.reports, StatusReport(config.hash, Applying));
    LatestAfterTwo(d.reports, config.hash, Applying, Verdict(c, config, io), hash);
  }

  /** The durable states that a delivery goes through that reaches the agents: before it does, */
  lemma PreparedStates(c: Control, config: Incoming, io: Io, n: nat)
    requires io.announced && Prepare(config, io).Reached? && n <= 2
    ensures |Effects(c, config, io)| >= 2
    ensures
      var d := c.durable;
      var told := d.reports + [StatusReport(config.hash, Applying)];
      Replay(d, Effects(c, config, io)[..n])
      == if n == 0 then d
         else if n == 1 then Durable(d.stored, told)
         else if config.empty then Durable(None, told)
         else Durable(Some(RemoteConfig(io.encoded.value, config.hash, Applying)), told)
  {
    var effects, d, written := Effects(c, config, io), c.durable, Prepare(config, io).written;
    assert effects[0] == Report(StatusReport(config.hash, Applying)) && effects[1] == written[0];
    assert effects[..0] == [] && Replay(d, []) == d;
    ReplayMore(d, effects, 0);
    ReplayMore(d, effects, 1);
  }

  /** and after. */
  lemma ReachedStates(c: Control, config: Incoming, io: Io, n: nat)
    requires io.announced && Prepare(config, io).Reached? && 3 <= n <= |Effects(c, config, io)|
    ensures !config.empty
    ensures
      var verdict, told := Verdict(c, config, io), c.durable.reports + [StatusReport(config.hash, Applying)];
      Replay(c.durable, Effects(c, config, io)[..n])
      == Durable(Some(RemoteConfig(io.encoded.value, config.hash, verdict)),
                 if n == 3 then told else told + [StatusReport(config.hash, verdict)])
  {
    var effects, d := Effects(c, config, io), c.durable;
    StoredExactly(c, config, io);
    PreparedStates(c, config, io, 2);
    ReplayMore(d, effects, 2);
    if n >= 4 {
      ReplayMore(d, effects, 3);
    }
  }

  lemma ReachedDeath(c: Control, config: Incoming, io: Io, n: nat)
    requires Agrees(c.durable) && io.announced && Prepare(config, io).Reached? && n <= |Effects(c, config, io)|
    ensures Agrees(Replay(c.durable, Effects(c, config, io)[..n])) <==> !DeathUpsets(c, config, io, n)
  {
    var d := c.durable;
    assert |Cut(Effects(c, config, io), n)| == n;
    if n <= 2 {
      PreparedStates(c, config, io, n);
    } else {
      ReachedStates(c, config, io, n);
    }
    LatestAfterReport(d.reports, StatusReport(config.hash, Applying));
    LatestAfterTwo(d.reports, config.hash, Applying, Verdict(c, config, io), config.hash);
  }

  /** The crash points of a delivery, one by one. */
  lemma DeathAgreementExact(c: Control, config: Incoming, io: Io, k: nat)
    requires Agrees(c.durable)
    ensures Agrees(Live(c, Killed(config, io, k)).durable) <==> !DeathUpsets(c, config, io, k)
  {
    var effects := Effects(c, config, io);
    var n := if k < |effects| then k else |effects|;
    assert Cut(effects, k) == effects[..n] == Cut(effects, n);
    if !io.announced {
      assert Replay(c.durable, []) == c.durable;
    } else if Prepare(config, io).Rejected? {
      RejectedDeath(c, config, io, n);
    } else {
      ReachedDeath(c, config, io, n);
    }
  }

  lemma EventAgreementExact(c: Control, e: LifeEvent)
    requires Agrees(c.durable)
    ensures Agrees(Live(c, e).durable) <==> !Upsets(c, e)
  {
    match e
    case Delivered(config, io) => DeliveryEndsInAgreementExact(c, config, io);
    case Killed(config, io, k) => DeathAgreementExact(c, config, io, k);
    case Started(initial, agents, text, readOk, reported, updateOk) =>
      BootAgreementExact(c.durable, BootState(initial.agents, agents, text), readOk, reported, updateOk);
  }

  /** Over any life, with deliveries, deaths and starts in any order, the store and the reports agree after every
      event if and only if none of the events upsets them. */
  lemma {:induction false} LifeAgreementExact(c: Control, events: seq<LifeEvent>)
    requires Agrees(c.durable)
    ensures (forall n :: 0 <= n <= |events| ==> Agrees(LiveAll(c, events[..n]).durable)) <==>
            (forall i :: 0 <= i < |events| ==> !Upsets(LiveAll(c, events[..i]), events[i]))
  {
    if forall i :: 0 <= i < |events| ==> !Upsets(LiveAll(c, events[..i]), events[i]) {
      forall n | 0 <= n <= |events|
        ensures Agrees(LiveAll(c, events[..n]).durable)
      {
        UndisturbedLife(c, events, n);
      }
    } else {
      var i :| 0 <= i < |events| && Upsets(LiveAll(c, events[..i]), events[i]);
      if Agrees(LiveAll(c, events[..i]).durable) {
        LiveOneMore(c, events, i);
        EventAgreementExact(LiveAll(c, events[..i]), events[i]);
        assert !Agrees(LiveAll(c, events[..i + 1]).durable);
      }
    }
  }

  lemma LiveOneMore(c: Control, events: seq<LifeEvent>, i: nat)
    requires i < |events|
    ensures LiveAll(c, events[..i + 1]) == Live(LiveAll(c, events[..i]), events[i])
  {
    assert events[..i + 1][..i] == events[..i];
  }

  lemma {:induction false} UndisturbedLife(c: Control, events: seq<LifeEvent>, n: nat)
    requires Agrees(c.durable) && n <= |events|
    requires forall i :: 0 <= i < |events| ==> !Upsets(LiveAll(c, events[..i]), events[i])
    ensures Agrees(LiveAll(c, events[..n]).durable)
  {
    if n > 0 {
      UndisturbedLife(c, events, n - 1);
      LiveOneMore(c, events, n - 1);
      EventAgreementExact(LiveAll(c, events[..n - 1]), events[n - 1]);
    }
  }

  // ---- Instances over a life ----

  function Held(running: Running, id: AgentId): int {
    if id in running then 1 else 0
  }

  /** What a start does with an agent. */
  function StartActs(agents: Agents, io: AgentId -> AgentIo, id: AgentId): seq<Act> {
    if id in agents && io(id).build.Some? then [Built(id, Instance(agents[id], io(id).build.value))] else []
  }

  /** What a delivery does with an agent. */
  function DeliveryActs(c: Control, config: Incoming, io: Io, id: AgentId): seq<Act> {
    if !Touches(config, io) then []
    else FateOf(id, c.running, c.current.agents, Prepare(config, io).wanted.agents, io.agents).acts
  }

  /** What the event loop does with an agent. */
  function LoopActs(c: Control, events: seq<ControlEvent>, id: AgentId): seq<Act>
    decreases |events|
  {
    if events == [] then []
    else
      match events[0]
      case RemoteConfigReceived(d) =>
        DeliveryActs(c, d.config, d.io, id) + LoopActs(Deliver(c, d.config, d.io), events[1..], id)
      case Notice => LoopActs(c, events[1..], id)
      case Shutdown(_) => if id in c.running then [Stopped(id, c.running[id])] else []
  }

  /** How often a running instance that the current configuration does not know is replaced without a stop. */
  function Leaks(c: Control, events: seq<ControlEvent>, id: AgentId): nat
    decreases |events|
  {
    if events == [] then 0
    else
      match events[0]
      case RemoteConfigReceived(d) =>
        (if Touches(d.config, d.io)
            && Overwrites(id, c.running, c.current.agents, Prepare(d.config, d.io).wanted.agents, d.io.agents) then 1
         else 0)
        + Leaks(Deliver(c, d.config, d.io), events[1..], id)
      case Notice => Leaks(c, events[1..], id)
      case Shutdown(_) => 0
  }

  lemma {:induction false} CountAppend(a: seq<Act>, b: seq<Act>)
    ensures Builds(a + b) == Builds(a) + Builds(b) && Stops(a + b) == Stops(a) + Stops(b)
  {
    if a == [] {
      assert a + b == b;
    } else {
      assert (a + b)[1..] == a[1..] + b;
      CountAppend(a[1..], b);
    }
  }

  /** Over any events of the loop, builds minus stops of an agent is the change in what runs plus the leaks. */
  lemma {:induction false} LoopConserves(c: Control, events: seq<ControlEvent>, id: AgentId)
    ensures
      var acts := LoopActs(c, events, id);
      Builds(acts) - Stops(acts) == Held(Serve(c, events).0.running, id) - Held(c.running, id) + Leaks(c, events, id)
    decreases |events|
  {
    if events != [] {
      match events[0]
      case RemoteConfigReceived(d) =>
        var next := Deliver(c, d.config, d.io);
        LoopConserves(next, events[1..], id);
        CountAppend(DeliveryActs(c, d.config, d.io, id), LoopActs(next, events[1..], id));
        if Touches(d.config, d.io) {
          var wanted := Prepare(d.config, d.io).wanted.agents;
          FateConserves(id, c.running, c.current.agents, wanted, d.io.agents);
          ReconciledLookup(c.running, c.current.agents, wanted, d.io.agents, id);
        }
      case Notice => LoopConserves(c, events[1..], id);
      case Shutdown(_) => FewActs(LoopActs(c, events, id));
    }
  }

  /** Over a start and any events, every instance that was built is stopped or runs, exactly unless an orphan was
      built again; after a shutdown every one is stopped. */
  lemma LifetimeConservesExactly(d: Durable, current: Dynamic, io: AgentId -> AgentIo, events: seq<ControlEvent>,
                                 id: AgentId)
    ensures
      var c := Fresh(d, current, io);
      var acts := StartActs(current.agents, io, id) + LoopActs(c, events, id);
      var (end, reason) := Serve(c, events);
      && (Builds(acts) - Stops(acts) == Held(end.running, id) <==> Leaks(c, events, id) == 0)
      && (reason.Some? ==> (Builds(acts) == Stops(acts) <==> Leaks(c, events, id) == 0))
  {
    var c := Fresh(d, current, io);
    LoopConserves(c, events, id);
    CountAppend(StartActs(current.agents, io, id), LoopActs(c, events, id));
    FewActs(StartActs(current.agents, io, id));
    LoopDelivers(c, events);
  }

  /** As long as every configuration is rejected or fully applied there are no orphans and nothing leaks. */
  lemma {:induction false} ConvergedNeverLeaks(c: Control, events: seq<ControlEvent>, id: AgentId)
    requires Converged(c) && AllOrNothing(c, Served(events))
    ensures Leaks(c, events, id) == 0
    decreases |events|
  {
    if events != [] && !events[0].Shutdown? {
      if events[0].Notice? {
        assert Served(events) == Served(events[1..]);
        ConvergedNeverLeaks(c, events[1..], id);
      } else {
        var d, rest := events[0].delivery, Served(events[1..]);
        assert Served(events) == [d] + rest;
        TypesMatch(c.running, c.current.agents);
        FirstOfAll(c, d, rest);
        ConvergenceExact(c, d.config, d.io);
        ConvergedNeverLeaks(Deliver(c, d.config, d.io), events[1..], id);
      }
    }
  }

  lemma FirstOfAll(c: Control, first: Delivery, rest: seq<Delivery>)
    requires AllOrNothing(c, [first] + rest)
    ensures !Touches(first.config, first.io) || Advances(c, first.config, first.io)
    ensures AllOrNothing(Deliver(c, first.config, first.io), rest)
  {
    var all := [first] + rest;
    assert all[..0] == [] && all[0] == first;
    forall i | 0 <= i < |rest|
      ensures
        var before := DeliverAll(Deliver(c, first.config, first.io), rest[..i]);
        !Touches(rest[i].config, rest[i].io) || Advances(before, rest[i].config, rest[i].io)
    {
      assert all[i + 1] == rest[i] && all[..i + 1] == [first] + rest[..i];
      DeliverFirst(c, first, rest[..i]);
    }
  }
}
