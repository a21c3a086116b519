/** The sub-agent runtime as it is written (agent-control/src/sub_agent.rs): methods that write the
    repository, send statuses and pass the supervisor along, proved to perform exactly the effects
    of module SubAgentSpec. */
module SubAgentRuntime {
  import opened ConfigTypes
  import opened ConfigRepository
  import opened SubAgentSpec
  import opened SubAgentAgreement
  import opened SubAgentRuns

  datatype Event =
    | RemoteConfigReceived(config: OpampConfig, out: Outcomes)
    | ChannelClosed
    | StopRequested
    | Notice

  /** The event loop of `runtime` as a function of the events it selects. The supervisor of the result
      is what the loop variable holds when the loop ends: a closed channel drops it without a stop. */
  function Serve(opamp: bool, stored: Option<RemoteConfig>, local: Option<Yaml>, held: Option<Supervisor>,
                 events: seq<Event>): Handled
    decreases |events|
  {
    if events == [] then Handled([], held)
    else
      match events[0]
      case ChannelClosed => Handled([], held)
      case StopRequested => Handled(StopIfHeld(held), None)
      case Notice => Serve(opamp, stored, local, held, events[1..])
      case RemoteConfigReceived(config, out) =>
        if !opamp then Serve(opamp, stored, local, held, events[1..])
        else
          var h := Handle(stored, local, held, config, out);
          var left := Replay(Durable(stored, []), h.effects).stored;
          Prepend(h.effects, Serve(opamp, left, local, h.supervisor, events[1..]))
  }

  /** Over any event sequence the loop conserves supervisors, its statuses are blocks, and a loop that
      ends by a stop request before any channel closes leaves nothing running. */
  lemma {:induction false} ServingIsSound(opamp: bool, stored: Option<RemoteConfig>, local: Option<Yaml>,
                                          held: Option<Supervisor>, events: seq<Event>)
    ensures
      var run := Serve(opamp, stored, local, held, events);
      && Ledger(run.effects, held) == Some(run.supervisor)
      && Live(run.effects) == Held(run.supervisor) - Held(held)
      && Blocks(Reports(run.effects))
      && (StopRequested in events && ChannelClosed !in events ==> run.supervisor.None?)
    decreases |events|
  {
    var run := Serve(opamp, stored, local, held, events);
    if events != [] {
      if events[0].Notice? || (events[0].RemoteConfigReceived? && !opamp) {
        ServingIsSound(opamp, stored, local, held, events[1..]);
      } else if events[0].StopRequested? {
        NoReports(run.effects);
      } else if events[0].RemoteConfigReceived? {
        var config, out := events[0].config, events[0].out;
        var h := Handle(stored, local, held, config, out);
        var left := Replay(Durable(stored, []), h.effects).stored;
        var rest := Serve(opamp, left, local, h.supervisor, events[1..]);
        ServingIsSound(opamp, left, local, h.supervisor, events[1..]);
        DeliveryLedger(stored, local, held, config, out);
        LedgerAppend(h.effects, rest.effects, held);
        DeliveryReports(stored, local, held, config, out);
        ReportsAppend(h.effects, rest.effects);
        BlocksAppend(Reports(h.effects), Reports(rest.effects));
      }
    }
    LedgerCounts(run.effects, held);
  }

  /** Without an OpAMP client the loop only ever stops its supervisor: exactly if a stop request comes before a
      channel closes. */
  lemma {:induction false} ServingWithoutClient(stored: Option<RemoteConfig>, local: Option<Yaml>,
                                                held: Option<Supervisor>, events: seq<Event>)
    ensures
      var run := Serve(false, stored, local, held, events);
      if StopsFirst(events) then run == Handled(StopIfHeld(held), None) else run == Handled([], held)
    decreases |events|
  {
    if events != [] && (events[0].Notice? || events[0].RemoteConfigReceived?) {
      ServingWithoutClient(stored, local, held, events[1..]);
    }
  }

  /** A stop request comes before a channel closes. */
  predicate StopsFirst(events: seq<Event>) {
    events != [] && (events[0].StopRequested? || (!events[0].ChannelClosed? && StopsFirst(events[1..])))
  }

  /** No delivery that the loop gets to meets a hazard. */
  predicate Unhazarded(d: Durable, local: Option<Yaml>, held: Option<Supervisor>, events: seq<Event>)
    decreases |events|
  {
    if events == [] then true
    else
      match events[0]
      case ChannelClosed => true
      case StopRequested => true
      case Notice => Unhazarded(d, local, held, events[1..])
      case RemoteConfigReceived(config, out) =>
        var h := Handle(d.stored, local, held, config, out);
        && !Hazard(d, local, held, config, out)
        && Unhazarded(Replay(d, h.effects), local, h.supervisor, events[1..])
  }

  /** The loop keeps stored terminal states equal to the last reports, at every instant, if and only if no
      delivery it gets to meets a hazard. */
  lemma {:induction false} ServingAgreementExact(d: Durable, local: Option<Yaml>, held: Option<Supervisor>,
                                                 events: seq<Event>)
    requires Agrees(d)
    ensures AgreesThroughout(d, Serve(true, d.stored, local, held, events).effects) <==>
            Unhazarded(d, local, held, events)
    decreases |events|
  {
    if events != [] {
      match events[0]
      case ChannelClosed =>
      case StopRequested => SilentEffects(d, StopIfHeld(held));
      case Notice => ServingAgreementExact(d, local, held, events[1..]);
      case RemoteConfigReceived(config, out) =>
        var h := Handle(d.stored, local, held, config, out);
        var next := Replay(d, h.effects);
        StoredIgnoresReports(d, [], h.effects);
        DeliveryAgreementExact(d, local, held, config, out);
        ThroughoutAppend(d, h.effects, Serve(true, next.stored, local, h.supervisor, events[1..]).effects);
        if !Hazard(d, local, held, config, out) {
          ThroughoutEnds(d, h.effects);
          ServingAgreementExact(next, local, h.supervisor, events[1..]);
        }
    }
  }

  lemma {:induction false} ThroughoutEnds(d: Durable, effects: seq<Effect>)
    requires AgreesThroughout(d, effects)
    ensures Agrees(Replay(d, effects))
    decreases |effects|
  {
    if effects != [] {
      ThroughoutEnds(Do(d, effects[0]), effects[1..]);
    }
  }

  /** Every delivery can read, store and delete; `update_state` may fail. */
  predicate Reliable(events: seq<Event>) {
    forall e :: e in events && e.RemoteConfigReceived? ==> e.out.readOk && e.out.storeOk && e.out.deleteOk
  }

  lemma {:induction false} ReliableIsUnhazarded(d: Durable, local: Option<Yaml>, held: Option<Supervisor>,
                                                events: seq<Event>)
    requires Agrees(d) && Reliable(events)
    ensures Unhazarded(d, local, held, events)
    decreases |events|
  {
    if events != [] && !events[0].ChannelClosed? && !events[0].StopRequested? {
      assert forall e :: e in events[1..] ==> e in events;
      if events[0].Notice? {
        ReliableIsUnhazarded(d, local, held, events[1..]);
      } else {
        var config, out := events[0].config, events[0].out;
        assert events[0] in events;
        var h := Handle(d.stored, local, held, config, out);
        ReliableIoHasNoHazard(d, local, held, config, out);
        ThroughoutEnds(d, h.effects);
        ReliableIsUnhazarded(Replay(d, h.effects), local, h.supervisor, events[1..]);
      }
    }
  }

  /** Bootstrap and loop together. */
  lemma WholeRunAgrees(remoteEnabled: bool, d: Durable, local: Option<Yaml>, boot: BootOutcomes, events: seq<Event>)
    requires Agrees(d) && Reliable(events)
    ensures
      var up := Boot(true, remoteEnabled, d.stored, local, boot);
      var left := Replay(d, up.effects);
      AgreesThroughout(d, up.effects + Serve(true, left.stored, local, up.supervisor, events).effects)
  {
    var up := Boot(true, remoteEnabled, d.stored, local, boot);
    var left := Replay(d, up.effects);
    BootAgreement(remoteEnabled, d, local, boot);
    ThroughoutEnds(d, up.effects);
    ReliableIsUnhazarded(left, local, up.supervisor, events);
    ServingAgreementExact(left, local, up.supervisor, events);
    ThroughoutAppend(d, up.effects, Serve(true, left.stored, local, up.supervisor, events).effects);
  }

  class SubAgent {
    const id: AgentId
    const opamp: bool
    const repo: ConfigRepo
    var reports: seq<StatusReport>
    ghost var origin: Durable
    ghost var log: seq<Effect>

    ghost function State(): Durable
      reads this, repo
    {
      Durable(Lookup(repo.remote, id), reports)
    }

    ghost function Local(): Option<Yaml>
      reads repo
    {
      Lookup(repo.local, id)
    }

    /** What is stored and what was reported is the replay of everything done so far. */
    ghost predicate Valid()
      reads this, repo
    {
      State() == Replay(origin, log)
    }

    /** The object did `effects` and left the other agents' configurations alone. */
    twostate predicate Did(effects: seq<Effect>)
      reads this, repo
    {
      && Valid()
      && log == old(log) + effects
      && origin == old(origin)
      && repo.local == old(repo.local)
      && repo.remote - {id} == old(repo.remote) - {id}
    }

    constructor (id: AgentId, opamp: bool, repo: ConfigRepo)
      ensures this.id == id && this.opamp == opamp && this.repo == repo
      ensures Valid() && log == [] && reports == []
      ensures State() == Durable(Lookup(repo.remote, id), [])
    {
      this.id, this.opamp, this.repo := id, opamp, repo;
      reports, log := [], [];
      origin := Durable(Lookup(repo.remote, id), []);
    }

    /** Appending an effect to the log keeps the object valid if the state made the same move. */
    twostate lemma Logged(e: Effect)
      requires old(Valid())
      requires origin == old(origin) && log == old(log) + [e] && State() == Do(old(State()), e)
      ensures Valid()
    {
      ReplayAppend(origin, old(log), [e]);
      ThroughoutOne(old(State()), e);
    }

    // Logs one effect that touches nothing durable.
    ghost method Note(e: Effect)
      requires Valid() && Silent(e)
      modifies this`log
      ensures Did([e]) && State() == old(State())
    {
      log := log + [e];
      Logged(e);
    }

    method ReportState(hash: Hash, state: ConfigState)
      requires Valid()
      modifies this`reports, this`log
      ensures Did(if opamp then Reporting(hash, state) else [])
    {
      if opamp {
        reports := reports + [StatusReport(hash, state)];
        log := log + [Report(StatusReport(hash, state))];
        Logged(Report(StatusReport(hash, state)));
      }
    }

    method ReportAndPersistState(hash: Hash, state: ConfigState, readOk: bool, writeOk: bool)
      requires Valid()
      modifies this`reports, this`log, repo`remote
      ensures opamp ==> Did(ReportAndPersist(old(State().stored), hash, state, readOk && writeOk))
      ensures !opamp ==> Did(ReportAndPersist(old(State().stored), hash, state, readOk && writeOk)[1..])
    {
      ReportState(hash, state);
      assert State().stored == old(State().stored);
      label told:
      var error := repo.UpdateState(id, state, readOk, writeOk);
      if error.None? {
        log := log + [Persist(state)];
        Logged@told(Persist(state));
      }
      assert opamp ==> ReportAndPersist(old(State().stored), hash, state, readOk && writeOk)
                       == Reporting(hash, state) + log[|old(log)| + 1..];
    }

    method StopSupervisor(supervisor: Option<Supervisor>)
      requires Valid()
      modifies this`log
      ensures Did(StopIfHeld(supervisor)) && State() == old(State())
    {
      if supervisor.Some? {
        Note(Stop(supervisor.value));
      }
    }

    method ApplyConfigToExistingSupervisor(hash: Hash, supervisor: Supervisor, out: Outcomes)
      returns (held: Option<Supervisor>)
      requires Valid() && opamp
      modifies this`reports, this`log, repo`remote
      ensures Did(ApplyToExisting(old(State().stored), hash, supervisor, out).effects)
      ensures held == ApplyToExisting(old(State().stored), hash, supervisor, out).supervisor
    {
      Note(PublishEffectiveConfig);
      match out.applied {
        case Success(next) =>
          Note(Apply(supervisor, next));
          ReportAndPersistState(hash, Applied, out.updateReadOk, out.updateWriteOk);
          return Some(next);
        case Failure(e) =>
          Note(ApplyFailed(supervisor));
          ReportAndPersistState(hash, Failed(e), out.updateReadOk, out.updateWriteOk);
          return None;
      }
    }

    method BuildAndStartSupervisor(hash: Hash, out: Outcomes) returns (held: Option<Supervisor>)
      requires Valid() && opamp
      modifies this`reports, this`log, repo`remote
      ensures Did(BuildAndStart(old(State().stored), hash, out).effects)
      ensures held == BuildAndStart(old(State().stored), hash, out).supervisor
    {
      match out.built {
        case Failure(e) =>
          ReportState(hash, Failed("could not build the supervisor: " + e));
          return None;
        case Success(_) =>
          Note(PublishEffectiveConfig);
          match out.started {
            case Success(s) =>
              Note(Start(s));
              ReportAndPersistState(hash, Applied, out.updateReadOk, out.updateWriteOk);
              return Some(s);
            case Failure(e) =>
              ReportAndPersistState(hash, Failed(e), out.updateReadOk, out.updateWriteOk);
              return None;
          }
      }
    }

    method StoreIfRemote(maybe: Option<RemoteConfig>, storeOk: bool)
      requires Valid()
      modifies this`log, repo`remote
      ensures Did(if maybe.Some? && storeOk then [Store(maybe.value)] else [])
      ensures State().stored == if maybe.Some? && storeOk then maybe else old(State().stored)
    {
      if maybe.Some? {
        var error := repo.StoreRemote(id, maybe.value, storeOk);
        if error.None? {
          log := log + [Store(maybe.value)];
          Logged(Store(maybe.value));
        }
      }
    }

    method ApplyOrStartSupervisor(hash: Hash, previous: Option<Supervisor>, out: Outcomes)
      returns (held: Option<Supervisor>)
      requires Valid() && opamp
      modifies this`reports, this`log, repo`remote
      ensures Did(ApplyOrStart(old(State().stored), hash, previous, out).effects)
      ensures held == ApplyOrStart(old(State().stored), hash, previous, out).supervisor
    {
      if previous.Some? {
        held := ApplyConfigToExistingSupervisor(hash, previous.value, out);
      } else {
        held := BuildAndStartSupervisor(hash, out);
      }
    }

    /** `maybe` is the remote configuration to store, None when the values are the local ones. */
    method ApplyOrBuildAndStartSupervisor(maybe: Option<RemoteConfig>, hash: Hash, previous: Option<Supervisor>,
                                          out: Outcomes)
      returns (held: Option<Supervisor>)
      requires Valid() && opamp
      requires maybe.Some? ==> maybe.value.hash == hash && maybe.value.state == Applying
      modifies this`reports, this`log, repo`remote
      ensures
        var h := if maybe.Some? then ApplyRemote(old(State().stored), maybe.value.yaml, hash, previous, out)
                 else ApplyLocal(old(State().stored), hash, previous, out);
        Did(h.effects) && held == h.supervisor
    {
      match out.assembled {
        case Success(_) =>
          StoreIfRemote(maybe, out.storeOk);
          ghost var saved := log;
          held := ApplyOrStartSupervisor(hash, previous, out);
          Regroup(old(log), saved[|old(log)|..], log[|saved|..]);
        case Failure(e) =>
          if maybe.None? {
            ReportState(hash, Applied);
            Note(PublishEffectiveConfig);
            StopSupervisor(previous);
            return None;
          }
          ReportState(hash, Failed("invalid config: " + e));
          held := previous;
      }
    }

    method StopSupervisorAndReportNoConfig(hash: Hash, previous: Option<Supervisor>) returns (held: Option<Supervisor>)
      requires Valid() && opamp
      modifies this`reports, this`log
      ensures Did(StopIfHeld(previous) + Reporting(hash, Applied) + [PublishEffectiveConfig])
      ensures held == None
    {
      StopSupervisor(previous);
      ReportState(hash, Applied);
      Note(PublishEffectiveConfig);
      held := None;
    }

    method ResetToLocalConfig(hash: Hash, previous: Option<Supervisor>, out: Outcomes)
      returns (held: Option<Supervisor>)
      requires Valid() && opamp
      modifies this`reports, this`log, repo`remote
      ensures Did(ResetToLocal(old(State().stored), old(Local()), hash, previous, out).effects)
      ensures held == ResetToLocal(old(State().stored), old(Local()), hash, previous, out).supervisor
    {
      var error := repo.DeleteRemote(id, out.deleteOk);
      if error.None? {
        log := log + [Delete];
        Logged(Delete);
      }
      ghost var first := if out.deleteOk then [Delete] else [];
      assert Did(first) && State().stored == if out.deleteOk then None else old(State().stored);
      ghost var deleted := log;
      var local := repo.LoadLocal(id, out.localReadOk);
      if local.Loaded? && local.config.Some? {
        held := ApplyOrBuildAndStartSupervisor(None, hash, previous, out);
      } else {
        held := StopSupervisorAndReportNoConfig(hash, previous);
      }
      Regroup(old(log), first, log[|deleted|..]);
    }

    method ProcessRemoteConfig(hash: Hash, previous: Option<Supervisor>, out: Outcomes)
      returns (held: Option<Supervisor>)
      requires Valid() && opamp
      modifies this`reports, this`log, repo`remote
      ensures Did(Process(old(State().stored), old(Local()), previous, hash, out).effects)
      ensures held == Process(old(State().stored), old(Local()), previous, hash, out).supervisor
    {
      match out.parsed {
        case Values(yaml) =>
          held := ApplyOrBuildAndStartSupervisor(Some(RemoteConfig(yaml, hash, Applying)), hash, previous, out);
        case NoValues =>
          held := ResetToLocalConfig(hash, previous, out);
        case Invalid(e) =>
          ReportState(hash, Failed(e));
          held := previous;
      }
    }

    method AnnounceAndProcess(hash: Hash, previous: Option<Supervisor>, out: Outcomes)
      returns (held: Option<Supervisor>)
      requires Valid() && opamp
      modifies this`reports, this`log, repo`remote
      ensures Did(Reporting(hash, Applying) + Process(old(State().stored), old(Local()), previous, hash, out).effects)
      ensures held == Process(old(State().stored), old(Local()), previous, hash, out).supervisor
    {
      ReportState(hash, Applying);
      ghost var announced := log;
      held := ProcessRemoteConfig(hash, previous, out);
      Regroup(old(log), Reporting(hash, Applying), log[|announced|..]);
    }

    method HandleRemoteConfig(config: OpampConfig, previous: Option<Supervisor>, out: Outcomes)
      returns (held: Option<Supervisor>)
      requires Valid() && opamp
      modifies this`reports, this`log, repo`remote
      ensures Did(Handle(old(State().stored), old(Local()), previous, config, out).effects)
      ensures held == Handle(old(State().stored), old(Local()), previous, config, out).supervisor
    {
      var stored := repo.GetRemoteConfig(id, out.readOk);
      if stored.Success? && stored.value.Some? && config.hash == stored.value.value.hash
         && !stored.value.value.state.Applying? {
        ReportState(stored.value.value.hash, stored.value.value.state);
        return previous;
      }
      if config.preFailed.Some? {
        ReportState(config.hash, Failed(config.preFailed.value));
        return previous;
      }
      held := AnnounceAndProcess(config.hash, previous, out);
    }

    /** Assembles, builds and starts the first supervisor. */
    method BringUpSupervisor(out: BootOutcomes) returns (supervised: Attempt<Supervisor>)
      requires Valid()
      modifies this`log
      ensures Did(BringUp(opamp, out)) && State() == old(State())
      ensures supervised == out.Supervised()
    {
      supervised := out.Supervised();
      if out.assembled.Success? && out.built.Success? && opamp {
        Note(PublishEffectiveConfig);
      }
      if supervised.Success? {
        Note(Start(supervised.value));
      }
    }

    method InitSupervisor(out: BootOutcomes) returns (held: Option<Supervisor>)
      requires Valid()
      modifies this`reports, this`log, repo`remote
      ensures Did(Boot(opamp, repo.remoteEnabled, old(State().stored), old(Local()), out).effects)
      ensures held == Boot(opamp, repo.remoteEnabled, old(State().stored), old(Local()), out).supervisor
    {
      var loaded := repo.LoadRemoteFallbackLocal(id, out.remoteReadOk, out.localReadOk);
      if loaded.LoadFailed? || loaded.config.None? {
        if opamp {
          Note(PublishEffectiveConfig);
        }
        return None;
      }
      var supervised := BringUpSupervisor(out);
      ghost var up := log;
      var config := loaded.config.value;
      if config.StoredRemote? && config.config.state.Applying? {
        ReportAndPersistState(config.config.hash, if supervised.Success? then Applied else Failed(supervised.message),
                              out.updateReadOk, out.updateWriteOk);
      }
      held := if supervised.Success? then Some(supervised.value) else None;
      Regroup(old(log), BringUp(opamp, out), log[|up|..]);
    }

    /** What the object did determines its state. */
    twostate lemma DidMeansReplayed(effects: seq<Effect>)
      requires old(Valid()) && Did(effects)
      ensures State() == Replay(old(State()), effects)
      ensures State().stored == Replay(Durable(old(State().stored), []), effects).stored
    {
      ReplayAppend(origin, old(log), effects);
      StoredIgnoresReports(old(State()), [], effects);
    }

    /** One delivery as the event loop sees it. */
    method Deliver(config: OpampConfig, previous: Option<Supervisor>, out: Outcomes) returns (held: Option<Supervisor>)
      requires Valid() && opamp
      modifies this`reports, this`log, repo`remote
      ensures
        var h := Handle(old(State().stored), old(Local()), previous, config, out);
        && Did(h.effects) && held == h.supervisor
        && State().stored == Replay(Durable(old(State().stored), []), h.effects).stored
    {
      held := HandleRemoteConfig(config, previous, out);
      DidMeansReplayed(Handle(old(State().stored), old(Local()), previous, config, out).effects);
    }

    method ServeEvents(supervisor: Option<Supervisor>, events: seq<Event>) returns (held: Option<Supervisor>)
      requires Valid()
      modifies this`reports, this`log, repo`remote
      ensures Did(Serve(opamp, old(State().stored), old(Local()), supervisor, events).effects)
      ensures held == Serve(opamp, old(State().stored), old(Local()), supervisor, events).supervisor
    {
      ghost var goal := Serve(opamp, State().stored, Local(), supervisor, events);
      held := supervisor;
      ghost var done := [];
      var i := 0;
      assert events[0..] == events;
      while i < |events|
        invariant 0 <= i <= |events|
        invariant Did(done)
        invariant goal == Prepend(done, Serve(opamp, State().stored, Local(), held, events[i..]))
      {
        assert events[i..][0] == events[i] && events[i..][1..] == events[i + 1..];
        match events[i] {
          case Notice =>
          case ChannelClosed =>
            return;
          case StopRequested =>
            StopSupervisor(held);
            Regroup(old(log), done, StopIfHeld(held));
            held := None;
            return;
          case RemoteConfigReceived(config, out) =>
            if opamp {
              ghost var h := Handle(State().stored, Local(), held, config, out);
              held := Deliver(config, held, out);
              Regroup(old(log), done, h.effects);
              Regroup(done, h.effects, Serve(opamp, State().stored, Local(), held, events[i + 1..]).effects);
              done := done + h.effects;
            }
        }
        i := i + 1;
      }
      assert events[i..] == [];
    }

    /** Bootstraps, then serves events until told to stop or a channel closes. */
    method Runtime(boot: BootOutcomes, events: seq<Event>)
      requires Valid()
      modifies this`reports, this`log, repo`remote
      ensures
        var up := Boot(opamp, repo.remoteEnabled, old(State().stored), old(Local()), boot);
        var left := Replay(old(State()), up.effects).stored;
        Did(up.effects + Serve(opamp, left, old(Local()), up.supervisor, events).effects)
      ensures opamp && old(Agrees(State())) && Reliable(events) ==>
                AgreesThroughout(old(State()), log[|old(log)|..])
    {
      ghost var up := Boot(opamp, repo.remoteEnabled, State().stored, Local(), boot);
      var supervisor := InitSupervisor(boot);
      DidMeansReplayed(up.effects);
      ghost var booted := log;
      var _ := ServeEvents(supervisor, events);
      Regroup(old(log), up.effects, log[|booted|..]);
      if opamp && old(Agrees(State())) && Reliable(events) {
        WholeRunAgrees(repo.remoteEnabled, old(State()), old(Local()), boot, events);
        assert log[|old(log)|..] == up.effects + log[|booted|..];
      }
    }
  }
}
