/** What a sub-agent does with a remote configuration, written as the exact list of durable writes,
    status reports and supervisor calls it performs, in order (agent-control/src/sub_agent.rs).
    The imperative runtime in module SubAgentRuntime is proved to perform exactly these lists. */
module SubAgentSpec {
  import opened ConfigTypes
  import opened ConfigRepository

  /** A started supervisor, identified so that replacing one is visible. */
  datatype Supervisor = Supervisor(instance: nat)

  datatype Effect =
    | Report(report: StatusReport)
    | Store(config: RemoteConfig)
    | Persist(state: ConfigState)
    | Delete
    | PublishEffectiveConfig
    | Start(started: Supervisor)
    | Apply(previous: Supervisor, next: Supervisor)
    | ApplyFailed(previous: Supervisor)
    | Stop(previous: Supervisor)

  /** An incoming configuration. The OpAMP callbacks only ever mark it Applying or Failed. */
  datatype OpampConfig = OpampConfig(hash: Hash, preFailed: Option<string>)

  datatype Parsed = Values(yaml: Yaml) | NoValues | Invalid(message: string)

  /** How every collaborator answers while one configuration is handled; each is called at most once. */
  datatype Outcomes = Outcomes(
    readOk: bool,
    parsed: Parsed,
    assembled: Attempt<()>,
    storeOk: bool,
    deleteOk: bool,
    localReadOk: bool,
    built: Attempt<()>,
    started: Attempt<Supervisor>,
    applied: Attempt<Supervisor>,
    updateReadOk: bool,
    updateWriteOk: bool)
  {
    predicate UpdateOk() {
      updateReadOk && updateWriteOk
    }
  }

  /** The effects of handling one event and the supervisor held afterwards. */
  datatype Handled = Handled(effects: seq<Effect>, supervisor: Option<Supervisor>)

  function Prepend(effects: seq<Effect>, rest: Handled): Handled {
    Handled(effects + rest.effects, rest.supervisor)
  }

  function Reporting(hash: Hash, state: ConfigState): seq<Effect> {
    [Report(StatusReport(hash, state))]
  }

  /** `report_and_persist_state`: report first, then rewrite the stored state if there is one. */
  function ReportAndPersist(stored: Option<RemoteConfig>, hash: Hash, state: ConfigState, updateOk: bool): seq<Effect> {
    Reporting(hash, state) + if stored.Some? && updateOk then [Persist(state)] else []
  }

  function StopIfHeld(supervisor: Option<Supervisor>): seq<Effect> {
    if supervisor.Some? then [Stop(supervisor.value)] else []
  }

  /** `apply_config_to_existing_supervisor` */
  function ApplyToExisting(stored: Option<RemoteConfig>, hash: Hash, supervisor: Supervisor, out: Outcomes): Handled {
    match out.applied
    case Success(next) =>
      Handled([PublishEffectiveConfig, Apply(supervisor, next)]
              + ReportAndPersist(stored, hash, Applied, out.UpdateOk()), Some(next))
    case Failure(e) =>
      Handled([PublishEffectiveConfig, ApplyFailed(supervisor)]
              + ReportAndPersist(stored, hash, Failed(e), out.UpdateOk()), None)
  }

  /** `build_and_start_supervisor_from_effective_agent`: a failed build is reported, never persisted. */
  function BuildAndStart(stored: Option<RemoteConfig>, hash: Hash, out: Outcomes): Handled {
    match out.built
    case Failure(e) => Handled(Reporting(hash, Failed("could not build the supervisor: " + e)), None)
    case Success(_) =>
      match out.started
      case Success(s) =>
        Handled([PublishEffectiveConfig, Start(s)]
                + ReportAndPersist(stored, hash, Applied, out.UpdateOk()), Some(s))
      case Failure(e) =>
        Handled([PublishEffectiveConfig] + ReportAndPersist(stored, hash, Failed(e), out.UpdateOk()), None)
  }

  function ApplyOrStart(stored: Option<RemoteConfig>, hash: Hash, held: Option<Supervisor>, out: Outcomes): Handled {
    if held.Some? then ApplyToExisting(stored, hash, held.value, out) else BuildAndStart(stored, hash, out)
  }

  /** `apply_or_build_and_start_supervisor` for values that came with the remote configuration. */
  function ApplyRemote(stored: Option<RemoteConfig>, yaml: Yaml, hash: Hash, held: Option<Supervisor>,
                       out: Outcomes): Handled {
    match out.assembled
    case Failure(e) => Handled(Reporting(hash, Failed("invalid config: " + e)), held)
    case Success(_) =>
      var incoming := RemoteConfig(yaml, hash, Applying);
      if out.storeOk then Prepend([Store(incoming)], ApplyOrStart(Some(incoming), hash, held, out))
      else ApplyOrStart(stored, hash, held, out)
  }

  /** `apply_or_build_and_start_supervisor` for the local values of a reset. */
  function ApplyLocal(stored: Option<RemoteConfig>, hash: Hash, held: Option<Supervisor>, out: Outcomes): Handled {
    match out.assembled
    case Failure(_) => Handled(Reporting(hash, Applied) + [PublishEffectiveConfig] + StopIfHeld(held), None)
    case Success(_) => ApplyOrStart(stored, hash, held, out)
  }

  /** `reset_to_local_config` */
  function ResetToLocal(stored: Option<RemoteConfig>, local: Option<Yaml>, hash: Hash, held: Option<Supervisor>,
                        out: Outcomes): Handled {
    var rest := if out.deleteOk then None else stored;
    Prepend(if out.deleteOk then [Delete] else [],
            if out.localReadOk && local.Some? then ApplyLocal(rest, hash, held, out)
            else Handled(StopIfHeld(held) + Reporting(hash, Applied) + [PublishEffectiveConfig], None))
  }

  /** The guard of the first branch of `handle_remote_config`: this hash already reached its end. */
  predicate IsDuplicate(stored: Option<RemoteConfig>, config: OpampConfig) {
    stored.Some? && stored.value.hash == config.hash && stored.value.state.Terminal()
  }

  /** What follows the Applying report, by the result of parsing the configuration. */
  function Process(stored: Option<RemoteConfig>, local: Option<Yaml>, held: Option<Supervisor>, hash: Hash,
                   out: Outcomes): Handled {
    match out.parsed
    case Values(yaml) => ApplyRemote(stored, yaml, hash, held, out)
    case NoValues => ResetToLocal(stored, local, hash, held, out)
    case Invalid(e) => Handled(Reporting(hash, Failed(e)), held)
  }

  /** `handle_remote_config` */
  function Handle(stored: Option<RemoteConfig>, local: Option<Yaml>, held: Option<Supervisor>, config: OpampConfig,
                  out: Outcomes): Handled {
    if out.readOk && IsDuplicate(stored, config) then
      Handled(Reporting(stored.value.hash, stored.value.state), held)
    else if config.preFailed.Some? then
      Handled(Reporting(config.hash, Failed(config.preFailed.value)), held)
    else
      Prepend(Reporting(config.hash, Applying), Process(stored, local, held, config.hash, out))
  }

  /** How the collaborators answer while a sub-agent bootstraps. */
  datatype BootOutcomes = BootOutcomes(
    remoteReadOk: bool,
    localReadOk: bool,
    assembled: Attempt<()>,
    built: Attempt<()>,
    started: Attempt<Supervisor>,
    updateReadOk: bool,
    updateWriteOk: bool)
  {
    predicate UpdateOk() {
      updateReadOk && updateWriteOk
    }

    /** Whether, and why not, a supervisor comes up. */
    function Supervised(): Attempt<Supervisor> {
      match assembled
      case Failure(e) => Failure("effective agent cannot be assembled from YAML config: " + e)
      case Success(_) =>
        match built
        case Failure(e) => Failure("could not build the supervisor: " + e)
        case Success(_) =>
          match started
          case Failure(e) => Failure("could not start the supervisor: " + e)
          case Success(s) => Success(s)
    }

    function FinalState(): ConfigState {
      if Supervised().Success? then Applied else Failed(Supervised().message)
    }
  }

  function PublishIf(opamp: bool): seq<Effect> {
    if opamp then [PublishEffectiveConfig] else []
  }

  /** The last step of `init_supervisor`: only a remote configuration left Applying is completed. */
  function Complete(opamp: bool, config: Config, out: BootOutcomes): seq<Effect> {
    if config.StoredRemote? && config.config.state.Applying? then
      (if opamp then Reporting(config.config.hash, out.FinalState()) else [])
      + if out.UpdateOk() then [Persist(out.FinalState())] else []
    else []
  }

  function BringUp(opamp: bool, out: BootOutcomes): seq<Effect> {
    (if out.assembled.Success? && out.built.Success? then PublishIf(opamp) else [])
    + if out.Supervised().Success? then [Start(out.Supervised().value)] else []
  }

  /** `init_supervisor` */
  function Boot(opamp: bool, remoteEnabled: bool, stored: Option<RemoteConfig>, local: Option<Yaml>,
                out: BootOutcomes): Handled {
    var loaded := FallbackSpec(remoteEnabled, stored, local, out.remoteReadOk, out.localReadOk);
    if loaded.LoadFailed? || loaded.config.None? then Handled(PublishIf(opamp), None)
    else
      Handled(BringUp(opamp, out) + Complete(opamp, loaded.config.value, out),
              if out.Supervised().Success? then Some(out.Supervised().value) else None)
  }

  /** What survives a crash: the stored configuration, and what the server has been told. */
  datatype Durable = Durable(stored: Option<RemoteConfig>, reports: seq<StatusReport>)

  function Do(d: Durable, e: Effect): Durable {
    match e
    case Report(report) => d.(reports := d.reports + [report])
    case Store(config) => d.(stored := Some(config))
    case Persist(state) => if d.stored.Some? then d.(stored := Some(d.stored.value.(state := state))) else d
    case Delete => d.(stored := None)
    case _ => d
  }

  function Replay(d: Durable, effects: seq<Effect>): Durable
    decreases |effects|
  {
    if effects == [] then d else Replay(Do(d, effects[0]), effects[1..])
  }

  /** The statuses among a list of effects. */
  function Reports(effects: seq<Effect>): seq<StatusReport> {
    if effects == [] then []
    else (if effects[0].Report? then [effects[0].report] else []) + Reports(effects[1..])
  }

  lemma {:induction false} ReplayAppend(d: Durable, a: seq<Effect>, b: seq<Effect>)
    ensures Replay(d, a + b) == Replay(Replay(d, a), b)
    decreases |a|
  {
    if a == [] {
      assert a + b == b;
    } else {
      assert (a + b)[0] == a[0] && (a + b)[1..] == a[1..] + b;
      ReplayAppend(Do(d, a[0]), a[1..], b);
    }
  }

  lemma {:induction false} ReportsAppend(a: seq<Effect>, b: seq<Effect>)
    ensures Reports(a + b) == Reports(a) + Reports(b)
  {
    if a == [] {
      assert a + b == b;
    } else {
      assert (a + b)[0] == a[0] && (a + b)[1..] == a[1..] + b;
      ReportsAppend(a[1..], b);
    }
  }

  /** The server is told exactly the reports among the effects, in order. */
  lemma {:induction false} ReplayReports(d: Durable, effects: seq<Effect>)
    ensures Replay(d, effects).reports == d.reports + Reports(effects)
    decreases |effects|
  {
    if effects != [] {
      ReplayReports(Do(d, effects[0]), effects[1..]);
    }
  }

  /** The stored part of the durable state evolves without looking at the reports. */
  lemma {:induction false} StoredIgnoresReports(d: Durable, reports: seq<StatusReport>, effects: seq<Effect>)
    ensures Replay(d, effects).stored == Replay(d.(reports := reports), effects).stored
    decreases |effects|
  {
    if effects != [] {
      var e := effects[0];
      StoredIgnoresReports(Do(d, e), Do(d.(reports := reports), e).reports, effects[1..]);
      assert Do(d, e).(reports := Do(d.(reports := reports), e).reports) == Do(d.(reports := reports), e);
    }
  }
}
