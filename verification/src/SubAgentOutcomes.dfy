/** What a delivery and a bootstrap of a sub-agent come to, as a function of the collaborators' answers alone
    (agent-control/src/sub_agent.rs). */
module SubAgentOutcomes {
  import opened ConfigTypes
  import opened ConfigRepository
  import opened SubAgentSpec
  import opened SubAgentAgreement

  // ---- The store ----

  /** A stored configuration once the supervisor step is over: its state is rewritten if that step got so far and
      the update succeeds. */
  function Rewritten(stored: Option<RemoteConfig>, held: Option<Supervisor>, out: Outcomes): Option<RemoteConfig> {
    if stored.Some? && out.UpdateOk() && Concluded(held, out).Some? then
      Some(RemoteConfig(stored.value.yaml, stored.value.hash, Concluded(held, out).value))
    else stored
  }

  lemma ReportAndPersistStore(d: Durable, hash: Hash, state: ConfigState, updateOk: bool)
    ensures Replay(d, ReportAndPersist(d.stored, hash, state, updateOk)).stored
         == if d.stored.Some? && updateOk then Some(d.stored.value.(state := state)) else d.stored
  {
    var report := Report(StatusReport(hash, state));
    ThroughoutOne(d, report);
    if d.stored.Some? && updateOk {
      ReplayAppend(d, [report], [Persist(state)]);
      ThroughoutOne(Do(d, report), Persist(state));
    } else {
      assert ReportAndPersist(d.stored, hash, state, updateOk) == [report];
    }
  }

  lemma SupervisorStepStore(d: Durable, hash: Hash, held: Option<Supervisor>, out: Outcomes)
    ensures Replay(d, ApplyOrStart(d.stored, hash, held, out).effects).stored == Rewritten(d.stored, held, out)
  {
    var effects := ApplyOrStart(d.stored, hash, held, out).effects;
    if held.None? && out.built.Failure? {
      ThroughoutOne(d, effects[0]);
    } else {
      var told := ReportAndPersist(d.stored, hash, Concluded(held, out).value, out.UpdateOk());
      var quiet := effects[..|effects| - |told|];
      assert effects == quiet + told;
      SilentEffects(d, quiet);
      ReplayAppend(d, quiet, told);
      ReportAndPersistStore(d, hash, Concluded(held, out).value, out.UpdateOk());
    }
  }

  lemma RemoteStore(d: Durable, yaml: Yaml, hash: Hash, held: Option<Supervisor>, out: Outcomes)
    ensures Replay(d, ApplyRemote(d.stored, yaml, hash, held, out).effects).stored
         == if out.assembled.Failure? then d.stored
            else Rewritten(if out.storeOk then Some(RemoteConfig(yaml, hash, Applying)) else d.stored, held, out)
  {
    if out.assembled.Failure? {
      ThroughoutOne(d, ApplyRemote(d.stored, yaml, hash, held, out).effects[0]);
    } else if out.storeOk {
      var incoming := RemoteConfig(yaml, hash, Applying);
      ReplayAppend(d, [Store(incoming)], ApplyOrStart(Some(incoming), hash, held, out).effects);
      ThroughoutOne(d, Store(incoming));
      SupervisorStepStore(d.(stored := Some(incoming)), hash, held, out);
    } else {
      SupervisorStepStore(d, hash, held, out);
    }
  }

  /** One report among effects that touch nothing durable. */
  lemma OnlyTold(d: Durable, before: seq<Effect>, report: StatusReport, after: seq<Effect>)
    requires (forall e :: e in before ==> Silent(e)) && (forall e :: e in after ==> Silent(e))
    ensures Replay(d, before + [Report(report)] + after).stored == d.stored
  {
    ReplayAppend(d, before + [Report(report)], after);
    ReplayAppend(d, before, [Report(report)]);
    SilentEffects(d, before);
    ThroughoutOne(d, Report(report));
    SilentEffects(Do(d, Report(report)), after);
  }

  lemma LocalStore(d: Durable, local: Option<Yaml>, hash: Hash, held: Option<Supervisor>, out: Outcomes)
    ensures
      var h := if out.localReadOk && local.Some? then ApplyLocal(d.stored, hash, held, out)
               else Handled(StopIfHeld(held) + Reporting(hash, Applied) + [PublishEffectiveConfig], None);
      Replay(d, h.effects).stored
      == if out.localReadOk && local.Some? && out.assembled.Success? then Rewritten(d.stored, held, out) else d.stored
  {
    var report := StatusReport(hash, Applied);
    if out.localReadOk && local.Some? && out.assembled.Success? {
      SupervisorStepStore(d, hash, held, out);
    } else if out.localReadOk && local.Some? {
      OnlyTold(d, [], report, [PublishEffectiveConfig] + StopIfHeld(held));
      assert [] + [Report(report)] + ([PublishEffectiveConfig] + StopIfHeld(held))
          == Reporting(hash, Applied) + [PublishEffectiveConfig] + StopIfHeld(held);
    } else {
      OnlyTold(d, StopIfHeld(held), report, [PublishEffectiveConfig]);
    }
  }

  lemma ResetStore(d: Durable, local: Option<Yaml>, hash: Hash, held: Option<Supervisor>, out: Outcomes)
    ensures
      var left := if out.deleteOk then None else d.stored;
      Replay(d, ResetToLocal(d.stored, local, hash, held, out).effects).stored
      == if out.localReadOk && local.Some? && out.assembled.Success? then Rewritten(left, held, out) else left
  {
    var effects := ResetToLocal(d.stored, local, hash, held, out).effects;
    if out.deleteOk {
      assert effects == [Delete] + effects[1..];
      ReplayAppend(d, [Delete], effects[1..]);
      ThroughoutOne(d, Delete);
      LocalStore(d.(stored := None), local, hash, held, out);
    } else {
      var h := if out.localReadOk && local.Some? then ApplyLocal(d.stored, hash, held, out)
               else Handled(StopIfHeld(held) + Reporting(hash, Applied) + [PublishEffectiveConfig], None);
      assert effects == [] + h.effects == h.effects;
      LocalStore(d, local, hash, held, out);
    }
  }

  /** The hash is stored with a state in which nothing is left to do, and the store can be read. */
  predicate Recognised(d: Durable, config: OpampConfig, out: Outcomes) {
    out.readOk && d.stored.Some? && d.stored.value.hash == config.hash && d.stored.value.state != Applying
  }

  /** What a delivery leaves in the store. A duplicate, a pre-failed, an invalid or an unassembled configuration
      leaves it as it was; one with values is stored with its own YAML and hash and, at the end, the state of its
      supervisor; a reset leaves nothing; and a failed store or delete keeps the previous YAML and hash. */
  lemma StoreAfterDelivery(d: Durable, local: Option<Yaml>, held: Option<Supervisor>, config: OpampConfig,
                           out: Outcomes)
    ensures
      var after := Replay(d, Handle(d.stored, local, held, config, out).effects).stored;
      if Recognised(d, config, out) || config.preFailed.Some? then after == d.stored
      else
        match out.parsed
        case Invalid(_) => after == d.stored
        case Values(yaml) =>
          if out.assembled.Failure? then after == d.stored
          else if out.storeOk then after == Rewritten(Some(RemoteConfig(yaml, config.hash, Applying)), held, out)
          else after == Rewritten(d.stored, held, out)
        case NoValues =>
          if out.deleteOk then after.None?
          else if out.localReadOk && local.Some? && out.assembled.Success? then after == Rewritten(d.stored, held, out)
          else after == d.stored
  {
    var effects := Handle(d.stored, local, held, config, out).effects;
    ThroughoutOne(d, effects[0]);
    if Recognised(d, config, out) || config.preFailed.Some? {
      assert effects == [effects[0]];
    } else {
      var told := Do(d, effects[0]);
      assert effects == [effects[0]] + effects[1..];
      ReplayAppend(d, [effects[0]], effects[1..]);
      match out.parsed
      case Invalid(_) => ThroughoutOne(told, effects[1]);
      case Values(yaml) => RemoteStore(told, yaml, config.hash, held, out);
      case NoValues => ResetStore(told, local, config.hash, held, out);
    }
  }

  // ---- The order ----

  predicate Touching(e: Effect) {
    e.Start? || e.Apply? || e.ApplyFailed?
  }

  /** Nothing is stored or deleted, the last report for the hash comes after every supervisor call that can fail, and
      what is persisted is what was just reported. */
  ghost predicate Told(effects: seq<Effect>, hash: Hash) {
    && (forall i :: 0 <= i < |effects| ==> !effects[i].Store? && !effects[i].Delete?)
    && (forall i :: 0 <= i < |effects| && effects[i].Persist? ==>
          i > 0 && i == |effects| - 1 && effects[i - 1] == Report(StatusReport(hash, effects[i].state)))
    && (forall i, j :: 0 <= i < |effects| && 0 <= j < |effects| && Touching(effects[i]) && effects[j].Report? ==> i < j)
  }

  lemma ReportThenPersist(quiet: seq<Effect>, stored: Option<RemoteConfig>, hash: Hash, state: ConfigState,
                          updateOk: bool)
    requires forall i :: 0 <= i < |quiet| ==> Silent(quiet[i])
    ensures Told(quiet + ReportAndPersist(stored, hash, state, updateOk), hash)
  {
    var effects, n := quiet + ReportAndPersist(stored, hash, state, updateOk), |quiet|;
    assert effects[n] == Report(StatusReport(hash, state));
    assert |effects| == n + 2 ==> effects[n + 1] == Persist(state);
    assert forall i :: 0 <= i < n ==> effects[i] == quiet[i];
  }

  lemma SupervisorStepInOrder(stored: Option<RemoteConfig>, hash: Hash, held: Option<Supervisor>, out: Outcomes)
    ensures Told(ApplyOrStart(stored, hash, held, out).effects, hash)
  {
    var effects := ApplyOrStart(stored, hash, held, out).effects;
    if held.Some? || out.built.Success? {
      var told := ReportAndPersist(stored, hash, Concluded(held, out).value, out.UpdateOk());
      var quiet := effects[..|effects| - |told|];
      assert effects == quiet + told;
      ReportThenPersist(quiet, stored, hash, Concluded(held, out).value, out.UpdateOk());
    }
  }

  lemma LocalInOrder(stored: Option<RemoteConfig>, local: Option<Yaml>, hash: Hash, held: Option<Supervisor>,
                     out: Outcomes)
    ensures
      var h := if out.localReadOk && local.Some? then ApplyLocal(stored, hash, held, out)
               else Handled(StopIfHeld(held) + Reporting(hash, Applied) + [PublishEffectiveConfig], None);
      Told(h.effects, hash)
  {
    SupervisorStepInOrder(stored, hash, held, out);
  }

  /** A delivery that is processed is announced before anything else; then the store is written; and then come the
      supervisor, the report, and the state, in that order. */
  lemma DeliveryInOrder(d: Durable, local: Option<Yaml>, held: Option<Supervisor>, config: OpampConfig, out: Outcomes)
    requires !Recognised(d, config, out) && config.preFailed.None?
    ensures
      var effects := Handle(d.stored, local, held, config, out).effects;
      var writes := if out.parsed.Values? then out.assembled.Success? && out.storeOk
                    else out.parsed.NoValues? && out.deleteOk;
      && |effects| >= 2
      && effects[0] == Report(StatusReport(config.hash, Applying))
      && (writes ==>
            effects[1] == if out.parsed.NoValues? then Delete
                          else Store(RemoteConfig(out.parsed.yaml, config.hash, Applying)))
      && Told(effects[if writes then 2 else 1..], config.hash)
  {
    var effects, rest := Handle(d.stored, local, held, config, out).effects,
                         Process(d.stored, local, held, config.hash, out).effects;
    assert effects == Reporting(config.hash, Applying) + rest;
    match out.parsed
    case Invalid(_) => assert effects[1..] == rest;
    case Values(yaml) =>
      RemoteInOrder(d.stored, yaml, config.hash, held, out);
      assert effects[1..] == rest && (out.assembled.Success? && out.storeOk ==> effects[2..] == rest[1..]);
    case NoValues =>
      ResetInOrder(d.stored, local, config.hash, held, out);
      assert effects[1..] == rest && (out.deleteOk ==> effects[2..] == rest[1..]);
  }

  lemma RemoteInOrder(stored: Option<RemoteConfig>, yaml: Yaml, hash: Hash, held: Option<Supervisor>, out: Outcomes)
    ensures
      var effects := ApplyRemote(stored, yaml, hash, held, out).effects;
      && |effects| >= 1
      && if out.assembled.Success? && out.storeOk then
           effects[0] == Store(RemoteConfig(yaml, hash, Applying)) && Told(effects[1..], hash)
         else Told(effects, hash)
  {
    var effects := ApplyRemote(stored, yaml, hash, held, out).effects;
    if out.assembled.Success? {
      var now := if out.storeOk then Some(RemoteConfig(yaml, hash, Applying)) else stored;
      SupervisorStepInOrder(now, hash, held, out);
      if out.storeOk {
        assert effects[1..] == ApplyOrStart(now, hash, held, out).effects;
      }
    }
  }

  lemma ResetInOrder(stored: Option<RemoteConfig>, local: Option<Yaml>, hash: Hash, held: Option<Supervisor>,
                     out: Outcomes)
    ensures
      var effects := ResetToLocal(stored, local, hash, held, out).effects;
      && |effects| >= 1
      && if out.deleteOk then effects[0] == Delete && Told(effects[1..], hash) else Told(effects, hash)
  {
    var effects, left := ResetToLocal(stored, local, hash, held, out).effects, if out.deleteOk then None else stored;
    var h := if out.localReadOk && local.Some? then ApplyLocal(left, hash, held, out)
             else Handled(StopIfHeld(held) + Reporting(hash, Applied) + [PublishEffectiveConfig], None);
    LocalInOrder(left, local, hash, held, out);
    if out.deleteOk {
      assert effects[1..] == h.effects;
    } else {
      assert effects == [] + h.effects == h.effects;
    }
  }

  // ---- The supervisor ----

  /** What applying a configuration leaves running. */
  function Running(held: Option<Supervisor>, out: Outcomes): Option<Supervisor> {
    match held
    case Some(_) => if out.applied.Success? then Some(out.applied.value) else None
    case None => if out.built.Success? && out.started.Success? then Some(out.started.value) else None
  }

  /** What a delivery leaves running. A configuration that is not applied leaves the supervisor alone; a reset to a
      local configuration that is missing or broken leaves none. */
  lemma SupervisorAfterDelivery(d: Durable, local: Option<Yaml>, held: Option<Supervisor>, config: OpampConfig,
                                out: Outcomes)
    ensures
      var after := Handle(d.stored, local, held, config, out).supervisor;
      if Recognised(d, config, out) || config.preFailed.Some? then after == held
      else
        match out.parsed
        case Invalid(_) => after == held
        case Values(_) => after == if out.assembled.Success? then Running(held, out) else held
        case NoValues =>
          after == if out.localReadOk && local.Some? && out.assembled.Success? then Running(held, out) else None
  {
  }

  // ---- The effective configuration ----

  function Published(effects: seq<Effect>): nat {
    if effects == [] then 0 else (if effects[0] == PublishEffectiveConfig then 1 else 0) + Published(effects[1..])
  }

  lemma {:induction false} PublishedAppend(a: seq<Effect>, b: seq<Effect>)
    ensures Published(a + b) == Published(a) + Published(b)
  {
    if a == [] {
      assert a + b == b;
    } else {
      assert (a + b)[1..] == a[1..] + b;
      PublishedAppend(a[1..], b);
    }
  }

  lemma {:induction false} PublishedNone(effects: seq<Effect>)
    requires PublishEffectiveConfig !in effects
    ensures Published(effects) == 0
  {
    if effects != [] {
      PublishedNone(effects[1..]);
    }
  }

  lemma PublishedOnce(before: seq<Effect>, after: seq<Effect>)
    requires PublishEffectiveConfig !in before && PublishEffectiveConfig !in after
    ensures Published(before + [PublishEffectiveConfig] + after) == 1
  {
    PublishedAppend(before + [PublishEffectiveConfig], after);
    PublishedAppend(before, [PublishEffectiveConfig]);
    PublishedNone(before);
    PublishedNone(after);
    assert [PublishEffectiveConfig][1..] == [];
  }

  lemma SupervisorStepPublishes(stored: Option<RemoteConfig>, hash: Hash, held: Option<Supervisor>, out: Outcomes)
    ensures
      var effects := ApplyOrStart(stored, hash, held, out).effects;
      if held.Some? || out.built.Success? then Published(effects) == 1 && effects[0] == PublishEffectiveConfig
      else Published(effects) == 0
  {
    var effects := ApplyOrStart(stored, hash, held, out).effects;
    if held.Some? || out.built.Success? {
      assert effects == [] + [PublishEffectiveConfig] + effects[1..];
      PublishedOnce([], effects[1..]);
    } else {
      PublishedNone(effects);
    }
  }

  /** The effective configuration is announced once for a delivery that gets to a supervisor or ends without one,
      and not at all for one that changes nothing. */
  lemma DeliveryPublishesExactly(d: Durable, local: Option<Yaml>, held: Option<Supervisor>, config: OpampConfig,
                                 out: Outcomes)
    ensures
      var times := Published(Handle(d.stored, local, held, config, out).effects);
      var step := if held.Some? || out.built.Success? then 1 else 0;
      if Recognised(d, config, out) || config.preFailed.Some? || out.parsed.Invalid? then times == 0
      else if out.parsed.Values? then times == if out.assembled.Success? then step else 0
      else times == if out.localReadOk && local.Some? && out.assembled.Success? then step else 1
  {
    var effects := Handle(d.stored, local, held, config, out).effects;
    if Recognised(d, config, out) || config.preFailed.Some? || out.parsed.Invalid?
       || (out.parsed.Values? && out.assembled.Failure?) {
      PublishedNone(effects);
    } else {
      var announce, rest := Reporting(config.hash, Applying), Process(d.stored, local, held, config.hash, out).effects;
      assert effects == announce + rest;
      PublishedAppend(announce, rest);
      PublishedNone(announce);
      if out.parsed.Values? {
        RemotePublishes(d.stored, out.parsed.yaml, config.hash, held, out);
      } else {
        ResetPublishes(d.stored, local, config.hash, held, out);
      }
    }
  }

  lemma RemotePublishes(stored: Option<RemoteConfig>, yaml: Yaml, hash: Hash, held: Option<Supervisor>, out: Outcomes)
    requires out.assembled.Success?
    ensures Published(ApplyRemote(stored, yaml, hash, held, out).effects)
         == if held.Some? || out.built.Success? then 1 else 0
  {
    var incoming := RemoteConfig(yaml, hash, Applying);
    if out.storeOk {
      PublishedAppend([Store(incoming)], ApplyOrStart(Some(incoming), hash, held, out).effects);
      PublishedNone([Store(incoming)]);
      SupervisorStepPublishes(Some(incoming), hash, held, out);
    } else {
      SupervisorStepPublishes(stored, hash, held, out);
    }
  }

  lemma ResetPublishes(stored: Option<RemoteConfig>, local: Option<Yaml>, hash: Hash, held: Option<Supervisor>,
                       out: Outcomes)
    ensures
      Published(ResetToLocal(stored, local, hash, held, out).effects)
      == if out.localReadOk && local.Some? && out.assembled.Success? && held.None? && out.built.Failure? then 0 else 1
  {
    var effects := ResetToLocal(stored, local, hash, held, out).effects;
    var first, left := if out.deleteOk then [Delete] else [], if out.deleteOk then None else stored;
    if out.localReadOk && local.Some? && out.assembled.Success? {
      PublishedAppend(first, ApplyOrStart(left, hash, held, out).effects);
      PublishedNone(first);
      SupervisorStepPublishes(left, hash, held, out);
    } else if out.localReadOk && local.Some? {
      PublishedOnce(first + Reporting(hash, Applied), StopIfHeld(held));
      assert effects == (first + Reporting(hash, Applied)) + [PublishEffectiveConfig] + StopIfHeld(held);
    } else {
      PublishedOnce(first + StopIfHeld(held) + Reporting(hash, Applied), []);
      assert effects == (first + StopIfHeld(held) + Reporting(hash, Applied)) + [PublishEffectiveConfig] + [];
    }
  }

  // ---- The bootstrap ----

  /** There is a configuration to start from: a remote one if those are enabled, else a local one. */
  predicate Configured(remoteEnabled: bool, stored: Option<RemoteConfig>, local: Option<Yaml>, out: BootOutcomes) {
    && (remoteEnabled ==> out.remoteReadOk)
    && ((remoteEnabled && stored.Some?) || (out.localReadOk && local.Some?))
  }

  /** A bootstrap starts a supervisor exactly if there is a configuration, remote or local, settled or not, and it
      can be assembled, built and started; and that supervisor is the one it holds. */
  lemma BootExactly(opamp: bool, remoteEnabled: bool, stored: Option<RemoteConfig>, local: Option<Yaml>,
                    out: BootOutcomes)
    ensures
      var h := Boot(opamp, remoteEnabled, stored, local, out);
      var configured := Configured(remoteEnabled, stored, local, out);
      && (h.supervisor.Some? <==>
            configured && out.assembled.Success? && out.built.Success? && out.started.Success?)
      && (h.supervisor.Some? ==> h.supervisor.value == out.started.value && Start(out.started.value) in h.effects)
  {
  }

  /** With a client a bootstrap announces the effective configuration once, exactly if there is none to start from or
      it could be built. */
  lemma BootPublishesExactly(opamp: bool, remoteEnabled: bool, stored: Option<RemoteConfig>, local: Option<Yaml>,
                             out: BootOutcomes)
    ensures Published(Boot(opamp, remoteEnabled, stored, local, out).effects)
         == if opamp && (!Configured(remoteEnabled, stored, local, out)
                         || (out.assembled.Success? && out.built.Success?)) then 1 else 0
  {
    var h := Boot(opamp, remoteEnabled, stored, local, out);
    if !Configured(remoteEnabled, stored, local, out) {
      assert h.effects == PublishIf(opamp);
      assert [PublishEffectiveConfig][1..] == [];
    } else if opamp && out.assembled.Success? && out.built.Success? {
      assert h.effects == [] + [PublishEffectiveConfig] + h.effects[1..];
      PublishedOnce([], h.effects[1..]);
    } else {
      PublishedNone(h.effects);
    }
  }

  /** Without a client a bootstrap reports nothing and leaves in the store what it would leave with one. */
  lemma BootWithoutClient(remoteEnabled: bool, d: Durable, local: Option<Yaml>, out: BootOutcomes)
    ensures
      var alone := Replay(d, Boot(false, remoteEnabled, d.stored, local, out).effects);
      var told := Replay(d, Boot(true, remoteEnabled, d.stored, local, out).effects);
      alone.reports == d.reports && alone.stored == told.stored
  {
    var loaded := FallbackSpec(remoteEnabled, d.stored, local, out.remoteReadOk, out.localReadOk);
    if loaded.LoadFailed? || loaded.config.None? {
      SilentEffects(d, PublishIf(true));
      SilentEffects(d, PublishIf(false));
    } else {
      CompletionStore(d, true, loaded.config.value, out);
      CompletionStore(d, false, loaded.config.value, out);
    }
  }

  lemma CompletionStore(d: Durable, opamp: bool, config: Config, out: BootOutcomes)
    requires config.StoredRemote? ==> d.stored == Some(config.config)
    ensures
      var end := Replay(d, BringUp(opamp, out) + Complete(opamp, config, out));
      var completes := config.StoredRemote? && config.config.state == Applying;
      && end.stored
         == (if completes && out.UpdateOk() then Some(d.stored.value.(state := out.FinalState())) else d.stored)
      && (!opamp ==> end.reports == d.reports)
  {
    var up, done := BringUp(opamp, out), Complete(opamp, config, out);
    SilentEffects(d, up);
    ReplayAppend(d, up, done);
    if config.StoredRemote? && config.config.state == Applying {
      if opamp {
        assert done == ReportAndPersist(d.stored, config.config.hash, out.FinalState(), out.UpdateOk());
        ReportAndPersistStore(d, config.config.hash, out.FinalState(), out.UpdateOk());
      } else if out.UpdateOk() {
        assert done == [Persist(out.FinalState())];
        ThroughoutOne(d, Persist(out.FinalState()));
      } else {
        assert done == [];
      }
    } else {
      assert done == [];
    }
  }
}
