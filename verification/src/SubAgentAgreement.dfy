/** Agreement between the persisted state of a sub-agent's configuration and what the server was
    last told about it: at every instant, even if the process dies there. */
module SubAgentAgreement {
  import opened ConfigTypes
  import opened ConfigRepository
  import opened SubAgentSpec

  /** A stored terminal state is the state last reported for that hash. */
  predicate Agrees(d: Durable) {
    d.stored.Some? && d.stored.value.state.Terminal() ==>
      Latest(d.reports, d.stored.value.hash) == Some(d.stored.value.state)
  }

  /** Agreement before the first effect, between any two effects, and after the last. */
  predicate AgreesThroughout(d: Durable, effects: seq<Effect>)
    decreases |effects|
  {
    Agrees(d) && (effects == [] || AgreesThroughout(Do(d, effects[0]), effects[1..]))
  }

  /** The recursive form is the statement about every prefix, hence about every crash point. */
  lemma {:induction false} ThroughoutIsEveryPrefix(d: Durable, effects: seq<Effect>)
    ensures AgreesThroughout(d, effects) <==> forall k :: 0 <= k <= |effects| ==> Agrees(Replay(d, effects[..k]))
    decreases |effects|
  {
    assert Replay(d, effects[..0]) == d;
    if effects != [] {
      var next, rest := Do(d, effects[0]), effects[1..];
      ThroughoutIsEveryPrefix(next, rest);
      forall k | 0 < k <= |effects|
        ensures Replay(d, effects[..k]) == Replay(next, rest[..k - 1])
      {
        assert effects[..k][0] == effects[0] && effects[..k][1..] == rest[..k - 1];
      }
      forall j | 0 <= j <= |rest|
        ensures Replay(d, effects[..j + 1]) == Replay(next, rest[..j])
      {
      }
    }
  }

  lemma {:induction false} ThroughoutAppend(d: Durable, a: seq<Effect>, b: seq<Effect>)
    ensures AgreesThroughout(d, a + b) <==> AgreesThroughout(d, a) && AgreesThroughout(Replay(d, a), b)
    decreases |a|
  {
    if a == [] {
      assert a + b == b;
    } else {
      assert (a + b)[0] == a[0] && (a + b)[1..] == a[1..] + b;
      ThroughoutAppend(Do(d, a[0]), a[1..], b);
    }
  }

  lemma ThroughoutOne(d: Durable, e: Effect)
    ensures AgreesThroughout(d, [e]) <==> Agrees(d) && Agrees(Do(d, e))
    ensures Replay(d, [e]) == Do(d, e)
  {
    assert [e][1..] == [];
    assert Replay(Do(d, e), []) == Do(d, e);
  }

  /** Supervisor calls and effective-config updates touch nothing durable. */
  predicate Silent(e: Effect) {
    e.PublishEffectiveConfig? || e.Start? || e.Apply? || e.ApplyFailed? || e.Stop?
  }

  lemma {:induction false} SilentEffects(d: Durable, effects: seq<Effect>)
    requires forall e :: e in effects ==> Silent(e)
    ensures Replay(d, effects) == d
    ensures AgreesThroughout(d, effects) <==> Agrees(d)
    decreases |effects|
  {
    if effects != [] {
      assert Silent(effects[0]) && Do(d, effects[0]) == d;
      SilentEffects(d, effects[1..]);
    }
  }

  /** The stored configuration is the one being talked about, and it already reached its end. */
  predicate Settled(d: Durable, hash: Hash) {
    d.stored.Some? && d.stored.value.hash == hash && d.stored.value.state.Terminal()
  }

  /** A report breaks agreement only for a settled configuration, and only if it says something else. */
  lemma ReportingAgreement(d: Durable, hash: Hash, state: ConfigState)
    requires Agrees(d)
    ensures AgreesThroughout(d, Reporting(hash, state)) <==> !(Settled(d, hash) && d.stored.value.state != state)
    ensures Replay(d, Reporting(hash, state)) == d.(reports := d.reports + [StatusReport(hash, state)])
  {
    ThroughoutOne(d, Report(StatusReport(hash, state)));
    LatestAfterReport(d.reports, StatusReport(hash, state));
  }

  /** Writing `state` over a stored configuration that was last reported differently. */
  predicate Misfiles(d: Durable, hash: Hash, state: ConfigState) {
    d.stored.Some? && d.stored.value.hash != hash && Latest(d.reports, d.stored.value.hash) != Some(state)
  }

  lemma ReportAndPersistAgreement(d: Durable, hash: Hash, state: ConfigState, updateOk: bool)
    requires Agrees(d) && !Settled(d, hash) && state.Terminal()
    ensures AgreesThroughout(d, ReportAndPersist(d.stored, hash, state, updateOk)) <==>
            !(updateOk && Misfiles(d, hash, state))
  {
    var told := Replay(d, Reporting(hash, state));
    ReportingAgreement(d, hash, state);
    LatestAfterReport(d.reports, StatusReport(hash, state));
    if d.stored.Some? && updateOk {
      ThroughoutAppend(d, Reporting(hash, state), [Persist(state)]);
      ThroughoutOne(told, Persist(state));
    } else {
      assert ReportAndPersist(d.stored, hash, state, updateOk) == Reporting(hash, state);
    }
  }

  /** The state `report_and_persist_state` is called with, if the supervisor step gets that far. */
  function Concluded(held: Option<Supervisor>, out: Outcomes): Option<ConfigState> {
    if held.Some? then Some(if out.applied.Success? then Applied else Failed(out.applied.message))
    else if out.built.Failure? then None
    else Some(if out.started.Success? then Applied else Failed(out.started.message))
  }

  lemma ApplyOrStartAgreement(d: Durable, hash: Hash, held: Option<Supervisor>, out: Outcomes)
    requires Agrees(d) && !Settled(d, hash)
    ensures AgreesThroughout(d, ApplyOrStart(d.stored, hash, held, out).effects) <==>
            !(out.UpdateOk() && Concluded(held, out).Some? && Misfiles(d, hash, Concluded(held, out).value))
  {
    var effects := ApplyOrStart(d.stored, hash, held, out).effects;
    if held.None? && out.built.Failure? {
      ReportingAgreement(d, hash, Failed("could not build the supervisor: " + out.built.message));
    } else {
      var state := Concluded(held, out).value;
      var tail := ReportAndPersist(d.stored, hash, state, out.UpdateOk());
      var quiet := effects[..|effects| - |tail|];
      assert effects == quiet + tail;
      SilentEffects(d, quiet);
      ThroughoutAppend(d, quiet, tail);
      ReportAndPersistAgreement(d, hash, state, out.UpdateOk());
    }
  }

  /** A duplicate that cannot be recognised because reading the store failed, unless it happens to
      arrive already failed for the very reason that is stored. */
  predicate UnrecognisedDuplicate(d: Durable, config: OpampConfig, out: Outcomes) {
    && !out.readOk
    && IsDuplicate(d.stored, config)
    && (config.preFailed.Some? ==> Failed(config.preFailed.value) != d.stored.value.state)
  }

  /** The write that should have replaced or removed the previous configuration did not happen. */
  predicate PreviousConfigLeft(local: Option<Yaml>, out: Outcomes) {
    match out.parsed
    case Values(_) => !out.storeOk
    case NoValues => !out.deleteOk && out.localReadOk && local.Some?
    case Invalid(_) => false
  }

  /** The new configuration's outcome is written into the record of the previous one. */
  predicate OutcomeMisfiled(d: Durable, local: Option<Yaml>, held: Option<Supervisor>, config: OpampConfig,
                            out: Outcomes) {
    && config.preFailed.None?
    && out.assembled.Success?
    && PreviousConfigLeft(local, out)
    && out.UpdateOk()
    && Concluded(held, out).Some?
    && Misfiles(d, config.hash, Concluded(held, out).value)
  }

  predicate Hazard(d: Durable, local: Option<Yaml>, held: Option<Supervisor>, config: OpampConfig, out: Outcomes) {
    UnrecognisedDuplicate(d, config, out) || OutcomeMisfiled(d, local, held, config, out)
  }

  /** After the Applying report, for a configuration that is not settled. */
  lemma ProcessingAgreement(d: Durable, local: Option<Yaml>, held: Option<Supervisor>, config: OpampConfig,
                            out: Outcomes)
    requires Agrees(d) && !Settled(d, config.hash)
    ensures out.parsed.Values? ==>
              (AgreesThroughout(d, ApplyRemote(d.stored, out.parsed.yaml, config.hash, held, out).effects) <==>
               !OutcomeMisfiled(d, local, held, config.(preFailed := None), out))
    ensures out.parsed.NoValues? ==>
              (AgreesThroughout(d, ResetToLocal(d.stored, local, config.hash, held, out).effects) <==>
               !OutcomeMisfiled(d, local, held, config.(preFailed := None), out))
  {
    match out.parsed
    case Invalid(_) =>
    case Values(yaml) => RemoteAgreement(d, yaml, held, config.hash, out);
    case NoValues => ResetAgreement(d, local, held, config.hash, out);
  }

  lemma RemoteAgreement(d: Durable, yaml: Yaml, held: Option<Supervisor>, hash: Hash, out: Outcomes)
    requires Agrees(d) && !Settled(d, hash)
    ensures AgreesThroughout(d, ApplyRemote(d.stored, yaml, hash, held, out).effects) <==>
            !(out.assembled.Success? && !out.storeOk && out.UpdateOk()
              && Concluded(held, out).Some? && Misfiles(d, hash, Concluded(held, out).value))
  {
    if out.assembled.Failure? {
      ReportingAgreement(d, hash, Failed("invalid config: " + out.assembled.message));
    } else if out.storeOk {
      var incoming := RemoteConfig(yaml, hash, Applying);
      var saved := d.(stored := Some(incoming));
      var rest := ApplyOrStart(Some(incoming), hash, held, out).effects;
      ThroughoutOne(d, Store(incoming));
      ThroughoutAppend(d, [Store(incoming)], rest);
      ApplyOrStartAgreement(saved, hash, held, out);
    } else {
      ApplyOrStartAgreement(d, hash, held, out);
    }
  }

  /** What a reset does after the deletion. */
  lemma LocalAgreement(d: Durable, local: Option<Yaml>, held: Option<Supervisor>, hash: Hash, out: Outcomes)
    requires Agrees(d) && !Settled(d, hash)
    ensures
      var h := if out.localReadOk && local.Some? then ApplyLocal(d.stored, hash, held, out)
               else Handled(StopIfHeld(held) + Reporting(hash, Applied) + [PublishEffectiveConfig], None);
      AgreesThroughout(d, h.effects) <==>
        !(out.assembled.Success? && out.localReadOk && local.Some? && out.UpdateOk()
          && Concluded(held, out).Some? && Misfiles(d, hash, Concluded(held, out).value))
  {
    if out.localReadOk && local.Some? && out.assembled.Success? {
      ApplyOrStartAgreement(d, hash, held, out);
    } else if out.localReadOk && local.Some? {
      ReportedApplied(d, hash, [], [PublishEffectiveConfig] + StopIfHeld(held));
      assert [] + Reporting(hash, Applied) + ([PublishEffectiveConfig] + StopIfHeld(held))
          == Reporting(hash, Applied) + [PublishEffectiveConfig] + StopIfHeld(held);
    } else {
      ReportedApplied(d, hash, StopIfHeld(held), [PublishEffectiveConfig]);
    }
  }

  lemma ResetAgreement(d: Durable, local: Option<Yaml>, held: Option<Supervisor>, hash: Hash, out: Outcomes)
    requires Agrees(d) && !Settled(d, hash)
    ensures AgreesThroughout(d, ResetToLocal(d.stored, local, hash, held, out).effects) <==>
            !(out.assembled.Success? && !out.deleteOk && out.localReadOk && local.Some? && out.UpdateOk()
              && Concluded(held, out).Some? && Misfiles(d, hash, Concluded(held, out).value))
  {
    var whole := ResetToLocal(d.stored, local, hash, held, out).effects;
    if out.deleteOk {
      var rest := whole[1..];
      assert whole == [Delete] + rest;
      ThroughoutOne(d, Delete);
      ThroughoutAppend(d, [Delete], rest);
      LocalAgreement(d.(stored := None), local, held, hash, out);
    } else {
      var h := if out.localReadOk && local.Some? then ApplyLocal(d.stored, hash, held, out)
               else Handled(StopIfHeld(held) + Reporting(hash, Applied) + [PublishEffectiveConfig], None);
      assert whole == [] + h.effects == h.effects;
      LocalAgreement(d, local, held, hash, out);
    }
  }

  /** The ways a reset ends without starting anything: silent effects around one Applied report. */
  lemma ReportedApplied(d: Durable, hash: Hash, before: seq<Effect>, after: seq<Effect>)
    requires Agrees(d) && !Settled(d, hash)
    requires (forall e :: e in before ==> Silent(e)) && (forall e :: e in after ==> Silent(e))
    ensures AgreesThroughout(d, before + Reporting(hash, Applied) + after)
  {
    Regroup(before, Reporting(hash, Applied), after);
    ThroughoutAppend(d, before, Reporting(hash, Applied) + after);
    SilentEffects(d, before);
    ReportingAgreement(d, hash, Applied);
    ThroughoutAppend(d, Reporting(hash, Applied), after);
    SilentEffects(Replay(d, Reporting(hash, Applied)), after);
  }

  /** The exact condition: handling a configuration keeps the store and the reports in agreement at
      every instant if and only if neither hazard is present beforehand. */
  lemma DeliveryAgreementExact(d: Durable, local: Option<Yaml>, held: Option<Supervisor>, config: OpampConfig,
                               out: Outcomes)
    requires Agrees(d)
    ensures AgreesThroughout(d, Handle(d.stored, local, held, config, out).effects) <==>
            !Hazard(d, local, held, config, out)
  {
    var effects := Handle(d.stored, local, held, config, out).effects;
    if out.readOk && IsDuplicate(d.stored, config) {
      ReportingAgreement(d, config.hash, d.stored.value.state);
    } else if config.preFailed.Some? {
      ReportingAgreement(d, config.hash, Failed(config.preFailed.value));
    } else {
      var rest := effects[1..];
      assert effects == Reporting(config.hash, Applying) + rest;
      ReportingAgreement(d, config.hash, Applying);
      ThroughoutAppend(d, Reporting(config.hash, Applying), rest);
      LatestAfterReport(d.reports, StatusReport(config.hash, Applying));
      if !IsDuplicate(d.stored, config) {
        var told := Replay(d, Reporting(config.hash, Applying));
        if out.parsed.Invalid? {
          ReportingAgreement(told, config.hash, Failed(out.parsed.message));
        } else {
          ProcessingAgreement(told, local, held, config, out);
        }
      }
    }
  }

  /** Bootstrapping with an OpAMP client keeps agreement whatever fails. */
  lemma BootAgreement(remoteEnabled: bool, d: Durable, local: Option<Yaml>, out: BootOutcomes)
    requires Agrees(d)
    ensures AgreesThroughout(d, Boot(true, remoteEnabled, d.stored, local, out).effects)
  {
    var loaded := FallbackSpec(remoteEnabled, d.stored, local, out.remoteReadOk, out.localReadOk);
    if loaded.LoadFailed? || loaded.config.None? {
      SilentEffects(d, PublishIf(true));
    } else {
      var up, done := BringUp(true, out), Complete(true, loaded.config.value, out);
      SilentEffects(d, up);
      ThroughoutAppend(d, up, done);
      if loaded.config.value.StoredRemote? && loaded.config.value.config.state.Applying? {
        assert done == ReportAndPersist(d.stored, d.stored.value.hash, out.FinalState(), out.UpdateOk());
        ReportAndPersistAgreement(d, d.stored.value.hash, out.FinalState(), out.UpdateOk());
      }
    }
  }

  /** With reads, stores and deletes that succeed no hazard is possible; `update_state` may fail. */
  lemma ReliableIoHasNoHazard(d: Durable, local: Option<Yaml>, held: Option<Supervisor>, config: OpampConfig,
                              out: Outcomes)
    requires Agrees(d) && out.readOk && out.storeOk && out.deleteOk
    ensures AgreesThroughout(d, Handle(d.stored, local, held, config, out).effects)
  {
    DeliveryAgreementExact(d, local, held, config, out);
  }

  /** Both hazards are real. A failed store write records configuration "b"'s success under "a", which
      was reported as failed; a failed read reports the settled "a" as Applying again. */
  lemma HazardWitnesses()
    ensures
      var d := Durable(Some(RemoteConfig("", "a", Failed("x"))), [StatusReport("a", Failed("x"))]);
      var out := Outcomes(true, Values("y"), Success(()), true, true, true, Success(()), Success(Supervisor(0)),
                          Failure(""), true, true);
      && Agrees(d)
      && !AgreesThroughout(d, Handle(d.stored, None, None, OpampConfig("b", None), out.(storeOk := false)).effects)
      && !AgreesThroughout(d, Handle(d.stored, None, None, OpampConfig("a", None), out.(readOk := false)).effects)
  {
    var d := Durable(Some(RemoteConfig("", "a", Failed("x"))), [StatusReport("a", Failed("x"))]);
    var out := Outcomes(true, Values("y"), Success(()), true, true, true, Success(()), Success(Supervisor(0)),
                        Failure(""), true, true);
    LatestAfterReport([], StatusReport("a", Failed("x")));
    assert d.reports == [] + [StatusReport("a", Failed("x"))];
    DeliveryAgreementExact(d, None, None, OpampConfig("b", None), out.(storeOk := false));
    DeliveryAgreementExact(d, None, None, OpampConfig("a", None), out.(readOk := false));
  }
}
