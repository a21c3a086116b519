/** How Agent Control handles a remote configuration and restarts, and what that means over whole runs
    (agent-control/src/agent_control.rs). */
module AgentControlSpec {
  import opened ConfigTypes
  import opened ConfigRepository
  import opened AgentTypeIds
  import opened Reconciliation
  import opened DynamicConfig
  import opened SubAgentSpec
  import opened SubAgentAgreement

  /** An incoming configuration; `empty` means that no entry has any content. */
  datatype Incoming = Incoming(hash: Hash, preFailed: Option<string>, empty: bool)

  /** How every collaborator answers while one configuration is handled. `local` is what loading the
      configuration gives after the remote one was deleted, `merged` what the entries merge to. */
  datatype Io = Io(
    announced: bool,
    validated: bool,
    deleteOk: bool,
    local: Option<Dynamic>,
    merged: Option<Dynamic>,
    accepted: bool,
    updated: bool,
    encoded: Option<Yaml>,
    storeOk: bool,
    agents: AgentId -> AgentIo,
    text: string,
    updateReadOk: bool,
    updateWriteOk: bool,
    reported: bool,
    published: bool)
  {
    predicate UpdateOk() {
      updateReadOk && updateWriteOk
    }
  }

  datatype Control = Control(durable: Durable, running: Running, current: Dynamic)

  /** The part of `validate_apply_store_remote_config` before the agents are touched. */
  datatype Stage = Rejected(written: seq<Effect>) | Reached(written: seq<Effect>, wanted: Dynamic)

  function Prepare(config: Incoming, io: Io): Stage {
    if config.preFailed.Some? || !io.validated then Rejected([])
    else if config.empty then
      if !io.deleteOk then Rejected([])
      else if io.local.None? || !io.accepted || !io.updated then Rejected([Delete])
      else Reached([Delete], io.local.value)
    else if io.merged.None? || !io.accepted || !io.updated || io.encoded.None? || !io.storeOk then Rejected([])
    else Reached([Store(RemoteConfig(io.encoded.value, config.hash, Applying))], io.merged.value)
  }

  /** The bookkeeping after the agents were touched: persist, then report; each failure ends it. */
  function Conclude(stored: Option<RemoteConfig>, hash: Hash, state: ConfigState, io: Io): seq<Effect> {
    if stored.None? || !io.UpdateOk() then []
    else [Persist(state)] + if io.reported then Reporting(hash, state) else []
  }

  /** Everything after the agents were touched succeeded. */
  predicate BookkeepingDone(stored: Option<RemoteConfig>, io: Io) {
    stored.Some? && io.UpdateOk() && io.reported && io.published
  }

  function StoredAfter(c: Control, stage: Stage): Option<RemoteConfig> {
    Replay(c.durable, stage.written).stored
  }

  /** The agents were all reconciled and the bookkeeping went through. */
  predicate Advances(c: Control, config: Incoming, io: Io) {
    && io.announced
    && Prepare(config, io).Reached?
    && AllWell(c.running, c.current.agents, Prepare(config, io).wanted.agents, io.agents)
    && BookkeepingDone(StoredAfter(c, Prepare(config, io)), io)
  }

  /** The agents were touched at all. */
  predicate Touches(config: Incoming, io: Io) {
    io.announced && Prepare(config, io).Reached?
  }

  /** The terminal state a delivery ends with. */
  function Verdict(c: Control, config: Incoming, io: Io): ConfigState {
    match Prepare(config, io)
    case Rejected(_) => Failed("Error applying Agent Control remote config: " + io.text)
    case Reached(_, wanted) =>
      if AllWell(c.running, c.current.agents, wanted.agents, io.agents) then Applied
      else Failed("Error applying Agent Control remote config for some agents: " + io.text)
  }

  /** What follows the preparation: the bookkeeping, or the report of the rejection. `stored` is what
      the preparation left in the store. */
  function Finish(c: Control, stored: Option<RemoteConfig>, config: Incoming, io: Io): seq<Effect> {
    if Prepare(config, io).Reached? then Conclude(stored, config.hash, Verdict(c, config, io), io)
    else if io.reported then Reporting(config.hash, Verdict(c, config, io))
    else []
  }

  /** The durable writes and status reports of `handle_remote_config`. */
  function Effects(c: Control, config: Incoming, io: Io): seq<Effect> {
    if !io.announced then []
    else
      var stage := Prepare(config, io);
      Reporting(config.hash, Applying) + stage.written + Finish(c, StoredAfter(c, stage), config, io)
  }

  /** `handle_remote_config` followed by the assignment of the event loop. */
  function Deliver(c: Control, config: Incoming, io: Io): Control {
    Control(Replay(c.durable, Effects(c, config, io)),
            if !Touches(config, io) then c.running
            else Reconciled(c.running, c.current.agents, Prepare(config, io).wanted.agents, io.agents),
            if Advances(c, config, io) then Prepare(config, io).wanted else c.current)
  }

  datatype Delivery = Delivery(config: Incoming, io: Io)

  function DeliverAll(c: Control, deliveries: seq<Delivery>): Control
    decreases |deliveries|
  {
    if deliveries == [] then c
    else
      var last := deliveries[|deliveries| - 1];
      Deliver(DeliverAll(c, deliveries[..|deliveries| - 1]), last.config, last.io)
  }

  datatype ShutdownReason = SelfUpdate | ExternalRequested

  /** What the event loop selects; a notice (health, attributes, connection, uptime, update retry) changes
      neither the store nor the agents. */
  datatype ControlEvent = RemoteConfigReceived(delivery: Delivery) | Shutdown(reason: ShutdownReason) | Notice

  /** The event loop: a shutdown stops every agent and ends it. */
  function Serve(c: Control, events: seq<ControlEvent>): (Control, Option<ShutdownReason>)
    decreases |events|
  {
    if events == [] then (c, None)
    else
      match events[0]
      case RemoteConfigReceived(d) => Serve(Deliver(c, d.config, d.io), events[1..])
      case Notice => Serve(c, events[1..])
      case Shutdown(reason) => (c.(running := map[]), Some(reason))
  }

  /** The deliveries that the loop gets to. */
  function Served(events: seq<ControlEvent>): seq<Delivery> {
    if events == [] || events[0].Shutdown? then []
    else (if events[0].RemoteConfigReceived? then [events[0].delivery] else []) + Served(events[1..])
  }

  lemma {:induction false} DeliverFirst(c: Control, first: Delivery, rest: seq<Delivery>)
    ensures DeliverAll(c, [first] + rest) == DeliverAll(Deliver(c, first.config, first.io), rest)
    decreases |rest|
  {
    var all := [first] + rest;
    if rest == [] {
      assert all[..|all| - 1] == [];
    } else {
      assert all[..|all| - 1] == [first] + rest[..|rest| - 1];
      DeliverFirst(c, first, rest[..|rest| - 1]);
    }
  }

  /** The loop does the deliveries before the first shutdown, in order; it ends with a reason exactly if there
      is one, and then nothing runs. */
  lemma {:induction false} LoopDelivers(c: Control, events: seq<ControlEvent>)
    ensures
      var (end, reason) := Serve(c, events);
      var delivered := DeliverAll(c, Served(events));
      && end == (if reason.Some? then delivered.(running := map[]) else delivered)
      && (reason.Some? <==> exists e :: e in events && e.Shutdown?)
    decreases |events|
  {
    if events != [] {
      var rest := events[1..];
      match events[0]
      case RemoteConfigReceived(d) =>
        LoopDelivers(Deliver(c, d.config, d.io), rest);
        DeliverFirst(c, d, Served(rest));
      case Notice =>
        LoopDelivers(c, rest);
        assert [] + Served(rest) == Served(rest);
      case Shutdown(_) =>
        assert events[0] in events;
    }
  }

  // ---- The transaction ----

  lemma ReplayTwo(d: Durable, a: Effect, b: Effect)
    ensures Replay(d, [a, b]) == Do(Do(d, a), b)
  {
    assert [a, b] == [a] + [b];
    ReplayAppend(d, [a], [b]);
    ThroughoutOne(d, a);
    ThroughoutOne(Do(d, a), b);
  }

  /** The durable effect of the announcement and of what was written before the agents. */
  lemma AnnouncedAndWritten(d: Durable, hash: Hash, written: seq<Effect>, rest: seq<Effect>)
    requires |written| <= 1
    ensures Replay(d, Reporting(hash, Applying) + written + rest)
            == Replay(Replay(d, written).(reports := Replay(d, written).reports + [StatusReport(hash, Applying)]), rest)
            || exists e :: e in written && e.Report?
  {
    var announce := Report(StatusReport(hash, Applying));
    ReplayAppend(d, Reporting(hash, Applying) + written, rest);
    if written == [] {
      assert Reporting(hash, Applying) + written == [announce];
      ThroughoutOne(d, announce);
    } else {
      assert Reporting(hash, Applying) + written == [announce, written[0]];
      ReplayTwo(d, announce, written[0]);
      ThroughoutOne(d, written[0]);
      assert written == [written[0]];
    }
  }

  lemma ConcludeReplay(d: Durable, hash: Hash, state: ConfigState, io: Io)
    ensures Replay(d, Conclude(d.stored, hash, state, io))
            == if d.stored.None? || !io.UpdateOk() then d
               else Durable(Some(d.stored.value.(state := state)),
                            d.reports + if io.reported then [StatusReport(hash, state)] else [])
  {
    if d.stored.Some? && io.UpdateOk() {
      var persisted := Do(d, Persist(state));
      if io.reported {
        assert Conclude(d.stored, hash, state, io) == [Persist(state), Report(StatusReport(hash, state))];
        ReplayTwo(d, Persist(state), Report(StatusReport(hash, state)));
      } else {
        assert Conclude(d.stored, hash, state, io) == [Persist(state)];
        ThroughoutOne(d, Persist(state));
        assert persisted.reports + [] == persisted.reports;
      }
    }
  }

  /** The durable state after a delivery that was announced. */
  lemma DeliverDurable(c: Control, config: Incoming, io: Io)
    requires io.announced
    ensures
      var stage := Prepare(config, io);
      var saved := StoredAfter(c, stage);
      var end := Deliver(c, config, io).durable;
      var persisted := stage.Reached? && saved.Some? && io.UpdateOk();
      && end.stored == (if persisted then Some(saved.value.(state := Verdict(c, config, io))) else saved)
      && end.reports == c.durable.reports + [StatusReport(config.hash, Applying)]
           + (if !(stage.Rejected? || persisted) || !io.reported then []
              else [StatusReport(config.hash, Verdict(c, config, io))])
  {
    var stage := Prepare(config, io);
    var d := c.durable;
    var rest := Effects(c, config, io)[1 + |stage.written|..];
    assert Effects(c, config, io) == Reporting(config.hash, Applying) + stage.written + rest;
    AnnouncedAndWritten(d, config.hash, stage.written, rest);
    WrittenKeepsReports(d, stage);
    var mid := Replay(d, stage.written);
    var told := mid.(reports := d.reports + [StatusReport(config.hash, Applying)]);
    assert told.reports + [] == told.reports;
    if stage.Reached? {
      assert rest == Conclude(mid.stored, config.hash, Verdict(c, config, io), io);
      ConcludeReplay(told, config.hash, Verdict(c, config, io), io);
    } else if io.reported {
      ThroughoutOne(told, rest[0]);
    }
  }

  lemma WrittenKeepsReports(d: Durable, stage: Stage)
    requires |stage.written| <= 1 && forall e :: e in stage.written ==> !e.Report?
    ensures Replay(d, stage.written).reports == d.reports
  {
    if stage.written != [] {
      ThroughoutOne(d, stage.written[0]);
      assert stage.written == [stage.written[0]];
      assert stage.written[0] in stage.written;
    }
  }

  /** A delivery of a non-empty configuration is a transaction, provided its reports and the update of
      its state succeed: it is rejected without a trace, or its hash is stored with the verdict on its
      agents; and the server hears Applying and exactly one terminal state. */
  lemma TransactionOutcome(c: Control, config: Incoming, io: Io)
    requires !config.empty && io.announced && io.reported && io.UpdateOk()
    ensures
      var next := Deliver(c, config, io);
      var verdict := Verdict(c, config, io);
      && verdict.Terminal()
      && next.durable.reports
        == c.durable.reports + [StatusReport(config.hash, Applying), StatusReport(config.hash, verdict)]
      && match Prepare(config, io)
         case Rejected(_) =>
           && verdict.Failed? && next.durable.stored == c.durable.stored
           && next.running == c.running && next.current == c.current
         case Reached(_, wanted) =>
           && next.durable.stored == Some(RemoteConfig(io.encoded.value, config.hash, verdict))
           && (verdict == Applied <==> AllWell(c.running, c.current.agents, wanted.agents, io.agents))
           && next.current == (if verdict == Applied && io.published then wanted else c.current)
  {
    DeliverDurable(c, config, io);
    var verdict := Verdict(c, config, io);
    Regroup(c.durable.reports, [StatusReport(config.hash, Applying)], [StatusReport(config.hash, verdict)]);
    WrittenStored(c, config, io);
  }

  /** What the preparation of a non-empty configuration leaves in the store. */
  lemma WrittenStored(c: Control, config: Incoming, io: Io)
    requires !config.empty
    ensures StoredAfter(c, Prepare(config, io))
         == if Prepare(config, io).Reached? then Some(RemoteConfig(io.encoded.value, config.hash, Applying))
           else c.durable.stored
  {
    if Prepare(config, io).Reached? {
      ThroughoutOne(c.durable, Prepare(config, io).written[0]);
    } else {
      assert Replay(c.durable, []) == c.durable;
    }
  }

  /** Resetting to the local configuration never concludes: the remote configuration was just deleted,
      so its state cannot be updated. The agents are reconciled, but nothing follows the Applying
      report and the current configuration does not move. */
  lemma ResetNeverConcludes(c: Control, config: Incoming, io: Io)
    requires config.empty && Touches(config, io)
    ensures
      var next := Deliver(c, config, io);
      && next.durable == Durable(None, c.durable.reports + [StatusReport(config.hash, Applying)])
      && next.running == Reconciled(c.running, c.current.agents, io.local.value.agents, io.agents)
      && next.current == c.current
  {
    ThroughoutOne(c.durable, Delete);
    DeliverDurable(c, config, io);
    var told := c.durable.reports + [StatusReport(config.hash, Applying)];
    assert told + [] == told;
  }

  /** A configuration that is turned away leaves the store as it was, except for a reset that comes after
      its deletion: the agents keep running a remote configuration that is no longer stored. */
  lemma RejectionTraceExact(c: Control, config: Incoming, io: Io)
    requires io.announced && Prepare(config, io).Rejected?
    ensures
      var next := Deliver(c, config, io);
      && next.running == c.running && next.current == c.current
      && (next.durable.stored == c.durable.stored <==>
            c.durable.stored.None? || !(config.empty && config.preFailed.None? && io.validated && io.deleteOk))
      && (next.durable.stored != c.durable.stored ==> next.durable.stored.None?)
  {
    DeliverDurable(c, config, io);
    if Prepare(config, io).written == [] {
      assert Replay(c.durable, []) == c.durable;
    } else {
      ThroughoutOne(c.durable, Delete);
    }
  }

  // ---- A delivery by the collaborators' answers ----

  /** A configuration passes: it did not arrive failed, both validators and the updater accept it, and it can be read
      and stored; for an empty one, the stored one can be deleted and there is one to fall back to. */
  predicate Passes(config: Incoming, io: Io) {
    && config.preFailed.None? && io.validated && io.accepted && io.updated
    && if config.empty then io.deleteOk && io.local.Some?
       else io.merged.Some? && io.encoded.Some? && io.storeOk
  }

  /** The configuration that a delivery asks for. */
  function Asked(config: Incoming, io: Io): Dynamic
    requires Passes(config, io)
  {
    if config.empty then io.local.value else io.merged.value
  }

  /** The agents are touched exactly for a configuration that is announced and passes. One that does not pass leaves
      running agents and current configuration alone and, if reports get through, is reported as Failed last. One
      that passes reconciles the agents with what it asks for, and that becomes current exactly if no agent has a
      fault, it is not empty, and its state and the effective configuration could be updated and reported. */
  lemma DeliveryByAnswers(c: Control, config: Incoming, io: Io)
    ensures
      var next := Deliver(c, config, io);
      if !io.announced then next.running == c.running && next.current == c.current && next.durable == c.durable
      else if !Passes(config, io) then
        && next.running == c.running && next.current == c.current
        && (io.reported ==>
              && Latest(next.durable.reports, config.hash).Some?
              && Latest(next.durable.reports, config.hash).value.Failed?)
      else
        var asked := Asked(config, io);
        var well := AllWell(c.running, c.current.agents, asked.agents, io.agents);
        && next.running == Reconciled(c.running, c.current.agents, asked.agents, io.agents)
        && next.current
           == (if well && !config.empty && io.UpdateOk() && io.reported && io.published then asked else c.current)
  {
    if !io.announced {
      assert Replay(c.durable, []) == c.durable;
    } else if Passes(config, io) {
      StoredExactly(c, config, io);
    } else if io.reported {
      RefusedByAnswers(c, config, io);
    }
  }

  lemma RefusedByAnswers(c: Control, config: Incoming, io: Io)
    requires io.announced && io.reported && !Passes(config, io)
    ensures Latest(Deliver(c, config, io).durable.reports, config.hash) == Some(Verdict(c, config, io))
    ensures Verdict(c, config, io).Failed?
  {
    DeliverDurable(c, config, io);
    LatestAfterTwo(c.durable.reports, config.hash, Applying, Verdict(c, config, io), config.hash);
  }

  /** What a delivery leaves in the store: what it asks for, under its own hash and with the verdict on its agents if
      that could be written; nothing, after the deletion for an empty one; and else what was there. */
  lemma StoreAfterDelivery(c: Control, config: Incoming, io: Io)
    ensures
      var after := Deliver(c, config, io).durable.stored;
      if !io.announced then after == c.durable.stored
      else if config.empty && config.preFailed.None? && io.validated && io.deleteOk then after.None?
      else if config.empty || !Passes(config, io) then after == c.durable.stored
      else
        var well := AllWell(c.running, c.current.agents, io.merged.value.agents, io.agents);
        && after.Some? && after.value.yaml == io.encoded.value && after.value.hash == config.hash
        && (!io.UpdateOk() ==> after.value.state == Applying)
        && (io.UpdateOk() ==> if well then after.value.state == Applied else after.value.state.Failed?)
  {
    if !io.announced {
      assert Replay(c.durable, []) == c.durable;
    } else {
      DeliverDurable(c, config, io);
      StoredExactly(c, config, io);
    }
  }

  // ---- Agreement of the store and the reports ----

  /** A delivery that leaves the store and the reports in disagreement: a settled hash is rejected and not
      reported as it is stored, or a verdict is persisted and not reported. */
  predicate LeavesDisagreement(c: Control, config: Incoming, io: Io) {
    && io.announced
    && match Prepare(config, io)
       case Rejected(written) =>
         && written == [] && Settled(c.durable, config.hash)
         && !(io.reported && c.durable.stored.value.state == Verdict(c, config, io))
       case Reached(_, _) => !config.empty && io.UpdateOk() && !io.reported
  }

  /** What the preparation leaves in the store, for any configuration. */
  lemma StoredExactly(c: Control, config: Incoming, io: Io)
    ensures
      var stage := Prepare(config, io);
      StoredAfter(c, stage)
      == if stage.written == [] then c.durable.stored
         else if config.empty then None
         else Some(RemoteConfig(io.encoded.value, config.hash, Applying))
  {
    var stage := Prepare(config, io);
    if stage.written == [] {
      assert Replay(c.durable, []) == c.durable;
    } else {
      ThroughoutOne(c.durable, stage.written[0]);
    }
  }

  lemma LatestAfterTwo(reports: seq<StatusReport>, hash: Hash, a: ConfigState, b: ConfigState, other: Hash)
    ensures Latest(reports + [StatusReport(hash, a)] + [StatusReport(hash, b)], other)
         == if other == hash then Some(b) else Latest(reports, other)
  {
    LatestAfterReport(reports, StatusReport(hash, a));
    LatestAfterReport(reports + [StatusReport(hash, a)], StatusReport(hash, b));
  }

  lemma RejectionAgreement(c: Control, config: Incoming, io: Io)
    requires Agrees(c.durable) && io.announced && Prepare(config, io).Rejected?
    ensures Agrees(Deliver(c, config, io).durable) <==> !LeavesDisagreement(c, config, io)
  {
    var hash := if c.durable.stored.Some? then c.durable.stored.value.hash else config.hash;
    var told := c.durable.reports + [StatusReport(config.hash, Applying)];
    DeliverDurable(c, config, io);
    StoredExactly(c, config, io);
    assert told + [] == told;
    LatestAfterReport(c.durable.reports, StatusReport(config.hash, Applying));
    LatestAfterTwo(c.durable.reports, config.hash, Applying, Verdict(c, config, io), hash);
  }

  lemma ConclusionAgreement(c: Control, config: Incoming, io: Io)
    requires Agrees(c.durable) && io.announced && Prepare(config, io).Reached?
    ensures Agrees(Deliver(c, config, io).durable) <==> !LeavesDisagreement(c, config, io)
  {
    var told := c.durable.reports + [StatusReport(config.hash, Applying)];
    DeliverDurable(c, config, io);
    StoredExactly(c, config, io);
    assert told + [] == told;
    LatestAfterReport(c.durable.reports, StatusReport(config.hash, Applying));
    LatestAfterTwo(c.durable.reports, config.hash, Applying, Verdict(c, config, io), config.hash);
  }

  /** A delivery ends with the stored terminal state, if any, equal to the last report for its hash exactly
      if it does not leave them in disagreement. */
  lemma DeliveryEndsInAgreementExact(c: Control, config: Incoming, io: Io)
    requires Agrees(c.durable)
    ensures Agrees(Deliver(c, config, io).durable) <==> !LeavesDisagreement(c, config, io)
  {
    if !io.announced {
      assert Replay(c.durable, []) == c.durable;
    } else if Prepare(config, io).Rejected? {
      RejectionAgreement(c, config, io);
    } else {
      ConclusionAgreement(c, config, io);
    }
  }

  /** Over any sequence of deliveries none of which leaves a disagreement, the store and the reports agree
      after each. */
  lemma {:induction false} DeliveriesKeepAgreement(c: Control, deliveries: seq<Delivery>, n: nat)
    requires Agrees(c.durable) && n <= |deliveries|
    requires forall i :: 0 <= i < |deliveries| ==>
               !LeavesDisagreement(DeliverAll(c, deliveries[..i]), deliveries[i].config, deliveries[i].io)
    ensures Agrees(DeliverAll(c, deliveries[..n]).durable)
  {
    if n > 0 {
      DeliveriesKeepAgreement(c, deliveries, n - 1);
      assert deliveries[..n][..n - 1] == deliveries[..n - 1];
      DeliveryEndsInAgreementExact(DeliverAll(c, deliveries[..n - 1]), deliveries[n - 1].config, deliveries[n - 1].io);
    }
  }

  /** Persisting before reporting disagrees at the instant between the two. */
  lemma ConcludeThroughout(d: Durable, hash: Hash, state: ConfigState, io: Io)
    requires Agrees(d) && state.Terminal()
    requires d.stored.Some? ==> Latest(d.reports, d.stored.value.hash) != Some(state)
    ensures AgreesThroughout(d, Conclude(d.stored, hash, state, io)) <==> !(d.stored.Some? && io.UpdateOk())
  {
  }

  /** What the announcement and the preparation leave behind. */
  lemma PreparedState(c: Control, config: Incoming, io: Io)
    requires Agrees(c.durable) && !Settled(c.durable, config.hash)
    ensures
      var stage, announce := Prepare(config, io), Reporting(config.hash, Applying);
      var mid := Replay(c.durable, announce + stage.written);
      && AgreesThroughout(c.durable, announce + stage.written) && Agrees(mid)
      && mid.stored == StoredAfter(c, stage)
      && Latest(mid.reports, config.hash) == Some(Applying)
      && !Settled(mid, config.hash)
  {
    var stage, announce := Prepare(config, io), Reporting(config.hash, Applying);
    var told := Replay(c.durable, announce);
    ReportingAgreement(c.durable, config.hash, Applying);
    LatestAfterReport(c.durable.reports, StatusReport(config.hash, Applying));
    StoredExactly(c, config, io);
    ThroughoutAppend(c.durable, announce, stage.written);
    ReplayAppend(c.durable, announce, stage.written);
    if stage.written == [] {
      assert Replay(told, []) == told;
    } else {
      ThroughoutOne(told, stage.written[0]);
      assert stage.written == [stage.written[0]];
    }
  }

  /** At every crash point of a delivery: agreement exactly if the hash is not settled already and no verdict
      is persisted. */
  lemma DeliveryAgreesThroughoutExact(c: Control, config: Incoming, io: Io)
    requires Agrees(c.durable) && io.announced
    ensures AgreesThroughout(c.durable, Effects(c, config, io)) <==>
            && !Settled(c.durable, config.hash)
            && !(Prepare(config, io).Reached? && !config.empty && io.UpdateOk())
  {
    var stage, announce := Prepare(config, io), Reporting(config.hash, Applying);
    var rest := Finish(c, StoredAfter(c, stage), config, io);
    ThroughoutAppend(c.durable, announce + stage.written, rest);
    if Settled(c.durable, config.hash) {
      ThroughoutAppend(c.durable, announce, stage.written);
      ReportingAgreement(c.durable, config.hash, Applying);
    } else {
      var mid := Replay(c.durable, announce + stage.written);
      PreparedState(c, config, io);
      if stage.Reached? {
        StoredExactly(c, config, io);
        ConcludeThroughout(mid, config.hash, Verdict(c, config, io), io);
      } else if io.reported {
        ReportingAgreement(mid, config.hash, Verdict(c, config, io));
      }
    }
  }

  /** There is no check for duplicates: a settled hash that is delivered again and rejected is reported as
      failed while it stays stored as applied, and a restart that starts everything does not notice. */
  lemma RejectedRedeliveryIsNotHealed(c: Control, config: Incoming, io: Io, boot: Agents, bootIo: AgentId -> AgentIo,
                                      text: string)
    requires Settled(c.durable, config.hash) && c.durable.stored.value.state == Applied
    requires io.announced && io.reported && Prepare(config, io) == Rejected([])
    requires BootState(boot, bootIo, text) == Applied
    ensures
      var next := Deliver(c, config, io).durable;
      var restarted := Replay(next, BootEffects(next.stored, BootState(boot, bootIo, text), true, true, true));
      && next.stored == c.durable.stored
      && restarted == next
      && Latest(restarted.reports, config.hash) == Some(Verdict(c, config, io))
      && Verdict(c, config, io).Failed? && !Agrees(restarted)
  {
    DeliverDurable(c, config, io);
    StoredExactly(c, config, io);
    LatestAfterTwo(c.durable.reports, config.hash, Applying, Verdict(c, config, io), config.hash);
  }

  // ---- Convergence ----

  function Types(running: Running): Agents {
    map id | id in running :: running[id].agentType
  }

  /** The running agents are those of the current configuration, with their types. */
  predicate Converged(c: Control) {
    Types(c.running) == c.current.agents
  }

  /** No agent of `current` would be changed or removed, and every added one fails to build. */
  predicate NothingTakesEffect(current: Agents, wanted: Agents, io: AgentId -> AgentIo) {
    && (forall id :: id in current ==> id in wanted && wanted[id] == current[id])
    && (forall id :: id in wanted && id !in current ==> io(id).build.None?)
  }

  lemma FateFromConverged(running: Running, current: Agents, wanted: Agents, io: AgentId -> AgentIo, id: AgentId)
    requires Types(running) == current
    ensures
      var fate := FateOf(id, running, current, wanted, io);
      && (id in current <==> id in running)
      && (id in running ==> running[id].agentType == current[id])
      && (id in wanted && fate.faults == [] ==> fate.now.Some? && fate.now.value.agentType == wanted[id])
      && (id !in wanted ==> fate.now.None?)
      && (id in wanted && id in current && wanted[id] != current[id] ==>
            fate.now.None? || fate.now.value.agentType == wanted[id])
      && (id in wanted && id !in current ==> (fate.now.None? <==> io(id).build.None?))
      && (id in wanted && id in current && wanted[id] == current[id] ==> fate.now == Some(running[id]))
  {
    assert id in Types(running) <==> id in current;
  }

  lemma ReconciledLookup(running: Running, current: Agents, wanted: Agents, io: AgentId -> AgentIo, id: AgentId)
    ensures Lookup(Reconciled(running, current, wanted, io), id) == FateOf(id, running, current, wanted, io).now
  {
  }

  lemma TypesMatch(running: Running, agents: Agents)
    ensures Types(running) == agents <==>
            forall id :: (id in running <==> id in agents) && (id in running ==> running[id].agentType == agents[id])
  {
    if Types(running) == agents {
      forall id
        ensures (id in running <==> id in agents) && (id in running ==> running[id].agentType == agents[id])
      {
        assert id in running <==> id in Types(running);
      }
    }
  }

  /** From a converged fleet, reconciliation without faults reaches the wanted configuration. */
  lemma WellReconciledMatches(running: Running, current: Agents, wanted: Agents, io: AgentId -> AgentIo)
    requires Types(running) == current && AllWell(running, current, wanted, io)
    ensures Types(Reconciled(running, current, wanted, io)) == wanted
  {
    var after := Reconciled(running, current, wanted, io);
    forall id
      ensures (id in after <==> id in wanted) && (id in after ==> after[id].agentType == wanted[id])
    {
      FateFromConverged(running, current, wanted, io, id);
      ReconciledLookup(running, current, wanted, io, id);
    }
    TypesMatch(after, wanted);
  }

  /** From a converged fleet, reconciliation leaves the types alone exactly if nothing takes effect. */
  lemma UnmovedExactly(running: Running, current: Agents, wanted: Agents, io: AgentId -> AgentIo)
    requires Types(running) == current
    ensures Types(Reconciled(running, current, wanted, io)) == current <==> NothingTakesEffect(current, wanted, io)
  {
    var after := Reconciled(running, current, wanted, io);
    TypesMatch(after, current);
    forall id
      ensures ((id in after <==> id in current) && (id in after ==> after[id].agentType == current[id])) <==>
              ((id in current ==> id in wanted && wanted[id] == current[id])
               && (id in wanted && id !in current ==> io(id).build.None?))
    {
      FateFromConverged(running, current, wanted, io, id);
      ReconciledLookup(running, current, wanted, io, id);
    }
  }

  /** The exact condition for a delivery to keep the fleet converged: it never gets to the agents, it
      advances, or it changes nothing. */
  lemma ConvergenceExact(c: Control, config: Incoming, io: Io)
    requires Converged(c)
    ensures Converged(Deliver(c, config, io)) <==>
            || !Touches(config, io)
            || Advances(c, config, io)
            || NothingTakesEffect(c.current.agents, Prepare(config, io).wanted.agents, io.agents)
  {
    if Touches(config, io) {
      var wanted := Prepare(config, io).wanted.agents;
      if Advances(c, config, io) {
        WellReconciledMatches(c.running, c.current.agents, wanted, io.agents);
      } else {
        UnmovedExactly(c.running, c.current.agents, wanted, io.agents);
      }
    }
  }

  /** Every delivery is either turned away before the agents are touched or fully applied. */
  ghost predicate AllOrNothing(c: Control, deliveries: seq<Delivery>) {
    forall i :: 0 <= i < |deliveries| ==>
      var before := DeliverAll(c, deliveries[..i]);
      !Touches(deliveries[i].config, deliveries[i].io) || Advances(before, deliveries[i].config, deliveries[i].io)
  }

  /** Over any sequence of configurations, rejected ones interleaved, the running agents are those of the
      current configuration after every delivery. */
  lemma {:induction false} FleetConverges(c: Control, deliveries: seq<Delivery>, n: nat)
    requires Converged(c) && AllOrNothing(c, deliveries) && n <= |deliveries|
    ensures Converged(DeliverAll(c, deliveries[..n]))
  {
    if n > 0 {
      FleetConverges(c, deliveries, n - 1);
      assert deliveries[..n][..n - 1] == deliveries[..n - 1];
      ConvergenceExact(DeliverAll(c, deliveries[..n - 1]), deliveries[n - 1].config, deliveries[n - 1].io);
    }
  }

  // ---- What a partial failure does to later configurations ----

  /** Wanted by the current configuration, but not running. */
  predicate Lost(c: Control, id: AgentId) {
    id in c.current.agents && id !in c.running
  }

  lemma LostStep(c: Control, config: Incoming, io: Io, id: AgentId)
    requires Lost(c, id)
    ensures Lost(Deliver(c, config, io), id)
  {
    if Touches(config, io) {
      var wanted := Prepare(config, io).wanted.agents;
      ReconciledLookup(c.running, c.current.agents, wanted, io.agents, id);
      var fate := FateOf(id, c.running, c.current.agents, wanted, io.agents);
      if Advances(c, config, io) {
        assert id in c.current.agents.Keys + wanted.Keys;
        assert fate.faults == [];
      }
    }
  }

  /** A sub-agent that is lost stays lost for the rest of the process: no sequence of configurations,
      however well everything works, brings it back or removes it from the current configuration. */
  lemma {:induction false} LostAgentsStayLost(c: Control, deliveries: seq<Delivery>, id: AgentId)
    requires Lost(c, id)
    ensures Lost(DeliverAll(c, deliveries), id)
    decreases |deliveries|
  {
    if deliveries != [] {
      var last := deliveries[|deliveries| - 1];
      LostAgentsStayLost(c, deliveries[..|deliveries| - 1], id);
      LostStep(DeliverAll(c, deliveries[..|deliveries| - 1]), last.config, last.io, id);
    }
  }

  /** From a converged fleet an agent is lost exactly when it was to be changed and its build failed, or
      when it was changed away or removed by a delivery that did not advance. */
  lemma LostExactly(c: Control, config: Incoming, io: Io, id: AgentId)
    requires Converged(c)
    ensures Lost(Deliver(c, config, io), id) <==>
            && Touches(config, io)
            && id in c.current.agents
            && var wanted := Prepare(config, io).wanted.agents;
               if id in wanted then wanted[id] != c.current.agents[id] && io.agents(id).build.None?
               else !Advances(c, config, io)
  {
    if Touches(config, io) {
      var wanted := Prepare(config, io).wanted.agents;
      FateFromConverged(c.running, c.current.agents, wanted, io.agents, id);
      ReconciledLookup(c.running, c.current.agents, wanted, io.agents, id);
      if Advances(c, config, io) {
        WellReconciledMatches(c.running, c.current.agents, wanted, io.agents);
        TypesMatch(Reconciled(c.running, c.current.agents, wanted, io.agents), wanted);
        assert id in c.current.agents.Keys ==> id in c.current.agents.Keys + wanted.Keys;
      }
    } else {
      TypesMatch(c.running, c.current.agents);
    }
  }

  /** Running, but not part of the current configuration. */
  predicate Orphaned(c: Control, id: AgentId, instance: Instance) {
    id !in c.current.agents && Lookup(c.running, id) == Some(instance)
  }

  /** From a converged fleet an agent is orphaned exactly when a delivery that does not advance builds an
      agent that the current configuration does not have. */
  lemma OrphanedExactly(c: Control, config: Incoming, io: Io, id: AgentId)
    requires Converged(c)
    ensures (exists instance :: Orphaned(Deliver(c, config, io), id, instance)) <==>
            && Touches(config, io) && !Advances(c, config, io)
            && id !in c.current.agents
            && id in Prepare(config, io).wanted.agents && io.agents(id).build.Some?
  {
    var next := Deliver(c, config, io);
    TypesMatch(c.running, c.current.agents);
    if Touches(config, io) {
      var wanted := Prepare(config, io).wanted.agents;
      FateFromConverged(c.running, c.current.agents, wanted, io.agents, id);
      ReconciledLookup(c.running, c.current.agents, wanted, io.agents, id);
      if Advances(c, config, io) {
        WellReconciledMatches(c.running, c.current.agents, wanted, io.agents);
        TypesMatch(next.running, next.current.agents);
      }
    }
    if id in next.running && id !in next.current.agents {
      assert Orphaned(next, id, next.running[id]);
    }
  }

  /** An agent started by a configuration that was only partly applied is not known to the current
      configuration: the same instance keeps running through all later configurations that do not
      name it, also those that are fully applied. */
  lemma {:induction false} OrphansKeepRunning(c: Control, deliveries: seq<Delivery>, id: AgentId, instance: Instance)
    requires Orphaned(c, id, instance)
    requires forall d :: d in deliveries && Prepare(d.config, d.io).Reached? ==>
               id !in Prepare(d.config, d.io).wanted.agents
    ensures Orphaned(DeliverAll(c, deliveries), id, instance)
    decreases |deliveries|
  {
    if deliveries != [] {
      var init, last := deliveries[..|deliveries| - 1], deliveries[|deliveries| - 1];
      assert last in deliveries;
      OrphansKeepRunning(c, init, id, instance);
      var before := DeliverAll(c, init);
      if Touches(last.config, last.io) {
        var wanted := Prepare(last.config, last.io).wanted.agents;
        ReconciledLookup(before.running, before.current.agents, wanted, last.io.agents, id);
      }
    }
  }

  // ---- Restarts ----

  /** `build_and_run_sub_agents` */
  function BootFleet(agents: Agents, io: AgentId -> AgentIo): Running {
    map id | id in agents && io(id).build.Some? :: Instance(agents[id], io(id).build.value)
  }

  function BootState(agents: Agents, io: AgentId -> AgentIo, text: string): ConfigState {
    if forall id :: id in agents ==> io(id).build.Some? then Applied
    else Failed("Failed to build and start agents: " + text)
  }

  /** The status synchronisation of `run`: report and persist the state of the start if it differs. */
  function BootEffects(stored: Option<RemoteConfig>, state: ConfigState, readOk: bool, reported: bool,
                       updateOk: bool): seq<Effect> {
    if !readOk || stored.None? || stored.value.state == state || !reported then []
    else Reporting(stored.value.hash, state) + if updateOk then [Persist(state)] else []
  }

  /** A start runs exactly the agents that build, each as the builder made it, with the type of the configuration;
      its state is Applied exactly if that is all of them. */
  lemma StartExactly(agents: Agents, io: AgentId -> AgentIo, text: string)
    ensures forall id :: id in BootFleet(agents, io) <==> id in agents && io(id).build.Some?
    ensures forall id :: id in BootFleet(agents, io) ==>
              && BootFleet(agents, io)[id].agentType == agents[id]
              && BootFleet(agents, io)[id].serial == io(id).build.value
    ensures BootState(agents, io, text) == Applied <==> BootFleet(agents, io).Keys == agents.Keys
    ensures BootState(agents, io, text).Terminal()
  {
    if BootFleet(agents, io).Keys == agents.Keys {
      forall id | id in agents
        ensures io(id).build.Some?
      {
        assert id in BootFleet(agents, io).Keys;
      }
    }
  }

  /** Which agents the builder can build, now and after a restart. */
  predicate Faithful(io: AgentId -> AgentIo, buildable: (AgentId, AgentTypeId) -> bool, agents: Agents) {
    forall id :: id in agents ==> (io(id).build.Some? <==> buildable(id, agents[id]))
  }

  predicate AllBuildable(running: Running, buildable: (AgentId, AgentTypeId) -> bool) {
    forall id :: id in running ==> buildable(id, running[id].agentType)
  }

  /** What runs after a reconciliation ran before or was built by it. */
  lemma FateOrigin(running: Running, current: Agents, wanted: Agents, io: AgentId -> AgentIo, id: AgentId)
    ensures
      var now := FateOf(id, running, current, wanted, io).now;
      || now.None?
      || now == Lookup(running, id)
      || (id in wanted && io(id).build.Some? && now.value.agentType == wanted[id])
  {
  }

  /** Whatever runs was built, so a deterministic builder can build it again. */
  lemma BuildableStep(c: Control, config: Incoming, io: Io, buildable: (AgentId, AgentTypeId) -> bool)
    requires AllBuildable(c.running, buildable)
    requires Touches(config, io) ==> Faithful(io.agents, buildable, Prepare(config, io).wanted.agents)
    ensures AllBuildable(Deliver(c, config, io).running, buildable)
  {
    if Touches(config, io) {
      var wanted := Prepare(config, io).wanted.agents;
      var after := Reconciled(c.running, c.current.agents, wanted, io.agents);
      forall id | id in after
        ensures buildable(id, after[id].agentType)
      {
        ReconciledLookup(c.running, c.current.agents, wanted, io.agents, id);
        FateOrigin(c.running, c.current.agents, wanted, io.agents, id);
      }
    }
  }

  /** A configuration read back from the store. `parse` is the YAML parser. */
  function LoadStored(stored: RemoteConfig, parse: Yaml -> Option<map<AgentId, string>>): Option<Agents> {
    if parse(stored.yaml).None? then None else Decode(parse(stored.yaml).value, TryFrom)
  }

  /** Restarting from the stored configuration is no worse than carrying on: after a non-empty
      configuration, however many of its agents failed, a restart with the same builder runs every
      agent that already runs with its wanted type, and indeed everything the builder can build. */
  lemma RestartIsNoWorse(c: Control, config: Incoming, io: Io, buildable: (AgentId, AgentTypeId) -> bool,
                         parse: Yaml -> Option<map<AgentId, string>>, bootIo: AgentId -> AgentIo)
    requires !config.empty && Touches(config, io)
    requires AllBuildable(c.running, buildable)
    requires Faithful(io.agents, buildable, io.merged.value.agents)
             && Faithful(bootIo, buildable, io.merged.value.agents)
    requires forall id :: id in io.merged.value.agents ==> ValidId(io.merged.value.agents[id])
    requires parse(io.encoded.value) == Some(Encode(io.merged.value.agents, Print))
    ensures
      var next := Deliver(c, config, io);
      var wanted := io.merged.value.agents;
      && next.durable.stored.Some?
      && LoadStored(next.durable.stored.value, parse) == Some(wanted)
      && (forall id :: id in next.running && id in wanted && next.running[id].agentType == wanted[id] ==>
            id in BootFleet(wanted, bootIo) && BootFleet(wanted, bootIo)[id].agentType == wanted[id])
      && (forall id :: id in wanted && buildable(id, wanted[id]) ==>
            id in BootFleet(wanted, bootIo) && BootFleet(wanted, bootIo)[id].agentType == wanted[id])
  {
    var wanted := io.merged.value.agents;
    ThroughoutOne(c.durable, Prepare(config, io).written[0]);
    DeliverDurable(c, config, io);
    StoredAgentsSurvive(wanted);
    BuildableStep(c, config, io, buildable);
  }

  /** The status synchronisation says something. */
  predicate Corrects(stored: Option<RemoteConfig>, state: ConfigState, readOk: bool, reported: bool) {
    readOk && stored.Some? && stored.value.state != state && reported
  }

  lemma BootReplay(d: Durable, state: ConfigState, readOk: bool, reported: bool, updateOk: bool)
    ensures
      var effects := BootEffects(d.stored, state, readOk, reported, updateOk);
      if !Corrects(d.stored, state, readOk, reported) then effects == [] && Replay(d, effects) == d
      else
        var told := d.reports + [StatusReport(d.stored.value.hash, state)];
        && Replay(d, effects)
          == Durable(Some(if updateOk then d.stored.value.(state := state) else d.stored.value), told)
        && Latest(told, d.stored.value.hash) == Some(state)
  {
    if Corrects(d.stored, state, readOk, reported) {
      var report := Report(StatusReport(d.stored.value.hash, state));
      LatestAfterReport(d.reports, StatusReport(d.stored.value.hash, state));
      ReplayTwo(d, report, Persist(state));
      ThroughoutOne(d, report);
      assert BootEffects(d.stored, state, readOk, reported, updateOk)
          == [report] + if updateOk then [Persist(state)] else [];
    }
  }

  /** A start heals a disagreement exactly if it has a state to correct, and reports and persists it; it
      breaks an agreement exactly if it reports a correction of a settled state and cannot persist it. */
  lemma BootAgreementExact(d: Durable, state: ConfigState, readOk: bool, reported: bool, updateOk: bool)
    requires state.Terminal()
    ensures
      var healed := Agrees(Replay(d, BootEffects(d.stored, state, readOk, reported, updateOk)));
      var corrects := Corrects(d.stored, state, readOk, reported);
      && (!Agrees(d) ==> (healed <==> corrects && updateOk))
      && (Agrees(d) ==> (healed <==> !(corrects && !updateOk && d.stored.value.state.Terminal())))
  {
    BootReplay(d, state, readOk, reported, updateOk);
  }

  /** At every crash point of a start: agreement exactly if no settled state is corrected. */
  lemma BootAgreesThroughoutExact(d: Durable, state: ConfigState, readOk: bool, reported: bool, updateOk: bool)
    requires Agrees(d) && state.Terminal()
    ensures AgreesThroughout(d, BootEffects(d.stored, state, readOk, reported, updateOk)) <==>
            !(Corrects(d.stored, state, readOk, reported) && d.stored.value.state.Terminal())
  {
    var effects := BootEffects(d.stored, state, readOk, reported, updateOk);
    BootReplay(d, state, readOk, reported, updateOk);
    if Corrects(d.stored, state, readOk, reported) {
      var told := Reporting(d.stored.value.hash, state);
      ReportingAgreement(d, d.stored.value.hash, state);
      if updateOk {
        ThroughoutAppend(d, told, [Persist(state)]);
        ThroughoutOne(Replay(d, told), Persist(state));
        assert effects == told + [Persist(state)];
        ReplayAppend(d, told, [Persist(state)]);
      } else {
        assert effects == told;
      }
    }
  }

  /** Agent Control persists before it reports, so a crash between the two is not healed by a restart
      that starts everything: the server's last word on the hash stays Applying. */
  lemma CrashBeforeReportIsNotHealed(c: Control, config: Incoming, io: Io, boot: Agents, bootIo: AgentId -> AgentIo,
                                     text: string)
    requires !config.empty && Advances(c, config, io)
    requires BootState(boot, bootIo, text) == Applied
    ensures
      var effects := Effects(c, config, io);
      var crashed := Replay(c.durable, effects[..|effects| - 1]);
      var restarted := Replay(crashed, BootEffects(crashed.stored, BootState(boot, bootIo, text), true, true, true));
      && restarted.stored.Some? && restarted.stored.value.hash == config.hash && restarted.stored.value.state == Applied
      && Latest(restarted.reports, config.hash) == Some(Applying)
  {
    var effects := Effects(c, config, io);
    var stage := Prepare(config, io);
    ThroughoutOne(c.durable, stage.written[0]);
    var announce := Report(StatusReport(config.hash, Applying));
    assert effects[..|effects| - 1] == [announce, stage.written[0]] + [Persist(Applied)];
    ReplayAppend(c.durable, [announce, stage.written[0]], [Persist(Applied)]);
    ReplayTwo(c.durable, announce, stage.written[0]);
    ThroughoutOne(Replay(c.durable, [announce, stage.written[0]]), Persist(Applied));
    LatestAfterReport(c.durable.reports, StatusReport(config.hash, Applying));
  }
}
