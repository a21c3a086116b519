/** Whole runs of a sub-agent with an OpAMP client, one effect at a time: launches, deliveries, stop
    requests, and crashes between any two effects. */
module SubAgentRuns {
  import opened ConfigTypes
  import opened ConfigRepository
  import opened SubAgentSpec
  import opened SubAgentAgreement

  // ---- The supervisor ledger ----

  /** Follows which supervisor is live; None if an effect starts a second one or touches one that is
      not live. */
  function Ledger(effects: seq<Effect>, held: Option<Supervisor>): Option<Option<Supervisor>>
    decreases |effects|
  {
    if effects == [] then Some(held)
    else
      var rest := effects[1..];
      match effects[0]
      case Start(s) => if held.None? then Ledger(rest, Some(s)) else None
      case Apply(p, n) => if held == Some(p) then Ledger(rest, Some(n)) else None
      case ApplyFailed(p) => if held == Some(p) then Ledger(rest, None) else None
      case Stop(p) => if held == Some(p) then Ledger(rest, None) else None
      case _ => Ledger(rest, held)
  }

  function Starts(effects: seq<Effect>): nat {
    if effects == [] then 0 else (if effects[0].Start? then 1 else 0) + Starts(effects[1..])
  }

  function Stops(effects: seq<Effect>): nat {
    if effects == [] then 0 else (if effects[0].Stop? then 1 else 0) + Stops(effects[1..])
  }

  function FailedApplies(effects: seq<Effect>): nat {
    if effects == [] then 0 else (if effects[0].ApplyFailed? then 1 else 0) + FailedApplies(effects[1..])
  }

  function Live(effects: seq<Effect>): int {
    Starts(effects) - Stops(effects) - FailedApplies(effects)
  }

  function Held(supervisor: Option<Supervisor>): int {
    if supervisor.Some? then 1 else 0
  }

  lemma {:induction false} LedgerAppend(a: seq<Effect>, b: seq<Effect>, held: Option<Supervisor>)
    ensures Ledger(a + b, held) == if Ledger(a, held).Some? then Ledger(b, Ledger(a, held).value) else None
    decreases |a|
  {
    if a == [] {
      assert a + b == b;
    } else {
      assert (a + b)[0] == a[0] && (a + b)[1..] == a[1..] + b;
      var next := match a[0] case Start(s) => Some(s) case Apply(_, n) => Some(n)
                             case ApplyFailed(_) => None case Stop(_) => None case _ => held;
      LedgerAppend(a[1..], b, next);
    }
  }

  /** A sound ledger conserves supervisors. */
  lemma {:induction false} LedgerCounts(effects: seq<Effect>, held: Option<Supervisor>)
    requires Ledger(effects, held).Some?
    ensures Live(effects) == Held(Ledger(effects, held).value) - Held(held)
    decreases |effects|
  {
    if effects != [] {
      var next := match effects[0] case Start(s) => Some(s) case Apply(_, n) => Some(n)
                                   case ApplyFailed(_) => None case Stop(_) => None case _ => held;
      LedgerCounts(effects[1..], next);
    }
  }

  predicate Bookkeeping(e: Effect) {
    e.Report? || e.Store? || e.Persist? || e.Delete? || e.PublishEffectiveConfig?
  }

  lemma {:induction false} BookkeepingLedger(effects: seq<Effect>, held: Option<Supervisor>)
    requires forall e :: e in effects ==> Bookkeeping(e)
    ensures Ledger(effects, held) == Some(held)
    decreases |effects|
  {
    if effects != [] {
      assert Bookkeeping(effects[0]);
      BookkeepingLedger(effects[1..], held);
    }
  }

  /** Bookkeeping, at most one supervisor call, bookkeeping. */
  lemma OneCallLedger(before: seq<Effect>, call: seq<Effect>, after: seq<Effect>, held: Option<Supervisor>)
    requires forall e :: e in before + after ==> Bookkeeping(e)
    ensures Ledger(before + call + after, held) == Ledger(call, held)
  {
    assert forall e :: e in before ==> e in before + after;
    assert forall e :: e in after ==> e in before + after;
    LedgerAppend(before + call, after, held);
    LedgerAppend(before, call, held);
    BookkeepingLedger(before, held);
    if Ledger(call, held).Some? {
      BookkeepingLedger(after, Ledger(call, held).value);
    }
  }

  lemma ApplyLedger(stored: Option<RemoteConfig>, hash: Hash, held: Supervisor, out: Outcomes)
    ensures Ledger(ApplyToExisting(stored, hash, held, out).effects, Some(held))
            == Some(ApplyToExisting(stored, hash, held, out).supervisor)
  {
    var state := if out.applied.Success? then Applied else Failed(out.applied.message);
    var call := if out.applied.Success? then [Apply(held, out.applied.value)] else [ApplyFailed(held)];
    var told := ReportAndPersist(stored, hash, state, out.UpdateOk());
    assert ApplyToExisting(stored, hash, held, out).effects == [PublishEffectiveConfig] + call + told;
    OneCallLedger([PublishEffectiveConfig], call, told, Some(held));
    assert call[1..] == [];
  }

  lemma StartLedger(stored: Option<RemoteConfig>, hash: Hash, out: Outcomes)
    ensures Ledger(BuildAndStart(stored, hash, out).effects, None) == Some(BuildAndStart(stored, hash, out).supervisor)
  {
    if out.built.Failure? || out.started.Failure? {
      BookkeepingLedger(BuildAndStart(stored, hash, out).effects, None);
    } else {
      var call, told := [Start(out.started.value)], ReportAndPersist(stored, hash, Applied, out.UpdateOk());
      assert BuildAndStart(stored, hash, out).effects == [PublishEffectiveConfig] + call + told;
      OneCallLedger([PublishEffectiveConfig], call, told, None);
      assert call[1..] == [];
    }
  }

  lemma ApplyOrStartLedger(stored: Option<RemoteConfig>, hash: Hash, held: Option<Supervisor>, out: Outcomes)
    ensures Ledger(ApplyOrStart(stored, hash, held, out).effects, held)
            == Some(ApplyOrStart(stored, hash, held, out).supervisor)
  {
    if held.Some? {
      ApplyLedger(stored, hash, held.value, out);
    } else {
      StartLedger(stored, hash, out);
    }
  }

  lemma StopLedger(held: Option<Supervisor>)
    ensures Ledger(StopIfHeld(held), held) == Some(None)
  {
    if held.Some? {
      assert StopIfHeld(held)[1..] == [];
    }
  }

  /** What a reset does after the deletion. */
  lemma LocalLedger(stored: Option<RemoteConfig>, local: Option<Yaml>, hash: Hash, held: Option<Supervisor>,
                    out: Outcomes)
    ensures
      var h := if out.localReadOk && local.Some? then ApplyLocal(stored, hash, held, out)
               else Handled(StopIfHeld(held) + Reporting(hash, Applied) + [PublishEffectiveConfig], None);
      Ledger(h.effects, held) == Some(h.supervisor)
  {
    var told := Reporting(hash, Applied) + [PublishEffectiveConfig];
    StopLedger(held);
    if out.localReadOk && local.Some? && out.assembled.Success? {
      ApplyOrStartLedger(stored, hash, held, out);
    } else if out.localReadOk && local.Some? {
      assert told + StopIfHeld(held) == told + StopIfHeld(held) + [];
      OneCallLedger(told, StopIfHeld(held), [], held);
    } else {
      assert StopIfHeld(held) + Reporting(hash, Applied) + [PublishEffectiveConfig] == [] + StopIfHeld(held) + told;
      OneCallLedger([], StopIfHeld(held), told, held);
    }
  }

  lemma ResetLedger(stored: Option<RemoteConfig>, local: Option<Yaml>, hash: Hash, held: Option<Supervisor>,
                    out: Outcomes)
    ensures Ledger(ResetToLocal(stored, local, hash, held, out).effects, held)
            == Some(ResetToLocal(stored, local, hash, held, out).supervisor)
  {
    var first := if out.deleteOk then [Delete] else [];
    var h := ResetToLocal(stored, local, hash, held, out);
    assert h.effects == first + h.effects[|first|..];
    BookkeepingLedger(first, held);
    LedgerAppend(first, h.effects[|first|..], held);
    LocalLedger(if out.deleteOk then None else stored, local, hash, held, out);
  }

  /** Handling a configuration never starts a second supervisor, never touches one it does not hold,
      and returns exactly the one left live. */
  lemma DeliveryLedger(stored: Option<RemoteConfig>, local: Option<Yaml>, held: Option<Supervisor>,
                       config: OpampConfig, out: Outcomes)
    ensures Ledger(Handle(stored, local, held, config, out).effects, held)
            == Some(Handle(stored, local, held, config, out).supervisor)
  {
    var h := Handle(stored, local, held, config, out);
    if (out.readOk && IsDuplicate(stored, config)) || config.preFailed.Some? || out.parsed.Invalid?
       || (out.parsed.Values? && out.assembled.Failure?) {
      BookkeepingLedger(h.effects, held);
    } else {
      var announce := Reporting(config.hash, Applying);
      BookkeepingLedger(announce, held);
      if out.parsed.NoValues? {
        LedgerAppend(announce, ResetToLocal(stored, local, config.hash, held, out).effects, held);
        ResetLedger(stored, local, config.hash, held, out);
      } else {
        var incoming := RemoteConfig(out.parsed.yaml, config.hash, Applying);
        var saved := if out.storeOk then [Store(incoming)] else [];
        var now := if out.storeOk then Some(incoming) else stored;
        var rest := ApplyOrStart(now, config.hash, held, out).effects;
        assert h.effects == announce + (saved + rest);
        LedgerAppend(announce, saved + rest, held);
        BookkeepingLedger(saved, held);
        LedgerAppend(saved, rest, held);
        ApplyOrStartLedger(now, config.hash, held, out);
      }
    }
  }

  lemma BootLedger(opamp: bool, remoteEnabled: bool, stored: Option<RemoteConfig>, local: Option<Yaml>,
                   out: BootOutcomes)
    ensures Ledger(Boot(opamp, remoteEnabled, stored, local, out).effects, None)
            == Some(Boot(opamp, remoteEnabled, stored, local, out).supervisor)
  {
    var h := Boot(opamp, remoteEnabled, stored, local, out);
    var loaded := FallbackSpec(remoteEnabled, stored, local, out.remoteReadOk, out.localReadOk);
    if loaded.LoadFailed? || loaded.config.None? || out.Supervised().Failure? {
      BookkeepingLedger(h.effects, None);
    } else {
      var call, told := [Start(out.Supervised().value)], Complete(opamp, loaded.config.value, out);
      assert h.effects == PublishIf(opamp) + call + told;
      OneCallLedger(PublishIf(opamp), call, told, None);
      assert call[1..] == [];
    }
  }

  // ---- The report grammar ----

  /** A concatenation of blocks: a terminal report alone, or Applying followed by a terminal report
      for the same hash. */
  predicate Blocks(reports: seq<StatusReport>) {
    || reports == []
    || (reports[0].state.Terminal() && Blocks(reports[1..]))
    || (|reports| >= 2 && reports[0].state.Applying? && reports[1].state.Terminal()
        && reports[0].hash == reports[1].hash && Blocks(reports[2..]))
  }

  /** Blocks, of which only the last may still be waiting for its terminal report. */
  predicate OpenBlocks(reports: seq<StatusReport>) {
    || Blocks(reports)
    || (reports != [] && reports[|reports| - 1].state.Applying? && Blocks(reports[..|reports| - 1]))
  }

  lemma {:induction false} BlocksAppend(a: seq<StatusReport>, b: seq<StatusReport>)
    requires Blocks(a) && Blocks(b)
    ensures Blocks(a + b)
  {
    if a == [] {
      assert a + b == b;
    } else if a[0].state.Terminal() {
      assert (a + b)[1..] == a[1..] + b;
      BlocksAppend(a[1..], b);
    } else {
      assert (a + b)[2..] == a[2..] + b;
      BlocksAppend(a[2..], b);
    }
  }

  lemma {:induction false} BlocksPrefix(word: seq<StatusReport>, n: nat)
    requires Blocks(word) && n <= |word|
    ensures OpenBlocks(word[..n])
    decreases |word|
  {
    var cut := word[..n];
    if n == 0 {
    } else {
      var step := if word[0].state.Terminal() then 1 else 2;
      if n < step {
        assert cut == [word[0]] && cut[..0] == [];
      } else {
        BlocksPrefix(word[step..], n - step);
        var rest := word[step..][..n - step];
        assert cut[step..] == rest;
        if !Blocks(rest) {
          assert cut[..n - 1][step..] == rest[..|rest| - 1];
        }
      }
    }
  }

  /** The verdict of a delivery that was processed in full. */
  function Verdict(local: Option<Yaml>, held: Option<Supervisor>, out: Outcomes): ConfigState {
    match out.parsed
    case Invalid(e) => Failed(e)
    case NoValues =>
      if !out.localReadOk || local.None? || out.assembled.Failure? then Applied else Brought(held, out)
    case Values(_) =>
      if out.assembled.Failure? then Failed("invalid config: " + out.assembled.message) else Brought(held, out)
  }

  function Brought(held: Option<Supervisor>, out: Outcomes): ConfigState {
    if Concluded(held, out).Some? then Concluded(held, out).value
    else Failed("could not build the supervisor: " + if out.built.Failure? then out.built.message else "")
  }

  lemma {:induction false} NoReports(effects: seq<Effect>)
    requires forall e :: e in effects ==> !e.Report?
    ensures Reports(effects) == []
  {
    if effects != [] {
      assert !effects[0].Report?;
      NoReports(effects[1..]);
    }
  }

  lemma OneReport(before: seq<Effect>, report: StatusReport, after: seq<Effect>)
    requires forall e :: e in before + after ==> !e.Report?
    ensures Reports(before + [Report(report)] + after) == [report]
  {
    assert forall e :: e in before ==> e in before + after;
    assert forall e :: e in after ==> e in before + after;
    NoReports(before);
    NoReports(after);
    ReportsAppend(before + [Report(report)], after);
    ReportsAppend(before, [Report(report)]);
    assert Reports([Report(report)]) == [report] + Reports([Report(report)][1..]);
  }

  lemma ReportedAndPersisted(before: seq<Effect>, stored: Option<RemoteConfig>, hash: Hash, state: ConfigState,
                             updateOk: bool)
    requires forall e :: e in before ==> !e.Report?
    ensures Reports(before + ReportAndPersist(stored, hash, state, updateOk)) == [StatusReport(hash, state)]
  {
    var after := if stored.Some? && updateOk then [Persist(state)] else [];
    OneReport(before, StatusReport(hash, state), after);
    assert before + ReportAndPersist(stored, hash, state, updateOk) == before + Reporting(hash, state) + after;
  }

  lemma ApplyOrStartReports(stored: Option<RemoteConfig>, hash: Hash, held: Option<Supervisor>, out: Outcomes)
    ensures Reports(ApplyOrStart(stored, hash, held, out).effects) == [StatusReport(hash, Brought(held, out))]
  {
    var effects := ApplyOrStart(stored, hash, held, out).effects;
    if held.None? && out.built.Failure? {
      OneReport([], StatusReport(hash, Brought(held, out)), []);
      assert effects == [] + Reporting(hash, Brought(held, out)) + [];
    } else {
      var told := ReportAndPersist(stored, hash, Brought(held, out), out.UpdateOk());
      var before := effects[..|effects| - |told|];
      assert effects == before + told;
      ReportedAndPersisted(before, stored, hash, Brought(held, out), out.UpdateOk());
    }
  }

  lemma RemoteReports(stored: Option<RemoteConfig>, local: Option<Yaml>, held: Option<Supervisor>, hash: Hash,
                      out: Outcomes)
    requires out.parsed.Values?
    ensures Reports(ApplyRemote(stored, out.parsed.yaml, hash, held, out).effects)
            == [StatusReport(hash, Verdict(local, held, out))]
  {
    if out.assembled.Failure? {
      OneReport([], StatusReport(hash, Verdict(local, held, out)), []);
    } else if out.storeOk {
      var incoming := RemoteConfig(out.parsed.yaml, hash, Applying);
      NoReports([Store(incoming)]);
      ReportsAppend([Store(incoming)], ApplyOrStart(Some(incoming), hash, held, out).effects);
      ApplyOrStartReports(Some(incoming), hash, held, out);
    } else {
      ApplyOrStartReports(stored, hash, held, out);
    }
  }

  lemma LocalReports(stored: Option<RemoteConfig>, local: Option<Yaml>, held: Option<Supervisor>, hash: Hash,
                     out: Outcomes)
    requires out.parsed.NoValues?
    ensures
      var h := if out.localReadOk && local.Some? then ApplyLocal(stored, hash, held, out)
               else Handled(StopIfHeld(held) + Reporting(hash, Applied) + [PublishEffectiveConfig], None);
      Reports(h.effects) == [StatusReport(hash, Verdict(local, held, out))]
  {
    if out.localReadOk && local.Some? && out.assembled.Success? {
      ApplyOrStartReports(stored, hash, held, out);
    } else if out.localReadOk && local.Some? {
      var after := [PublishEffectiveConfig] + StopIfHeld(held);
      assert Reporting(hash, Applied) + [PublishEffectiveConfig] + StopIfHeld(held)
        == [] + Reporting(hash, Applied) + after;
      OneReport([], StatusReport(hash, Applied), after);
    } else {
      OneReport(StopIfHeld(held), StatusReport(hash, Applied), [PublishEffectiveConfig]);
    }
  }

  lemma ResetReports(stored: Option<RemoteConfig>, local: Option<Yaml>, held: Option<Supervisor>, hash: Hash,
                     out: Outcomes)
    requires out.parsed.NoValues?
    ensures Reports(ResetToLocal(stored, local, hash, held, out).effects)
            == [StatusReport(hash, Verdict(local, held, out))]
  {
    var first := if out.deleteOk then [Delete] else [];
    var effects := ResetToLocal(stored, local, hash, held, out).effects;
    assert effects == first + effects[|first|..];
    NoReports(first);
    ReportsAppend(first, effects[|first|..]);
    LocalReports(if out.deleteOk then None else stored, local, held, hash, out);
  }

  /** After the announcement exactly one more report follows, for the same hash. */
  lemma ProcessingReports(stored: Option<RemoteConfig>, local: Option<Yaml>, held: Option<Supervisor>, hash: Hash,
                          out: Outcomes)
    ensures Reports(Process(stored, local, held, hash, out).effects) == [StatusReport(hash, Verdict(local, held, out))]
  {
    match out.parsed
    case Values(_) => RemoteReports(stored, local, held, hash, out);
    case NoValues => ResetReports(stored, local, held, hash, out);
    case Invalid(_) => OneReport([], StatusReport(hash, Verdict(local, held, out)), []);
  }

  /** The statuses of one delivery, in full. */
  function Block(stored: Option<RemoteConfig>, local: Option<Yaml>, held: Option<Supervisor>, config: OpampConfig,
                 out: Outcomes): seq<StatusReport> {
    if out.readOk && IsDuplicate(stored, config) then [StatusReport(config.hash, stored.value.state)]
    else if config.preFailed.Some? then [StatusReport(config.hash, Failed(config.preFailed.value))]
    else [StatusReport(config.hash, Applying), StatusReport(config.hash, Verdict(local, held, out))]
  }

  lemma DeliveryBlock(stored: Option<RemoteConfig>, local: Option<Yaml>, held: Option<Supervisor>,
                      config: OpampConfig, out: Outcomes)
    ensures Reports(Handle(stored, local, held, config, out).effects) == Block(stored, local, held, config, out)
  {
    var effects := Handle(stored, local, held, config, out).effects;
    if (out.readOk && IsDuplicate(stored, config)) || config.preFailed.Some? {
      assert effects == [] + effects + [];
      OneReport([], effects[0].report, []);
    } else {
      var rest := effects[1..];
      assert effects == Reporting(config.hash, Applying) + rest;
      assert Reports(effects) == [StatusReport(config.hash, Applying)] + Reports(rest);
      ProcessingReports(stored, local, held, config.hash, out);
    }
  }

  /** One block per delivery: a single terminal report exactly for a recognised duplicate or a
      configuration that arrived failed, Applying and a terminal report for everything else. */
  lemma DeliveryReports(stored: Option<RemoteConfig>, local: Option<Yaml>, held: Option<Supervisor>,
                        config: OpampConfig, out: Outcomes)
    ensures
      var reports := Reports(Handle(stored, local, held, config, out).effects);
      && Blocks(reports)
      && 1 <= |reports| <= 2
      && (forall r :: r in reports ==> r.hash == config.hash)
      && (|reports| == 1 <==> (out.readOk && IsDuplicate(stored, config)) || config.preFailed.Some?)
  {
    DeliveryBlock(stored, local, held, config, out);
    var reports := Block(stored, local, held, config, out);
    assert |reports| == 2 ==> reports[2..] == [];
    assert |reports| == 1 ==> reports[1..] == [];
  }

  // ---- The machine ----

  datatype Phase = Down | Booting | Serving | Stopping

  /** `executed` is what the current process did, `served` the part of it after the bootstrap,
      `pending` what the event being handled still has to do, and `supervisor` what the runtime
      holds once that is done. */
  datatype Machine = Machine(durable: Durable, phase: Phase, executed: seq<Effect>, served: seq<Effect>,
                             pending: seq<Effect>, supervisor: Option<Supervisor>)

  datatype Step =
    | Launch(local: Option<Yaml>, boot: BootOutcomes)
    | Perform
    | Ready
    | Receive(local: Option<Yaml>, config: OpampConfig, out: Outcomes)
    | StopRequest
    | Exit
    | Crash

  predicate Enabled(m: Machine, step: Step) {
    match step
    case Launch(_, _) => m.phase == Down
    case Perform => m.pending != []
    case Ready => m.phase == Booting && m.pending == []
    case Receive(_, _, _) => m.phase == Serving && m.pending == []
    case StopRequest => m.phase == Serving && m.pending == []
    case Exit => m.phase == Stopping && m.pending == []
    case Crash => m.phase != Down
  }

  function Next(remoteEnabled: bool, m: Machine, step: Step): Machine
    requires Enabled(m, step)
  {
    match step
    case Launch(local, boot) =>
      var h := Boot(true, remoteEnabled, m.durable.stored, local, boot);
      Machine(m.durable, Booting, [], [], h.effects, h.supervisor)
    case Perform =>
      m.(durable := Do(m.durable, m.pending[0]), executed := m.executed + [m.pending[0]],
         served := if m.phase == Booting then m.served else m.served + [m.pending[0]],
         pending := m.pending[1..])
    case Ready => m.(phase := Serving)
    case Receive(local, config, out) =>
      var h := Handle(m.durable.stored, local, m.supervisor, config, out);
      m.(pending := h.effects, supervisor := h.supervisor)
    case StopRequest => m.(phase := Stopping, pending := StopIfHeld(m.supervisor), supervisor := None)
    case Exit => Machine(m.durable, Down, [], [], [], None)
    case Crash => Machine(m.durable, Down, [], [], [], None)
  }

  ghost predicate IsRun(remoteEnabled: bool, states: seq<Machine>, steps: seq<Step>) {
    && |states| == |steps| + 1
    && (exists d :: states[0] == Machine(d, Down, [], [], [], None))
    && forall i :: 0 <= i < |steps| ==>
        Enabled(states[i], steps[i]) && states[i + 1] == Next(remoteEnabled, states[i], steps[i])
  }

  predicate Sound(m: Machine) {
    && (m.phase == Down ==> m.pending == [] && m.executed == [] && m.supervisor.None?)
    && Ledger(m.executed + m.pending, None) == Some(m.supervisor)
    && (m.phase == Booting ==> m.served == [])
    && (m.phase != Booting ==> Blocks(Reports(m.served + m.pending)))
    && (m.phase == Stopping ==> m.supervisor.None?)
  }

  lemma PerformIsSound(remoteEnabled: bool, m: Machine)
    requires Sound(m) && m.pending != []
    ensures Sound(Next(remoteEnabled, m, Perform))
  {
    var next := Next(remoteEnabled, m, Perform);
    assert next.executed + next.pending == m.executed + m.pending;
    if m.phase != Booting {
      assert next.served + next.pending == m.served + m.pending;
    }
  }

  /** The effects of a new event continue a sound ledger and a complete trace of reports. */
  lemma EventIsSound(m: Machine, next: Machine)
    requires Sound(m) && m.phase == Serving && m.pending == []
    requires next.executed == m.executed && next.served == m.served && next.phase in {Serving, Stopping}
    requires Ledger(next.pending, m.supervisor) == Some(next.supervisor) && Blocks(Reports(next.pending))
    requires next.phase == Stopping ==> next.supervisor.None?
    ensures Sound(next)
  {
    assert m.executed + m.pending == m.executed && m.served + m.pending == m.served;
    LedgerAppend(m.executed, next.pending, None);
    ReportsAppend(m.served, next.pending);
    BlocksAppend(Reports(m.served), Reports(next.pending));
  }

  lemma SoundStep(remoteEnabled: bool, m: Machine, step: Step)
    requires Sound(m) && Enabled(m, step)
    ensures Sound(Next(remoteEnabled, m, step))
  {
    var next := Next(remoteEnabled, m, step);
    match step
    case Launch(local, boot) =>
      BootLedger(true, remoteEnabled, m.durable.stored, local, boot);
      assert next.executed + next.pending == next.pending;
    case Perform =>
      PerformIsSound(remoteEnabled, m);
    case Ready =>
      assert m.served + m.pending == [];
    case Receive(local, config, out) =>
      DeliveryLedger(m.durable.stored, local, m.supervisor, config, out);
      DeliveryReports(m.durable.stored, local, m.supervisor, config, out);
      EventIsSound(m, next);
    case StopRequest =>
      StopLedger(m.supervisor);
      NoReports(next.pending);
      EventIsSound(m, next);
    case Exit =>
    case Crash =>
  }

  lemma {:induction false} RunIsSound(remoteEnabled: bool, states: seq<Machine>, steps: seq<Step>, i: nat)
    requires IsRun(remoteEnabled, states, steps) && i < |states|
    ensures Sound(states[i])
  {
    if i > 0 {
      RunIsSound(remoteEnabled, states, steps, i - 1);
      SoundStep(remoteEnabled, states[i - 1], steps[i - 1]);
    }
  }

  /** Conservation at every instant of every run, whatever fails and wherever it crashes: at most one
      supervisor is live, the runtime holds it between events, and none survives a stop request. */
  lemma SupervisorsAreConserved(remoteEnabled: bool, states: seq<Machine>, steps: seq<Step>, i: nat)
    requires IsRun(remoteEnabled, states, steps) && i < |states|
    ensures 0 <= Live(states[i].executed) <= 1
    ensures states[i].pending == [] ==> Live(states[i].executed) == Held(states[i].supervisor)
    ensures states[i].pending == [] && states[i].phase == Stopping ==> Live(states[i].executed) == 0
  {
    RunIsSound(remoteEnabled, states, steps, i);
    var m := states[i];
    LedgerAppend(m.executed, m.pending, None);
    LedgerCounts(m.executed, None);
    if m.pending == [] {
      assert m.executed + m.pending == m.executed;
    }
  }

  /** The status trace of every run after its bootstrap is a concatenation of blocks, and a crash can
      only cut the last one. */
  lemma ReportsFollowTheGrammar(remoteEnabled: bool, states: seq<Machine>, steps: seq<Step>, i: nat)
    requires IsRun(remoteEnabled, states, steps) && i < |states|
    ensures OpenBlocks(Reports(states[i].served))
    ensures states[i].pending == [] ==> Blocks(Reports(states[i].served))
  {
    RunIsSound(remoteEnabled, states, steps, i);
    var m := states[i];
    if m.phase != Booting {
      var word := Reports(m.served + m.pending);
      ReportsAppend(m.served, m.pending);
      BlocksPrefix(word, |Reports(m.served)|);
      assert word[..|Reports(m.served)|] == Reports(m.served);
      if m.pending == [] {
        assert m.served + m.pending == m.served;
      }
    }
  }

  /** No delivery of the run meets a hazard. */
  ghost predicate Unhazardous(states: seq<Machine>, steps: seq<Step>)
    requires |states| == |steps| + 1
  {
    forall i :: 0 <= i < |steps| && steps[i].Receive? ==>
      !Hazard(states[i].durable, steps[i].local, states[i].supervisor, steps[i].config, steps[i].out)
  }

  lemma {:induction false} RunKeepsAgreement(remoteEnabled: bool, states: seq<Machine>, steps: seq<Step>, i: nat)
    requires IsRun(remoteEnabled, states, steps) && Unhazardous(states, steps) && Agrees(states[0].durable)
    requires i < |states|
    ensures AgreesThroughout(states[i].durable, states[i].pending)
  {
    if i > 0 {
      var m, step := states[i - 1], steps[i - 1];
      RunKeepsAgreement(remoteEnabled, states, steps, i - 1);
      match step
      case Launch(local, boot) => BootAgreement(remoteEnabled, m.durable, local, boot);
      case Receive(local, config, out) => DeliveryAgreementExact(m.durable, local, m.supervisor, config, out);
      case StopRequest => SilentEffects(m.durable, StopIfHeld(m.supervisor));
      case _ =>
    }
  }

  /** At every instant of every run, across crashes and restarts, a stored terminal state is the state
      last reported for its hash, provided reads, stores and deletes succeed during deliveries. */
  lemma StoreAndReportsAgree(remoteEnabled: bool, states: seq<Machine>, steps: seq<Step>, i: nat)
    requires IsRun(remoteEnabled, states, steps) && Agrees(states[0].durable) && i < |states|
    requires forall j :: 0 <= j < |steps| && steps[j].Receive? ==>
               steps[j].out.readOk && steps[j].out.storeOk && steps[j].out.deleteOk
    ensures Agrees(states[i].durable)
  {
    RunKeepsAgreement(remoteEnabled, states, steps, i);
  }

  // ---- Bootstrap and redelivery ----

  lemma CompletionOfInterrupted(d: Durable, state: ConfigState)
    requires d.stored.Some?
    ensures Replay(d, ReportAndPersist(d.stored, d.stored.value.hash, state, true))
            == Durable(Some(d.stored.value.(state := state)), d.reports + [StatusReport(d.stored.value.hash, state)])
  {
    var report := Report(StatusReport(d.stored.value.hash, state));
    ReplayAppend(d, [report], [Persist(state)]);
    ThroughoutOne(d, report);
    ThroughoutOne(Do(d, report), Persist(state));
  }

  /** A bootstrap that can read and write the store gives an interrupted configuration exactly one
      terminal state, reported and persisted, that says whether a supervisor runs; its hash and YAML
      are kept. A configuration that had already ended is neither rewritten nor reported again. */
  lemma BootstrapCompletes(d: Durable, local: Option<Yaml>, out: BootOutcomes)
    requires d.stored.Some? && out.remoteReadOk && out.UpdateOk()
    ensures
      var h := Boot(true, true, d.stored, local, out);
      var end := Replay(d, h.effects);
      && (d.stored.value.state.Terminal() ==> end == d)
      && end.stored.Some? && end.stored.value.state.Terminal()
      && end.stored.value == d.stored.value.(state := end.stored.value.state)
      && (d.stored.value.state.Applying? ==>
            && (end.stored.value.state == Applied <==> h.supervisor.Some?)
            && end.reports == d.reports + [StatusReport(d.stored.value.hash, end.stored.value.state)])
  {
    var up, done := BringUp(true, out), Complete(true, StoredRemote(d.stored.value), out);
    assert Boot(true, true, d.stored, local, out).effects == up + done;
    SilentEffects(d, up);
    ReplayAppend(d, up, done);
    if d.stored.value.state.Applying? {
      assert done == ReportAndPersist(d.stored, d.stored.value.hash, out.FinalState(), true);
      CompletionOfInterrupted(d, out.FinalState());
    } else {
      assert done == [];
    }
  }

  /** However far a delivery got before the crash, the next bootstrap leaves nothing Applying. */
  lemma CrashedDeliveryIsCompleted(d: Durable, local: Option<Yaml>, held: Option<Supervisor>, config: OpampConfig,
                                   out: Outcomes, k: nat, boot: BootOutcomes)
    requires k <= |Handle(d.stored, local, held, config, out).effects|
    requires boot.remoteReadOk && boot.UpdateOk()
    ensures
      var crashed := Replay(d, Handle(d.stored, local, held, config, out).effects[..k]);
      var end := Replay(crashed, Boot(true, true, crashed.stored, local, boot).effects);
      && end.stored.Some? == crashed.stored.Some?
      && (end.stored.Some? ==>
            && end.stored.value.state.Terminal()
            && end.stored.value.hash == crashed.stored.value.hash
            && end.stored.value.yaml == crashed.stored.value.yaml)
  {
    var crashed := Replay(d, Handle(d.stored, local, held, config, out).effects[..k]);
    if crashed.stored.Some? {
      BootstrapCompletes(crashed, local, boot);
    } else {
      SilentEffects(crashed, Boot(true, true, crashed.stored, local, boot).effects);
    }
  }

  datatype Delivery = Delivery(local: Option<Yaml>, config: OpampConfig, out: Outcomes)

  datatype Settledness = Settledness(durable: Durable, supervisor: Option<Supervisor>)

  function DeliverAll(state: Settledness, deliveries: seq<Delivery>): Settledness
    decreases |deliveries|
  {
    if deliveries == [] then state
    else
      var first := deliveries[0];
      var h := Handle(state.durable.stored, first.local, state.supervisor, first.config, first.out);
      DeliverAll(Settledness(Replay(state.durable, h.effects), h.supervisor), deliveries[1..])
  }

  /** Any number of redeliveries of a settled configuration only repeat its stored state. */
  lemma {:induction false} RedeliveryIsIdempotent(state: Settledness, hash: Hash, deliveries: seq<Delivery>)
    requires Settled(state.durable, hash)
    requires forall d :: d in deliveries ==> d.config.hash == hash && d.out.readOk
    ensures
      var echo := seq(|deliveries|, _ => StatusReport(hash, state.durable.stored.value.state));
      DeliverAll(state, deliveries) == state.(durable := state.durable.(reports := state.durable.reports + echo))
    decreases |deliveries|
  {
    var report := StatusReport(hash, state.durable.stored.value.state);
    var echo := seq(|deliveries|, _ => report);
    if deliveries == [] {
      assert state.durable.reports + echo == state.durable.reports;
    } else {
      assert deliveries[0] in deliveries;
      ThroughoutOne(state.durable, Report(report));
      var next := Settledness(Do(state.durable, Report(report)), state.supervisor);
      RedeliveryIsIdempotent(next, hash, deliveries[1..]);
      assert echo == [report] + seq(|deliveries| - 1, _ => report);
      assert next.durable.reports + seq(|deliveries| - 1, _ => report) == state.durable.reports + echo;
    }
  }

  /** A hash still stored as Applying is processed in full again, whatever fails, unless it arrives failed. */
  lemma InterruptedHashIsReprocessed(stored: RemoteConfig, local: Option<Yaml>, held: Option<Supervisor>,
                                     config: OpampConfig, out: Outcomes)
    requires stored.state.Applying? && stored.hash == config.hash
    ensures
      var reports := Reports(Handle(Some(stored), local, held, config, out).effects);
      if config.preFailed.Some? then reports == [StatusReport(config.hash, Failed(config.preFailed.value))]
      else reports == [StatusReport(config.hash, Applying), StatusReport(config.hash, Verdict(local, held, out))]
  {
    DeliveryBlock(Some(stored), local, held, config, out);
  }

  /** If its store and delete calls succeed it is handled just as if nothing were stored. */
  lemma InterruptedHashIsForgotten(stored: RemoteConfig, local: Option<Yaml>, held: Option<Supervisor>,
                                   config: OpampConfig, out: Outcomes)
    requires stored.state.Applying? && stored.hash == config.hash && out.storeOk && out.deleteOk
    ensures Handle(Some(stored), local, held, config, out) == Handle(None, local, held, config, out)
  {
  }
}
