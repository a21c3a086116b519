# Agent Control, verified

A Dafny model of the parts of New Relic Agent Control where state has to stay consistent through
failures, crashes and restarts, with machine-checked proofs of what they guarantee.

| module | file | what it models |
|---|---|---|
| ConfigTypes, ConfigRepository | `src/ConfigTypes.dfy`, `src/ConfigRepo.dfy` | configuration states, status reports, the persisted store |
| SubAgentSpec, SubAgentOutcomes, SubAgentAgreement, SubAgentRuns, SubAgentRuntime | `src/SubAgent*.dfy` | a sub-agent's life with its supervisor and remote configurations |
| DynamicConfig, Reconciliation, AgentControlSpec, AgentControlRuns, AgentControlRuntime | `src/DynamicConfig.dfy`, `src/Reconciliation.dfy`, `src/AgentControl*.dfy` | merging a remote configuration, reconciling the fleet, the transaction around it, restarts |
| AgentTypeIds | `src/AgentTypeId.dfy` | agent type identifiers and their OCI tags |
| SelfReplacer | `src/SelfReplacer.dfy` | replacing the running binary on a file system that can fail or stop anywhere |
| Templates, PlaceholderGrammar, PipeFunctions, PipeGrammar, TemplateImmunity, VariableTree | `src/Templat*.dfy`, `src/PlaceholderGrammar.dfy`, `src/Pipe*.dfy`, `src/VariableTree.dfy` | placeholder substitution, filling the variable tree |
| DynamicObjects | `src/DynamicObjects.dfy` | writing Kubernetes objects only if they have changed |

`dafny verify dfyconfig.toml` checks the whole project.

How the model is built:

- Code that changes state step by step is a class. Each method is proved against a specification
  function that gives the exact list of durable writes, status reports and supervisor calls it makes,
  in order; the class keeps a ghost log of them. A crash is a prefix of such a list.
- A collaborator (validator, builder, supervisor, data store, OpAMP client, file system call) is a
  parameter that says how its call ends. Statements range over all such parameters.
- A walk over a hash map picks its keys in any order.
- A retained supervisor or sub-agent carries an instance number, so that replacing one is visible.

What the proofs bring to light, where the code does not do what one might expect. Each has a theorem
with the exact condition, or a witness:

- A sub-agent's store and its reports disagree exactly in two situations, each with a failed call to the store
  (`DeliveryAgreementExact`, `HazardWitnesses`).
- `ConfigRepo::update_state` fails when nothing is stored. Agent Control's reset to the local
  configuration deletes the stored one first, so it never concludes: no report follows Applying and the
  current configuration does not move (`ResetNeverConcludes`). The unit test of that path expects
  Applied; it uses an in-memory store that accepts the update.
- A reset that is rejected after its deletion leaves the agents running a remote configuration that is no
  longer stored (`RejectionTraceExact`).
- A sub-agent that does not build at the start (`StartConvergesExactly`), or that a partly failed configuration
  loses (`LostExactly`), is not brought back by any later configuration (`LostAtStartStaysLost`,
  `LostAgentsStayLost`). After a partial failure the current configuration does not advance, so an agent started
  by it is not stopped by configurations that do not name it (`OrphanedExactly`, `OrphansKeepRunning`), and one
  that names it replaces the running instance without stopping it (`InstancesAreConservedExactly`,
  `LifetimeConservesExactly`).
- A delivery to Agent Control leaves its store and reports in disagreement exactly in these situations
  (`DeliveryEndsInAgreementExact`, `DeliveryAgreesThroughoutExact`, `DeathAgreementExact`). It persists before it
  reports, so a crash or a failed report in between leaves the server at Applying. It does not look for
  duplicates, so a settled hash is reported as Applying again while it is handled. And if that redelivery is
  rejected, the server's last word on it is the rejection, or Applying, while it stays stored as it was.
- A start breaks agreement exactly if it reports a correction of a settled state and does not get to persist it,
  and heals a disagreement exactly if it has a state to correct, and reports and persists it
  (`BootAgreementExact`, `BootAgreesThroughoutExact`); so not if the stored state is Applied and everything starts
  (`CrashBeforeReportIsNotHealed`, `RejectedRedeliveryIsNotHealed`). `LifeAgreementExact` puts deliveries, deaths
  and starts together.
- On Windows a failure between vacating the target and the final rename leaves no binary at the target
  (`WindowsErrorExactly`), and no later upgrade repairs that (`MissingTargetStaysMissing`). On both
  platforms a failure after the new binary was moved throws it away (`NewBinaryAfterFailure`).
- A rendered value that is itself a later placeholder is expanded again
  (`ValueOfLaterPlaceholderIsExpanded`). Immune to that, whatever the values, are the templates with at most one
  placeholder and those with functions that do not parse (`ImmuneExactly`).
- An OCI tag does not determine the namespace (`TagDetermines`).
- Fields that are not compared, such as a Role's `rules` or a Secret's `type`, are updated only together
  with one that is (`FieldIsWrittenExactly`, `RoleRulesExactly`).

## Model

| member | source | states |
|---|---|---|
| ConfigRepository.ConfigRepo.LoadRemoteFallbackLocal | agent-control/src/values/config_repository.rs:43-57 | the stored remote configuration wins over the local one; a failed remote read is an error, not a fallback |
| ConfigRepository.ConfigRepo.LoadRemote | agent-control/src/values.rs:64-80 | nothing without remote support, else what is stored |
| ConfigRepository.ConfigRepo.StoreRemote | agent-control/src/values.rs:82-98 | replaces the agent's stored configuration and no other |
| ConfigRepository.ConfigRepo.UpdateState | agent-control/src/values.rs:111-151 | read-modify-write: only the state changes, YAML and hash are kept; it succeeds exactly if both calls do and something is stored |
| ConfigRepository.ConfigRepo.DeleteRemote | agent-control/src/values.rs:153-161 | forgets the agent's stored configuration and no other |
| SubAgentAgreement.ThroughoutIsEveryPrefix | agent-control/src/sub_agent.rs:399-720 | agreement throughout a list of effects is agreement after each of its prefixes, that is at every crash point |
| SubAgentAgreement.DeliveryAgreementExact | agent-control/src/sub_agent.rs:399-720 | handling a configuration keeps every stored terminal state equal to the last report for its hash, at every instant, if and only if neither of two hazards that can be checked beforehand is present |
| SubAgentAgreement.ReliableIoHasNoHazard | agent-control/src/sub_agent.rs:399-720 | with a first read, store and delete that succeed, and an update that may fail, agreement holds at every instant |
| SubAgentAgreement.HazardWitnesses | agent-control/src/sub_agent.rs:399-454 | each hazard does break agreement: a failed store write files one configuration's success under another, a failed read reports a settled one as Applying |
| SubAgentAgreement.BootAgreement | agent-control/src/sub_agent.rs:175-268 | bootstrapping keeps agreement at every instant whatever fails |
| SubAgentRuns.DeliveryLedger | agent-control/src/sub_agent.rs:461-673 | handling a configuration never starts a second supervisor, never touches one that is not live, and holds exactly the one left live |
| SubAgentRuns.BootLedger | agent-control/src/sub_agent.rs:175-268 | the same for the bootstrap, starting from none |
| SubAgentOutcomes.BootExactly | agent-control/src/sub_agent.rs:175-268 | a bootstrap starts a supervisor exactly if there is a remote or local configuration and it can be assembled, built and started, and holds that one |
| SubAgentOutcomes.BootPublishesExactly | agent-control/src/sub_agent.rs:175-268 | with a client it announces the effective configuration exactly if there is nothing to start from or it could be built |
| SubAgentOutcomes.BootWithoutClient | agent-control/src/sub_agent.rs:175-268 | without a client it reports nothing and leaves in the store what it would leave with one |
| SubAgentRuns.LedgerCounts | agent-control/src/sub_agent.rs:275-396 | starts minus stops minus failed applies is the change in supervisors held |
| SubAgentRuns.SupervisorsAreConserved | agent-control/src/sub_agent.rs:275-396 | at every instant of every run, crashes included, at most one supervisor is live; between events it is the one held; none after a stop request |
| SubAgentRuns.DeliveryReports | agent-control/src/sub_agent.rs:399-454 | one block of reports per delivery, all for its hash: a single terminal report exactly for a recognised duplicate or a pre-failed configuration, else Applying and one terminal report |
| SubAgentRuns.DeliveryBlock | agent-control/src/sub_agent.rs:399-673 | the reports of a delivery in full, with the terminal state determined by the collaborators' answers |
| SubAgentOutcomes.StoreAfterDelivery | agent-control/src/sub_agent.rs:399-720 | what a delivery leaves in the store, by the collaborators' answers: its own YAML and hash with the state of its supervisor; nothing after a reset; what was there for a duplicate, pre-failed, invalid or unassembled one; the previous YAML and hash if the store or delete fails |
| SubAgentOutcomes.SupervisorAfterDelivery | agent-control/src/sub_agent.rs:399-673 | which supervisor a delivery leaves running, by the collaborators' answers |
| SubAgentOutcomes.DeliveryPublishesExactly | agent-control/src/sub_agent.rs:461-673 | the effective configuration is announced once for a delivery that gets to a supervisor or ends without one, and else not at all |
| SubAgentOutcomes.DeliveryInOrder | agent-control/src/sub_agent.rs:399-720 | a delivery that is processed is announced before anything else, then the store is written, and then come the supervisor, the report and the state, in that order |
| SubAgentRuns.ReportsFollowTheGrammar | agent-control/src/sub_agent.rs:399-673 | the status trace of every run after its bootstrap is a concatenation of blocks, and a crash can only cut the last one |
| SubAgentRuns.StoreAndReportsAgree | agent-control/src/sub_agent.rs:399-720 | at every micro-step of every run, across crashes and restarts, a stored terminal state is the state last reported for its hash, if reads, stores and deletes of deliveries succeed |
| SubAgentRuns.RunKeepsAgreement | agent-control/src/sub_agent.rs:399-720 | the same for every run none of whose deliveries meets a hazard |
| SubAgentRuns.BootstrapCompletes | agent-control/src/sub_agent.rs:175-268 | an interrupted configuration gets exactly one terminal state, reported and persisted, that says whether a supervisor runs, and keeps hash and YAML; one that had ended is neither rewritten nor reported |
| SubAgentRuns.CrashedDeliveryIsCompleted | agent-control/src/sub_agent.rs:175-268 | wherever a delivery crashed, the next bootstrap leaves a terminal state and keeps hash and YAML |
| SubAgentRuns.RedeliveryIsIdempotent | agent-control/src/sub_agent.rs:405-425 | n redeliveries of a settled hash leave store and supervisor as they are and add exactly n reports of the stored state |
| SubAgentRuns.InterruptedHashIsReprocessed | agent-control/src/sub_agent.rs:405-454 | a hash still stored as Applying is processed in full again whatever fails, unless it arrives pre-failed |
| SubAgentRuns.InterruptedHashIsForgotten | agent-control/src/sub_agent.rs:405-454 | if its store and delete calls succeed it is handled just as if nothing were stored |
| SubAgentRuntime.ServingIsSound | agent-control/src/sub_agent.rs:275-396 | every sequence of events conserves supervisors and keeps the report grammar, also when a channel closes |
| SubAgentRuntime.ServingAgreementExact | agent-control/src/sub_agent.rs:275-396 | the event loop keeps store and reports in agreement at every instant if and only if no delivery it gets to meets a hazard |
| SubAgentRuntime.ServingWithoutClient | agent-control/src/sub_agent.rs:275-396 | without a client the loop only stops its supervisor, exactly if a stop request comes before a channel closes |
| SubAgentRuntime.SubAgent.ReportAndPersistState | agent-control/src/sub_agent.rs:708-720 | reports first, then rewrites the stored state if there is one |
| SubAgentRuntime.SubAgent.ApplyConfigToExistingSupervisor | agent-control/src/sub_agent.rs:614-641 | performs exactly the specified effects and returns the supervisor left live |
| SubAgentRuntime.SubAgent.BuildAndStartSupervisor | agent-control/src/sub_agent.rs:568-673 | the same for building and starting a new one; a failed build is reported and not persisted |
| SubAgentRuntime.SubAgent.ApplyOrBuildAndStartSupervisor | agent-control/src/sub_agent.rs:461-518 | the same for assembling, storing and applying values |
| SubAgentRuntime.SubAgent.ResetToLocalConfig | agent-control/src/sub_agent.rs:526-609 | the same for falling back to the local configuration |
| SubAgentRuntime.SubAgent.HandleRemoteConfig | agent-control/src/sub_agent.rs:399-454 | performs exactly the effects that the theorems on deliveries are about |
| SubAgentRuntime.SubAgent.InitSupervisor | agent-control/src/sub_agent.rs:175-268 | performs exactly the effects that the theorems on bootstraps are about |
| SubAgentRuntime.SubAgent.Runtime | agent-control/src/sub_agent.rs:275-396 | bootstrap, then every event in turn until a stop request or a closed channel; with reliable reads, stores and deletes, agreement holds at every instant of what it did |
| DynamicConfig.TryFromRemote | agent-control/src/agent_control/config.rs:511-547 | merges the entries in whatever order the map yields them, with the order-free result |
| DynamicConfig.TryAppend | agent-control/src/agent_control/config.rs:550-572 | adds all entries or fails on the first key that is already there |
| DynamicConfig.EntryExactly | agent-control/src/agent_control/config.rs:521-540 | an entry is read exactly if its text is a document and its agents decode; the agents are those under `agents`, the rest is everything else |
| DynamicConfig.AgentConfigsExactly | agent-control/src/opamp/remote_config.rs:83-86 | the entries that are merged are those whose names start with `agentConfig` |
| DynamicConfig.MergeExact | agent-control/src/agent_control/config.rs:511-572 | merging succeeds exactly when every entry and the final document decode and agent ids and other keys are pairwise disjoint; the result is the union |
| DynamicConfig.MergeIsOrderIndependent | agent-control/src/agent_control/config.rs:511-547 | success and result do not depend on the order |
| DynamicConfig.StoredAgentsSurvive | agent-control/src/agent_type/agent_type_id.rs:146-163 | agents whose types are serialised as printed names read back unchanged |
| Reconciliation.FatesAreIndependent | agent-control/src/agent_control.rs:527-584 | in every enumeration order each agent's instance, acts and errors depend only on its own entries in both configurations and its own build and clean results |
| Reconciliation.PromisesToEachAgent | agent-control/src/agent_control.rs:527-584 | unchanged agents keep their instance untouched; changed ones are stopped, then rebuilt, or gone if that fails; removed ones get exactly one clean attempt and one broadcast |
| Reconciliation.FaultsOfEachAgent | agent-control/src/agent_control.rs:527-584 | what is reported of each agent: a failed build, a stop of one that does not run, a failed clean, each exactly once, and nothing else |
| Reconciliation.OrderDoesNotMatter | agent-control/src/agent_control.rs:527-584 | two orders give the same running agents, the same share of acts and errors to each, and the same overall success |
| Reconciliation.FailuresAreIsolated | agent-control/src/agent_control.rs:527-584 | what happens to other agents does not change an agent's outcome |
| Reconciliation.InstancesAreConservedExactly | agent-control/src/agent_control.rs:220-280 | an agent's builds minus stops is the change in its running instances, exactly unless an unknown running agent is built again |
| AgentControlRuns.LifetimeConservesExactly | agent-control/src/agent_control.rs:141-397 | over a start and any events, builds minus stops of an agent is what runs, and zero after a shutdown, exactly unless an orphan was built again |
| AgentControlRuns.ConvergedNeverLeaks | agent-control/src/agent_control.rs:284-397 | which never happens from a converged fleet while configurations are rejected or fully applied |
| Reconciliation.ReconcileIsOrderFree | agent-control/src/agent_control.rs:527-584 | the running agents are an order-free function of the inputs and an error is returned exactly if some agent has a fault |
| AgentControlSpec.TransactionOutcome | agent-control/src/agent_control.rs:403-520 | for a non-empty configuration whose reports and state update succeed: rejected without a trace, also by a failed store call, or stored with the verdict on its agents, Applied exactly if none failed; Applying and one terminal report in each case |
| AgentControlSpec.DeliveryByAnswers | agent-control/src/agent_control.rs:403-520 | by the collaborators' answers: what does not pass leaves agents and current configuration alone and is reported as Failed last; what passes reconciles the agents with what it asks for, and when that becomes current, exactly |
| AgentControlSpec.StoreAfterDelivery | agent-control/src/agent_control.rs:403-520 | what a delivery leaves in the store, by the collaborators' answers |
| AgentControlSpec.DeliverDurable | agent-control/src/agent_control.rs:403-520 | what is stored and reported after any announced delivery, whatever fails |
| AgentControlSpec.ResetNeverConcludes | agent-control/src/agent_control.rs:403-520 | a reset to local reconciles the agents but leaves nothing stored, reports nothing after Applying and does not move the current configuration |
| AgentControlSpec.RejectionTraceExact | agent-control/src/agent_control.rs:455-510 | a rejected configuration leaves the store as it was, exactly unless it is a reset rejected after its deletion |
| AgentControlSpec.ConvergenceExact | agent-control/src/agent_control.rs:284-584 | a delivery keeps running agents equal to the current configuration if and only if it is rejected early, succeeds completely or has no effect |
| AgentControlSpec.FleetConverges | agent-control/src/agent_control.rs:284-584 | over any sequence of fully applied and rejected configurations the running id-to-type map equals the current configuration after every event |
| AgentControlRuns.StartConvergesExactly | agent-control/src/agent_control.rs:232-305 | a start is converged exactly if every agent builds, and loses exactly those that do not |
| AgentControlSpec.StartExactly | agent-control/src/agent_control.rs:141-160 | a start runs exactly the agents that build, as the builder made them, and its state is Applied exactly if that is all of them |
| AgentControlRuns.FleetConvergesFromStart | agent-control/src/agent_control.rs:232-397 | from a start that builds everything the fleet stays converged over any sequence of fully applied and rejected configurations |
| AgentControlSpec.LostAgentsStayLost | agent-control/src/agent_control.rs:284-584 | an agent of the current configuration that does not run is not started by any later sequence of configurations |
| AgentControlRuns.LostAtStartStaysLost | agent-control/src/agent_control.rs:232-397 | an agent that does not build at the start is not started by any later sequence of configurations |
| AgentControlSpec.LostExactly | agent-control/src/agent_control.rs:403-584 | when a delivery loses an agent, exactly |
| AgentControlSpec.OrphanedExactly | agent-control/src/agent_control.rs:403-584 | when a delivery starts an agent that the current configuration does not have and will not get, exactly |
| AgentControlSpec.OrphansKeepRunning | agent-control/src/agent_control.rs:335-343 | from then on it keeps its instance through all configurations that do not name it |
| AgentControlSpec.RestartIsNoWorse | agent-control/src/agent_control.rs:232-264 | after a non-empty configuration that failed for some agents, a restart from the store with the same builder runs every agent that ran with its new type, and all the builder can build |
| AgentControlSpec.DeliveryEndsInAgreementExact | agent-control/src/agent_control.rs:403-520 | a delivery ends with the stored terminal state equal to the last report for its hash if and only if it neither rejects a settled hash without reporting it as stored nor persists a verdict it cannot report |
| AgentControlSpec.DeliveryAgreesThroughoutExact | agent-control/src/agent_control.rs:403-520 | the same at every crash point: if and only if the hash is not settled already and no verdict is persisted |
| AgentControlSpec.DeliveriesKeepAgreement | agent-control/src/agent_control.rs:284-397 | over any sequence of deliveries, rejections and failures included, agreement holds after each if none leaves a disagreement |
| AgentControlSpec.RejectedRedeliveryIsNotHealed | agent-control/src/agent_control.rs:403-453 | a settled hash that is delivered again and rejected is reported as failed while stored as applied, and a restart that starts everything leaves it so |
| AgentControlSpec.BootAgreementExact | agent-control/src/agent_control.rs:150-176 | whichever calls fail, a start heals a disagreement exactly if it has a state to correct, reports it and persists it, and breaks an agreement exactly if it corrects a settled state and cannot persist it |
| AgentControlSpec.BootAgreesThroughoutExact | agent-control/src/agent_control.rs:150-176 | at every crash point of a start: agreement exactly if no settled state is corrected |
| AgentControlRuns.DeathAgreementExact | agent-control/src/agent_control.rs:403-520 | which crash points of a delivery leave a disagreement, exactly |
| AgentControlRuns.EventAgreementExact | agent-control/src/agent_control.rs:141-520 | one exact condition each for a delivery, a death in the middle of one, and a start |
| AgentControlRuns.LifeAgreementExact | agent-control/src/agent_control.rs:141-520 | over any life, with deliveries, deaths and starts in any order, store and reports agree after every event if and only if no event upsets them |
| AgentControlSpec.CrashBeforeReportIsNotHealed | agent-control/src/agent_control.rs:438-447 | a crash between persisting and reporting Applied leaves the server at Applying after a restart that starts everything |
| AgentControlRuntime.AgentControl.ApplyRemoteConfigAgents | agent-control/src/agent_control.rs:527-584 | both loops, in any order, give each agent its specified share and the order-free running map |
| AgentControlRuntime.AgentControl.RecreateSubAgent | agent-control/src/agent_control.rs:220-227 | stop, then build; an agent that cannot be stopped is not built |
| AgentControlRuntime.AgentControl.StopAndRemoveSubAgent | agent-control/src/sub_agent/collection.rs:17-32 | removes and stops the agent, or fails if it does not run |
| AgentControlRuntime.AgentControl.HandleRemoteConfig | agent-control/src/agent_control.rs:403-453 | performs exactly the effects that the transaction theorems are about and returns a configuration exactly if it is to become current |
| AgentControlRuntime.AgentControl.PrepareConfig | agent-control/src/agent_control.rs:455-510 | checks and writes before the agents are touched, with each early exit |
| AgentControlSpec.LoopDelivers | agent-control/src/agent_control.rs:284-397 | the loop does the deliveries before the first shutdown event, in order; it ends with a reason exactly if there is one, and then nothing runs |
| AgentControlRuntime.AgentControl.ProcessEvents | agent-control/src/agent_control.rs:284-397 | the loop over configurations, shutdowns and other events refines the function that the run theorems are about, and does with each agent the acts that the lifetime theorem counts |
| AgentControlRuntime.AgentControl.StopAllSubAgents | agent-control/src/sub_agent/collection.rs:38-44 | each running agent is stopped exactly once, in any order, and none is left |
| AgentControlRuntime.AgentControl.BuildAndRunSubAgents | agent-control/src/agent_control.rs:232-264 | runs exactly the agents that build, and reports an error exactly if one does not |
| AgentControlRuntime.AgentControl.Start | agent-control/src/agent_control.rs:141-176 | builds the fleet and, with an OpAMP client, corrects the stored status; it goes on exactly if the correction and the effective configuration could be sent |
| AgentTypeIds.ParseVersionExact | agent-control/src/agent_type/agent_type_id.rs:90-101 | accepts exactly the printed versions of at most 14 characters: three numbers without leading zeros (item 2 of Semantic Versioning 2.0.0) |
| AgentTypeIds.VersionInOrder | agent-control/src/agent_type/agent_type_id.rs:90-101 | its numbers are, from left to right, major, minor and patch |
| AgentTypeIds.ValidateFormatExact | agent-control/src/agent_type/agent_type_id.rs:105-128 | names and namespaces are 1 to 64 characters of `[a-z0-9._]`, a letter first and a letter or digit last |
| AgentTypeIds.ShortNumbersFit | agent-control/src/agent_type/agent_type_id.rs:90-101 | a number that short cannot overflow 64 bits |
| AgentTypeIds.FromPartsExact | agent-control/src/agent_type/agent_type_id.rs:130-144 | exactly the valid identifiers can be built from parts |
| AgentTypeIds.RoundTrip | agent-control/src/agent_type/agent_type_id.rs:167-185 | a string parses to an identifier if and only if that is valid and the string is its print |
| AgentTypeIds.PartsOfFullName | agent-control/src/agent_type/agent_type_id.rs:176-185 | the namespace comes before the slash, the name before the colon, the version after it |
| AgentTypeIds.TagsAreLegal | agent-control/src/agent_type/oci.rs:19-49 | every tag is legal under the section "Pulling manifests" of the OCI Distribution Specification |
| AgentTypeIds.TagExactly | agent-control/src/agent_type/oci.rs:19-49 | the tag of each environment in full |
| AgentTypeIds.TagDetermines | agent-control/src/agent_type/oci.rs:19-49 | two tags are equal if and only if environment, name and version are |
| SelfReplacer.StagingIsElsewhere | self-replacer/src/replacer.rs:190-223 | the staging file, the target and the backup are three files, whatever the target is called |
| SelfReplacer.PathsExactly | self-replacer/src/replacer.rs:190-223 | the names of backup and staging file in full, also for a target without a name |
| SelfReplacer.OldBinaryIsNeverLost | self-replacer/src/replacer.rs:115-248 | for every failing call and every crash point, on both platforms: the old binary is at the target or its backup, the target holds nothing partial, other files are untouched |
| SelfReplacer.UnixTargetIsAlwaysUsable | self-replacer/src/replacer.rs:115-248 | on Unix the target is at every instant the old or the complete new binary, and the old one after every error |
| SelfReplacer.SuccessExactly | self-replacer/src/replacer.rs:115-248 | when it succeeds, exactly; then the target has the new content with the old permissions, the backup is the old binary, and nothing is left over |
| SelfReplacer.WindowsErrorExactly | self-replacer/src/replacer.rs:147-187 | when an error on Windows leaves the old binary in place, exactly; otherwise the target is missing and the backup has it |
| SelfReplacer.NewBinaryAfterFailure | self-replacer/src/replacer.rs:201-248 | whether it succeeds or fails, the new binary is where it was exactly if it had not been moved |
| SelfReplacer.ErrorExactly | self-replacer/src/replacer.rs:96-248 | which error a replacement ends with, by the first call that fails |
| SelfReplacer.UpgradesNeverLoseTheBinary | self-replacer/src/replacer.rs:115-248 | over any number of upgrades, each failing or cut short anywhere, a complete binary survives, on Unix always at the target |
| SelfReplacer.MissingTargetStaysMissing | self-replacer/src/replacer.rs:115-121 | once the target is missing, further upgrades neither restore it nor touch the backup |
| SelfReplacer.BinaryReplacer.ReplaceSelf | self-replacer/src/replacer.rs:96-112 | goes through exactly the specified file system states, behind the check that the new binary exists; with an unused staging name every one of them keeps the old binary and has no partial one at the target |
| SelfReplacer.BinaryReplacer.ReplaceBinary | self-replacer/src/replacer.rs:115-187 | the same for the replacement itself, on both platforms |
| SelfReplacer.BinaryReplacer.CreateTempFile | self-replacer/src/replacer.rs:201-248 | the same for staging: move or else copy, permissions, clean-up on error |
| PlaceholderGrammar.PlaceholderExactly | agent-control/src/agent_type/templates.rs:23 | a text is a placeholder if and only if it matches the regular expression, written out class by class |
| PipeGrammar.CapturesExactly | agent-control/src/agent_type/templates.rs:95-101 | a placeholder refers to the variable `nr-<namespace>:<name>`, and the rest are its functions |
| PipeGrammar.FunctionsParseExactly | agent-control/src/agent_type/templates_function.rs:50-84 | the functions parse exactly if each is `indent`, in any case, with a number of at most 255, and give those numbers in order |
| Templates.PiecesExact | agent-control/src/agent_type/templates.rs:24-55 | a template is split into its leftmost placeholders and the text between, which contains none |
| Templates.RenderExact | agent-control/src/agent_type/templates.rs:91-115 | the name before the first pipe decides the variable, the rest is applied to its value, and a missing variable or value is an error |
| Templates.TemplateString | agent-control/src/agent_type/templates.rs:86-120 | the loop replaces one placeholder after the other in the text as it has become, and stops at the first that cannot be rendered |
| Templates.ReplaceAllFills | agent-control/src/agent_type/templates.rs:116 | replacing all occurrences of a placeholder in text whose plain pieces are inert fills that placeholder and nothing else |
| Templates.LoopIsSimultaneous | agent-control/src/agent_type/templates.rs:86-120 | the loop fails exactly when simultaneous substitution does, with the same error; it gives the same text, duplicates included, whenever plain text is inert to the placeholders of the input and each value to the later ones (an inert text neither contains the placeholder nor ends in a start of it) |
| Templates.DollarFreeTemplates | agent-control/src/agent_type/templates.rs:86-120 | in particular when dollars occur only where placeholders start and in no value |
| Templates.ValueOfLaterPlaceholderIsExpanded | agent-control/src/agent_type/templates.rs:116 | a value that is a later placeholder is expanded again, so the two differ unless that one renders to itself |
| TemplateImmunity.ReplaceAllAtSlots | agent-control/src/agent_type/templates.rs:116 | between placeholders, replacing all occurrences fills the placeholder and nothing else whatever the plain text |
| PipeFunctions.ApplyExact | agent-control/src/agent_type/templates_function.rs:45-84 | whether the functions of a placeholder fail does not depend on the value; if they do not, they indent it by the sum of their numbers |
| PipeFunctions.IndentExactly | agent-control/src/agent_type/templates_function.rs:45-49 | each line break is followed by that many spaces |
| TemplateImmunity.OnePlaceholderIsImmune | agent-control/src/agent_type/templates.rs:86-120 | with at most one placeholder, loop and simultaneous substitution agree for all values and functions |
| TemplateImmunity.UnparsedIsImmune | agent-control/src/agent_type/templates.rs:107-114 | with functions that do not parse they fail alike for all values, however many placeholders there are |
| TemplateImmunity.ImmuneWithoutFunctionsExactly | agent-control/src/agent_type/templates.rs:86-120 | with functions that leave every value alone, as where there are none, they agree for all values if and only if there is at most one placeholder |
| TemplateImmunity.ImmuneExactly | agent-control/src/agent_type/templates.rs:86-120 | with the functions of the code they agree for all values if and only if there is at most one placeholder or some functions do not parse |
| VariableTree.UpdateSpecs | agent-control/src/agent_type/definition.rs:263-282 | in whatever order keys are visited: the specified tree, or failure exactly if the specification fails, with one of its errors |
| VariableTree.FillSucceedsExactly | agent-control/src/agent_type/definition.rs:254-282 | filling succeeds if and only if every value fits at the path it addresses |
| VariableTree.OnlyAddressedLeavesChange | agent-control/src/agent_type/definition.rs:254-282 | at every path: nothing changes unless addressed, and what is addressed is filled with its own value alone |
| VariableTree.LeafAfterFilling | agent-control/src/agent_type/definition.rs:254-282 | an addressed leaf holds what merging its own value into it gives, every other leaf what it held |
| VariableTree.LeafAfterConstraints | agent-control/src/agent_type/definition.rs:226-252 | constraints are applied to every leaf in its place |
| VariableTree.UnknownKeysAreIgnored | agent-control/src/agent_type/definition.rs:265-269 | values without a name in the tree, at any depth, make no difference |
| VariableTree.FillKeepsShape | agent-control/src/agent_type/definition.rs:254-282 | filling keeps the names and leaves at every depth |
| VariableTree.ConstrainedAndFilledKeepsShape | agent-control/src/agent_type/definition.rs:226-282 | so does applying constraints first |
| VariableTree.FailureHasACause | agent-control/src/agent_type/definition.rs:263-282 | filling fails exactly when there is an error it can fail with |
| DynamicObjects.SecretsDataAreEqual | agent-control/src/k8s/dynamic_object.rs:291-313 | compares `data` overridden by the encoded text entries of `stringData` with the stored data, extending a copy in any order |
| DynamicObjects.SecretDataExactly | agent-control/src/k8s/dynamic_object.rs:291-308 | the data of a Secret key by key: a text under `stringData` counts, encoded, and else what is under `data` |
| DynamicObjects.UnchangedByKind | agent-control/src/k8s/dynamic_object.rs:270-320 | what counts as unchanged, kind by kind and field by field |
| DynamicObjects.ApplyExactly | agent-control/src/k8s/dynamic_object.rs:93-117 | when a write fails, and what it replaces and keeps of an existing object |
| DynamicObjects.ApplyIfChangedAchieves | agent-control/src/k8s/dynamic_object.rs:119-129 | without an error the object shows what the manifest asks for whatever was there before, nothing else changes, and doing it again writes nothing |
| DynamicObjects.SkippingRefinesWriting | agent-control/src/k8s/dynamic_object.rs:93-129 | over any history of manifests, failed calls and foreign edits the cluster shows the same as with unconditional writes |
| DynamicObjects.FieldIsWrittenExactly | agent-control/src/k8s/dynamic_object.rs:69-129 | for objects of every kind, a field ends as an unconditional write would leave it if and only if something that is compared has changed or the field was so already |
| DynamicObjects.RoleRulesExactly | agent-control/src/k8s/dynamic_object.rs:270-280 | a change to the rules of a Role is written if and only if its labels or annotations change as well |
| DynamicObjects.Cluster.ObjectHasChanged | agent-control/src/k8s/dynamic_object.rs:69-90 | a write is due exactly unless the object exists and shows the content, labels and annotations that the manifest asks for |
| DynamicObjects.Cluster.ApplyObject | agent-control/src/k8s/dynamic_object.rs:93-117 | overwrites data, labels and annotations of an existing object or creates it, and admits the rest unchanged |
| DynamicObjects.Cluster.ApplyObjectIfChanged | agent-control/src/k8s/dynamic_object.rs:119-129 | writes exactly if the object has changed |

## Left out

- OpAMP, HTTP, OCI and Kubernetes clients, reflectors and the asynchronous runtime: only the success or failure of a call is modelled; the reflector's cache is taken to be up to date.
- YAML and JSON parsing and printing: decoders are parameters; that the stored YAML reads back as written is an assumption of `RestartIsNoWorse`.
- The regular expression engine: placeholders are read by a hand-written automaton, whose spaces and digits are the ASCII ones.
- In module Templates the pipe functions of placeholders are a parameter; PipeFunctions has those of the code. Templating of JSON objects and arrays, and of strings that are one whole placeholder: would only add easy members.
- Flattening of the variable tree into dotted names.
- Signature verification, base64 and key fetching; base64 is any function.
- Health checks, uptime reports, logging, the version updater's internals, the command line and Windows services.
- Sub-agent status reports are taken to be sent: the code ignores errors of the OpAMP client there. For Agent Control, where they end the handling, they are modelled.
- The text of errors that a collaborator renders is a parameter.
- File system calls are atomic except for copies, which pass through an arbitrary partial destination. Symbolic links and directories are not modelled.
- `DynamicObjectManagers::get_or_create` and other concurrency between threads: handlers run one at a time, as in the source's event loops.
- Templates.LoopIsSimultaneous: for given values, inertness is sufficient and not necessary for equal texts; a value that is a later placeholder does no harm if that one renders to itself. The condition that is exact is on the template, for all values: `ImmuneExactly`.
- TemplateImmunity.ImmuneExactly: leaves open the templates in which every placeholder after the first has a line break inside its braces and something is indented; there `indent` breaks up a placeholder in a value, and whether the plain text restores one is not characterised.
- AgentControlSpec.FleetConverges: assumes that each delivery is rejected or fully applied; `ConvergenceExact` says what else keeps convergence.
