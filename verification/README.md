# Verified model of the control plane

A panel drives Machine Agents over a link that can fail at any moment. This project models how the
two sides keep their promises through crashes, retries, races and ownership conflicts, and proves
it in Dafny, together with the data structures and transformations the panel relies on.

`dafny verify dfyconfig.toml` checks everything.

| part | files |
|---|---|
| files that survive crashes | `AtomicFile`, `OwnershipFile` |
| durable idempotent commands | `CommandStore`, `Executor`, `ExecutorRuns` |
| enrollment, panel and host | `EnrollmentPanel`, `EnrollmentAgent`, `EnrollmentProtocol` |
| container instances | `Patterns`, `Docker`, `Instances`, `InstanceReconcile`, `InstanceLifecycle`, `InstanceRuns` |
| port planning and provisioning | `PortPlan`, `DnsPlan`, `Provisioning` |
| ownership of WARP and Docker | `WarpOwnership`, `WarpRuns`, `DockerOwnership` |
| last-known-good configuration | `LastGoodConfig`, `LastGoodRuns` |
| control sessions | `Gateway` |
| hashed set, inbound sync | `HashedSets`, `InboundSync` |
| JSON transformations | `Json`, `LocalizedTexts`, `ManagedConfig` |
| Redis caches | `RawCache`, `NodesCache` |

How to read it. An object whose methods change it in place is a class; each method is proved
against a function or a predicate over the old and the new state. What holds over whole runs is
proved either as a lemma about a state machine whose steps interleave and include crashes, or by a
method `Serve` (or `ReadMany`) that makes any number of calls, one after the other. The control
client can run commands of overlapping sessions at the same time; the machines of `ExecutorRuns`,
`InstanceRuns`, `WarpRuns` and `LastGoodRuns` cover that. What is said of the Docker record is for
handlers that do not overlap.

Files, Docker, systemd, DNS, Redis, the database and the clock are state or parameters: a numbered
list of replies says what each command meets, including errors and the death of the process inside
it. Hash functions, the file-name hash among them, are arbitrary functions; no property assumes that
they are injective.

## What turned out different from expectation

- Overlapping sessions can run a handler twice for one key (`OverlapRunsTwice`). The results still
  agree, the number of runs obeys a conservation law, and the bound on it holds exactly as long as
  the handler is not started while an earlier run of it is unsettled (`OneExtraRunExactly`).
- The handler that repairs WARP ignores the error of its second read of the ownership record and
  then writes one without the adoption. The provenance is kept exactly when that read succeeds
  (`AdoptionKeptExactly`, `TakeOverThenRepair`).
- An ownership record is created in place. A crash inside the creation, or a failed clean-up after
  an error, leaves a torn file that no later call replaces (`OnlyTheLastContentIsTorn`).
- When a takeover overlaps a repair, a failing sync makes it remove a record the repair already works
  under, so the repair acts without any (`OverlapActsUnguarded`). The guard holds exactly in the runs
  where nobody acts after such a clean-up (`GuardedExactly`). A claim can also replace a record made
  after it looked (`ClaimReplacesExactly`), and a repair can write an adoption it read from a takeover
  that failed later (`StaleReadingReplacesAdoption`); under overlap the adoption stays exactly when
  nothing of the kind happens (`WarpRuns.AdoptionKeptExactly`).
- Isolation of instances can fail when executions overlap, because container names keep only part of
  the UUID: an overtaken stop stops another instance's container (`OverlapBreaksIsolation`). It holds
  in a run if and only if no execution acts after having been overtaken (`IsolatedExactly`), so in
  every run without a collision of names (`OwnNamesAreIsolated`) and in every run without
  interference under the execution's name (`UndisturbedIsIsolated`).
- An enrollment attempt that lost its token to another exchange can never succeed with that token
  (`AnotherWinnerIsFinal`), but it stays on the host's disk, and under another token the very same
  attempt succeeds (`FreshTokenInstalls`).
- Overlapping applies of a configuration can both report success and leave the node with one body
  and the file with the other, and a reported rollback can leave them apart as well
  (`OverlapStoresAnother`, `OverlapRollsBackBehind`, with their exact conditions `AppliedExactly` and
  `RolledBackExactly`). What is stored was acknowledged in every case (`StoredIsAcknowledged`).
- The gateway never stops the hello timer when the hello is accepted, only when the socket closes.
  So every session is told to close fifteen seconds after its start, greeted or not
  (`HelloTimerClosesEverySocket`, `GreetedSocketIsToldToClose`, `ClosingExactly`).
- A message whose follow-up work fails has had its effect when its socket is closed
  (`RefusedOrOneEffect`).
- The fallback ports forwarded to an instance are always empty, so the retry after a lost bind race
  never happens on that path (`ForwardedPortsAreAccepted`, `ReconcileForwarded`).
- `fastEquals` is complete but not sound (`EqualSetsAreFastEqual`, `FastEqualsIsNotEquality`).
- A sync that deletes or creates rows updates none, so one run is not enough in general
  (`OneRunSuffices`).
- Cleaning can hide issues: a text with none of the active locales is emptied, and the validator
  does not look at an empty object (`CleaningAddsNoIssues`).
- `getMany` and `getOne` disagree on stored falsy JSON (`ManyIsOne`, `StoredNullTellsThemApart`).

## Model

| member | source | states |
|---|---|---|
| `CommandStore.FileStore.Get` | apps/machine-agent/internal/state/store.go:52-56 | reads the record filed under the hash of the key: the key's own entry, nothing, or an error; never another key's entry |
| `CommandStore.FileStore.Put` | apps/machine-agent/internal/state/store.go:58-102 | write once: an existing record is answered and kept, a free name gets exactly one new entry, and every fault before the rename leaves all entries as they were |
| `AtomicFile.Replace` | apps/machine-agent/internal/nodeconfig/apply.go:215-238 | temporary file, sync and rename, with an error or the death of the process at any system call: at every moment the final name holds its whole old content or the whole new one, and no other final name changes; the shared core of the command store, the configuration file and the ownership records |
| `AtomicFile.CreateExclusively` | apps/machine-agent/internal/dependency/reconcile.go:276-307 | exclusive creation in place: an existing file is refused and kept; what is left under a free name after every error, failed clean-up and process death, torn prefixes included |
| `AtomicFile.CreationLeaves` | apps/machine-agent/internal/dependency/reconcile.go:276-307 | what each fault of an exclusive creation leaves under the name and answers, stage by stage, clean-ups that fail included |
| `CommandStore.FileStore.Write` | apps/machine-agent/internal/state/store.go:76-101 | one record is filed under its name, whole, or nothing changes, wherever the write is cut off; the records under other names stay |
| `CommandStore.LookupReadsTheMap` | apps/machine-agent/internal/state/store.go:104-125 | refinement: a lookup answers exactly as the map from keys to results does, and errs exactly when the name is taken by another key; the hash is arbitrary |
| `CommandStore.FilingAddsOneEntry` | apps/machine-agent/internal/state/store.go:58-102 | filing under a free name adds that entry to the map and changes no other |
| `CommandStore.FilingKeepsFound` | apps/machine-agent/internal/state/store.go:58-102 | a stored entry is never changed by storing another key |
| `CommandStore.CollisionIsRefused` | apps/machine-agent/internal/state/store.go:104-120 | a key whose file name is taken by another key can be neither read nor stored, and nothing is overwritten |
| `Executor.Executor.Execute` | apps/machine-agent/internal/executor/executor.go:61-120 | the whole call: an invalid command and an unreadable store are refused without effect; the first call of a key stores and answers SUCCEEDED with the payload exactly when a handler returned one, UNSUPPORTED exactly when there is none, and FAILED with the classified code otherwise; a later one answers the stored record; a process death is allowed inside the write |
| `Executor.CallAnswers` | apps/machine-agent/internal/executor/executor.go:61-120 | what a first call answers, over the command and what the handler did and without the functions that compute it: SUCCEEDED if and only if the kind has a handler that returned an encodable payload, and then with that payload, no error and the command's identifiers; UNSUPPORTED if and only if there is no handler; every FAILED with its code |
| `Executor.ValidationRefuses` | apps/machine-agent/internal/protocol/protocol.go:160-178 | a command is refused if and only if an identifier or the kind is, the deadline has passed or the payload is empty |
| `Executor.IdentifiersGrow` | apps/machine-agent/internal/protocol/protocol.go:50 | identifiers character by character: one to 128 letters, digits and, past the first place, four marks |
| `Executor.ErrorCodesGrow` | apps/machine-agent/internal/executor/executor.go:18-30 | error codes character by character: three to 64 capitals, digits and underscores after a capital |
| `Executor.KnownKindsAre` | apps/machine-agent/internal/protocol/protocol.go:179-205 | the seventeen kinds of commands |
| `Executor.SafeMessageMeans` | apps/machine-agent/internal/executor/executor.go:144-150 | a text without NUL stays as it is up to 16384 bytes and is cut there and marked when longer |
| `Executor.WithoutNulSplits` | apps/machine-agent/internal/executor/executor.go:144-146 | every character but NUL is kept, in order |
| `Executor.Executor.Persist` | apps/machine-agent/internal/executor/executor.go:122-131 | a result that cannot be stored is replaced by STATE_WRITE_FAILED, a concurrent winner's result is returned instead of the own one |
| `Executor.SafeMessageIsIdempotent` | apps/machine-agent/internal/executor/executor.go:133-150 | sanitising an error text twice is sanitising it once |
| `Executor.FailuresAreClassified` | apps/machine-agent/internal/executor/executor.go:92-107 | a handler's failure is classified by the code of a typed error, else as a timeout once the deadline has passed, else by the code a message `CODE: detail` begins with, whatever the detail, else as COMMAND_FAILED |
| `Executor.ReportedResultIsStored` | apps/machine-agent/internal/executor/executor.go:61-131 | every result other than INVALID_COMMAND and STATE_READ/WRITE_FAILED is the record the key holds from then on |
| `Executor.RetryReplays` | apps/machine-agent/internal/executor/executor.go:61-131 | after a stored result, even one whose process died before answering, a later valid call under the key returns that record, runs no handler and changes nothing |
| `Executor.CallRunsOnlyOnAbsentKeys` | apps/machine-agent/internal/executor/executor.go:61-131 | a handler runs only for a key without a record; existing entries stay and at most one entry, of this key, is added |
| `ExecutorRuns.Agreement` | apps/machine-agent/internal/control/client.go:179-196 | over every interleaving of any number of overlapping sessions with crashes and restarts: all results returned for a key, but the executor's own failures, are equal and equal to the record on disk |
| `ExecutorRuns.RecordsNeverChange` | apps/machine-agent/internal/state/store.go:58-102 | a stored record survives every later step of every run |
| `ExecutorRuns.RunsAreConserved` | apps/machine-agent/internal/executor/executor.go:61-131 | conservation: every started handler run of a key is in progress, lost in a crash, failed to be stored, was outrun by a stored record, or is the one stored; at most one is stored |
| `ExecutorRuns.AtMostOneExtraRun` | apps/machine-agent/internal/executor/executor.go:61-131 | without overlapping executions of the key its handler runs at most once more than its crashes plus failed writes |
| `ExecutorRuns.OneExtraRunExactly` | apps/machine-agent/internal/executor/executor.go:61-131 | the guard: that bound holds after every step of a run if and only if the key's handler is never started while a run of it is in progress, was outrun or is stored |
| `ExecutorRuns.OverlapRunsTwice` | apps/machine-agent/internal/control/client.go:87-142 | with two overlapping sessions that bound fails: a run exists in which the handler is started twice and nothing crashed or failed |
| `ExecutorRuns.AloneItIsTheCall` | apps/machine-agent/internal/executor/executor.go:61-120 | refinement: the steps of one loop running alone do what the sequential call does, on the disk, in the answer with its error text, and in the number of runs |
| `EnrollmentPanel.EnrollmentService.ConsumeEnrollmentToken` | apps/backend/src/modules/machines/repositories/machines.repository.ts:929-964 | one conditional update: it succeeds exactly on an unused, unexpired token of a live machine and then records the exchange and its response |
| `EnrollmentPanel.EnrollmentService.Enroll` | apps/backend/src/modules/machines/machines.service.ts:129-210 | whatever the row becomes during the awaits, success means the one grant of the token for exactly this exchange with exactly the granted response; the loser of a race gets the winner's response or a refusal; every branch's outcome and final row |
| `EnrollmentPanel.ReplayIsTheWinners` | apps/backend/src/modules/machines/machines.service.ts:579-598 | the replay answers if and only if the exchange is the winning one, inside its window and before it was cleared, and then with the winner's response |
| `EnrollmentPanel.ReplayWindow` | apps/backend/src/modules/machines/machines.service.ts:172-191 | from the consumption on: the exchange that consumed the token at `now` gets the granted response if and only if it comes before `now` + 1,800,000 ms, and every other exchange gets nothing |
| `EnrollmentPanel.FreshToken` | apps/backend/src/modules/machines/repositories/machines.repository.ts:929-964 | an unused token of a live machine is admitted and consumed before it expires and not from that moment on; a used, archived, unissued or other one never is |
| `EnrollmentPanel.ChangesEvolve` | apps/backend/src/modules/machines/repositories/machines.repository.ts:929-1013 | consuming, clearing the replay and archiving keep the row consistent with the one grant |
| `EnrollmentAgent.Commit` | apps/machine-agent/internal/enrollment/enrollment.go:205-254 | a directory is filled file by file under a staging name and renamed: at every moment the target is as it was or appears with all its files, an existing target is never replaced, wherever it stops |
| `EnrollmentAgent.AgentHost.LoadOrCreatePending` | apps/machine-agent/internal/enrollment/enrollment.go:205-254 | a pending attempt on disk is reused, and refused when it cannot be read back; only when there is none a new one is committed, all its files at once or none |
| `EnrollmentAgent.AgentHost.Install` | apps/machine-agent/internal/enrollment/enrollment.go:382-425 | the credential directory appears with all its files by one rename or not at all, and never over existing credentials |
| `EnrollmentAgent.AgentHost.CredentialsAre` | apps/machine-agent/internal/enrollment/enrollment.go:395-425 | the credential directory holds certificate, key, CA certificate and environment, each under its file name, and nothing else |
| `EnrollmentAgent.AgentHost.PendingReadsBack` | apps/machine-agent/internal/enrollment/enrollment.go:236-300 | the three files of a pending attempt are read back as that attempt when its CSR is for its key and its name is a UUID, and an attempt whose CSR is for another key is never read |
| `EnrollmentAgent.AgentHost.Enroll` | apps/machine-agent/internal/enrollment/enrollment.go:87-175 | existing credentials are never touched; the attempt stays on disk, readable, until a response certifying its key is installed, so that a rerun repeats the same exchange; the directories after a stop at every place |
| `EnrollmentProtocol.OneCertificatePerToken` | apps/backend/src/modules/machines/machines.service.ts:129-210 | over all runs with any number of machines, concurrent requests, replaced tokens, host crashes and retries: all successful answers for one token are one grant, given to one (attempt, CSR) pair, and certify that CSR's key |
| `EnrollmentProtocol.InstalledIsTheGrant` | apps/machine-agent/internal/enrollment/enrollment.go:87-175 | end to end: what the host installs is the panel's one grant for the token the host was given, belongs to an attempt it had committed to disk, and certifies the key of that attempt |
| `EnrollmentProtocol.InstalledForGood` | apps/machine-agent/internal/enrollment/enrollment.go:427-436 | installed credentials, the token they came by and the panel's grants never change, whatever steps follow |
| `EnrollmentProtocol.LostAnswerIsRecovered` | apps/machine-agent/internal/enrollment/enrollment.go:87-175 | when the answer was lost, over the whole run from the step that consumed the token: repeating the attempt on disk with that token installs the granted certificate if and only if the row was not cleared, archived or given another token since, less than 1,800,000 ms have passed since the consumption, the host trusts the response and the certificate is for its key; a certificate for the host's own CSR always is |
| `EnrollmentProtocol.TokensOpenAndClose` | apps/backend/src/modules/machines/repositories/machines.repository.ts:929-964 | a created token is admitted and consumed until it expires; a replaced one is neither, and is not replayed |
| `EnrollmentProtocol.WindowIs` | apps/backend/src/modules/machines/machines.service.ts:172-191 | over all runs: as long as the row was not cleared, archived or given another token after the step that consumed it, the row's window ends 1,800,000 ms after that step |
| `EnrollmentProtocol.AnotherWinnerIsFinal` | apps/backend/src/modules/machines/machines.service.ts:579-598 | when another exchange has consumed a token, no later step ever gives the host credentials by that token, and its losing attempt stays on disk until another token gives it credentials |
| `EnrollmentProtocol.FreshTokenInstalls` | apps/machine-agent/internal/enrollment/enrollment.go:87-175 | the attempt on disk names no token: under an unused, unexpired token of a live machine the same attempt, whatever tokens it has lost, is granted and, if the host trusts the response, installed and cleaned up |
| `Docker.Daemon.EnsureManagedNetwork` | apps/machine-agent/internal/instance/ownership.go:38-64 | creates the managed network only when it is absent; a network with other labels is left alone and is an error |
| `Docker.OwnedByMeans` | apps/machine-agent/internal/instance/ownership.go:20-36 | a container is owned exactly when all three of managed label, machine label and instance label fit |
| `Docker.OutcomesTell` | apps/machine-agent/internal/instance/reconcile.go:147-186 | what each command answers, from what is there and what Docker says: whether it worked, was in the wanted state already, found nothing, or failed, and when that is a bind conflict |
| `Docker.CommandsWork` | apps/machine-agent/internal/instance/reconcile.go:153-186 | what a command that works leaves: the container started, stopped, gone or there as it was to be created, and every other as before |
| `Docker.CommandsRefused` | apps/machine-agent/internal/instance/reconcile.go:153-186 | nothing is started, stopped or removed that is not there, no name is created twice, and no running container is removed |
| `Docker.ErrorsChangeNothing` | apps/machine-agent/internal/instance/reconcile.go:153-186 | a command that fails changes no container, except that a failed creation can leave one that does not run |
| `Instances.NamesCollide` | apps/machine-agent/internal/instance/reconcile.go:103 | container names keep only the first three groups of the UUID, so instances that share them share the name |
| `Instances.EveryInstanceHasANamesake` | apps/machine-agent/internal/instance/reconcile.go:103 | every instance shares its container name with another possible instance |
| `Instances.ContainerNameIs` | apps/machine-agent/internal/instance/reconcile.go:103 | the name is a prefix and the first sixteen digits of the UUID without its dashes |
| `Instances.SameDesired` | apps/machine-agent/internal/instance/reconcile.go:413-422 | two requests have one desired state, and so one hash input, if and only if they agree in everything but the fallback ports |
| `InstanceReconcile.Validate` | apps/machine-agent/internal/instance/reconcile.go:270-315 | accepts exactly the requests within the documented limits |
| `InstanceReconcile.PortsAre` | apps/machine-agent/internal/instance/reconcile.go:270-315 | the accepted ports in numbers: none is 0 or 2222 to 2224, none comes twice, at most fifteen to fall back to |
| `InstanceReconcile.ImagesAre` | apps/machine-agent/internal/instance/reconcile.go:27-28 | an image is pinned by the sixty-four lower-case hexadecimal digits of its digest |
| `InstanceReconcile.SecretsAre` | apps/machine-agent/internal/instance/reconcile.go:311-314 | a secret has 100 to 262144 characters of the base64 alphabets |
| `InstanceReconcile.SelectExternalPort` | apps/machine-agent/internal/instance/reconcile.go:213-236 | the first port of the list that is free and not excluded; none only when there is none |
| `InstanceReconcile.Handler.InspectOwned` | apps/machine-agent/internal/instance/ownership.go:20-36 | succeeds exactly when there is no container under the name or it carries this machine's and this instance's labels |
| `InstanceReconcile.Handler.RemoveFailedOwned` | apps/machine-agent/internal/instance/reconcile.go:246-258 | removes what a failed creation left, only when it is its own |
| `InstanceReconcile.Handler.UpdateExisting` | apps/machine-agent/internal/instance/reconcile.go:147-166 | own container with the desired hash: started only; with another hash: stopped, removed and created anew, and then image, external port, control port, network and hash of the container are those requested |
| `InstanceReconcile.Handler.Replace` | apps/machine-agent/internal/instance/reconcile.go:153-166 | stops, removes and creates the container anew with the image, ports, network and hash of the request; a failed removal ends it without a creation |
| `InstanceReconcile.Handler.CreateNew` | apps/machine-agent/internal/instance/reconcile.go:160-185 | one creation; only a bind conflict is followed by clearing and one more creation, on a fallback port other than the first, the first free one; the created container publishes the selected port |
| `InstanceReconcile.Handler.Execute` | apps/machine-agent/internal/instance/reconcile.go:92-186 | isolation is kept and no other container changes; a foreign container under the name stops it before any action; success leaves one running own container that, when it was created, has the request's image, network and control port and publishes exactly the reported port, with the hash of that desired state, after the files, network and image were prepared; on a working host it succeeds; its Docker commands are an execution of the machine of `InstanceRuns`, run to its end |
| `InstanceReconcile.AtMostTwoCreations` | apps/machine-agent/internal/instance/reconcile.go:147-185 | one command creates at most two containers, at most one when a container was there |
| `InstanceReconcile.ReconcileAgain` | apps/machine-agent/internal/instance/reconcile.go:92-186 | convergence: asking again for the reported port, with any fallback list, stops, removes and creates nothing and reports the same port and hash |
| `InstanceLifecycle.LifecycleHandler.Execute` | apps/machine-agent/internal/instance/lifecycle.go:27-65 | starts or stops only the instance's own container; a missing one, or one Docker says is not running, counts as stopped; a foreign one is an error without any action; its Docker commands are an execution of the machine of `InstanceRuns`, run to its end |
| `InstanceLifecycle.Serve` | apps/machine-agent/internal/instance/lifecycle.go:41-64 | isolation for commands one after the other: no sequence of reconcile and lifecycle commands for any instances, with the host's containers changed at will between two commands, starts, stops or removes a container that is not exactly this machine's and this instance's |
| `Patterns.UuidPlaces` | apps/machine-agent/internal/instance/reconcile.go:26 | a UUID place by place: what each of the thirty-six characters can be changed to |
| `Patterns.ProtocolsDiffer` | apps/machine-agent/internal/instance/reconcile.go:270-315 | three protocols, each with its own control port 2222 to 2224 and its network |
| `InstanceRuns.ForeignMeansOvertaken` | apps/machine-agent/internal/instance/ownership.go:20-36 | over every interleaving of any executions, crashes and outside changes: an execution past its inspection stands before a foreign container if and only if since that inspection the last one to put a container under its name was somebody else, with other labels, and nobody has taken it away |
| `InstanceRuns.IsolatedExactly` | apps/machine-agent/internal/control/client.go:87-196 | over every interleaving: isolation holds if and only if no execution starts, stops or removes after having been overtaken; both sides of the condition are read off the schedule |
| `InstanceRuns.UndisturbedIsIsolated` | apps/machine-agent/internal/instance/reconcile.go:246-258 | isolation holds for all interleavings in which nobody else puts a container under an execution's name between its last successful inspection and its action; overlap under other names is allowed |
| `InstanceRuns.OwnNamesAreIsolated` | apps/machine-agent/internal/instance/reconcile.go:103 | however executions overlap, isolation holds as long as handled instances do not share container names and nobody else uses those names |
| `InstanceRuns.OverlapBreaksIsolation` | apps/machine-agent/internal/instance/lifecycle.go:41-64 | with a shared name and overlap it fails without any crash or error: a run of the machine in which a stop that has inspected is overtaken by a replacement and by the namesake's first reconcile, and stops the namesake's container |
| `InstanceRuns.AloneIsARun` | apps/machine-agent/internal/control/client.go:179-196 | refinement: the steps of one execution with nothing in between are the commands of its handler |
| `PortPlan.ValidateRequest` | apps/machine-agent/internal/discovery/plan.go:153-205 | accepts exactly the valid requests |
| `PortPlan.ValidRequestsAre` | apps/machine-agent/internal/discovery/plan.go:153-205 | the limits in numbers: one to three different protocols, one to sixteen different candidates, domain and address both given or neither and at most 253 long |
| `PortPlan.Plan` | apps/machine-agent/internal/discovery/plan.go:93-151 | no plan and no probe for an invalid request, otherwise one plan per protocol in order, each with the ports of the earlier ones reserved; every probe is a new one and may differ from earlier ones |
| `PortPlan.AttemptsAreFirstFit` | apps/machine-agent/internal/discovery/plan.go:93-151 | the attempts are a prefix of the candidates, each but the last unavailable, unavailable exactly when reserved or found occupied by their own probe, ending early only at the selected port |
| `PortPlan.AttemptTells` | apps/machine-agent/internal/discovery/plan.go:122-142 | each attempt tells that its port is reserved, or exactly what the probe said whose turn it was |
| `PortPlan.MomentMeans` | apps/machine-agent/internal/discovery/plan.go:122-142 | a candidate's probe is the one that follows as many probes as there are earlier candidates that are not reserved |
| `PortPlan.EachIsPlannedAfterTheEarlier` | apps/machine-agent/internal/discovery/plan.go:93-151 | every protocol is planned as if alone on a host where the earlier protocols hold their ports, from the moment on at which its turn comes |
| `PortPlan.PlansCompose` | apps/machine-agent/internal/discovery/plan.go:93-151 | planning two lists of protocols together is planning the first and then, from the moment it leaves, the second |
| `PortPlan.PlanIsFirstFit` | apps/machine-agent/internal/discovery/plan.go:93-151 | exact first fit on a host that changes between probes: READY if and only if the checks pass and some candidate is unreserved and found free when its turn comes, and then at the first such candidate |
| `PortPlan.BlockedSaysWhy` | apps/machine-agent/internal/discovery/plan.go:107-145 | the error code is that of the first step that failed, none exactly for READY, and a blocked protocol holds no port |
| `PortPlan.ReadyPortsDiffer` | apps/machine-agent/internal/discovery/plan.go:93-151 | READY protocols have pairwise different (network, port) |
| `PortPlan.PrefixPlansAlike` | apps/machine-agent/internal/discovery/plan.go:93-151 | planning a prefix of the protocols gives a prefix of the plan |
| `DnsPlan.ResolveAddresses` | apps/machine-agent/internal/discovery/facts.go:131-149 | the addresses of a literal or of a lookup; entries without an address do not count |
| `DnsPlan.ProtocolDnsCheck` | apps/machine-agent/internal/discovery/facts.go:107-129 | passes exactly when some address is one of the domain and one of the machine; DNS_LOOKUP_FAILED exactly when one of the two names has no address; DNS_ADDRESS_MISMATCH exactly when both have some and share none |
| `DnsPlan.PlanWithDns` | apps/machine-agent/internal/discovery/facts.go:36-105 | never fails on a valid request; a protocol with a domain is blocked by DNS in exactly the two cases of the domain check; one that is not has its place in the joint plan of the eligible ones, which are probed first, with the check appended; a blocked one is planned alone afterwards |
| `DnsPlan.VerdictTells` | apps/machine-agent/internal/discovery/facts.go:107-129 | the verdict on the resolver's own answers: who resolves, and whether an address is shared |
| `DnsPlan.MessagesTell` | apps/machine-agent/internal/discovery/facts.go:107-129 | which of the two names does not resolve, the domain being looked up first |
| `DnsPlan.EntryTells` | apps/machine-agent/internal/discovery/facts.go:36-105 | each entry on the resolver's own answers: blocked by DNS with its code and without a port, or the joint plan's entry with the passed check at its end |
| `DnsPlan.OrderKeptAndFailuresBlocked` | apps/machine-agent/internal/discovery/facts.go:36-105 | request order is kept and no protocol with a failed domain check is READY or holds a port |
| `DnsPlan.DnsFailureCostsNothing` | apps/machine-agent/internal/discovery/facts.go:36-105 | non-interference although every probe may answer differently: with a DNS-failed protocol taken out of the request every eligible protocol has the same plan, and so has every failed one before it; a later failed one is blocked with the same code |
| `Provisioning.ForwardedPortsAreAccepted` | apps/backend/src/modules/machines/machines.service.ts:293-319 | across components: every forwarded port passes the port checks of the instance handler, and the forwarded fallback list is always empty |
| `Provisioning.ReconcileForwarded` | apps/backend/src/modules/machines/machines.service.ts:293-319 | consequently the instance handler creates at most one container on this path and can only ever report the planned port; a lost bind race is final |
| `Provisioning.ForwardedExactly` | apps/backend/src/modules/machines/machines.service.ts:290-308 | a requested protocol is forwarded if and only if the last plan for it is READY, with a port, on the protocol's network |
| `Provisioning.ForwardsOne` | apps/backend/src/modules/machines/machines.service.ts:303-318 | it is forwarded with the selected port and the other ports the plan saw free |
| `Provisioning.ForwardSplits` | apps/backend/src/modules/machines/machines.service.ts:293-319 | the protocols are forwarded one by one and in the order of the request |
| `WarpOwnership.Host.CreateOwnership` | apps/machine-agent/internal/warp/takeover.go:104-135 | exclusive creation filled in place: a crash, or a write error whose clean-up fails too, can leave a torn record; otherwise an error leaves none |
| `WarpOwnership.Host.WriteOwnership` | apps/machine-agent/internal/warp/reconcile.go:308-324 | replacement by rename: at every system call, and so wherever the process dies, the record on disk reads as the old one or the new one |
| `WarpOwnership.Host.TakeOver` | apps/machine-agent/internal/warp/takeover.go:42-102 | runs no command; a record of another machine or a torn one is refused and kept; an own ADOPTED or MANAGED record is answered as owned, a missing one is created as ADOPTED; the outcome of every case, a lost creation included |
| `WarpOwnership.Host.Claim` | apps/machine-agent/internal/warp/reconcile.go:104-124 | succeeds only under an own record; writes one only where WARP and the record are absent |
| `WarpOwnership.Host.AwaitConnected` | apps/machine-agent/internal/warp/reconcile.go:147-162 | at most fifteen status queries; success only when the last output says connected, which after the fifteenth query counts even if that query failed; its answer is the one its replies give |
| `WarpOwnership.Host.QueriesMean` | apps/machine-agent/internal/warp/reconcile.go:147-162 | the queries go on exactly until one says connected, is cancelled or kills the process, at most fifteen, and which of them decides |
| `WarpOwnership.Host.InstallOrRepair` | apps/machine-agent/internal/warp/reconcile.go:69-184 | on success every setup command ran in order and the record is MANAGED with the adoption that was re-read; nothing happens under a foreign or torn record; otherwise the outcome is that of the first reply or write that does not succeed, and done when there is none |
| `WarpOwnership.Host.PreparationMeans` | apps/machine-agent/internal/warp/reconcile.go:125-135 | which replies let the installation, the service and the registration succeed: five packages' commands when WARP is missing, a new registration only when none shows |
| `WarpOwnership.Host.SettingsMean` | apps/machine-agent/internal/warp/reconcile.go:136-165 | which replies let the settings succeed: four of them, the wait for the connection, the stored request |
| `WarpOwnership.Host.ReuseExternal` | apps/machine-agent/internal/warp/reconcile.go:80-92 | a compatible external WARP is looked at by four queries and answered as external, exactly when all of them succeed and it fits; it is never changed |
| `WarpOwnership.Host.Execute` | apps/machine-agent/internal/warp/reconcile.go:69-184 | REUSE_EXTERNAL changes nothing on the host and succeeds exactly on a compatible WARP; under a foreign or torn record no mutating command is issued; a claim, installation or repair ends as the replies and writes it meets decide; success on a working host |
| `WarpOwnership.MachineNeverChanges` | apps/machine-agent/internal/warp/reconcile.go:69-184 | over every sequence of calls of all handlers with crashes anywhere: a complete record keeps its machine for good and every later content is MANAGED |
| `WarpOwnership.OnlyTheLastContentIsTorn` | apps/machine-agent/internal/warp/takeover.go:104-135 | a torn record is never replaced by a later call |
| `WarpOwnership.AdoptionKeptExactly` | apps/machine-agent/internal/warp/reconcile.go:166-175 | adoption provenance is kept if and only if every later write of the record followed a successful read of it |
| `WarpOwnership.AdoptionNeverReturns` | apps/machine-agent/internal/warp/reconcile.go:166-175 | an adoption is never invented or altered, at most lost |
| `WarpOwnership.TakeOverThenRepair` | apps/machine-agent/internal/warp/reconcile.go:166-175 | a repair of an adopted WARP that reports success keeps the adoption exactly when its re-read of the record succeeded; that read's error is ignored by the handler |
| `WarpOwnership.Serve` | apps/machine-agent/internal/warp/reconcile.go:69-184 | over any sequence of calls, one after the other, by any machine identities every mutating command is preceded by an on-disk record naming its machine, and the record moves only from absent to INSTALLING or ADOPTED to MANAGED |
| `WarpRuns.GuardedExactly` | apps/machine-agent/internal/control/client.go:87-196 | over every interleaving of repairs and takeovers, system call by system call: every mutating command is issued under an own on-disk record if and only if none is issued after a clean-up has removed the record and before an own one is there again |
| `WarpRuns.GuardedWithoutCleanUp` | apps/machine-agent/internal/warp/reconcile.go:69-184 | however repairs and takeovers overlap, the guard holds as long as no failed creation cleans up |
| `WarpRuns.OverlapActsUnguarded` | apps/machine-agent/internal/warp/takeover.go:121-134 | a run in which a repair finds the record of a takeover whose sync then fails: the takeover removes the record, and the repair acts without any |
| `WarpRuns.ForeignStays` | apps/machine-agent/internal/warp/reconcile.go:104-124 | a torn record, or another machine's, is never changed and no command is issued, whatever overlaps |
| `WarpRuns.ClaimReplacesExactly` | apps/machine-agent/internal/warp/reconcile.go:111-124 | a claim replaces a complete record, and its adoption, if and only if somebody has put that record there since the claiming repair looked |
| `WarpRuns.AdoptionKeptExactly` | apps/machine-agent/internal/warp/reconcile.go:166-175 | under overlap too, from any moment at which the record has an adoption on: it stays for good if and only if no clean-up and no claim lands after it and every repair that writes its final record knows that adoption, because it has read the record again successfully since or had read that same adoption before |
| `WarpRuns.StaleReadingReplacesAdoption` | apps/machine-agent/internal/warp/reconcile.go:166-175 | a run in which a repair whose second reading succeeded replaces an adoption by an older one: it read the record of a takeover that then failed, and writes after another takeover |
| `WarpRuns.RepairAlone` | apps/machine-agent/internal/warp/reconcile.go:69-184 | with nothing in between, a repair leaves only records that the sequential handler's contract allows, at every point where it may stop |
| `DockerOwnership.Host.Repair` | apps/machine-agent/internal/dependency/reconcile.go:79-95 | a Docker that does not answer is repaired only under an own record, with one command; the repair is done if and only if enabling, the version query and the record succeed, else the first of them that does not decides |
| `DockerOwnership.Host.Claim` | apps/machine-agent/internal/dependency/reconcile.go:110-130 | a host without Docker is claimed only when no trace of Docker and no record is there |
| `DockerOwnership.Host.Install` | apps/machine-agent/internal/dependency/reconcile.go:97-155 | installs only under an own record, with exactly update, install and enable, and then marks it MANAGED; the first reply or write that does not succeed decides |
| `DockerOwnership.Host.Execute` | apps/machine-agent/internal/dependency/reconcile.go:55-156 | a working Docker is reused untouched, REUSED_MANAGED exactly under an own readable record; a broken one under an own record is repaired, and a missing one installed, with the outcome that the replies and writes met give; what each status means for record and commands |
| `DockerOwnership.MachineNeverChanges` | apps/machine-agent/internal/dependency/reconcile.go:55-156 | a complete record keeps its machine, and every later content is MANAGED |
| `DockerOwnership.OnlyTheLastContentIsTorn` | apps/machine-agent/internal/dependency/reconcile.go:276-307 | a record torn in its creation, by a crash or by a failed clean-up, is never replaced by a later call |
| `DockerOwnership.Host.WriteManaged` | apps/machine-agent/internal/dependency/reconcile.go:231-274 | marking the record MANAGED by rename: at every system call the record on disk reads as the old one or the new one |
| `DockerOwnership.Serve` | apps/machine-agent/internal/dependency/reconcile.go:55-156 | over any sequence of calls, one after the other, by any machine identities every mutating command is preceded by an on-disk record naming its machine |
| `OwnershipFile.InTurnMeans` | apps/machine-agent/internal/dependency/reconcile.go:55-156 | the first thing met that does not succeed decides, and all succeed when there is none |
| `LastGoodConfig.ConfigHandler.PostConfigWithRetry` | apps/machine-agent/internal/nodeconfig/apply.go:128-160 | at most twelve posts of the body, retried only after request errors, accepted exactly on a readable 2xx answer within the limit; how it ends is what its replies give |
| `LastGoodConfig.PostsMean` | apps/machine-agent/internal/nodeconfig/apply.go:128-160 | in numbers: the posts go on while requests fail uncancelled, twelve at most; accepted if and only if the last answer has a status of 200 to 299 and at most 1048576 readable bytes |
| `LastGoodConfig.LastAcknowledgedMeans` | apps/machine-agent/internal/nodeconfig/apply.go:147-150 | the last acknowledged body is that of the last post answered with 200 to 299, or there is none |
| `LastGoodConfig.ConfigHandler.AtomicWrite` | apps/machine-agent/internal/nodeconfig/apply.go:215-238 | at every system call, and so wherever the process dies, the stored configuration is the whole old one or the whole new one |
| `LastGoodConfig.ConfigHandler.Execute` | apps/machine-agent/internal/nodeconfig/apply.go:105-126 | every post, outcome and stored byte: what is posted first and what is put back, when something can be put back, and what is stored; ROLLED_BACK implies that the last acknowledged body is exactly the unchanged stored one |
| `LastGoodConfig.Serve` | apps/machine-agent/internal/nodeconfig/apply.go:105-160 | over any sequence of applies, one after the other, with failures and crashes at every system call, the stored configuration is the whole of one of the applied bodies, at most 4 MiB, and was acknowledged with 2xx |
| `LastGoodRuns.StoredIsAcknowledged` | apps/machine-agent/internal/nodeconfig/apply.go:105-126 | over every interleaving of applies, POST by POST, with crashes anywhere, the stored configuration is one the node has acknowledged, within the limit |
| `LastGoodRuns.RolledBackExactly` | apps/machine-agent/internal/nodeconfig/apply.go:105-118 | a reported rollback has put back what the apply read; that is what is stored if and only if nobody has stored another configuration since |
| `LastGoodRuns.AppliedExactly` | apps/machine-agent/internal/nodeconfig/apply.go:119-126 | a reported apply has stored its body; the node runs it if and only if it has not acknowledged another since |
| `LastGoodRuns.OverlapStoresAnother` | apps/machine-agent/internal/nodeconfig/apply.go:105-126 | a run of two applies that both report success, after which the node runs one body and the other is stored |
| `LastGoodRuns.OverlapRollsBackBehind` | apps/machine-agent/internal/nodeconfig/apply.go:105-118 | a run in which a reported rollback leaves the node with another configuration than the stored one |
| `LastGoodRuns.AloneItIsTheHandler` | apps/machine-agent/internal/nodeconfig/apply.go:105-160 | refinement: the steps of one apply with nothing in between are the handler's execution, in posts, stored bytes and outcome |
| `Gateway.MachineControlGateway.StartSession` | apps/backend/src/modules/machines/machine-control.gateway.ts:287-322 | the machine's old socket is told to close and the new one speaks for it |
| `Gateway.MachineControlGateway.OnClose` | apps/backend/src/modules/machines/machine-control.gateway.ts:313-318 | a closing socket takes the session away only when it is the current one |
| `Gateway.MachineControlGateway.HandleMessage` | apps/backend/src/modules/machines/machine-control.gateway.ts:324-442 | one message: a refused one is an error without effect; any other takes its one effect, and is an error all the same when the work after the effect fails |
| `Gateway.MachineControlGateway.OnMessage` | apps/backend/src/modules/machines/machine-control.gateway.ts:301-312 | the next message of the socket's pipeline; any error, before or after the effect, closes the socket |
| `Gateway.MachineControlGateway.OnHelloTimeout` | apps/backend/src/modules/machines/machine-control.gateway.ts:295-299 | the timer tells its socket to close, greeted or not, and fires once |
| `Gateway.MachineControlGateway.PingSessions` | apps/backend/src/modules/machines/machine-control.gateway.ts:462-471 | cuts off exactly the current sockets that have not answered, in any order of visiting |
| `Gateway.LatestSocketSpeaks` | apps/backend/src/modules/machines/machine-control.gateway.ts:287-322 | over all event orders the map holds exactly the most recently started socket of a machine as long as it has not closed, and nothing afterwards |
| `Gateway.LateCloseEvictsNobody` | apps/backend/src/modules/machines/machine-control.gateway.ts:313-318 | the late close of a superseded socket stops that socket's timer and changes nothing else |
| `Gateway.SupersededIsToldToClose` | apps/backend/src/modules/machines/machine-control.gateway.ts:287-292 | in every run a socket that no longer speaks for its machine has closed or has been told to close |
| `Gateway.RefusedOrOneEffect` | apps/backend/src/modules/machines/machine-control.gateway.ts:301-442 | a handled message leaves its socket's queue; a refused one has no effect and closes the socket; any other has exactly its one effect on a greeted socket, which is closed as well if and only if the work after the effect fails |
| `Gateway.ClosingExactly` | apps/backend/src/modules/machines/machine-control.gateway.ts:287-318 | over all event orders a socket has been told to close if and only if a later socket superseded it, one of its messages was refused or not followed up, or its hello timer fired, whether or not it was greeted |
| `Gateway.HelloTimerClosesEverySocket` | apps/backend/src/modules/machines/machine-control.gateway.ts:295-299 | an accepted hello does not stop the timer: in every run its firing closes the socket if that has not closed yet |
| `Gateway.GreetedSocketIsToldToClose` | apps/backend/src/modules/machines/machine-control.gateway.ts:295-299 | a run in which a current, greeted socket that answers every ping is told to close by its hello timer |
| `Gateway.SilentSocketIsTerminated` | apps/backend/src/modules/machines/machine-control.gateway.ts:462-471 | a current socket silent between two consecutive ticks is cut off at the second |
| `Gateway.TerminatedExactly` | apps/backend/src/modules/machines/machine-control.gateway.ts:462-471 | in every run a socket has been terminated if and only if at some tick it was current and had not answered since the tick before; this is about `terminate()` only |
| `Gateway.HandledInOrder` | apps/backend/src/modules/machines/machine-control.gateway.ts:301-312 | of the messages that arrived on a socket the handled ones are the first, and the others wait in order |
| `Gateway.SessionsDoNotInterfere` | apps/backend/src/modules/machines/machine-control.gateway.ts:324-442 | non-interference: whatever happens on other sockets and to the timers, the effects of a session and its greeting are those its own messages give when there is nothing else |
| `Gateway.EffectsExactly` | apps/backend/src/modules/machines/machine-control.gateway.ts:324-442 | which message has which effect, from the messages before it: a hello for this eligible machine once, heartbeats for it and accepted results after that, and nothing else |
| `Gateway.GreetedExactly` | apps/backend/src/modules/machines/machine-control.gateway.ts:324-380 | a session has said hello if and only if one of its messages is a hello of its own, eligible machine |
| `Gateway.NothingBeforeHello` | apps/backend/src/modules/machines/machine-control.gateway.ts:324-442 | no heartbeat or result takes effect before an accepted hello on its own socket, every effect is for the socket's machine, and a socket says hello at most once |
| `HashedSets.Djb2Dual` | apps/backend/libs/hashed-set/src/hashed-set.ts:14-29 | the two 32-bit loops compute a base-33 and a base-65 polynomial of the code units modulo 2^32 |
| `HashedSets.ShortTexts` | apps/backend/libs/hashed-set/src/hashed-set.ts:14-29 | the hashes of texts of up to two units, in numbers |
| `HashedSets.HashedSet.constructor` | apps/backend/libs/hashed-set/src/hashed-set.ts:5-12 | the set holds exactly the given items and its pair is the exclusive or over them, although the inherited constructor already adds and the fields are reset after that |
| `HashedSets.HashedSet.Add` | apps/backend/libs/hashed-set/src/hashed-set.ts:31-38 | a new element comes last, a known one changes nothing, and the pair stays the exclusive or over the elements |
| `HashedSets.HashedSet.Delete` | apps/backend/libs/hashed-set/src/hashed-set.ts:40-47 | takes out exactly the element, tells whether it was there, and the pair stays right |
| `HashedSets.HashedSet.Clear` | apps/backend/libs/hashed-set/src/hashed-set.ts:49-53 | the empty set with the empty pair |
| `HashedSets.OrderDoesNotMatter` | apps/backend/libs/hashed-set/src/hashed-set.ts:31-47 | the exclusive or depends on the contents only, not on their order |
| `HashedSets.EqualSetsAreFastEqual` | apps/backend/libs/hashed-set/src/hashed-set.ts:72-74 | sets with equal contents satisfy fastEquals, whatever operations built them |
| `HashedSets.FastEqualsComparesDifferences` | apps/backend/libs/hashed-set/src/hashed-set.ts:72-74 | fastEquals holds if and only if the elements only one side holds agree in number and in both words |
| `HashedSets.ReplacementGoesUnnoticed` | apps/backend/libs/hashed-set/src/hashed-set.ts:72-74 | sets that differ in one replaced element are fastEquals if and only if the two strings agree in both hashes |
| `HashedSets.FastEqualsIsNotEquality` | apps/backend/libs/hashed-set/src/hashed-set.ts:72-74 | fastEquals is not equality: two disjoint one-element sets, of the code units 0 98 0 and 1 0 2145, satisfy it |
| `InboundSync.InboundTable.SyncInbounds` | apps/backend/src/modules/config-profiles/config-profile.service.ts:354-447 | one run: the table it leaves, and that it sends no statement if and only if nothing is stale, missing or changed |
| `InboundSync.NothingMovesMeans` | apps/backend/src/modules/config-profiles/config-profile.service.ts:359-372 | a run deletes and creates nothing if and only if the stored (tag, type) pairs are the configured ones |
| `InboundSync.FirstRun` | apps/backend/prisma/seed/seeders/6_sync-inbounds.ts:25-58 | after one run the stored (tag, type) pairs are the configured ones |
| `InboundSync.SurvivorsKeepTheirUuid` | apps/backend/prisma/seed/seeders/6_sync-inbounds.ts:25-58 | a UUID outlives the run if and only if its (tag, type) pair is configured, and it keeps that pair; a type change means a new UUID |
| `InboundSync.SecondRun` | apps/backend/prisma/seed/seeders/6_sync-inbounds.ts:60-118 | a run on matching pairs leaves every compared field as configured |
| `InboundSync.LaterRun` | apps/backend/prisma/seed/seeders/6_sync-inbounds.ts:60-118 | a run on a table that is as configured changes no row and sends no statement |
| `InboundSync.TwoRunsConverge` | apps/backend/src/modules/config-profiles/config-profile.service.ts:354-447 | from the second run on the table mirrors the configuration and never changes again |
| `InboundSync.OneRunSuffices` | apps/backend/src/modules/config-profiles/config-profile.service.ts:387-432 | one run suffices if and only if nothing moves or every row that stays was already up to date, because updates are skipped in a run that deletes or creates |
| `LocalizedTexts.TrimMeans` | apps/backend/libs/subscription-page/models/subscription-page-config.validator.ts:105 | trimming cuts ECMAScript white space off both ends and nothing else |
| `LocalizedTexts.Validator.CheckLocalizedText` | apps/backend/libs/subscription-page/models/subscription-page-config.validator.ts:27-57 | appends the issues of the value in traversal order, each with its path and locale |
| `LocalizedTexts.Validator.ValidateLocalizedTexts` | apps/backend/libs/subscription-page/models/subscription-page-config.validator.ts:17-61 | the issues of the platforms followed by those of the base translations |
| `LocalizedTexts.NoIssuesMeans` | apps/backend/libs/subscription-page/models/subscription-page-config.validator.ts:27-57 | no issue is reported if and only if every localized text in the tree has a non-blank text for every required locale |
| `LocalizedTexts.IssuesExactly` | apps/backend/libs/subscription-page/models/subscription-page-config.validator.ts:27-57 | the issues are exactly the required locales that some localized text lacks, each under the keys and indexes that lead to that text |
| `LocalizedTexts.LocalizedTextsAre` | apps/backend/libs/subscription-page/models/subscription-page-config.validator.ts:5-15 | an object of texts with a key of two UTF-16 units, surrogate pairs counted |
| `LocalizedTexts.HasTextMeans` | apps/backend/libs/subscription-page/models/subscription-page-config.validator.ts:31-33 | a text has a locale exactly when the member under it has a character that is no white space |
| `LocalizedTexts.LanguageCodesAre` | apps/backend/libs/subscription-page/constants/language-codes.constant.ts:1-32 | the twenty language codes |
| `LocalizedTexts.CleanLocalizedTexts` | apps/backend/libs/subscription-page/models/subscription-page-config.validator.ts:93-123 | the recursive cleaning equals the cleaned value |
| `LocalizedTexts.OnlyTextsChange` | apps/backend/libs/subscription-page/models/subscription-page-config.validator.ts:93-123 | outside of localized texts cleaning changes no value, length, key or order, wherever in the tree one looks |
| `LocalizedTexts.EveryTextIsCleaned` | apps/backend/libs/subscription-page/models/subscription-page-config.validator.ts:99-112 | every localized text that is reached is cleaned, wherever it is |
| `LocalizedTexts.CleanedTextExactly` | apps/backend/libs/subscription-page/models/subscription-page-config.validator.ts:103-111 | what is left of a text: the trimmed, non-blank texts under active language codes |
| `LocalizedTexts.CleanedTextSplits` | apps/backend/libs/subscription-page/models/subscription-page-config.validator.ts:103-111 | the members of a text are kept one by one and in order |
| `LocalizedTexts.CleaningIsIdempotent` | apps/backend/libs/subscription-page/models/subscription-page-config.validator.ts:93-123 | cleaning twice is cleaning once, on every JSON tree |
| `LocalizedTexts.CleaningAddsNoIssues` | apps/backend/libs/subscription-page/models/subscription-page-config.validator.ts:93-123 | a tree without issues has none after cleaning with the same locales; after cleaning there is none if and only if every localized text had all locales or none of them |
| `ManagedConfig.RenderManagedConfig` | apps/backend/src/modules/machines/managed-config.renderer.ts:1-70 | the rendered configuration, built by assignments and the loop over the inbounds |
| `ManagedConfig.WithoutFieldSplits` | apps/backend/src/modules/machines/managed-config.renderer.ts:12-31 | the filter works item by item and keeps the order |
| `ManagedConfig.RenderingReads` | apps/backend/src/modules/machines/managed-config.renderer.ts:9-36 | without WARP exactly the WARP outbounds and the rules to WARP are gone, in order; with WARP both lists are unchanged; every other key of the configuration and of its routing is unchanged |
| `ManagedConfig.WhatIsFiltered` | apps/backend/src/modules/machines/managed-config.renderer.ts:10-33 | unless the settings say `warpEnabled: true`, exactly the outbounds tagged and the rules sent to WARP_OUT are gone |
| `ManagedConfig.ReferencesStayResolved` | apps/backend/src/modules/machines/managed-config.renderer.ts:10-33 | if every rule named an existing outbound, every rule still does; and the rendered rules all do if and only if every rule of the source that is kept did |
| `ManagedConfig.InboundFields` | apps/backend/src/modules/machines/managed-config.renderer.ts:35-41 | in an inbound only the port and the stream settings change |
| `ManagedConfig.StreamFields` | apps/backend/src/modules/machines/managed-config.renderer.ts:42-67 | a VLESS_REALITY node rewrites the object under realitySettings, a HYSTERIA2 node that under hysteriaSettings, and nothing else changes |
| `ManagedConfig.RealityInboundGets` | apps/backend/src/modules/machines/managed-config.renderer.ts:35-52 | end to end: port, server name and target of a Reality node are in each rendered inbound that has Reality settings |
| `ManagedConfig.RealityFields` | apps/backend/src/modules/machines/managed-config.renderer.ts:42-52 | which Reality fields are assigned and that every other one stays |
| `ManagedConfig.HysteriaFields` | apps/backend/src/modules/machines/managed-config.renderer.ts:53-67 | which Hysteria fields are assigned and that every other one stays |
| `ManagedConfig.RenderingIsIdempotent` | apps/backend/src/modules/machines/managed-config.renderer.ts:1-70 | rendering a rendered configuration for the same node changes nothing |
| `RawCache.RawCacheService.Mget` | apps/backend/src/common/raw-cache/raw-cache.service.ts:33-37 | one answer per key, in order |
| `RawCache.RawCacheService.SetMany` | apps/backend/src/common/raw-cache/raw-cache.service.ts:115-129 | the entries are written in order |
| `RawCache.RawCacheService.CachedByKeys` | apps/backend/src/common/raw-cache/raw-cache.service.ts:177-207 | cached values come from the cache and the others from the table, duplicates included; afterwards every requested row is cached, nothing is lost, and every new entry is a requested row |
| `RawCache.ThroughIsDirect` | apps/backend/src/common/raw-cache/raw-cache.service.ts:177-207 | a read through the cache equals fetching directly if and only if the entries it meets are right |
| `RawCache.FillingKeepsCoherence` | apps/backend/src/common/raw-cache/raw-cache.service.ts:195-205 | with injective keys a read leaves a coherent cache coherent |
| `RawCache.ReadMany` | apps/backend/src/common/raw-cache/raw-cache.service.ts:177-207 | any number of reads, with any entries expiring in between, all equal fetching directly |
| `NodesCache.NodesSystemCache.GetMany` | apps/backend/src/modules/nodes/nodes-system-cache.service.ts:13-64 | the flat replies are cut into five per node; a node listed twice is overwritten; an aborted pipeline gives every node the empty data |
| `NodesCache.NodesSystemCache.HotIsLastReplies` | apps/backend/src/modules/nodes/nodes-system-cache.service.ts:40-63 | every listed node, and no other, is in the result, with the replies at the last place it is listed |
| `NodesCache.NodesSystemCache.ManyReads` | apps/backend/src/modules/nodes/nodes-system-cache.service.ts:13-64 | the data of the node at place i come from replies 5i to 5i+4, each counting when its command did not fail and it holds a non-empty string |
| `NodesCache.NodesSystemCache.OneReads` | apps/backend/src/modules/nodes/nodes-system-cache.service.ts:66-84 | the single read: a system only of two stored values that decode to something other than null, false, zero and the empty string |
| `NodesCache.NodesSystemCache.ManyIsOne` | apps/backend/src/modules/nodes/nodes-system-cache.service.ts:66-84 | without failing commands getMany agrees with getOne for a node if and only if it is not the case that both system strings are stored and one decodes to null, false, zero or the empty string |
| `NodesCache.StoredNullTellsThemApart` | apps/backend/src/modules/nodes/nodes-system-cache.service.ts:48-54 | a stored `null` makes them differ: getMany gives a system without info, getOne none |
| `NodesCache.NodesSystemCache.GetTotalOnlineUsers` | apps/backend/src/modules/nodes/nodes-system-cache.service.ts:96-106 | the sum over the replies, failed and missing ones counting zero; zero for an aborted pipeline |
| `NodesCache.NodesSystemCache.TotalAddsUp` | apps/backend/src/modules/nodes/nodes-system-cache.service.ts:96-106 | each reply adds the number it holds; a failed, missing or empty one adds nothing |
| `NodesCache.NodesSystemCache.TotalIsTheSum` | apps/backend/src/modules/nodes/nodes-system-cache.service.ts:96-106 | without failing commands the total is the sum of the single reads' online users over the list |

## Left out

- InstanceLifecycle.Serve: the host's containers change only between two commands, not between the inspection and the action of one; `InstanceRuns` covers every interleaving.
- InstanceRuns.IsolatedExactly: the labels a network has and the images pulled are whatever a step says, since isolation is about containers only.
- EnrollmentAgent.AgentHost.Enroll: the URL, date and chain checks of the response are one predicate, and the encoding of keys and certificates is a parameter that reads back what it wrote.
- EnrollmentPanel.EnrollmentService.Enroll: issuing a certificate is a function that may refuse; the columns looked up by token hash are unique, so there is one row per token.
- EnrollmentProtocol.OneCertificatePerToken: a token hash is created once, as tokens are 32 random bytes.
- WarpOwnership.Host.Execute: the relay, the detection of 3X-UI and the platform check are parameters; the loop that opens a listener and copies bytes is not modelled.
- WarpOwnership.Serve: calls do not overlap; `WarpRuns` covers every interleaving.
- WarpRuns.GuardedExactly: detection of 3X-UI, confirmation and platform checks only end an execution early; the order of a repair's commands is not kept, as any order is guarded alike.
- DockerOwnership.Serve: calls do not overlap; the interleavings of two Docker handlers are not modelled.
- LastGoodConfig.Serve: applies do not overlap; `LastGoodRuns` covers every interleaving.
- DnsPlan.PlanWithDns: the handler always supplies a port probe, so the error for a missing one is not modelled, and two look-ups of one name agree.
- RawCache.RawCacheService.CachedByKeys: values survive JSON encoding and decoding; the order in which the result map enumerates its keys, and times to live beyond arbitrary expiry, are not modelled.
- NodesCache.NodesSystemCache.GetMany: decoding is total (malformed JSON throws in both reads), and numbers are reals, so NaN is not modelled.
- LocalizedTexts.CleaningAddsNoIssues: locales are language codes, as their type says; keys inherited from the object prototype, which `in` also finds, and the key `__proto__` are not modelled, and neither are unpaired surrogates.
- ManagedConfig.RenderManagedConfig: works on values, so that the source is unchanged holds by construction; the formatting of a speed limit is a parameter.
- InboundSync.InboundTable.SyncInbounds: raw inbounds are compared up to deep equality; configured tags are unique, which the configuration's own validation guarantees, and stored ones by the table's unique index; a database error aborts the run and is not modelled.
- HashedSets.HashedSet.constructor: the order of the elements after construction is not stated, and `hash64String` and `getHashStats`, which only format the words, are not modelled.
- LastGoodConfig.ConfigHandler.Execute: decoding the command, rendering the runtime configuration and the TLS client are not modelled; the model starts at the first POST.
- Gateway.MachineControlGateway.HandleMessage: the repository's answers (machine eligible, result accepted) come with the message; upgrade checks, acknowledgements sent back and command delivery are not modelled. A message is handled in one step; during its awaits the next message of the socket waits, and other events touch neither the session's greeting nor its queue.
- Power loss that undoes a rename whose directory was not synced; two agent processes on one store; a message cut inside a multi-byte character.
- Error texts other than the executor's, the choice of HTTP status codes, logging and metrics.
- The reconnect delays of the control client, its heartbeat, and the socket framing.
- TLS, certificates, key generation and SHA-256; zod, JSON and regular-expression decoding.
- Controllers, DTOs, route tables, other seeders, the CLI, the frontend and authentication flows.
