# Proofs about the consensus simulator

A Dafny model of the protocols in this repository, and proofs of what they guarantee:

- **TBB** (`node/runningMod/consensusMod/tbb/handler_tbb.go`) with the two synchronous protocols it combines,
  **Dolev-Strong** (`ds/handler_ds.go`) and **1Δ-BB\*** with **BADS\*** inside (`tbb/handler_1deltaBB.go`), and the
  proposer that drives them (`proposeString.go`);
- **PBFT** message counting (`pbft/handler_pbft.go`, `pbft/structs.go`), with atomic handlers and with
  `handlePrepare` cut at its lock regions;
- the random linear chunk encoder and its table-driven field GF(256) (`addon/coding`).

`dafny verify dfyconfig.toml` checks everything.

## How it is built

Every handler is modelled twice and proved equal: as a class method that changes its object's fields, like the source,
and as a function from state to state (`OnPropose`, `OnVote`, ...) that the runs are made of.

A *run* is a sequence of states with a step between any two neighbours: a message arrives, a timer fires, time passes by
one unit. Every theorem about runs holds for all of them: any number of nodes, any order of delivery, any set of
proposals. The environment supplies what the source leaves to it:

- In the synchronous protocols a message arrives in less than one tick interval Δ, timers fire on time, the trigger
  channel is read at once, all proposals leave at time 0, and handlers are atomic.
- Nodes outside `active` are faulty. In the fault model of the source they are silent (`handler_ds_m.go`,
  `handler_tbb_m.go`), while the view node may send any proposals to anyone. `DolevStrongByzantine`, the systems of
  1Δ-BB\* that are `injecting`, and `TbbByzantine`, which joins them, let faulty nodes send anything at any time.
- `checkSig` and `checkSigList` are stubs that accept everything (`ds/handler_ds.go:242`), so authenticity is a property
  of the environment: nobody forges a signature of an active node. A signature is a pair of node and value.
- In PBFT messages arrive in any order, each at most once; the leader is honest.

History variables (`handled`, `ballots`, `inputs`; `sent`, `delivered`, `counted`, `commits`) record what happened and
influence nothing.

| file | content |
|---|---|
| `Common`, `Network` | values, signatures, the derived configuration, broadcasts, what a run starts from |
| `DolevStrong`, `DolevStrongRuns` | handlers; runs and their invariant |
| `DolevStrongAgreement`, `DolevStrongTermination`, `DolevStrongEquivocation` | deadlines, agreement, validity; flooding ends; exactly when decisions agree although the view node equivocates |
| `DolevStrongByzantine`, `DolevStrongByzantineAgreement` | arbitrary faults: agreement exactly when messages are timely |
| `DeltaBB`, `DeltaBBRuns` | handlers of 1Δ-BB\* and BADS\*; runs |
| `DeltaBBVotes`, `DeltaBBCertificates`, `DeltaBBAgreement` | vote agreement, certificates, commit point 1 |
| `DeltaBBPoint1`, `DeltaBBGoodCase` | exactly when a value is certified and committed at point 1; who commits there with an honest view node |
| `DeltaBBReach`, `DeltaBBExamples` | two runs of two nodes that show both sides |
| `Bads`, `BadsDelivery` | BADS\* uniqueness; what lists and waiting aggregates lead to |
| `Tbb`, `TbbRuns`, `TbbAgreement`, `TbbQueries`, `TbbTermination` | the combiner, agreement across all commit points, stable answers, termination |
| `TbbPoints` | what each timed step writes; everybody has committed by commit point 2 |
| `TbbByzantine` | arbitrary faults: agreement across all commit points exactly when more than f nodes are honest |
| `ProposeString` | the proposer, and what the theorems say about its two behaviours |
| `Pbft`, `PbftRuns`, `PbftCertificates` | handlers; leader rounds; certificates |
| `PbftCompleteness`, `PbftQuiescence`, `PbftTightness`, `PbftStall` | completeness at rest; every run can be brought to rest; completeness exactly with 2f + 2 active nodes; when the leader waits for ever |
| `PbftInterleaving` | `handlePrepare` under interleaving: no commit early, none lost, exactly how many are broadcast |
| `Algebra`, `Bytes`, `GaloisTables`, `LogTables`, `GaloisField` | the field |
| `LinearCode`, `RFCEncoder` | matrix algebra over any commutative ring; the encoder |

## Where the code and its comments differ

The model follows the code.

- `ds/handler_ds.go:172-175` warns about a list whose length does not fit the round but does not return.
  `DolevStrongByzantineAgreement.AgreementExactly` says what that costs under arbitrary faults.
- `tbb/handler_tbb.go:239-241` and `253-255` log a commit "based on BADS* protocol", but `localSetA` is the set of certified
  values of 1Δ-BB\* (`handler_tbb.go:65`); `BABlckSet` only decides the commit of 1Δ-BB\* itself at tick f + 6.
- `tbb/handler_1deltaBB.go:206-228`: a node's own vote is counted without looking whether it fills the quorum, and votes
  that come later make more than a quorum. So with an honest view node and all votes counted, a node reaches commit
  point 1 exactly if its own vote was not the last of the quorum (`DeltaBBGoodCase.Point1ReachedExactly`);
  `DeltaBBExamples` has a run for either case.
- `tbb/handler_1deltaBB.go:391-396`: an aggregate of BADS\* arrives at tick 6 or later with one signature, so the wait loop
  before passing it on never ends.
- `pbft/handler_pbft.go:187` says the view node sends no prepare; it handles its own pre-prepare (line 324) and does.
- `pbft/handler_pbft.go:57` takes f as (n - 1) / 3, but f silent nodes can leave a request uncommitted: all runs that
  come to rest are complete exactly if 2f + 2 nodes are active (`PbftTightness.CompletenessExactly`), one more than
  2f + 1.
- `pbft/handler_pbft.go:252-255` drops the signal that a request is committed if the leader's loop does not wait yet.
  It then waits for ever; `PbftStall.StalledExactly` says when this happens.
- `pbft/handler_pbft.go:192` is meant to broadcast a commit once, but `setCommitBroadcasted` (`pbft/structs.go:54-65`)
  succeeds for everybody who calls it. `PbftInterleaving.BroadcastCount` says how many broadcasts there are, and
  `SentOnceExactly` when there is at most one; `CommitBroadcastTwice` is an interleaving with two.
- `HandledBeforeBroadcast` shows that enough prepares can have been handled to the end while the goroutine that set the
  flag has not broadcast yet, so `NotLost` says exactly that: broadcast, or about to be.

## Model

| member | source | states |
|---|---|---|
| Common.RatioBounds | node/runningMod/consensusMod/ds/handler_ds.go:71 | truncating the product of n and a ratio between 0 and 1 gives a number from 0 to n, however the product is rounded, as long as rounding keeps the order and the numbers 0 and n; so f, q and t1 are in range |
| Common.TickBefore | node/runningMod/consensusMod/ds/handler_ds.go:124 | a comparison of elapsed ticks is a comparison of elapsed time with a multiple of Δ |
| DolevStrong.DSConsensusMod.HandleInitMsg | node/runningMod/consensusMod/ds/handler_ds.go:53-94 | the extracted set is cleared in place, the commit value of an earlier instance survives, the commit timer is for tick f + 1 |
| DolevStrong.DSConsensusMod.HandleProposeMsg | node/runningMod/consensusMod/ds/handler_ds.go:108-142 | the new set and the broadcast, if the node is not the view node and the wait loop ends, as a function of the old state |
| DolevStrong.DSConsensusMod.HandleForwardMsg | node/runningMod/consensusMod/ds/handler_ds.go:148-200 | a known value changes nothing; a new one is extracted, however late, and passed on with one more signature only if the wait loop ends |
| DolevStrong.DSConsensusMod.CommitTimerFires | node/runningMod/consensusMod/ds/handler_ds.go:77-94 | the commit value becomes the only extracted value, or "0" if there is none or there are several |
| DolevStrong.WaitIsDecidedAtOnce | node/runningMod/consensusMod/ds/handler_ds.go:123-128 | on a clock that never runs backwards the wait loop ends at some reading exactly if it ends at the first |
| DolevStrongRuns.InvRun | node/runningMod/consensusMod/ds/handler_ds.go:108-200 | the global invariant over nodes, messages in flight and time holds in every state of every run |
| DolevStrongAgreement.DeadlineMet | node/runningMod/consensusMod/ds/handler_ds.go:123-128 | whatever is delivered in a run is delivered before as many ticks as it has signatures, so no node ever stops forwarding |
| DolevStrongAgreement.ChainsAreSigned | node/runningMod/consensusMod/ds/handler_ds.go:189-190 | signature and node lists have equal length, start with the proposer, repeat nobody but the view node, and everyone listed after the proposer is active, signed the value and holds it |
| DolevStrongAgreement.FloodComplete | node/runningMod/consensusMod/ds/handler_ds.go:130-139 | from the last moment before tick 2 on, all active nodes hold what an active node other than the view node holds |
| DolevStrongAgreement.SetsFinal | node/runningMod/consensusMod/ds/handler_ds.go:162-179 | from the time decisions are due no extracted set changes |
| DolevStrongAgreement.DecisionKept | node/runningMod/consensusMod/ds/handler_ds.go:87-93 | a commit value, once set in an instance, is never changed |
| DolevStrongAgreement.FireDecides | node/runningMod/consensusMod/ds/handler_ds.go:85-93 | in every run a commit timer that fires on the set {v} leaves the commit value v, and on a set of any other size "0" |
| DolevStrongAgreement.DecisionIs | node/runningMod/consensusMod/ds/handler_ds.go:85-93 | if f is at least 1, or a tick is one unit, or the view node is honest, that is true of every node that has decided, at all later times |
| DolevStrongAgreement.SetsExactly | node/runningMod/consensusMod/ds/handler_ds.go:108-200 | when decisions are due a node has extracted exactly what was proposed to the active nodes other than the view node, and the view node also what was proposed to itself, which it never passes on |
| DolevStrongAgreement.DecisionExactly | node/runningMod/consensusMod/ds/handler_ds.go:70-94 | so every decision is a function of the proposals: the only value of those, or "0" |
| DolevStrongAgreement.CommitAgreement | node/runningMod/consensusMod/ds/handler_ds.go:70-94 | if f is at least 1, or a tick is one unit of time, or the view node is honest, all decisions of a run are equal, at any nodes and times, except those of a view node that equivocated |
| DolevStrongAgreement.CommitValidity | node/runningMod/consensusMod/ds/handler_ds.go:70-94 | if the view node is honest every decision is its proposal |
| DolevStrongAgreement.DecidedInTime | node/runningMod/consensusMod/ds/handler_ds.go:73-78 | once tick f + 1 is past every active node has decided |
| DolevStrongEquivocation.AgreementExactly | node/runningMod/consensusMod/ds/handler_ds.go:70-94 | for every configuration and active set: in all runs of all proposals of the view node all decisions of the other active nodes are equal if and only if f is at least 1, a tick is one unit of time, or at most one such node is active |
| DolevStrongTermination.PotentialNext | node/runningMod/consensusMod/ds/handler_ds.go:130-197 | every delivery lowers a potential made of undelivered proposals, missing values and messages in flight; no other step changes it |
| DolevStrongTermination.FloodingTerminates | node/runningMod/consensusMod/ds/handler_ds.go:162-197 | the number of deliveries in a run, however long, is bounded by the proposals and the number of nodes |
| DolevStrongByzantine.FewSignatures | node/runningMod/consensusMod/ds/handler_ds.go:148-170 | an authentic list of different signers on a value no honest node holds has at most f signatures |
| DolevStrongByzantine.FirstAcceptor | node/runningMod/consensusMod/ds/handler_ds.go:182-197 | the first honest node to accept a value passes it on before tick f |
| DolevStrongByzantine.ByzInvRun | node/runningMod/consensusMod/ds/handler_ds.go:108-200 | under arbitrary faults, what one honest node holds is held by, or on its way in time to, every honest node |
| DolevStrongByzantine.PassedOnExactly | node/runningMod/consensusMod/ds/handler_ds.go:148-200 | under any faults a list with k signatures on a value new to the node is passed on, with one more signature, if and only if it arrives before tick k, and taken in anyway |
| DolevStrongByzantine.NothingLeavesLate | node/runningMod/consensusMod/ds/handler_ds.go:123-128 | in every attack run, timely or not, every list on its way left before the tick that counts the signatures it arrived with |
| DolevStrongByzantineAgreement.SetsEqual | node/runningMod/consensusMod/ds/handler_ds.go:70-94 | all honest extracted sets are equal from tick f + 1 on |
| DolevStrongByzantineAgreement.ByzantineAgreement | node/runningMod/consensusMod/ds/handler_ds.go:71-94 | with at most f faulty nodes and timely messages, or an honest view node, no two honest decisions of a run differ |
| DolevStrongByzantineAgreement.ByzantineValidity | node/runningMod/consensusMod/ds/handler_ds.go:71-94 | honest nodes decide on an honest view node's proposal, whatever the faulty nodes send |
| DolevStrongByzantineAgreement.LateMessageBreaks | node/runningMod/consensusMod/ds/handler_ds.go:172-175 | without the deadline there is a run, for every two honest nodes and a faulty view node, in which they decide differently |
| DolevStrongByzantineAgreement.AgreementExactly | node/runningMod/consensusMod/ds/handler_ds.go:172-175 | honest nodes decide alike in all runs if and only if messages are timely, the view node is honest, or fewer than two nodes are honest |
| DeltaBB.AddSignature | node/runningMod/consensusMod/tbb/handler_1deltaBB.go:269-272 | making an entry for a new value and adding to it adds one signature to one value's set and changes no other |
| DeltaBB.DeltaBBConsensusMod.HandleInitMsg | node/runningMod/consensusMod/tbb/handler_1deltaBB.go:81-145 | everything is cleared, the sets in place; BADS\* starts at tick 4, the last timer is for tick f + 6 |
| DeltaBB.DeltaBBConsensusMod.HandleProposeMsg | node/runningMod/consensusMod/tbb/handler_1deltaBB.go:182-205 | the value is seen, it is forwarded unless the node is the view node, and the vote timer is set for one Δ later |
| DeltaBB.DeltaBBConsensusMod.VoteTimerFires | node/runningMod/consensusMod/tbb/handler_1deltaBB.go:206-228 | the node votes exactly if it has seen one value, and counts its own vote without a quorum test |
| DeltaBB.DeltaBBConsensusMod.HandleForward1Msg | node/runningMod/consensusMod/tbb/handler_1deltaBB.go:236-257 | the forwarded value is seen |
| DeltaBB.DeltaBBConsensusMod.HandleVoteMsg | node/runningMod/consensusMod/tbb/handler_1deltaBB.go:259-311 | the vote is counted; a certificate is made when the count is exactly the quorum and there is none yet; it is broadcast exactly when the trigger is sent, and then its value is committed |
| DeltaBB.DeltaBBConsensusMod.MakeCertificate | node/runningMod/consensusMod/tbb/handler_1deltaBB.go:284-305 | the value is certified and blocked; commit, trigger and broadcast happen if it is the only blocked value and it is before tick 3 |
| DeltaBB.DeltaBBConsensusMod.BAStartTimerFires | node/runningMod/consensusMod/tbb/handler_1deltaBB.go:112-138 | the node signs and broadcasts the only blocked value, or "0", and counts its own signature |
| DeltaBB.DeltaBBConsensusMod.HandleForward2Msg | node/runningMod/consensusMod/tbb/handler_1deltaBB.go:328-409 | before tick 5 first signatures are collected and an exact quorum is left for tick 6; later a new value is taken in, and passed on only if the wait loop ends, which it does not for an empty list |
| DeltaBB.DeltaBBConsensusMod.CommitTimerFires | node/runningMod/consensusMod/tbb/handler_1deltaBB.go:147-168 | a node that has not committed commits the only BADS\* value, or "0" |
| DeltaBBVotes.VoteInvNext | node/runningMod/consensusMod/tbb/handler_1deltaBB.go:182-257 | every step keeps: a proposal taken in is relayed to everyone in less than Δ, and a vote is for the only value any other active node had taken in by then |
| DeltaBBAgreement.VoteAgreement | node/runningMod/consensusMod/tbb/handler_1deltaBB.go:182-257 | two active nodes other than the view node never vote for different values, whatever the view node and the faulty nodes send |
| DeltaBBCertificates.HonestVoteBehind | node/runningMod/consensusMod/tbb/handler_1deltaBB.go:272-289 | if fewer than q nodes may deviate, every certificate holds a vote that an active node other than the view node cast |
| DeltaBBAgreement.CertificateUniqueness | node/runningMod/consensusMod/tbb/handler_1deltaBB.go:272-289 | if fewer than q nodes may deviate from the vote rule, at most one value is ever certified, over all nodes and times |
| DeltaBBAgreement.CommitPoint1 | node/runningMod/consensusMod/tbb/handler_1deltaBB.go:274-296 | in every state the keys of QCMap are BlckSet, the channel holds at most one item, and a committed value is certified |
| DeltaBBAgreement.TriggerSentOnce | node/runningMod/consensusMod/tbb/handler_1deltaBB.go:296 | the trigger is sent at most once per instance, into a channel that is not full, so the send never blocks |
| DeltaBBAgreement.CommitFixed | node/runningMod/consensusMod/tbb/handler_1deltaBB.go:149-167 | once isCommit holds the commit value never changes, also past the last timer |
| DeltaBBAgreement.TypedNext | node/runningMod/consensusMod/tbb/handler_1deltaBB.go:182-414 | every step of the model leads to a state in which the next step is defined |
| DeltaBBPoint1.ProposalExactly | node/runningMod/consensusMod/tbb/handler_1deltaBB.go:182-206 | a proposal is seen, the vote timer starts, and every node but the view node forwards it |
| DeltaBBPoint1.VoteExactly | node/runningMod/consensusMod/tbb/handler_1deltaBB.go:206-228 | a node whose vote timer fires broadcasts a vote for the only value it has seen, and none if there are several |
| DeltaBBPoint1.CertifiedExactly | node/runningMod/consensusMod/tbb/handler_1deltaBB.go:259-289 | in every run, whatever is sent, a node has certified v if and only if some delivery of a vote for v left it with exactly a quorum of signatures |
| DeltaBBPoint1.CertificatesAreQuorums | node/runningMod/consensusMod/tbb/handler_1deltaBB.go:279-289 | every certificate aggregates exactly q different signatures on its value, each of a node that voted for it or may deviate |
| DeltaBBPoint1.FullOrItself | node/runningMod/consensusMod/tbb/handler_1deltaBB.go:222-227 | a node with a quorum of signatures and no certificate has filled the quorum with its own vote, which is not tested |
| DeltaBBPoint1.Point1Exactly | node/runningMod/consensusMod/tbb/handler_1deltaBB.go:291-305 | the first certificate of a node commits it and sends the trigger if and only if it is made before tick 3 |
| DeltaBBGoodCase.CommitsOrFillsItself | node/runningMod/consensusMod/tbb/handler_1deltaBB.go:182-305 | with silent faulty nodes, an honest view node and at least q active nodes, every active node has committed the proposal at point 1 by tick 3, or has filled its quorum with its own vote |
| DeltaBBGoodCase.Point1ReachedExactly | node/runningMod/consensusMod/tbb/handler_1deltaBB.go:206-305 | with one proposal for each node the two exclude each other: it has committed if and only if its own vote was not the last of the quorum |
| DeltaBBExamples.CommitsAfterTick2 | node/runningMod/consensusMod/tbb/handler_1deltaBB.go:291-305 | a run with an honest view node in which a node commits at point 1 after tick 2 |
| DeltaBBExamples.OwnVoteFills | node/runningMod/consensusMod/tbb/handler_1deltaBB.go:222-227 | a run with an honest view node in which a node's own vote is the last of the quorum |
| DeltaBBExamples.PairIsGood | node/runningMod/consensusMod/tbb/handler_1deltaBB.go:259-289 | the two nodes of these runs meet what Point1ReachedExactly asks for, so the second one never commits at point 1 |
| Bads.SoloArrives | node/runningMod/consensusMod/tbb/handler_1deltaBB.go:343-350 | a single signed input arrives before tick 5, is counted, and an aggregate made then stands for q inputs |
| Bads.QuorumArrives | node/runningMod/consensusMod/tbb/handler_1deltaBB.go:373-396 | an aggregate arrives when only its value is taken in: its wait loop does not end |
| Bads.BadsUniqueness | node/runningMod/consensusMod/tbb/handler_1deltaBB.go:328-389 | with silent faulty nodes and 2q > n, the BABlckSets of all nodes together never hold two values |
| BadsDelivery.CollectedExactly | node/runningMod/consensusMod/tbb/handler_1deltaBB.go:342-371 | in every run, before tick 5 the first signature of a list is collected, and an aggregate of all of them is left waiting if and only if they are then exactly a quorum |
| BadsDelivery.TakenInAndPassedOn | node/runningMod/consensusMod/tbb/handler_1deltaBB.go:376-409 | from tick 5 on the value is taken in, and a new one passed on, with one more signature, if and only if it is before tick 5 plus the number of signatures |
| BadsDelivery.TakenInExactly | node/runningMod/consensusMod/tbb/handler_1deltaBB.go:376-389 | in every run a value is in a node's BABlckSet if and only if a list with it has reached the node at or after tick 5 |
| BadsDelivery.StartsExactly | node/runningMod/consensusMod/tbb/handler_1deltaBB.go:112-138 | the input of a node at tick 4 is its only certified value, or "0"; its signature on it is counted and broadcast |
| BadsDelivery.FinalExactly | node/runningMod/consensusMod/tbb/handler_1deltaBB.go:149-167 | the last timer leaves a committed node alone, and another commits the only value of its BABlckSet, or "0" |
| BadsDelivery.AggregateReaches | node/runningMod/consensusMod/tbb/handler_1deltaBB.go:351-389 | with silent faulty nodes, if an aggregate ever waits at a node, every other active node has its value from tick 7 on |
| BadsDelivery.AggregateCommits | node/runningMod/consensusMod/tbb/handler_1deltaBB.go:149-389 | and if also f is at least 1 and 2q > n, a node that has not committed commits that value at tick f + 6 |
| Tbb.TbbConsensusMod.constructor | node/runningMod/consensusMod/tbb/handler_tbb.go:53-75 | localSetA and localSetC are the sub-modules' sets |
| Tbb.TbbConsensusMod.HandleInitMsg | node/runningMod/consensusMod/tbb/handler_tbb.go:79-109 | a new instance starts fresh but for the Dolev-Strong commit value; the sets stay shared; the times of the four timers |
| Tbb.TbbConsensusMod.HandleProposeMsg | node/runningMod/consensusMod/tbb/handler_tbb.go:119-122 | both sub-modules handle the same proposal |
| Tbb.TbbConsensusMod.ReferencePoint1Handler | node/runningMod/consensusMod/tbb/handler_tbb.go:204-212 | the reference value is the one extracted value, if Dolev-Strong has committed it |
| Tbb.TbbConsensusMod.ReferencePoint2Handler | node/runningMod/consensusMod/tbb/handler_tbb.go:214-222 | the same for the second reference point |
| Tbb.TbbConsensusMod.CommitPoint1Handler | node/runningMod/consensusMod/tbb/handler_tbb.go:225-230 | the trigger is taken, and slot 0 gets the commit value of 1Δ-BB\* |
| Tbb.TbbConsensusMod.CommitPoint2Handler | node/runningMod/consensusMod/tbb/handler_tbb.go:232-248 | unless committed, slot 1 gets the only blocked value, else the first reference value, else stays |
| Tbb.TbbConsensusMod.CommitPoint3Handler | node/runningMod/consensusMod/tbb/handler_tbb.go:250-262 | slot 2 gets the only blocked value, else the second reference value, else stays |
| Tbb.TbbConsensusMod.HandleQueryMsg | node/runningMod/consensusMod/tbb/handler_tbb.go:144-172 | the loop over the slots answers with the first one that is not empty |
| TbbRuns.Parts | node/runningMod/consensusMod/tbb/handler_tbb.go:119-142 | in a run of TBB each sub-module makes a step of its own or none |
| TbbAgreement.CertifiedIsExtracted | node/runningMod/consensusMod/tbb/handler_tbb.go:119-122 | a certified value was voted for by an active node other than the view node that holds it in its Dolev-Strong set |
| TbbAgreement.CertifiedIsReference | node/runningMod/consensusMod/tbb/handler_tbb.go:204-248 | a certified value and a reference value, of any nodes, are equal |
| TbbAgreement.Agreement | node/runningMod/consensusMod/tbb/handler_tbb.go:204-262 | with silent faulty nodes, q at least 2 and t1 at least 1, all non-empty slots of all active nodes at all times of a run are equal, for any proposals of the view node |
| TbbAgreement.AnswersAgree | node/runningMod/consensusMod/tbb/handler_tbb.go:144-172 | clients that get an answer get the same one, from any active node at any time |
| TbbAgreement.Validity | node/runningMod/consensusMod/tbb/handler_tbb.go:225-262 | if the view node is honest only its proposal is committed |
| TbbByzantine.ByzantineAgreement | node/runningMod/consensusMod/tbb/handler_tbb.go:204-262 | against faulty nodes that send anything to either sub-module, with timely messages or an honest view node, t1 at least f, and more than f honest nodes, no two non-empty slots of honest nodes ever differ |
| TbbByzantine.ByzantineValidity | node/runningMod/consensusMod/tbb/handler_tbb.go:225-262 | with an honest view node they hold its proposal |
| TbbByzantine.FaultyQuorumBreaks | node/runningMod/consensusMod/tbb/handler_1deltaBB.go:272-296 | if the faulty nodes are a quorum there is, for every two honest nodes, a run in which they commit different values at commit point 1 |
| TbbByzantine.AgreementExactly | node/runningMod/consensusMod/tbb/handler_tbb.go:204-262 | with timely messages or an honest view node, and t1 at least f, two or more honest nodes agree in all attack runs if and only if there are more than f of them |
| TbbQueries.AnswerStable | node/runningMod/consensusMod/tbb/handler_tbb.go:144-172 | with t1 < t2, a slot once written is never changed, and a node that has answered with a value answers with it for ever |
| TbbTermination.Termination | node/runningMod/consensusMod/tbb/handler_tbb.go:204-262 | if the view node is honest, every active node has committed its proposal in slot 2 once tick t2 + 6 is past, and answers with it |
| TbbPoints.ChecksExactly | node/runningMod/consensusMod/tbb/handler_tbb.go:204-222 | a reference point takes the value that is the only one extracted and committed by Dolev-Strong, and without one changes nothing |
| TbbPoints.Point1Writes | node/runningMod/consensusMod/tbb/handler_tbb.go:225-230 | commit point 1 writes slot 0, with a certified value, and marks the node as committed |
| TbbPoints.Point2Writes | node/runningMod/consensusMod/tbb/handler_tbb.go:232-248 | commit point 2 changes nothing after a commit; else slot 1 gets the only certified value; without exactly one, the first reference if there is one; else nothing |
| TbbPoints.Point3Writes | node/runningMod/consensusMod/tbb/handler_tbb.go:250-262 | commit point 3 does the same with slot 2 and the second reference, also after a commit |
| TbbPoints.Point2Terminates | node/runningMod/consensusMod/tbb/handler_tbb.go:204-248 | with an honest view node and t1 above f, once tick t1 + 6 is past every active node has its proposal in slot 0 or slot 1, and answers with it |
| TbbTermination.RunsGoOn | node/runningMod/consensusMod/tbb/handler_tbb.go:106-116 | in every state of every run some step can be taken: delivery deadlines and timers never contradict each other |
| TbbQueries.Point1First | node/runningMod/consensusMod/tbb/handler_tbb.go:225-230 | when commit point 1 is reached no slot has been written |
| ProposeString.ProposeStringAuxiliaryMod.ProposeNext | node/runningMod/consensusMod/proposeString.go:78-126 | one turn takes the first string, broadcasts a start time, and sends the honest or the equivocating proposals when it is reached |
| ProposeString.ProposalsAreASetup | node/runningMod/consensusMod/proposeString.go:103-126 | either way the proposals are what protocol runs may start from; honest ones make an honest view node |
| ProposeString.ProposalsExactly | node/runningMod/consensusMod/proposeString.go:111-126 | who gets which proposal and how often, in either mode |
| ProposeString.MaliciousDecisions | node/runningMod/consensusMod/proposeString.go:111-121 | with the malicious proposer and f at least 1, every Dolev-Strong decision: "bad" at the others and "0" at the proposer if node 1 or 2 is active, else "0" at the others and the string at the proposer |
| ProposeString.HonestProposerDecides | node/runningMod/consensusMod/proposeString.go:122-126 | with an honest proposer every Dolev-Strong decision is its string, and TBB commits nothing else |
| ProposeString.MaliciousProposerIsHarmless | node/runningMod/consensusMod/proposeString.go:111-121 | with the malicious proposer and f at least 1 the Dolev-Strong decisions of all other nodes are equal |
| Pbft.PbftConsensusMod.HandlePropose | node/runningMod/consensusMod/pbft/handler_pbft.go:73-95 | a new entry for the request, which is enqueued if the addon accepts it |
| Pbft.PbftConsensusMod.HandlePrePrepare | node/runningMod/consensusMod/pbft/handler_pbft.go:98-142 | dropped if outdated; else an entry is made and the prepare broadcast if the addon accepts |
| Pbft.PbftConsensusMod.HandlePrepare | node/runningMod/consensusMod/pbft/handler_pbft.go:145-206 | dropped if outdated or already broadcast; else counted, and the commit broadcast when the count is enough (2f at the view, 2f - 1 elsewhere) |
| Pbft.PbftConsensusMod.HandleCommit | node/runningMod/consensusMod/pbft/handler_pbft.go:209-257 | dropped if outdated; else counted, and with 2f the request is committed unless it was before; the view then moves to the next round |
| Pbft.PbftConsensusMod.Dequeue | node/runningMod/consensusMod/pbft/handler_pbft.go:306-324 | the first request of the queue is announced with the current round |
| Pbft.PbftConsensusMod.IsCommitBroadcasted | node/runningMod/consensusMod/pbft/structs.go:43-52 | the flag of the entry, false if there is none |
| Pbft.PbftConsensusMod.IsReplySent | node/runningMod/consensusMod/pbft/structs.go:67-76 | the flag of the entry, false if there is none |
| PbftRuns.LeaderRounds | node/runningMod/consensusMod/pbft/handler_pbft.go:304-335 | the j-th request the leader takes is the j-th proposed and is announced with round j, and by then the leader has committed exactly the j requests before it, in order, each as often as it was proposed |
| PbftStall.StalledForGood | node/runningMod/consensusMod/pbft/handler_pbft.go:304-328 | a leader that waits for a request it has already committed never takes another |
| PbftStall.StalledExactly | node/runningMod/consensusMod/pbft/handler_pbft.go:249-256 | in every run a waiting leader is in that state if and only if it committed the last request it took after announcing it and before it began to wait |
| PbftStall.StallPossibleExactly | node/runningMod/consensusMod/pbft/handler_pbft.go:249-328 | a run without repeated proposals gets there if and only if at least 2f + 1 nodes are active, for every group with f at least 1 |
| PbftCertificates.NotCountedYet | node/runningMod/consensusMod/pbft/handler_pbft.go:179-180 | no counter counts a sender twice |
| PbftCertificates.VoteInvNext | node/runningMod/consensusMod/pbft/handler_pbft.go:145-257 | every step keeps: counters are numbers of different senders, flags say exactly that thresholds are reached, and every broadcast has its cause |
| PbftCertificates.CommitCertificate | node/runningMod/consensusMod/pbft/handler_pbft.go:145-257 | if no digest is proposed twice, a node commits a digest at most once, and only with commits from 2f other nodes, each of which had counted prepares from 2f - 1 (2f at the view) other nodes that handled the leader's pre-prepare |
| PbftCompleteness.QuiescentCompleteness | node/runningMod/consensusMod/pbft/handler_pbft.go:98-257 | with f at least 1 and 2f + 2 active nodes, when nothing is in flight every active node has committed every announced request, although the leader drops outdated messages |
| PbftCompleteness.FewSilent | node/runningMod/consensusMod/pbft/handler_pbft.go:56-57 | at most f - 1 silent nodes leave 2f + 2 active ones |
| PbftQuiescence.RunsComeToRest | node/runningMod/consensusMod/pbft/handler_pbft.go:98-257 | every run can be continued by deliveries alone to one with nothing in flight: a delivery lowers a potential made of letters in flight and answers not yet sent |
| PbftTightness.FewNeverCommit | node/runningMod/consensusMod/pbft/handler_pbft.go:209-257 | with at most 2f active nodes nobody ever commits |
| PbftTightness.LeaderTooFast | node/runningMod/consensusMod/pbft/handler_pbft.go:159-162 | with 2f + 1 active nodes or more the leader can commit before it has counted any prepare, and then drops them all as outdated |
| PbftTightness.CompletenessExactly | node/runningMod/consensusMod/pbft/handler_pbft.go:56-257 | for every group with f at least 1: in all runs without repeated proposals that have come to rest every active node has committed every request taken, if and only if at least 2f + 2 nodes are active |
| PbftInterleaving.InvRun | node/runningMod/consensusMod/pbft/handler_pbft.go:168-205 | in every interleaving of any number of goroutines, counts seen are different and as many as the counter says, every broadcast is a goroutine's own, and a set flag belongs to a goroutine that broadcasts |
| PbftInterleaving.NeverEarly | node/runningMod/consensusMod/pbft/handler_pbft.go:179-205 | a commit is never broadcast before enough prepares were counted |
| PbftInterleaving.NotLost | node/runningMod/consensusMod/pbft/handler_pbft.go:168-205 | once enough prepares were handled to the end, and not as outdated, the commit was broadcast or a goroutine has set the flag and is about to |
| PbftInterleaving.BroadcastWhenIdle | node/runningMod/consensusMod/pbft/handler_pbft.go:168-205 | if then all goroutines have returned, it was broadcast |
| PbftInterleaving.OthersInterfere | node/runningMod/consensusMod/pbft/handler_pbft.go:98-257 | the pre-prepare and commit handlers change neither the prepare count nor the flag of any digest, and never lower the round |
| PbftInterleaving.AloneIsTheHandler | node/runningMod/consensusMod/pbft/handler_pbft.go:158-205 | the lock regions of a goroutine that nobody interrupts compute what the whole handler does, from any shared state |
| PbftInterleaving.BroadcastCount | node/runningMod/consensusMod/pbft/handler_pbft.go:168-205 | with p prepares counted and m the number needed (at least 1), at most p - m + 1 commits have been broadcast at any time of any interleaving, and exactly as many (or none, if p < m) when all goroutines have returned |
| PbftInterleaving.SentOnceExactly | node/runningMod/consensusMod/pbft/handler_pbft.go:168-171 | when all goroutines have returned, the commit was broadcast at most once if and only if at most m of them got past the reading of the flag |
| PbftInterleaving.CommitBroadcastTwice | node/runningMod/consensusMod/pbft/structs.go:54-65 | the witness that more can happen: two goroutines of node 1 of 4 that read the flag before either sets it both broadcast the commit |
| PbftInterleaving.HandledBeforeBroadcast | node/runningMod/consensusMod/pbft/handler_pbft.go:168-171 | enough prepares can have been handled before the commit is broadcast |
| GaloisTables.ExpStep | addon/coding/GaloisField.go:41-107 | each entry of EXPTABLE is the double of the one before in the field |
| GaloisTables.LogOfExp | addon/coding/GaloisField.go:7-107 | LOGTABLE undoes the first 255 entries of EXPTABLE |
| GaloisField.ExpOfLog | addon/coding/GaloisField.go:7-107 | EXPTABLE undoes LOGTABLE on every byte but zero, by counting |
| GaloisField.MultiplyIsCarryless | addon/coding/GaloisField.go:117-126 | the table product is the carry-less product modulo x^8 + x^4 + x^3 + x^2 + 1 |
| GaloisField.FieldLaws | addon/coding/GaloisField.go:109-126 | addition and multiplication are those of a commutative ring in which every element is its own negative |
| GaloisField.SubtractionInverts | addon/coding/GaloisField.go:109-115 | subtraction is addition and undoes it |
| GaloisField.DivisionInverts | addon/coding/GaloisField.go:128-140 | division undoes multiplication, and multiplication division, by anything but zero |
| GaloisField.DivisionByZero | addon/coding/GaloisField.go:128-131 | division by zero, and of zero, gives zero |
| GaloisField.LookupsInRange | addon/coding/GaloisField.go:122-139 | no lookup is outside the tables |
| LogTables.Tables.Exp | addon/coding/GaloisField.go:142-156 | reducing the exponent by 255 in a loop gives the n-fold product, for zero as well; for a negative exponent the bases 0 and 1 come back |
| GaloisField.Exp | addon/coding/GaloisField.go:142-156 | the n-fold product by the reference multiplication, 1 for the exponent 0; for a negative exponent, the bases 0 and 1 |
| GaloisField.ExpAdds | addon/coding/GaloisField.go:142-156 | Exp of a sum of exponents is the product of the Exps |
| LinearCode.CombineProduct | addon/coding/RFCEncoder.go:57-62 | combining rows that are combinations is combining with the product matrix, over any commutative ring |
| RFCEncoder.BlockMultiply | addon/coding/RFCEncoder.go:71-77 | the loop scales every byte of the block |
| RFCEncoder.BlockSum | addon/coding/RFCEncoder.go:79-85 | the loop adds two blocks over the length of the second |
| RFCEncoder.Encode | addon/coding/RFCEncoder.go:50-69 | each coefficient is its draw modulo 256, and the coded block the vector of coefficients times the matrix of chunks, cut to the last chunk |
| RFCEncoder.CoefficientsAre | addon/coding/RFCEncoder.go:57-60 | draws that are bytes are the coefficients themselves |
| RFCEncoder.EveryVectorIsDrawn | addon/coding/RFCEncoder.go:57-60 | every vector of bytes is the coefficients of some draws |
| RFCEncoder.CodingComposes | addon/coding/RFCEncoder.go:50-69 | encoding with b what was encoded with the rows of A is encoding once with b·A |
| RFCEncoder.ChunksRecovered | addon/coding/RFCEncoder.go:50-69 | any left inverse of the coefficient matrix gives back every chunk, for any number and common length of chunks |
| RFCEncoder.CodingIsLinear | addon/coding/RFCEncoder.go:50-69 | with the same coefficients the code of c·x + y is c times the code of x plus the code of y |

## Left out

- BLS signatures, SHA-256, the VRF and the encodings: signatures are pairs of node and value, digests are identifiers.
- The transport, connection pools, loggers, configuration loading, storage and the trie.
- The client modules and the measuring addons.
- `blockchain/stateManager.go` and the account and contract states: the balance path is unfinished.
- `TxPool`, `Queue`, `Set` and `AtomicValue`: they are sequences and sets here; their own properties are easy.
- `GenRandSeed`, `VerifyRandSeed` and the public `Encode`: the draws of the seeded generator are an input of `RFCEncoder.Encode`.
- `HandleQCMsg`, which has no body, and with it the delivery of certificates; the HotStuff placeholder.
- More than one instance of the broadcast protocols at once; messages of an earlier instance that arrive in a later one. What an earlier instance leaves behind (the Dolev-Strong commit value) is arbitrary in `DolevStrongRuns.Init`.
- The consensusDone timers of the view node (`ds/handler_ds.go:96-104`, `tbb/handler_1deltaBB.go:170-178`): they only start the next instance.
- Overlapping handlers in the broadcast protocols: a handler runs to its end, and a wait loop ends at once or never.
- TbbTermination.Termination: proved with silent faulty nodes; under arbitrary faults `TbbByzantine` proves agreement and validity, not termination.
- TbbByzantine.AgreementExactly: says nothing about late messages together with a faulty view node, or reference points before tick f + 1.
- PbftInterleaving.OthersInterfere: `handlePropose`, which only the leader runs, is no step of the interleavings; it makes a new entry for its request, so that a repeated proposal restarts the count.
- DeltaBB.DeltaBBConsensusMod.HandleForward2Msg: an empty signature list before tick 5, on which the source crashes.
- Agreement between the commit at tick f + 6 of 1Δ-BB\* and commit point 1: the code does not promise it.
- PBFT with an equivocating leader: a pre-prepare does not bind one digest to a round.
- PBFT entries are values in a map, not records behind pointers; nothing in the source keeps such a pointer outside a lock region except the counter it reads there.
- PbftInterleaving.NotLost: "broadcast" alone does not hold between the flag and the broadcast, so the goroutine in between is part of the statement.
- Common.RatioBounds: which way float64 rounds a product; what is used of it is that it keeps the order and whole numbers. All theorems hold for every valid configuration.
- LogTables.Tables.Exp: negative exponents of other bases than 0 and 1, for which the source indexes outside its table; exponents so large that the product with a logarithm overflows.
- What `handleInject` and `handleConsensusDone` lead to over several turns of the proposer: both are modelled, but no theorem uses them.
- Empty strings as proposals: signing one returns nil and the source crashes; the model treats them like any other value, and an empty slot means nothing committed.
