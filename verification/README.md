# Verified model of the QNAP CSI driver

A Dafny model of the three stateful protocols of the driver, with proofs about them: the
create/delete saga of the controller against the NAS, the attach/detach protocol of the node,
and the paginated volume listing with its opaque token. `dafny verify dfyconfig.toml` checks
the whole project.

## How it is built

| file | what it holds |
|---|---|
| `Wrappers.dfy`, `Text.dfy` | option and result types; the string functions of the Go library the codec uses |
| `Base64.dfy`, `SeenToken.dfy` | base 64 (section 4 of RFC 4648) and the listing token |
| `Paging.dfy` | one page, and runs of pages over changing lists |
| `Names.dfy`, `Capacity.dfy` | the name normaliser and the size arithmetic |
| `Lists.dfy` | lists of indexes and the sets they stand for |
| `Nas.dfy` | the NAS: targets and LUNs under reusable indexes, one effect per API call |
| `Saga.dfy` | CreateVolume and DeleteVolume as step machines: the next call, and how a reply is taken |
| `SagaSafety.dfy` | all interleavings of any number of requests: the invariant, and the one step that breaks it |
| `SagaOwnership.dfy` | in all interleavings: whose objects are touched, and what a reported success stands for |
| `SagaSerial.dfy`, `SagaLosses.dfy` | what one request run alone leaves, also when effects are lost |
| `SagaTheorems.dfy` | requests one after the other: round trips, series of requests |
| `SagaHazard.dfy` | what the step that breaks the invariant leads to |
| `Controller.dfy` | the controller service as a class over a NAS client, in the source's order |
| `Handoff.dfy` | from the volume context to the connector |
| `Host.dfy`, `HostSafety.dfy`, `HostRuns.dfy` | one node; all interleavings with crashes; series of publishes |
| `HostResults.dfy` | exactly when a publish or unpublish reports success, and what holds of the node then |
| `NodeDriver.dfy` | the node service as a class, in the source's order |
| `Lifecycle.dfy` | what one service returns, used by the other |

Everything the outside decides is data. An `Event` (or `HostEvent`) says for one call whether it
succeeds, fails without effect, or takes effect although the caller is told it failed; which free
index a new object gets; the IQN; the order of a listing; the status of a LUN. The step machines
are functions of such events, so a theorem over all event sequences is a theorem over all
behaviours of the NAS, the network and the node. The classes follow the source call by call, and
their contracts say that they do exactly what the step machine run alone does (`RunCreate`,
`RunDelete`, `RunOp`); `SerialIsARun` and `OpIsARun` say that such a run is one of the
interleavings. A script that is used up stands for a peer that no longer answers, which bounds the
readiness loop without a clock: the loop goes on for as long as the script reports "creating".

## What the proofs found

- **A delete can remove the LUN of another volume.** When an attach takes effect but is reported as
  failed, and the compensating removal of the target fails, the LUN is removed while the target
  still maps its index. If the NAS keeps the mapping (the client code does not say), the index is
  later given to another volume's LUN, and deleting the first volume removes it. `Hazard` describes
  this step by the state before it and what the NAS makes of the call. It is the only step that
  breaks the invariant (`StepKeepsInv`), and after a step from a good state some run of harmless
  steps leads a delete to another volume's LUN if and only if it was this one
  (`EndangersExactlyWhen`). `ForeignLunLost` gives a series of single requests for any two free names.
- **A delete that stops after removing the target is never completed.** The target goes if and only if login and
  listing are answered and its removal takes effect, acknowledged or not; the LUNs whose removals do
  not take effect then stay, and later deletes of that id succeed and do nothing
  (`DeleteNeverResumes`, for all failures and lost effects). From a state in order, such a delete
  leads the next create of the name to ask the NAS for a LUN name in use, and no other delete
  does (`PartialDeleteThenUnsafe`).
- **A create can strand its LUN or leave a mapping without one.** `CreateEffect` says from the
  events, for all failures and lost effects, when it does.
- **The first ListVolumes call panics.** With an empty starting token the seen set stays a nil
  pointer and is dereferenced at driver/controller.go:280. `PanicsExactlyWhen` gives the exact
  condition. The properties of whole runs are stated for any first token, the empty one with the
  evident intent, an empty set; for any other first token they hold of the code as written
  (`AnswersAreTheRun`), even for one that cannot be read, which lists everything.
- **A volume with an empty id.** A name such as "---" is accepted by CreateVolume and cleans to the
  empty string, which DeleteVolume and the node refuse (`UndeletableExactlyWhen`).
- An unpublish that reports success may leave the session of the volume connected: a logout without
  effect is not reported (`UnpublishSucceeded`).
- A ListFailed answer does not tell the caller whether nothing or a complete volume was made
  (`CreateResidue`).

## Assumptions

- NAS: duplicate target names are possible, a LUN name in use cannot be created again, deleting a
  target leaves its LUNs, an index that does not exist is deleted successfully for LUNs and not for
  targets. Whether removing a LUN drops it from a target's list is left open.
- Requests in flight have distinct names (the cleaned name of a create, the raw id of a delete).
  The driver has no lock; for equal names nothing is claimed.
- Whose name a LUN bears is claimed of runs that start where LUNs bear the names of the targets they
  are attached to (`Named`), as they do when only this driver made volumes. All else is claimed
  without that.
- Node: every volume has its own block device; a target path is used for one volume only
  (`MisdirectedUnpublish` gives the exact condition under which it matters); operations on one
  volume are serialised (what happens otherwise is not shown); target paths are in normal form;
  the mount table is read accurately; unmounting a path that is not mounted removes nothing; a
  failed persist leaves an earlier file and a failed connect an existing session. A recursive
  removal leaves the directories that lead to a mount; that it does not reach into a mount is
  claimed when target paths do not lie below one another (`NestedPathReached` shows what happens
  otherwise). The connector file of a volume is identified with its id.

## Model

| member | source | states |
|---|---|---|
| Text.ItoaNotation | driver/utils.go:17 | decimal notation: the ten digits, a further digit at the end, a minus sign in front |
| Text.AtoiReading | driver/utils.go:33-36 | text that is not printed that way: a plus sign and leading zeros change nothing, a minus sign negates, anything else is an error |
| Text.ToInt32Spec | driver/iscsi_iscsi.go:80 | the conversion keeps a number of 32 bits and otherwise differs by a multiple of 2^32 |
| Text.SplitSpec | driver/utils.go:32 | splitting gives the pieces without commas whose joining is the text |
| Text.TrimSpec | driver/utils.go:20 | trimming takes away all the commas at the end and nothing else |
| Text.ItoaRoundTrip | driver/utils.go:17 | a printed index reads back as itself exactly when it has 64 bits |
| Base64.DecodeEncode | driver/utils.go:21-27 | decoding undoes encoding for every string of bytes |
| Base64.SymbolTable | driver/utils.go:21 | the 64 symbols are those of Table 1 of RFC 4648 |
| Base64.GroupsOfBits | driver/utils.go:21 | four symbols hold the 24 bits of three bytes, most significant first |
| Base64.TestVectors | driver/utils.go:21 | the test vectors of section 10 of RFC 4648 |
| Base64.DecodesExactlyWhen | driver/utils.go:27-30 | text without line breaks can be decoded if and only if its groups are complete and properly padded |
| Base64.LineBreaksIgnored | driver/utils.go:27-30 | a line break anywhere changes nothing |
| SeenToken.SeenIndexesToBase64String | driver/utils.go:14-22 | the loop with the trailing trim computes the base 64 of the comma-joined decimals |
| SeenToken.Base64SeenIndexesToMap | driver/utils.go:24-41 | the loop yields the set the token stands for, or an error for bad base 64 or a piece that is no number |
| SeenToken.TokenText | driver/utils.go:14-22 | the token is base 64 of the decimals in the order of the list, a comma between each two |
| SeenToken.SeenOfExactly | driver/utils.go:24-41 | any token stands for a set if and only if it is base 64 of numbers between commas, and then for these numbers |
| SeenToken.TokenRoundTrip | driver/utils.go:14-41 | decoding an encoded list gives exactly the set of its elements, if and only if the list is not empty and holds 64-bit numbers |
| SeenToken.TokenInjective | driver/utils.go:14-22 | different lists of indexes have different tokens |
| SeenToken.TokenEmpty | driver/utils.go:14-22 | the token is empty only for the empty list |
| SeenToken.SetRoundTrip | driver/controller.go:288 | the token issued for a non-empty set of indexes carries that set back |
| Paging.ScanSpec | driver/controller.go:272-302 | the loop takes the first entries not seen, in list order, is full exactly when more are left, and sees exactly what it took |
| Paging.TokenCarriesSeen | driver/controller.go:286-290 | with a limit that is not negative, a page that is not the last never encodes an empty set, and its token is that of the ascending list of what was seen and reads back as it |
| Paging.NegativeLimit | driver/controller.go:286-290 | with a negative limit every page is empty and sees nothing more; with nothing seen before, it ends the listing although targets are left |
| Paging.TokenRunIsSetRun | driver/controller.go:262-302 | over a whole run, passing the seen set through the token loses nothing |
| Paging.NoIndexTwice | driver/controller.go:249-310 | over changing lists, no run returns an index twice, nor one the first token names |
| Paging.EveryIndexOnce | driver/controller.go:249-310 | a run from any first token that ends with an empty token returns an index that was in all the lists shown if and only if the first token does not name it |
| Paging.PagingTerminates | driver/controller.go:279-302 | every page but the last adds k indexes to those seen, so paging over a finite set of indexes ends within \|universe\| / k + 1 calls |
| Paging.UnchangingList | driver/controller.go:272-307 | over an unchanging list the pages are, in order, the list without what the first token names, in max(1, ceil(n/k)) pages, all but the last with k entries and a token that carries all seen |
| Paging.NoLimit | driver/controller.go:275-277 | without a limit one page returns all that the first token does not name, and ends the listing |
| Paging.FullPagesCarrySeen | driver/controller.go:286-290 | every page of a run that is not the last has a decodable token with all that was seen |
| Names.CleanedIsClean | driver/utils.go:43-47 | a cleaned name holds only [a-z0-9] |
| Names.CleanIdempotent | driver/utils.go:43-47 | cleaning twice is cleaning once, and the fixed points are exactly the clean names |
| Names.CleanConcat | driver/utils.go:43-47 | cleaning works on the parts of a name independently |
| Names.CleanedCharacter | driver/utils.go:43-47 | what each character becomes: a capital letter the small one at its place in the alphabet, small letters and digits themselves, two signs "k" and "i", all others nothing |
| Names.CleanedEqualExactlyWhen | driver/utils.go:43-47 | names of letters and digits have equal cleaned forms if and only if they agree at every place up to case |
| Capacity.ExtractStorage | driver/utils.go:49-104 | an accepted size is a multiple of 1 GiB from 1 to 128 GiB inside the range, the least or greatest fitting; the exact condition for acceptance |
| Capacity.SmallRequirementWithLimit | driver/utils.go:67-85 | a requirement under 1 GiB with a usable limit is stopped by the check for a multiple of 1 GiB and by no other |
| Capacity.RefusalIsFirstReason | driver/utils.go:64-90 | the reason given for a refusal is the first, in the order of the checks, that is true of the range |
| Capacity.SizesInBytes | driver/controller.go:26-36 | the minimum, maximum and default size as numbers |
| Nas.NamesOfNewObjects | qnap/api.go:416-574 | a name can be given to several targets, but a LUN name in use not again |
| Nas.ChangesOfTargets | qnap/api.go:456-644 | what adding an initiator and attaching a LUN change, and what they need |
| Nas.RemovalsOfObjects | qnap/api.go:500-610 | removing a target leaves its LUNs and fails when it is not there; removing a LUN never does |
| Nas.ListingSpec | qnap/api.go:383-409 | a listing shows every target exactly once, as it is, in any order the NAS chooses |
| Nas.FreeSlot | qnap/api.go:448 | a new object gets an index that is free, and any free one can be it |
| Saga.FirstFailureReported | driver/controller.go:71-201 | a request reports the first of its calls that failed, whatever happens in the compensation; when none failed it succeeds, unless the name is taken or the IQN missing |
| Saga.PolledWhileCreating | driver/controller.go:111-124 | a LUN of status "0" is polled again, one of any other status attached |
| SagaSafety.OneStep | driver/controller.go:71-149 | each call of a create or delete keeps the NAS well formed, justifies the next position, and touches only the request's own name |
| SagaSafety.StepKeepsInv | driver/controller.go:126-131 | a step of any request in any interleaving keeps the invariant if and only if it is not the hazardous one |
| SagaSafety.RunKeepsInv | driver/controller.go:76-197 | over every run, target names stay unique, every LUN is on one target at most and every listed LUN exists, in every state, if and only if no step is the hazardous one |
| SagaOwnership.DeletesHitOwnObjects | driver/controller.go:97-130 | every removal by index, compensating ones included, hits a target of the request's own name, or an existing LUN that is attached to no other name, is held by no other request and, when LUNs bore the names of their targets to begin with, bears the request's own name |
| SagaSafety.LunIndexStaysValid | driver/controller.go:104-130 | as long as a request remembers a LUN index it denotes one and the same LUN, with indexes reused around it |
| SagaSafety.TargetIndexStaysValid | driver/controller.go:90-128 | the same for a target index |
| SagaOwnership.UninvolvedVolumesKept | driver/controller.go:182-197 | the targets of a name that is not in flight and their LUNs are untouched by every run, and so are all LUNs of that name, attached or not, when LUNs bore the names of their targets to begin with |
| SagaOwnership.CreatedInAnyInterleaving | driver/controller.go:47-164 | a create that reports success, whatever is served meanwhile, leaves the only target of its name, open to initiators, with exactly one LUN of its name and the capacity asked for, and reports that target's IQN |
| SagaOwnership.DeletedInAnyInterleaving | driver/controller.go:181-201 | a delete that reports success, whatever is served meanwhile, leaves no target of its name and no LUN of the name under an index it found |
| SagaSafety.SerialIsARun | driver/controller.go:47-202 | a request run alone is the interleaving in which no other one moves |
| SagaSerial.CreateResidue | driver/controller.go:71-162 | success adds exactly one target with one LUN of the asked size, open to initiators, and reports its own IQN; every refusal leaves exactly what is listed for it, provided no effect was lost where it follows a call that makes something; the length of the log tells the two listings apart |
| SagaSerial.DeleteResidue | driver/controller.go:172-202 | success removes exactly the target of the name and its LUNs; failing at the i-th LUN, with i read off the log, leaves exactly the target and the LUNs before it gone |
| SagaSerial.DeleteEffect | driver/controller.go:172-197 | what is left of the target and its LUNs for every combination of failures and lost effects |
| SagaLosses.CreateEffect | driver/controller.go:71-149 | for every combination of failures and lost effects: whether a LUN is left attached to nothing, or a mapping without its LUN, or neither |
| SagaSerial.DeleteAbsent | driver/controller.go:200-201 | deleting a name no target has changes nothing and succeeds once login and listing do |
| SagaTheorems.CreateSucceeds | driver/controller.go:71-164 | a create of a free name succeeds after any number of polls when all calls are answered and an IQN is there |
| SagaTheorems.CreateThenDelete | driver/controller.go:151-201 | create and then delete of the returned id restores the maps of the NAS, and a second delete changes nothing |
| SagaTheorems.DeleteSucceeds | driver/controller.go:172-197 | a delete whose calls are all answered succeeds and removes just the target and its LUNs |
| SagaTheorems.LateFailureThenDelete | driver/controller.go:134-149 | a create that fails after the attach leaves a complete volume that one delete removes, whatever else was lost |
| SagaTheorems.DeleteNeverResumes | driver/controller.go:189-194 | for every script: the target survives a delete exactly when login or listing failed or its removal had no effect, and then nothing changed; otherwise every later delete of that id changes nothing |
| SagaTheorems.HomedIsSafe | driver/controller.go:82-104 | when every LUN is attached to a target of its name, no create asks for a LUN name in use |
| SagaTheorems.HomedAfterCreate | driver/controller.go:113-132 | a create keeps every LUN at home, and the NAS well formed, if and only if the events do not strand its LUN, or leave a mapping without it |
| SagaTheorems.HomedAfterDelete | driver/controller.go:184-197 | a delete keeps every LUN at home if and only if it does not remove the target without all of its LUNs |
| SagaTheorems.OrderlySeriesIsSafe | driver/controller.go:82-132 | over every series of requests that strand no LUN and leave no mapping without one, lost effects or not, no create asks for a LUN name in use |
| SagaTheorems.UnsafeExactlyWhen | qnap/api.go:534-560 | once its first four calls are answered, a create asks for a LUN name in use if and only if no target but some LUN has the name |
| SagaTheorems.PartialDeleteThenUnsafe | driver/controller.go:189-194 | a delete leads the next create of the name into that call if and only if it removed the target without all of its LUNs |
| SagaHazard.EndangersExactlyWhen | driver/controller.go:126-131 | after a step from a good state, a run of harmless steps can bring a delete to a LUN attached to another name if and only if the step was the hazardous one |
| SagaHazard.ForeignLunLost | driver/controller.go:127-131 | for any two free names, a series of requests in which deleting one removes the LUN of the other |
| Controller.ValidateCapabilities | driver/controller.go:401-418 | the violations are exactly those of the single capabilities, and there are none exactly when all are supported |
| Controller.FindTarget | driver/controller.go:140-145 | the loop finds the first target of the name in the list, or that there is none |
| Controller.Driver.CreateVolume | driver/controller.go:47-165 | an unacceptable request reaches no NAS call and is refused for the first thing wrong with it; any other makes exactly the calls of the create of its cleaned name; on success the id, capacity and context answered are those of the one new volume on the NAS, and fit the request; the status codes, with the conflict exactly when a target of the name exists |
| Controller.Driver.Provision | driver/controller.go:71-149 | the calls in order with the early returns have the outcome, effect and log of the step machine |
| Controller.Driver.AwaitReady | driver/controller.go:111-124 | the readiness loop ends in the attach or in a failed poll |
| Controller.Driver.DeleteVolume | driver/controller.go:167-202 | an empty id is refused; any other makes exactly the calls of the delete; with all calls answered just the target of the id and its LUNs are gone |
| Controller.Driver.Unprovision | driver/controller.go:172-201 | the calls in order with the early returns have the outcome, effect and log of the step machine |
| Controller.Driver.ListVolumes | driver/controller.go:249-310 | the answer is made from the target list the NAS shows, and nothing changes there |
| Controller.ListPage | driver/controller.go:262-309 | the loop as written, nil pointer included, computes the answer |
| Controller.PanicsExactlyWhen | driver/controller.go:262-280 | it panics if and only if the starting token is empty and there is a target, and otherwise returns the intended page |
| Controller.AnswersAreTheRun | driver/controller.go:262-302 | over whole runs of the code as written: from any non-empty first token no call panics and the answers are the pages of the run; from the empty one the first call panics unless there is no target |
| Controller.UnreadableTokenListsAll | driver/controller.go:262-270 | a token that cannot be read lists all targets, in order, in one answer when no limit is set |
| Handoff.GetISCSIInfo | driver/iscsi_iscsi.go:28-97 | the collecting loop and the checks yield the disk information or the first error |
| Handoff.ParseChap | driver/iscsi_iscsi.go:168-217 | a secret is accepted if and only if it is empty or has all four keys, the fields carry the values of the keys, and the error names the first key missing |
| Handoff.AcceptedExactlyWhen | driver/iscsi_iscsi.go:28-97 | the exact condition under which a volume context is accepted |
| Handoff.ConnectorDefined | driver/iscsi_iscsi.go:99-139 | behind an accepted context the connector is not nil, points at the volume's target and has at least one portal, all with a port |
| Handoff.ConnectorCarries | driver/iscsi_iscsi.go:50-120 | the connector has the target portal and then every further portal in order, each with a port, the LUN number of the context, discovery on, and the values of the session and discovery keys |
| Handoff.DiskCarries | driver/iscsi_iscsi.go:62-97 | the CHAP flags, interface, initiator name and IQN of the disk are those of the context |
| Handoff.RefusalOfContext | driver/iscsi_iscsi.go:33-87 | the error for a context is the first, in the order of the checks, that is true of it |
| Handoff.PortalIdempotent | driver/iscsi_iscsi.go:151-157 | normalising a portal twice is normalising it once |
| Host.RemovedRecursively | driver/iscsi_util.go:104-106 | a recursive removal leaves nothing at or below the path unless something is mounted there, and takes nothing from elsewhere |
| HostSafety.NodeStepKeeps | driver/iscsi_util.go:17-116 | every step, failure and crash keeps the invariant of the node |
| HostSafety.MountsStayBacked | driver/iscsi_util.go:41-60 | over every run with failures and crashes, whatever is mounted from a volume has its connector file, session and device |
| HostSafety.TeardownIsSafe | driver/iscsi_util.go:92-111 | devices, sessions and files go only when nothing is mounted from the volume, and no recursive removal reaches a mount, at the path itself or, unless target paths nest, below it |
| HostSafety.NestedPathReached | driver/iscsi_util.go:93-107 | when they nest, three working calls bring the unpublish of the last mount to the recursive removal of a path with a mount below |
| HostSafety.CountIsExact | driver/iscsi_util.go:66-95 | after the unmount the count is the number of remaining mounts exactly when the path was mounted, and -1 otherwise |
| HostSafety.OpIsARun | driver/iscsi_util.go:17-116 | an operation run alone is the interleaving in which no other one moves |
| HostRuns.OperationStarts | driver/node.go:38-91 | a publish or unpublish of a volume with none in flight is one of the interleavings |
| HostRuns.CrashLeavesHost | driver/iscsi_util.go:17-116 | a crash ends all operations where they stand and leaves the host as it is |
| HostResults.PublishOkExactlyWhen | driver/iscsi_util.go:17-63 | a publish reports success if and only if each of its calls is answered and the connect names a device |
| HostResults.PublishSucceeded | driver/iscsi_util.go:17-63 | success of a publish, on every host and with any failures: something is mounted at the path, and the volume with file, session and device when nothing was before |
| HostResults.UnpublishOkExactlyWhen | driver/iscsi_util.go:65-116 | exactly when an unpublish reports success, by the calls that are answered and those that need not be |
| HostResults.UnpublishSucceeded | driver/iscsi_util.go:65-116 | success of an unpublish: nothing is mounted at the path, and after the last mount file and device are gone |
| HostResults.ResultsInAnyInterleaving | driver/iscsi_util.go:17-116 | the same of every operation that reports success in any interleaving with failures and crashes |
| HostRuns.FinePublish | driver/iscsi_util.go:17-63 | what a publish without failures does, for a path that is mounted already or not |
| HostRuns.FineUnpublish | driver/iscsi_util.go:65-116 | an unpublish without failures disconnects if and only if it removed the last mount |
| HostRuns.UnpublishOfUnmounted | driver/iscsi_util.go:66-95 | an unpublish of a path that is not mounted changes nothing, whatever fails |
| HostRuns.PublishAllThenUnpublishAll | driver/iscsi_util.go:65-116 | any number of publishes, then unpublishes in any order: connected while a path is left, only the last one disconnects, and only the directories of the other paths remain, none below the last one |
| HostRuns.MisdirectedUnpublish | driver/iscsi_util.go:87-104 | unpublishing a connected volume at a mounted path leaves it mounted without a session if and only if another volume is mounted there and nowhere else while it is mounted somewhere |
| NodeDriver.NodeService.AttachDisk | driver/iscsi_util.go:17-63 | the calls in order with the early returns have the result and effect of the step machine; after success the path is mounted, from the volume when it was not before |
| NodeDriver.NodeService.DetachDisk | driver/iscsi_util.go:65-116 | the same, with the count taken before the unmount; after success nothing is mounted at the path, and after the last mount file and device are gone |
| NodeDriver.NodeService.NodePublishVolume | driver/node.go:38-68 | the guards in order; a refused request leaves the node untouched, any other runs the publish with a connector that is not nil; after success the path is mounted with the volume behind it |
| NodeDriver.NodeService.NodeUnpublishVolume | driver/node.go:70-91 | the guards in order, then the unpublish; after success nothing is mounted at the path |
| NodeDriver.GuardsExactly | driver/node.go:39-47 | which requests pass the guards, and which missing field the error names |
| Lifecycle.ContextAcceptedExactlyWhen | driver/controller.go:151-162 | the node accepts the context of a created volume if and only if a portal is configured |
| Lifecycle.CreatedVolumeIsAccepted | driver/controller.go:151-162 | every successful create run alone hands over an accepted context with the IQN of its own target, and adds just that volume |
| Lifecycle.CreatedMeanwhileIsAccepted | driver/controller.go:134-162 | so does every successful create in any interleaving, with the IQN of the complete volume it leaves |
| Lifecycle.AnsweredVolumeDeletes | driver/controller.go:151-201 | deleting the id that a successful create answered, with all calls answered, restores the maps of the NAS |
| Lifecycle.UndeletableExactlyWhen | driver/controller.go:168-170 | exactly the names without a character that leaves something give a volume whose id DeleteVolume, NodePublishVolume and NodeUnpublishVolume refuse at their guards |
| Lifecycle.NamesCollideExactlyWhen | driver/controller.go:82-86 | a create is turned away because of another one if and only if the cleaned names are equal |

## Left out

- HTTP, XML, login sessions and session ids of `qnap/api.go`: each call keeps only its outcome and effect.
- The internals of csi-lib-iscsi, of the mount library and of the file system: each call keeps its effect under the assumptions above.
- JSON parsing: a parameter of the hand-off; only its reading of the empty list and of a missing secret is assumed where a created volume is concerned.
- The storage pool id, sector size and other fixed arguments of the create calls, and the choice between "ro" and "rw" and other mount options.
- The content of the persisted connector file (IQN, portals, secrets): the node keeps only whether a volume has one.
- Clocks: the sleep of the readiness loop. The loop also ends on "removing", "not_found" and unknown statuses, so a created LUN is not claimed to be ready.
- Concurrent requests for the same name and concurrent operations on the same volume of a node: the driver has no lock, and the properties need not hold.
- CreateVolume idempotency of the "CreateVolume" section of the CSI specification v1.5.0: the code answers AlreadyExists instead.
- Paging.EveryIndexOnce: says nothing about target lists longer than 2^31 - 1 or negative limits, where the conversions to int32 change the limit.
- Identity service, GetCapacity, ValidateVolumeCapabilities, capability listings, server setup, logging, `formatBytes`, Helm charts and `cmd/`: no hard property.
