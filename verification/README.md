# A verified model of the 5GLoS NGAP proxy

5GLoS sits between gNBs and AMFs and translates UE identifiers much as a NAT translates addresses.
Towards an AMF it shows its own load-balancer ID (LB ID) as the RAN UE NGAP ID; towards a gNB it shows
the LB ID as the AMF UE NGAP ID. This project models that translation, the message rewriting under it,
and the goroutines around it, and proves what the proxy promises about them. `dafny verify
dfyconfig.toml` checks everything.

## How it is organised

| files | content |
|---|---|
| `Ngap`, `NgapHeap`, `Naming` | PDUs and IE lists; extraction and modification of UE IDs as two tables and one loop each, with their get/put laws; the same loops in place on nullable, shared ID cells; which IDs a PDU names by its IEs alone, and which of them the tables cover |
| `StandardIds` | the ID IEs that section 9.2 of TS 38.413 gives each message, written down apart from the two tables; the proxy treats exactly these, save in two messages, and a message of a known UE leaves under the renamed IDs |
| `Dispatch`, `UeTables`, `Reactions` | routing of received PDUs; the four UE tables as one value; what each handler does with a PDU when nobody interferes |
| `Entities`, `Service`, `AmfManager`, `GnbManager`, `Handlers` | the objects on the heap, with every handler proved against its reaction; what Encoder and the sockets do is reduced to "a send succeeds or fails" |
| `Translation`, `HandlerRuns` | the read loops of all gNBs and AMFs as interleaved critical sections; each handler's reaction is a run of these steps |
| `DeliveredIds`, `ChannelEnds`, `UplinkChannel`, `DownlinkChannel` | which IDs the delivered messages carry in any run; the channel of each UE in both directions, under hypotheses about that UE only |
| `AmfIndex`, `RanIds`, `NatRoundTrip`, `ExampleRun` | index agreement, distinct RAN IDs and the NAT round trip, each under its own hypotheses, and one run that meets those of all theorems |
| `Misrouting`, `TableLimits` | where a message does not reach the UE its IEs name, and where the tables fall short of what routing relies on, with the exact conditions |
| `ConnectProtocol`, `LoadBound`, `GnbLifecycle`, `Admission`, `LockOrder`, `Bindings` | the connect protocol, least-load picking, gNB connections and shutdown, the admission gate, deadlock freedom, the sticky cache |
| `Options`, `FiniteSets`, `Subsequences` | small helpers |

`Reactions` and the step systems are definitions to reason about; the methods on the heap are proved to
do what `Reactions` says, `HandlerRuns` proves that `Reactions` is what the step system does, and the
theorems are about all runs of the step systems. gNBs and AMFs are identified by numbers in the tables.

## Hypotheses, and what they stand for

An ID that a PDU names (`Naming.Named`) stands in its own ID IE or in a UE-NGAP-IDs IE, whatever the
procedure. It is covered when it stands in its own IE and the procedure's rows in both tables treat that
field (`Naming.Covers`). Both ends of a channel are measured by covered IDs, or by all that are named.

- Any run: what is delivered for a context carries, where covered, the context's IDs
  (`DeliveredIds.IdsDelivered`). No hypothesis.
- Uplink channel of the UE with RAN ID r and LB ID b at gNB g (`UplinkChannel.UplinkOfUe`): an
  InitialUEMessage of g that will be filed under r names r in a covered IE and finds no context there
  (`KeyOpensOnce`); a message that any gNB forwards under a covered RAN ID equal to b has a context
  (`NoneRelayed`), because a relayed one reaches an AMF with its RAN ID as it is. Everything else is free:
  uncovered messages, messages of other UEs, RAN IDs used again elsewhere, AMFs, failures.
- Downlink channel (`DownlinkChannel.DownlinkOfUe`): index agreement below; no gNB but g opens r
  (`RanIdOwn`), because `HasUeContext` looks only at the RAN ID; a message that any AMF forwards under a
  covered AMF ID equal to b is not broadcast with it (`NoneBroadcast`). Everything else is free.
- By name, for either channel (`UplinkOfUeByName`, `DownlinkOfUeByName`): the same, and the messages of the
  UE's own gNB or AMF that name the UE, and all that name b, do so in covered IEs.
- All UEs at once (`UplinkChannel.GoodUplinkRun`, `DownlinkChannel.GoodRun`): simple sufficient conditions,
  under which every UE's channel is by name and loses messages to failures only.
- Index agreement (`AmfIndex.IndexRun`): an AMF sends Downlink NAS for its own UEs only and names each by
  one AMF ID that it gives to no other UE (section 9.3.3.1 of TS 38.413). Nothing else.
- NAT round trip (`NatRoundTrip.NatRoundTrip`): the same, and RAN IDs distinct across gNBs
  (`RanIds.RanRun`). Sends and searches may fail, gNBs and AMFs come and go.
- What a channel loses is counted exactly: messages whose admission, pick, search or send fails, and those
  that come before the UE has a context or is filed by its AMF.
- What goes wrong without them: an uncovered ID (`Misrouting.ErrorIndicationLeaks`,
  `Misrouting.ReleaseCommandBroadcast`, `Misrouting.ReleaseCompleteMisnames`), no RAN ID
  (`Misrouting.InitialWithoutRanId`), a RAN ID used again (`TableLimits.StillFound`), shared RAN IDs
  (`TableLimits.SharedRanIdMisroutes`), a UE renamed by its AMF (`TableLimits.FilingKeepsKeys`), one AMF ID
  for two UEs (`TableLimits.StillFiled`), two AMFs for one UE (`TableLimits.CrossedFiling`), a UE not
  introduced or a gNB gone (`Misrouting.BroadcastExactly`).
- A nil dereference ends the process, so no step follows one; the handlers report it as `Panicked`.
- Message handling starts after a gNB's dependencies are set. The code starts the read loop first
  (service.go:148-160); the `registered` gate orders only the cleanup.
- Read locks count as exclusive, and locks are held for whole critical sections; the search of
  `FindGnBByUeContext` is one step of the translation machine.

## Where the code differs from what it says

- internal/amf/amf.go:259 says the AMF ID is kept as 0 towards the gNB; the code sends the LB ID.
- The least-load pick counts table entries that a Downlink NAS created; a UE that is not yet answered
  counts for nothing, so equal picks can pile up. `LoadBound` gives the exact drift.
- Of the messages to which TS 38.413 gives UE ID IEs, ERROR INDICATION and Release Complete alone are not
  renamed (`StandardIds.CoveredExactly`): they are passed on with the sender's own IDs. ERROR INDICATION from a
  gNB reaches any AMF, where its RAN ID may be another UE's LB ID.
- The uplink lookup uses the RAN ID alone: a message whose row reads only an AMF ID, such as HANDOVER
  FAILURE, is looked up under RAN ID 0 and may be bound to another UE (`Misrouting.UplinkBoundExactly`).
- A standard UE Context Release Command, with its IDs in a UE-NGAP-IDs IE, is never recognised: the code
  looks for that choice in a RAN ID IE. It is broadcast to every gNB.
- `ModifyUeIdsInMessage` on a UEContextReleaseComplete always fails, although extraction finds its IDs:
  the original is forwarded with the wrong IDs (`Ngap.ReleaseCompleteKeepsIds`), and the AMF may read it as
  one of another UE (`Misrouting.ReleaseCompleteMisnames`).
- An InitialUEMessage or Uplink NAS message without IDs is taken to be of RAN ID 1 (gnb.go:241, gnb.go:307).
- The modification loop of UplinkNASTransport prints a cell after its nil test and dereferences nil for
  an ID IE without a value (ngap_builders.go:2107-2128); `Misrouting.UplinkNasPrintDies` is such an input.
- `Pick` dereferences the nil placeholder of a connection in progress (manager.go:250-252), which is listed
  exactly while an attempt is dialing (`ConnectProtocol.PlaceholderExactly`).
- `decrementActiveGnBConnections` clamps at zero; `GnbLifecycle.CounterConserved` shows the clamp is dead.

## Model

| member | source | states |
|---|---|---|
| Ngap.TablesAgree | internal/utils/ngap_builders.go:392-521 | the extract and the modify switch agree on every class and procedure except the context-release messages, and there they do not; which procedures they treat is stated by StandardIds.CoveredExactly |
| Ngap.LastHeldIsLast | internal/utils/ngap_builders.go:524-566 | the extraction loop's result is the last value present, and none exactly when no IE holds one |
| Ngap.ModifyThenExtract | internal/utils/ngap_builders.go:355-390 | put then get: the new IDs come back for exactly the ID IEs that the procedure reads and that are present; whether anything is found does not change |
| Ngap.ModifyTwice | internal/utils/ngap_builders.go:374-390 | two puts equal the last put, for every procedure |
| Ngap.ModifyWithExtracted | internal/utils/ngap_builders.go:355-390 | put of get is the identity if and only if repeated ID IEs agree |
| Ngap.RewriteKeepsContent | internal/utils/ngap_builders.go:1963-2087 | every other IE, the IE order, the class and the procedure code are unchanged |
| Ngap.SameContentExactly | internal/utils/ngap_builders.go:1963-2087 | two PDUs count as the same content if and only if they differ at most in the values of UE ID cells, which is what every theorem about contents means |
| Ngap.FoundThenModified | internal/utils/ngap_builders.go:1963-2128 | once IDs are found, modification never reports an error, and succeeds exactly when it meets no nil cell in the Uplink NAS print |
| Ngap.ReleaseCompleteKeepsIds | internal/utils/ngap_builders.go:479-480 | a release-complete is never rewritten although its IDs are found, with a concrete message |
| Naming.ReadExactlyCovered | internal/utils/ngap_builders.go:392-521 | outside context release, extraction reads a field if and only if the PDU names it in its own IE and both rows treat it, and then reads what is named |
| Naming.RewriteNames | internal/utils/ngap_builders.go:1963-2087 | for every procedure, exactly the covered IDs get the new value; every other ID that the IEs name stays |
| StandardIds.CoveredExactly | internal/utils/ngap_builders.go:392-521 | for every message and PDU, an ID is read and rewritten if and only if TS 38.413 gives the message an IE for it, the IE has a value, and the message is neither ERROR INDICATION nor Release Complete |
| StandardIds.TreatedIds | internal/utils/ngap_builders.go:355-390 | such an ID is what extraction returns, and modification replaces it unless it meets nil |
| StandardIds.NilMetExactly | internal/utils/ngap_builders.go:2107-2128 | modification dereferences nil if and only if an Uplink NAS message has an empty ID IE or a Release Command has an AMF ID IE without a choice |
| StandardIds.ExtractionDiesExactly | internal/utils/ngap_builders.go:1115-1131 | extraction does if and only if a RAN ID IE of a Release Command has an empty choice |
| StandardIds.UplinkLeaves | internal/gnb/gnb.go:295-425 | every message to which the standard gives a RAN ID, the opening and those two excepted, leaves for its UE's AMF as (LB ID, AMF ID) with its content unchanged |
| StandardIds.DownlinkLeaves | internal/amf/amf.go:212-362 | every message to which it gives an AMF ID, those two excepted, leaves for the gNB found as (RAN ID, LB ID) |
| StandardIds.OpeningLeaves | internal/gnb/gnb.go:222-293 | an InitialUEMessage leaves for the AMF picked under the new LB ID, and is filed under the RAN ID it names |
| StandardIds.ReleaseCommandWritten | internal/utils/ngap_builders.go:2607-2622 | modification of a Release Command writes other IEs than extraction reads: exactly the filled choices of AMF ID IEs |
| NgapHeap.ExtractLoop | internal/utils/ngap_builders.go:543-566 | the loop over nullable cells computes the last values present, or crashes on a nil choice |
| NgapHeap.ExtractUeIdsFromMessage | internal/utils/ngap_builders.go:355-371 | extraction from the heap equals extraction from the PDU's value, of which StandardIds.TreatedIds says what it returns |
| NgapHeap.WriteCell | internal/utils/ngap_builders.go:2107-2128 | one iteration overwrites the cell its role names and nothing else |
| NgapHeap.ModifyLoop | internal/utils/ngap_builders.go:2090-2128 | the loop rewrites every cell in place as the value law says, and crashes exactly at a nil dereference |
| NgapHeap.ModifyUeIdsInMessage | internal/utils/ngap_builders.go:374-390 | equals the value law, of which StandardIds.TreatedIds says what it writes; all or nothing: on an error no cell has changed, so the shallow copy still encodes the original |
| Dispatch.GnbSwitchForwards | internal/gnb/gnb.go:86-179 | every present payload without a handler of its own reaches the final forward, logged or not |
| Dispatch.AmfSwitchForwards | internal/amf/amf.go:85-184 | the same on the AMF side, where an NG Setup response also leaves the switch |
| Dispatch.RoutesExactly | internal/gnb/gnb.go:86-179 | by the PDU alone: refused if and only if the selected payload is missing; NG Setup, InitialUEMessage, Uplink NAS and Downlink NAS requests alone have handlers of their own |
| Dispatch.RewriteRenames | internal/gnb/gnb.go:387-402 | what the handlers send names the new IDs where the IDs were covered and the old ones elsewhere, with the same content and route |
| UeTables.CreateCoherent | internal/service/service.go:167-185 | creation keeps all tables coherent, files the context under its RAN ID and moves no other entry |
| UeTables.SetAmfUeIdCoherent | internal/ue/context.go:20-22 | storing an AMF ID keeps coherence and every immutable field |
| UeTables.AddToAmfCoherent | internal/amf/amf.go:423-427 | filing with an AMF keeps coherence; the context is found under its AMF ID |
| UeTables.LbIdsFit | internal/service/service.go:167-185 | all LB IDs fit the 32 bits of section 9.3.3.2 of TS 38.413 if and only if at most 2^32 contexts were created |
| TableLimits.SearchFindsOwner | internal/gnb/gnb.go:485-491 | the gNB search can only end at the owner if and only if no other listed gNB's live entry has the same RAN ID |
| TableLimits.SharedRanIdMisroutes | internal/gnb/manager.go:103-116 | two gNBs with one RAN ID: a UE's message may go to the other gNB |
| TableLimits.StillFound | internal/gnb/gnb.go:60-64 | a context stays found under its RAN ID if and only if the next creation is not for the same gNB and RAN ID; it is never released |
| TableLimits.FilingKeepsKeys | internal/amf/amf.go:233-242 | filing keeps every AMF-table key equal to its context's AMF ID if and only if the context is filed under no other ID |
| TableLimits.StaleKeyStays | internal/amf/amf.go:423-427 | a concrete renaming leaves the old key behind |
| TableLimits.StillFiled | internal/amf/amf.go:423-427 | filing a UE hides another one of that AMF if and only if both are given one AMF ID |
| TableLimits.CrossedFiling | internal/amf/amf.go:233-242 | an AMF ID stored by another AMF between storing and filing is the one filed, and hides whichever UE that AMF has under it |
| Misrouting.ReachesAmfExactly | internal/gnb/gnb.go:351-425 | a message that names a context's RAN ID reaches that context's AMF under its LB ID if and only if its procedure's row covers the RAN ID and it holds no nil cell that rewriting would print |
| Misrouting.ReachesGnbExactly | internal/amf/amf.go:285-362 | the same for a forwarded message towards the gNB found |
| Misrouting.UncoveredGoesAnywhere | internal/gnb/gnb.go:366-371 | a message none of whose IDs is covered is relayed to any AMF, or broadcast to all gNBs, as it is |
| Misrouting.ErrorIndicationLeaks | internal/utils/ngap_builders.go:1929-1960 | ERROR INDICATION: a gNB's may reach an AMF under the LB ID of another AMF's UE; an AMF's is broadcast with its own IDs |
| Misrouting.UplinkBoundExactly | internal/gnb/gnb.go:366-376 | an uplink message in which IDs were found, other than a Release Command, is bound to the UE that its IDs name if and only if a RAN ID was read or that UE's RAN ID is 0 |
| Misrouting.HandoverFailureBound | internal/utils/ngap_builders.go:1613-1629 | a HANDOVER FAILURE goes to the AMF of the gNB's UE with RAN ID 0, whichever UE it names |
| Misrouting.HandoverFailureMisbinds | internal/gnb/gnb.go:366-373 | a concrete pair of UEs for which that is the wrong UE and the wrong AMF |
| Misrouting.DownlinkBoundExactly | internal/amf/amf.go:212-325 | a downlink message in which IDs were found is handled for the UE that its IDs name if and only if the ID looked up was read, or that ID is 0 |
| Misrouting.BroadcastExactly | internal/amf/amf.go:316-368 | a forwarded message with a covered AMF ID is broadcast unrenamed if and only if the ID is not filed or no gNB is found |
| Misrouting.ReleaseCommandReadExactly | internal/utils/ngap_builders.go:1115-1131 | extraction of a UE Context Release Command yields nothing if and only if no RAN ID IE holds a UE-NGAP-IDs choice |
| Misrouting.ReleaseCommandBroadcast | internal/utils/ngap_builders.go:1115-1131 | the standard command is broadcast with the AMF's own IDs, whatever the tables |
| Misrouting.ReleaseCompleteUnrenamed | internal/utils/ngap_builders.go:479-480 | every Release Complete that names a known RAN ID goes to that UE's AMF with the gNB's own IDs |
| Misrouting.ReleaseCompleteMisnames | internal/gnb/gnb.go:387-402 | a concrete one whose RAN ID is the LB ID of another UE of that AMF |
| Misrouting.InitialWithoutRanId | internal/gnb/gnb.go:233-253 | an InitialUEMessage without a covered RAN ID is filed under RAN ID 1, and hides a context if and only if that gNB has one under RAN ID 1, namely that one |
| Misrouting.UplinkNasWithoutIds | internal/gnb/gnb.go:295-349 | an Uplink NAS message without covered IDs goes to the AMF of that gNB's UE with RAN ID 1, and fails if and only if there is none |
| Misrouting.UplinkNasPrintDies | internal/utils/ngap_builders.go:2107-2128 | an Uplink NAS message with a nil AMF ID cell ends the process for every known UE |
| Service.Service.CreateUeContext | internal/service/service.go:167-185 | the maps of the service and of every gNB and AMF stay tied to the abstract tables, which become the creation's tables; the context gets the next LB ID |
| Service.Service.FoundByLbId | internal/service/service.go:188-193 | the lookup by LB ID agrees with the tables and returns the stored context |
| Service.Service.FoundByRanUeId | internal/service/service.go:196-211 | the lookup by gNB and RAN ID agrees with the tables and returns a stored context |
| Service.Service.CreatedValid | internal/service/service.go:167-185 | after the writes of a creation all maps are tied again |
| Service.Service.FiledValid | internal/amf/amf.go:233-242 | after SetAmfUeId and Add all maps are tied again, and the context is still the stored one |
| GnbManager.Runtime.DecrementActive | internal/gnb/runtime.go:37-54 | with any foreign changes between load and swap, exactly one is subtracted and none of them is lost, while no load sees a counter below one |
| GnbManager.Manager.Add | internal/gnb/manager.go:34-52 | a gNB is listed once, and the counter stays the list's size |
| GnbManager.Manager.Remove | internal/gnb/manager.go:64-89 | exactly that connection's entry goes, its gNB is closed, and the counter stays the list's size |
| GnbManager.Manager.FindGnBByUeContext | internal/gnb/manager.go:103-116 | a listed gNB with that RAN ID, or none exactly when there is no such gNB |
| AmfManager.Manager.Add | internal/amf/manager.go:196-203 | both indexes get the AMF |
| AmfManager.Manager.Remove | internal/amf/manager.go:205-228 | the AMF that the ID index names leaves both indexes and is closed |
| AmfManager.Manager.Pick | internal/amf/manager.go:238-263 | a least-loaded listed AMF whatever the visiting order; none exactly when the list is empty; a crash exactly when the registry holds a placeholder, the one of ConnectProtocol.PlaceholderExactly |
| AmfManager.Manager.ConnectAmf | internal/amf/manager.go:266-354 | a taken key or a failed dial leaves the registry as it was; a failed setup withdraws key and ID; success registers a fresh AMF in both indexes |
| Handlers.Proxy.SendModified | internal/gnb/gnb.go:387-415 | exactly one frame, the rewritten PDU or the original when modification failed, and success if and only if the node can be reached; none after a nil dereference |
| Handlers.Proxy.OnGnBConnection | internal/service/service.go:134-163 | a connection is turned away exactly while draining; otherwise a fresh gNB with an empty table is listed and known, and all maps stay tied |
| Handlers.Proxy.ConnectAmf | internal/amf/manager.go:266-354 | an AMF is connected exactly when its key is free, the dial and the setup succeed; then it is in both indexes with an empty table, otherwise the registry is as before or without the key and ID; all maps stay tied |
| Handlers.Proxy.HandleUplinkNas | internal/gnb/gnb.go:295-349 | performs the uplink NAS reaction: to the context's own AMF as (LB ID, AMF ID), or an error without a send |
| Handlers.Proxy.ForwardToAmf | internal/gnb/gnb.go:351-425 | performs the forward reaction: the bound AMF, or the original to a picked AMF when no context is found |
| Handlers.Proxy.HandleInitialUe | internal/gnb/gnb.go:222-293 | the gate is asked once; only when admitted and an AMF is picked, a context is created; its message is sent as (LB ID, 0) to that AMF |
| Handlers.Proxy.HandleFromGnb | internal/gnb/gnb.go:86-220 | the tables are those of the gNB reaction; the wire gains its one frame or none, and the status says whether it arrived; NG Setup is answered to the gNB with a successful outcome of that procedure |
| Handlers.Proxy.File | internal/amf/amf.go:226-242 | the context with that LB ID gets the AMF ID and is filed under it |
| Handlers.Proxy.FindTarget | internal/gnb/manager.go:103-116 | the search result agrees with the tables |
| Handlers.Proxy.SendCopies | internal/amf/amf.go:393-410 | exactly one attempted copy per listed gNB; the success count is positive exactly when a copy succeeded |
| Handlers.Proxy.BroadcastToAllGnBs | internal/amf/amf.go:371-420 | the wire gains exactly one copy for each gNB listed; success is reported if and only if some listed gNB can be reached |
| Handlers.Proxy.HandleDownlinkNas | internal/amf/amf.go:212-283 | performs the downlink NAS reaction: context filed, then one send as (RAN ID, LB ID) to a gNB found, or an error without a send |
| Handlers.Proxy.ForwardToGnb | internal/amf/amf.go:285-368 | performs the forward reaction: one targeted send, or a broadcast of the unchanged original, with the status of what arrived |
| Handlers.Proxy.HandleFromAmf | internal/amf/amf.go:85-184 | the tables are those of the AMF reaction; the wire gains one frame, one copy for each gNB, or none, and the status says whether any arrived; exactly a successful NG Setup outcome registers the AMF |
| Reactions.GnbDelivery | internal/gnb/gnb.go:86-425 | a gNB handler makes at most one AMF send for any PDU, answers NG Setup itself, and fails without a send exactly when the payload is missing, admission or the pick refuses, or an Uplink NAS has no context |
| Reactions.AmfDelivery | internal/amf/amf.go:85-420 | an AMF handler makes one targeted send or broadcasts the message as received, and fails without a send exactly when the payload is missing or a Downlink NAS has no context or no gNB |
| Reactions.GnbForwards | internal/gnb/gnb.go:124-179 | every other message that is there, logged or not, leaves renamed for its context's AMF, or as it is for the AMF picked |
| Reactions.AmfForwards | internal/amf/amf.go:120-184 | every message but Downlink NAS that is there leaves renamed for the gNB found, or as it is for all gNBs |
| Reactions.BroadcastSends | internal/amf/amf.go:371-420 | a broadcast is one frame to each gNB listed and no other, and succeeds if and only if one of them can be reached |
| Reactions.GnbDiesExactly | internal/gnb/gnb.go:222-425 | a gNB handler ends the process if and only if its pick meets a placeholder, a message to be rewritten meets a nil dereference (`Ngap.MeetsNil`), or extraction does |
| Reactions.AmfDiesExactly | internal/amf/amf.go:285-368 | an AMF handler does so only for a forwarded message, exactly when extraction meets a nil dereference, or rewriting for the gNB found does |
| HandlerRuns.GnbHandlerRuns | internal/gnb/gnb.go:86-425 | every gNB reaction is a run of that loop's steps alone: same tables, same delivery, all else unchanged |
| HandlerRuns.AmfHandlerRuns | internal/amf/amf.go:85-427 | every AMF reaction is a run of that loop's steps alone |
| HandlerRuns.GnbWireRuns | internal/gnb/gnb.go:387-415 | what arrives at AMFs by the frames of a gNB handler is what the log of a run gains, in order |
| HandlerRuns.AmfWireRuns | internal/amf/amf.go:337-420 | what arrives at gNBs by the frames of an AMF handler, broadcasts included, is what the log of a run gains, in order |
| Translation.SafeRun | internal/service/service.go:167-211 | under any interleaving tables stay coherent, contexts only gain AMF IDs, and no message is sent for a context that its lookup returned to an AMF other than that context's; which context a lookup returns is stated by Misrouting.UplinkBoundExactly |
| Translation.ReachableSafe | internal/service/service.go:167-211 | the same for every reachable state |
| Translation.Affinity | internal/gnb/gnb.go:311-414 | between two InitialUEMessages with one gNB and RAN ID, the lookup finds the same context and everything sent for it goes to the AMF picked at its creation, whatever joins, leaves or is picked |
| Translation.CreationStartsAffinity | internal/gnb/gnb.go:245-253 | affinity applies from the creation on |
| DeliveredIds.IdsDelivered | internal/gnb/gnb.go:387-415 | in every run, whatever AMFs and gNBs do, each message sent for a context carries its LB ID as covered RAN ID towards an AMF, and its RAN ID and LB ID as covered IDs towards a gNB |
| DeliveredIds.AmfIdsDelivered | internal/amf/amf.go:233-242 | with AMFs that obey the Downlink NAS clause, its covered AMF ID towards its AMF is 0 or that AMF's own ID for the UE |
| UplinkChannel.UplinkOfUe | internal/gnb/gnb.go:222-425 | for one UE, in any run that opens its key once and relays nothing under its LB ID: what its AMF received under the LB ID followed by what the loop still holds is a subsequence of what its gNB sent under the RAN ID, shorter by exactly the messages lost; equal without losses; only failures lose messages that come after the context |
| UplinkChannel.UplinkOfUeByName | internal/gnb/gnb.go:222-425 | the same measured by every name in the IEs, when the messages that name this UE are covered |
| UplinkChannel.UplinkIdsOfUe | internal/service/service.go:167-211 | whatever AMFs read under an LB ID comes from that UE's gNB at that UE's AMF, with 0 or the AMF's own ID as covered AMF ID |
| UplinkChannel.UplinkOnlyOwnAmfByName | internal/gnb/gnb.go:351-425 | no other AMF receives a message that names the LB ID as RAN ID, when those messages are read in covered IEs and none is relayed |
| UplinkChannel.UplinkRefinement | internal/gnb/gnb.go:222-425 | all UEs at once: the channel by name, shorter by exactly the refusals and failed sends of that UE, with the AMF IDs right |
| UplinkChannel.UplinkReachesOnlyOwnAmf | internal/gnb/gnb.go:222-425 | all UEs at once: no other AMF ever receives a message that names that LB ID as RAN ID, whatever its procedure |
| AmfIndex.IndexAgreement | internal/amf/amf.go:233-242 | every AMF-table key is its context's AMF ID, and lookup by AMF ID finds the context that the LB ID names, assuming only what AMFs do in Downlink NAS |
| RanIds.TargetIsOwner | internal/gnb/gnb.go:485-491 | with distinct RAN IDs the key test holds for the context's own gNB and no other |
| NatRoundTrip.NatRoundTrip | internal/amf/amf.go:226-274 | in every reachable state what the AMF handler sends for (LB ID, a) from AMF A is (r, LB ID) to gNB g, what the gNB handler sends for g's reply is (LB ID, a) back to A, and the opposite composition is the identity too; tables and contents stay, and the search finds g exactly while it is connected |
| DownlinkChannel.DownlinkOfUe | internal/amf/amf.go:212-368 | for one UE, in any run with index agreement in which no other gNB opens its RAN ID and nothing is broadcast under its LB ID: what its gNB received under the LB ID followed by what the loop still holds is a subsequence of what its AMF sent under its AMF ID, shorter by exactly the messages lost; equal without losses; only failures lose messages that come after the filing |
| DownlinkChannel.DownlinkOfUeByName | internal/amf/amf.go:212-368 | the same measured by every name in the IEs, when the messages that name this UE are covered |
| DownlinkChannel.DownlinkIdsOfUe | internal/amf/amf.go:244-283 | whatever gNBs read under an LB ID carries that UE's RAN ID where covered, and arrives at that UE's gNB when no other gNB opens the RAN ID; AMFs are otherwise free |
| DownlinkChannel.DownlinkOnlyOwnGnbByName | internal/amf/amf.go:212-420 | no other gNB receives a message that names the LB ID as AMF ID, broadcasts included, when those messages are read in covered IEs and none is broadcast |
| DownlinkChannel.DownlinkRefinement | internal/amf/amf.go:212-368 | all UEs at once: the channel by name, shorter by exactly the failed searches and sends of that UE, with the RAN IDs right |
| DownlinkChannel.DownlinkReachesOnlyOwnGnb | internal/amf/amf.go:212-420 | all UEs at once: no other gNB ever receives a message that names that LB ID as AMF ID, broadcasts included |
| ExampleRun.GoodRunExists | internal/gnb/gnb.go:222-293 | a run that attaches and introduces a UE meets the hypotheses of all these theorems |
| ConnectProtocol.ReachableOwnership | internal/amf/manager.go:266-350 | with one NodePort per pod a key has at most one owner, a read loop that ends removes its own AMF and no other, and the NG Setup Add changes nothing |
| ConnectProtocol.IndexesAgreeExactly | internal/amf/manager.go:196-228 | the two indexes hold the same AMFs in every reachable state if and only if no pod is discovered with two NodePorts |
| ConnectProtocol.PlaceholderExactly | internal/amf/manager.go:270-283 | with one NodePort per pod, a key holds the nil placeholder in a reachable state if and only if an attempt for it is dialing |
| ConnectProtocol.PlaceholderReached | internal/amf/manager.go:250-252 | every discovered pair reaches such a state, from which a pick dies |
| LoadBound.LoadsStayWithin | internal/amf/manager.go:238-263 | with at most W registrations outstanding, two AMFs' table sizes never differ by more than W, although loads grow while they are read |
| LoadBound.BoundIsTight | internal/amf/manager.go:238-263 | for every W some run drives two AMFs exactly W apart |
| GnbLifecycle.CounterConserved | internal/gnb/runtime.go:37-54 | at every interleaving point the counter is the list's size plus the removals not yet decremented; the clamp is never reached |
| GnbLifecycle.GateOrdersCleanup | internal/service/service.go:144-163 | a removal comes after its addition and always finds its gNB; a finished connection is never listed again |
| GnbLifecycle.StopLeavesNothing | internal/service/service.go:260-266 | when the wait group is empty, every loop has finished, the list is empty and the counter is zero |
| GnbLifecycle.DrainingAdmitsAtMostOne | internal/ngap/server.go:33-56 | while draining stays on, at most the one gNB already past the check is added |
| GnbLifecycle.DrainingNeverGrows | internal/service/service.go:134-142 | after that the list never grows |
| Admission.AcceptedPolicies | internal/gnb/admission.go:143-224 | exactly the four presets and complete positive CUSTOM updates are accepted, and every accepted policy is sound; a CUSTOM one is given its own rate, burst and flag |
| Admission.PresetsOrdered | internal/gnb/admission.go:147-178 | the presets limit rate and burst in the order strong, mild, recovery; open does not limit |
| Admission.AdmissionManager.SetPolicy | internal/gnb/admission.go:65-96 | flag, rate and limiter are replaced together |
| Admission.AdmissionManager.ApplyUpdate | internal/gnb/admission.go:143-224 | a rejected update changes nothing; an accepted one puts its own rate, burst and flag, or its preset's numbers, into the policy and the limiter |
| Admission.AdmissionManager.Wait | internal/gnb/admission.go:98-125 | grants exactly when the gate is open or the limiter grants, and counts admissions and waits exactly |
| Admission.AdmissionConserved | internal/gnb/admission.go:65-125 | under any interleaving contexts created and waits counted never exceed admissions, every policy ever in force was offered by an accepted update and is sound, and a handler's flag and limiter are those of one policy that was in force |
| LockOrder.DeadlockFree | internal/service/service.go:144-185 | with any threads running any operations in any interleaving, while some thread is unfinished some thread can move |
| LockOrder.SectionOk | internal/amf/manager.go:238-263 | every nested lock goes from a manager or service lock to a leaf lock, and the gate is awaited with no lock held |
| Bindings.Cache.GetAMFForUE | internal/service/service.go:221-245 | answers and bindings are those of the cache: a valid binding to a registered AMF answers unchanged, anything else picks and rebinds |
| Bindings.AnswersRegistered | internal/service/service.go:221-245 | no answer only when no AMF is listed; otherwise an AMF registered at that moment |
| Bindings.StickyFor60Seconds | internal/service/service.go:247-257 | over any calls, joins and leaves in between, a UE keeps the AMF it was bound to for 60 seconds while that AMF stays registered |
| Bindings.ExpiresAfter60Seconds | internal/service/service.go:221-257 | from 60 seconds on the binding no longer answers |
| Bindings.GoneForgotten | internal/service/service.go:221-245 | a call that finds the bound AMF gone forgets the binding, so it does not come back with the AMF |

## Left out

- SCTP sockets, read deadlines and APER coding: encoding is taken to be total and to depend on the PDU's value only; a send succeeds or fails.
- Kubernetes discovery, configuration, minikube IP lookup and the browser automation: discovery is an arbitrary stream of (pod, NodePort) pairs.
- HTTP handlers, JSON, logging, timestamps, `status()` and `RuntimeSnapshot()`: the snapshots are not atomic, so the invariants are about the state.
- The token bucket of golang.org/x/time/rate: a limiter grants with a waiting time or reports an error; rates are reals, so NaN is not covered.
- NG Setup builders and procedure-name tables: constant data; the IEs of the answer to a gNB's NG Setup are not modelled.
- The pick strategies, connection pool, health monitor, gNB sessions and `Context.UpdateIds`: stubs or uncalled; `PickWithStrategy` re-enters its own lock and is outside the lock order.
- Uniqueness of the hashed local port: the character sum does not give it.
- Integer width: LB IDs and counters are unbounded here; the source's 64-bit counters would wrap after 2^63 contexts.
- Waiting in `Manager.Close` and `Stop` on wait groups is not part of the lock model; `GnbLifecycle` covers what holds when `Stop` returns, not that it does.
- UE IDs outside the ID IEs and the UE-NGAP-IDs IE, such as the Source AMF UE NGAP ID of a Path Switch Request or the connection lists of NG Reset: no code touches them, and they are part of an IE's opaque rest.
- UplinkChannel.UplinkOfUeByName: a UE whose own gNB names it in an uncovered IE, as in a Release Complete or an ERROR INDICATION, has its channel by covered IDs only (UplinkChannel.UplinkOfUe); Misrouting.ReachesAmfExactly and Misrouting.ReleaseCompleteUnrenamed say where the other message goes.
- DownlinkChannel.DownlinkOfUeByName: the same for a UE whose AMF names it in an uncovered IE, as in the standard Release Command; Misrouting.ReleaseCommandBroadcast and Misrouting.BroadcastExactly say where that message goes.
- DownlinkChannel.DownlinkOfUe: index agreement is asked of all AMFs, not of the UE's own only, because another AMF that names one of its UEs can change what it files (TableLimits.CrossedFiling).
- GnbManager.Manager.Remove: the deletion of the gNB's session entry, because nothing ever creates one.
- AmfManager.Manager.Remove: the deletion of the connection pool entry, because nothing ever creates one.
- Handlers.Proxy.HandleFromGnb: one handler at a time on the heap; interleaving is the subject of `Translation`.
- AmfManager.Manager.ConnectAmf: one attempt without interference; interleaved attempts are the subject of `ConnectProtocol`.
- Bindings.Cache.GetAMFForUE: sequential calls and no placeholder in the list; a placeholder would end the process in `Pick`.
