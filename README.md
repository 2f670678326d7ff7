# nmxact BLE dispatch, command protocols and resource gate

This project models three pieces of the Mynewt management-transport
library (nmxact) that talk to a BLE host through a JSON bridge:

- **The BLE dispatcher** (`nmble/dispatch.go`). Listeners register under a
  correlation header: op, type, sequence number and connection handle,
  where -1 is the wildcard. A concrete sequence number is kept in
  `seqMap`. Every other header is kept in `baseMap`. An incoming record is
  decoded through the `msgCtorMap` table and routed to the one listener it
  resolves to. `ErrorAll` sends an error to every registered listener.
- **The per-command protocols** (`nmble/ble_act.go`, vendored copy). Each
  command serialises its request and sends it. It then loops on its
  listener until a terminating response, event, error, timeout or abort
  arrives.
- **The single-resource gate** (`nmxutil/sres.go`). One holder at a time.
  Other claimants queue in FIFO order and are promoted on release.

Files:

- `wrappers.dfy`: `Option` and `Result`.
- `ble_types.dfy`, module `BleTypes`: the `Bytes` and `BleError` types that both Go files use.
- `dispatch.dfy`, module `Dispatch`, covers the dispatcher:
  - `BleDispatcher` is a class whose map fields `seqMap` and `baseMap` are updated in place.
  - `BleListener` is a class whose channels are queues (`seq`).
  - The Go `for … range` over a map visits keys in random order. Here it is a loop that picks keys with `:|`.
  - Each lookup is specified by a predicate on the pure `Registry` value of the two maps.
  - `Registry.Inv` is the preserved invariant: every `baseMap` key has Seq -1, and no two `baseMap` keys are compatible.
- `ble_act.dfy`, module `BleAct`, covers the command protocols:
  - Each command is a method with a `while` loop over a script. The script lists the events the Go `select` picks, in order: `Error`, `Record`, `Timeout` or `Abort`.
  - Each method is proved equal to a recursive specification function (`AckWait`, `DiscSvcWait`, `DiscChrsWait`, `MtuWait`, `ScanWait`).
  - A script that ends before the loop does gives the outcome `Waiting`.
  - Lemmas describe what the loops do over any script.
- `sres.dfy`, module `SRes`, covers the gate:
  - `SingleResource` is a class with fields `acquired` and `waitQueue`.
  - Each method's new state and sends are tied to a step function on the pure `Gate` value.
  - FIFO order and the invariant `|waitQueue| > 0 ==> acquired` are proved about `Gate`.

## Model

| member | source | states |
|---|---|---|
| Dispatch.BleListener.constructor | nmxact/nmble/dispatch.go:50-55 | a new listener has empty record and error queues of capacities 16 and 1 |
| Dispatch.BleDispatcher.constructor | nmxact/nmble/dispatch.go:103-108 | a new dispatcher has empty maps and satisfies the registry invariant |
| Dispatch.MsgCtorMapSound | nmxact/nmble/dispatch.go:83-101 | every (op, type) pair in the constructor table is the pair of the message kind it builds |
| Dispatch.MsgCtorMapComplete | nmxact/nmble/dispatch.go:65-101 | every message kind is in the table under its own pair, so the table is a bijection between the 16 pairs and the 16 kinds |
| Dispatch.DecodeBleMsg | nmxact/nmble/dispatch.go:201-230 | succeeds exactly when the header decodes, its (op, type) pair is in the table and the decoder accepts the body as that pair's kind; a bad header fails with MalformedHeader, a pair missing from the table with that pair, a rejected body with MalformedBody naming the kind; a success carries the decoded header, a kind whose pair is the header's pair and the record's bytes; a decoded op or type is never the wildcard |
| Dispatch.FieldCompatible | nmxact/nmble/dispatch.go:114-124 | a wildcard on either side matches; two concrete values match exactly when equal |
| Dispatch.Compatible | nmxact/nmble/dispatch.go:114-124 | a baseMap key is excluded exactly when op, type or handle differs with both sides concrete; the Seq field is never compared |
| Dispatch.CompatibleSymmetricIgnoresSeq | nmxact/nmble/dispatch.go:114-124 | the test gives the same answer with the two headers swapped and with either Seq replaced |
| Dispatch.TypeOnlyKeyMatchesType | nmxact/nmble/dispatch.go:114-124 | a key fixing only the type matches exactly the headers of that type or of wildcard type |
| Dispatch.CompatibleThroughConcrete | nmxact/nmble/dispatch.go:114-124 | two keys compatible with the same header whose op, type and handle are concrete are compatible with each other |
| Dispatch.DupResultMeansOverlap | nmxact/nmble/dispatch.go:132-140 | findDupListener finds something exactly when the registry overlaps the header: the seq entry for a concrete Seq, otherwise any compatible baseMap key |
| Dispatch.InsertWildPreservesInv | nmxact/nmble/dispatch.go:178-179 | inserting a wildcard-Seq header that overlaps no key keeps the invariant |
| Dispatch.InsertSeqPreservesInv | nmxact/nmble/dispatch.go:177 | inserting a concrete Seq into seqMap keeps the invariant |
| Dispatch.ResolvedEntryIsHeld | nmxact/nmble/dispatch.go:142-152 | what findListener resolves is stored in the map its key's Seq selects, and its listener is registered |
| Dispatch.DeleteHeldPreservesInv | nmxact/nmble/dispatch.go:191-195 | deleting a resolved entry from either map keeps the invariant |
| Dispatch.ConcreteRecordResolvesUniquely | nmxact/nmble/dispatch.go:110-152 | under the invariant, a record with concrete op, type and handle resolves to the same listener whatever order the base scan visits keys in |
| Dispatch.BleDispatcher.FindBaseListener | nmxact/nmble/dispatch.go:110-130 | the result is a baseMap key compatible with the header on op, type and handle, together with its listener; None only when no key is compatible |
| Dispatch.BleDispatcher.FindDupListener | nmxact/nmble/dispatch.go:132-140 | a concrete Seq is looked up in seqMap only; a wildcard Seq uses the base scan; the result is Some exactly when the registry overlaps the header |
| Dispatch.BleDispatcher.FindListener | nmxact/nmble/dispatch.go:142-152 | a concrete, registered Seq resolves to its seqMap listener; anything else falls back to the base scan |
| Dispatch.BleDispatcher.AddListener | nmxact/nmble/dispatch.go:154-183 | an overlap is refused as a duplicate naming the old and new headers; then a concrete Seq with any other non-wild field is refused; a refusal changes nothing; a success adds exactly `seqMap[Seq]` or `baseMap[header]`; the invariant is preserved |
| Dispatch.BleDispatcher.RemoveListener | nmxact/nmble/dispatch.go:185-199 | deletes exactly the entry findListener resolves and returns its listener: from seqMap when its key's Seq is concrete, else from baseMap; returns None and changes nothing when nothing resolves; the invariant is preserved |
| Dispatch.BleDispatcher.Dispatch | nmxact/nmble/dispatch.go:232-248 | a record that fails to decode reaches no listener; otherwise only the resolved listener's record queue grows, by exactly the decoded message; nothing reaches an unmatched record's listeners; no error queue and no map changes |
| Dispatch.BleDispatcher.SnapshotSeqMap | nmxact/nmble/dispatch.go:253-256 | collects one listener per seqMap entry, each entry once |
| Dispatch.BleDispatcher.SnapshotBaseMap | nmxact/nmble/dispatch.go:257-259 | collects one listener per baseMap entry, each entry once |
| Dispatch.SendErr | nmxact/nmble/dispatch.go:263-265 | sends the error once per snapshot entry: each listener's error queue grows by one copy per entry naming it |
| Dispatch.BleDispatcher.ErrorAll | nmxact/nmble/dispatch.go:250-266 | every entry of both maps is in the snapshot exactly once and nothing else is; each listener receives the error once per entry naming it; record queues and both maps are unchanged |
| BleAct.Connect | newtmgr/vendor/mynewt.apache.org/newt/nmxact/nmble/ble_act.go:10-26 | a send failure is returned as it came; otherwise the value read from connChan is returned; success exactly when both are nil |
| BleAct.AckWait | newtmgr/vendor/mynewt.apache.org/newt/nmxact/nmble/ble_act.go:39-62 | the single-ack loop (the same in connCancel, writeCmd and scanCancel) never consumes more than the script; a loop still waiting has consumed all of it; Acked implies the loop ended |
| BleAct.AckWaitStops | newtmgr/vendor/mynewt.apache.org/newt/nmxact/nmble/ble_act.go:39-62 | the single-ack loop passes over exactly the events it ignores and stops at the first other one; Acked holds exactly when that event is a record, never while still waiting |
| BleAct.AckWaitSkipsIgnored | newtmgr/vendor/mynewt.apache.org/newt/nmxact/nmble/ble_act.go:39-62 | a single-ack loop passes over other record kinds (and abort, which it does not select on) without effect |
| BleAct.AckCompletion | newtmgr/vendor/mynewt.apache.org/newt/nmxact/nmble/ble_act.go:46-54 | after ignored events, the command's response sets Acked and ends the loop: nil on status 0, else StatusError(RSP, type, status) with type TERMINATE, CONN_CANCEL, WRITE_CMD or SCAN |
| BleAct.AckErrorOrTimeout | newtmgr/vendor/mynewt.apache.org/newt/nmxact/nmble/ble_act.go:41-42 | after ignored events, an error ends the loop with that error and the timer with the timeout tagged as written, without setting Acked |
| BleAct.Terminate | newtmgr/vendor/mynewt.apache.org/newt/nmxact/nmble/ble_act.go:29-63 | a send failure is returned and consumes no event; otherwise outcome, events consumed and Acked are those of the single-ack loop for TerminateRsp |
| BleAct.ConnCancel | newtmgr/vendor/mynewt.apache.org/newt/nmxact/nmble/ble_act.go:65-99 | as Terminate, for ConnCancelRsp, with the timeout tagged TERMINATE |
| BleAct.WriteCmd | newtmgr/vendor/mynewt.apache.org/newt/nmxact/nmble/ble_act.go:208-242 | as Terminate, for WriteCmdRsp |
| BleAct.ScanCancel | newtmgr/vendor/mynewt.apache.org/newt/nmxact/nmble/ble_act.go:332-363 | as Terminate, for ScanCancelRsp, with status errors typed SCAN and the timeout tagged EXCHANGE_MTU |
| BleAct.DiscSvcTracksLast | newtmgr/vendor/mynewt.apache.org/newt/nmxact/nmble/ble_act.go:114-149 | over events that keep discSvcUuid waiting, the candidate becomes the last status-0 service seen and Acked records whether a response arrived |
| BleAct.DiscSvcWait | newtmgr/vendor/mynewt.apache.org/newt/nmxact/nmble/ble_act.go:115-154 | the discSvcUuid loop never consumes more than the script, and a loop still waiting has consumed all of it |
| BleAct.DiscSvcWaitStops | newtmgr/vendor/mynewt.apache.org/newt/nmxact/nmble/ble_act.go:115-154 | the discSvcUuid loop goes on exactly over abort, other kinds and status-0 responses and events, and stops at the first error, timeout or nonzero status |
| BleAct.LastSvcIsLast | newtmgr/vendor/mynewt.apache.org/newt/nmxact/nmble/ble_act.go:132-133 | a later status-0 service event always replaces the candidate; no other event changes it |
| BleAct.DiscSvcUuidEnds | newtmgr/vendor/mynewt.apache.org/newt/nmxact/nmble/ble_act.go:130-146 | a nonzero event status ends the loop: EDONE returns the candidate, or the "service not supported" host error carrying the status when there is none; any other status gives StatusError(EVT, DISC_SVC_EVT) |
| BleAct.DiscSvcRspFails | newtmgr/vendor/mynewt.apache.org/newt/nmxact/nmble/ble_act.go:124-127 | after events that keep the loop waiting, a nonzero response status ends it on the next event with StatusError(RSP, DISC_SVC_UUID, status), Acked set |
| BleAct.DiscSvcUuid | newtmgr/vendor/mynewt.apache.org/newt/nmxact/nmble/ble_act.go:102-155 | a send failure is returned and consumes no event; otherwise outcome, events consumed and Acked are those of `DiscSvcWait` from no candidate |
| BleAct.DiscChrsCollects | newtmgr/vendor/mynewt.apache.org/newt/nmxact/nmble/ble_act.go:170-199 | over events that keep discAllChrs waiting, the characteristics of status-0 events are appended in arrival order |
| BleAct.DiscChrsWait | newtmgr/vendor/mynewt.apache.org/newt/nmxact/nmble/ble_act.go:171-204 | the discAllChrs loop never consumes more than the script, and a loop still waiting has consumed all of it |
| BleAct.DiscChrsWaitStops | newtmgr/vendor/mynewt.apache.org/newt/nmxact/nmble/ble_act.go:171-204 | the discAllChrs loop goes on exactly over abort, other kinds and status-0 responses and events, and stops at the first error, timeout or nonzero status |
| BleAct.DiscAllChrsEnds | newtmgr/vendor/mynewt.apache.org/newt/nmxact/nmble/ble_act.go:186-196 | EDONE returns every status-0 characteristic seen before it, in order, possibly none; any other nonzero status gives StatusError(EVT, DISC_CHR_EVT) |
| BleAct.DiscChrsRspFails | newtmgr/vendor/mynewt.apache.org/newt/nmxact/nmble/ble_act.go:180-183 | after events that keep the loop waiting, a nonzero response status ends it on the next event with StatusError(RSP, DISC_ALL_CHRS, status), Acked set |
| BleAct.DiscAllChrs | newtmgr/vendor/mynewt.apache.org/newt/nmxact/nmble/ble_act.go:158-205 | a send failure is returned and consumes no event; otherwise outcome, events consumed and Acked are those of `DiscChrsWait` from the empty list |
| BleAct.MtuWaitSkips | newtmgr/vendor/mynewt.apache.org/newt/nmxact/nmble/ble_act.go:262-282 | a status-0 response and other record kinds do not end the exchangeMtu loop |
| BleAct.MtuWait | newtmgr/vendor/mynewt.apache.org/newt/nmxact/nmble/ble_act.go:257-287 | the exchangeMtu loop never consumes more than the script, and a loop still waiting has consumed all of it |
| BleAct.MtuWaitStops | newtmgr/vendor/mynewt.apache.org/newt/nmxact/nmble/ble_act.go:257-287 | the exchangeMtu loop goes on exactly over abort, other kinds and status-0 responses, and stops at the first error, timeout, nonzero response status or MTU-change event |
| BleAct.ExchangeMtuEnds | newtmgr/vendor/mynewt.apache.org/newt/nmxact/nmble/ble_act.go:272-279 | after such events, the MTU-change event ends the loop: its MTU on status 0, else StatusError(EVT, MTU_CHANGE_EVT) |
| BleAct.MtuRspFails | newtmgr/vendor/mynewt.apache.org/newt/nmxact/nmble/ble_act.go:266-269 | after events that keep the loop waiting, a nonzero response status ends it on the next event with StatusError(RSP, EXCHANGE_MTU, status), Acked set |
| BleAct.ExchangeMtu | newtmgr/vendor/mynewt.apache.org/newt/nmxact/nmble/ble_act.go:245-288 | a send failure is returned and consumes no event; otherwise outcome, events consumed and Acked are those of `MtuWait` |
| BleAct.ScanReportsInOrder | newtmgr/vendor/mynewt.apache.org/newt/nmxact/nmble/ble_act.go:309-321 | over events that keep scan waiting, each scan event is passed to the callback in arrival order |
| BleAct.ScanWait | newtmgr/vendor/mynewt.apache.org/newt/nmxact/nmble/ble_act.go:304-329 | the scan loop never consumes more than the script, and a loop still waiting has consumed all of it |
| BleAct.ScanWaitStops | newtmgr/vendor/mynewt.apache.org/newt/nmxact/nmble/ble_act.go:304-329 | the scan loop goes on exactly over records other than a failed response, and stops at the first error, timeout, abort or nonzero response status |
| BleAct.ScanAbortEnds | newtmgr/vendor/mynewt.apache.org/newt/nmxact/nmble/ble_act.go:326-327 | abort ends a scan with nil, after every earlier scan event has reached the callback in order |
| BleAct.ScanRspFails | newtmgr/vendor/mynewt.apache.org/newt/nmxact/nmble/ble_act.go:313-314 | after events that keep the loop waiting, a nonzero response status ends it on the next event with StatusError(RSP, SCAN, status), Acked set, after the earlier scan events reached the callback in order |
| BleAct.Scan | newtmgr/vendor/mynewt.apache.org/newt/nmxact/nmble/ble_act.go:292-330 | a send failure is returned, consumes no event and calls no callback; otherwise outcome, events consumed, callback calls and Acked are those of `ScanWait` |
| BleAct.TimeoutTagsAsWritten | newtmgr/vendor/mynewt.apache.org/newt/nmxact/nmble/ble_act.go:59-360 | the timeout tags are TERMINATE, TERMINATE, DISC_SVC_UUID, DISC_ALL_CHRS, WRITE_CMD, EXCHANGE_MTU, EXCHANGE_MTU and EXCHANGE_MTU for terminate, connCancel, discSvcUuid, discAllChrs, writeCmd, exchangeMtu, scan and scanCancel |
| BleAct.ErrorEndsEveryWait | newtmgr/vendor/mynewt.apache.org/newt/nmxact/nmble/ble_act.go:39-363 | an error on the listener ends every wait loop at once with that error, without setting Acked |
| BleAct.ScriptedExamples | newtmgr/vendor/mynewt.apache.org/newt/nmxact/nmble/ble_act.go:114-279 | [ack 0, chr A, chr B, EDONE] gives [A, B]; service discovery with no candidate gives the host error, and with S gives S; MTU 256 is returned; a response status 7 fails after one event |
| SRes.IndexOf | nmxact/nmxutil/sres.go:107-108 | the index found is the first position holding the token |
| SRes.IndexOfUnique | nmxact/nmxutil/sres.go:107-111 | any position holding the token with none before it is that index |
| SRes.RemoveFirst | nmxact/nmxutil/sres.go:109 | the splice removes one occurrence of the token and keeps every other element |
| SRes.RemoveFirstKeepsOrder | nmxact/nmxutil/sres.go:109 | the waiters before the removed one keep their places and those after it move up one, in order |
| SRes.Gate.Acquire | nmxact/nmxutil/sres.go:44-68 | a free gate is taken at once with the queue unchanged; a held gate appends the token at the tail without checking for duplicates; the invariant holds afterwards |
| SRes.Gate.Release | nmxact/nmxutil/sres.go:72-100 | requires a held gate; an empty queue frees it and promotes nobody; otherwise the head is promoted, the rest stay queued in order and the gate stays held |
| SRes.Gate.StopWaiting | nmxact/nmxutil/sres.go:102-120 | removes the first waiter with the token, keeping the others in order, and reports it; changes nothing when the token is absent; the flag is unchanged and the invariant preserved |
| SRes.Gate.Abort | nmxact/nmxutil/sres.go:122-130 | refuses every waiter in queue order, empties the queue and leaves the flag unchanged |
| SRes.AcquireAllAppends | nmxact/nmxutil/sres.go:57-63 | acquiring a held gate repeatedly appends the tokens in call order |
| SRes.ReleaseNPromotesHead | nmxact/nmxutil/sres.go:87-88 | n releases promote exactly the first n waiters, head first, and leave the rest queued |
| SRes.AcquireThenReleaseIsFifo | nmxact/nmxutil/sres.go:57-99 | on a held gate, the waiters and then every later claimant are promoted in the order they called Acquire |
| SRes.FreeGateFifo | nmxact/nmxutil/sres.go:44-99 | from a free gate, the first claimant takes the resource at once and the others are promoted in the order they called Acquire |
| SRes.ReleaseAfterDrainFrees | nmxact/nmxutil/sres.go:82-85 | once every waiter has been promoted, one more release frees the resource |
| SRes.SingleResource.constructor | nmxact/nmxutil/sres.go:37-39 | a new resource is free, with nobody waiting |
| SRes.SingleResource.Acquire | nmxact/nmxutil/sres.go:44-68 | the new state and the immediate grant are those of `Gate.Acquire`; the invariant holds |
| SRes.SingleResource.Release | nmxact/nmxutil/sres.go:72-100 | requires `acquired` (the source panics otherwise); the new state is that of `Gate.Release`; the result is true exactly when a waiter was promoted, and that waiter is sent nil |
| SRes.SingleResource.StopWaiting | nmxact/nmxutil/sres.go:102-120 | the search loop and splice give the state of `Gate.StopWaiting`; the removed waiter, if any, is sent the error |
| SRes.SingleResource.Abort | nmxact/nmxutil/sres.go:122-130 | every waiter in queue order is sent the error; the state becomes that of `Gate.Abort` |
| SRes.SingleResource.Acquired | nmxact/nmxutil/sres.go:132-137 | returns the flag and changes nothing |

## Left out

- JSON: `json.Marshal` of requests is not modelled. A send that fails in `json.Marshal` or `x.Tx` is the `sendErr` input of each command.
- JSON decoding is the `Codec` parameter of `Dispatch.DecodeBleMsg`. The message bodies themselves are opaque bytes.
- Numeric codes: `MSG_OP_*` and `MSG_TYPE_*` are defined in `ble_proto.go`, which is not part of this model. `dispatch.dfy` uses distinct stand-in codes, and only their distinctness and non-negativity are relied on. `ble_act.dfy` uses enumerations.
- `ERR_CODE_EDONE` is also defined outside these files. It is taken as 14, the NimBLE host's `BLE_HS_EDONE`. Only its being nonzero matters.
- Logging is not modelled: the `log.Warnf` and `log.Debugf` calls in `Dispatch`.
- Error-message text is not modelled: `fmt.Errorf` and `FmtBleHostError`. Errors are datatype constructors carrying the values the messages print.
- Concurrency is not modelled: the mutexes, and `Dispatch` reading the maps without the lock.
- Dispatch.BleDispatcher.Dispatch: appends to an unbounded queue. A send on a full channel (capacity 16 for records, 1 for errors) blocks in Go, and that blocking is not modelled.
- Dispatch.BleDispatcher.ErrorAll: same as Dispatch for a full error channel.
- Event order: when several channels are ready, Go's `select` picks one at random. Here the script fixes the order. The timer is the `Timeout` event, re-armed on every iteration as `bl.AfterTimeout` is. The abort channel is the `Abort` event. Commands other than scan do not select on it and pass over it.
- A command whose script ends before its loop does returns `Waiting`. A Go command would still be blocked at that point.
- The scan callback `scanCb` is the returned `reports` sequence of `BleAct.Scan`.
- Dispatch.BleDispatcher.AddListener: registering a nil listener is outside the model. Every registered listener is a real object, so a map entry always counts as found.
- Go's zero and nil results that accompany an error (`0` from exchangeMtu, `nil` from the discoveries) are absent. A `Failure` carries no value.
- SRes.SingleResource: a waiter is named by its token. Go gives each waiter its own channel even when tokens repeat. `Send(to, value)` names the token of the waiter that receives the value.
- SRes.SingleResource.Acquire: the immediately closed channel of a free acquisition is the `granted` result.
- Listeners in the two Go files differ: the vendored `ble_act.go` uses `Acked`, `AfterTimeout`, `BleConnCancelRsp` and `BleScanRsp`, which `dispatch.go` does not have. Each module has its own `BleListener` (the shared types are in `BleTypes`), and the modules are not composed.
