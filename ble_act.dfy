/**
 * The blocking per-command protocols of nmble/ble_act.go.  Each command
 * sends its request and then waits in a loop on its listener; the events
 * the Go `select` would pick are given, in the order it picks them, by a
 * script of events.  A command's outcome is `Waiting` when the script ends
 * before the loop does.
 */
module BleAct {
  import opened Wrappers
  import opened BleTypes

  type Uuid = Bytes

  /** ERR_CODE_EDONE: the status that marks the end of a discovery (BLE_HS_EDONE in the NimBLE host). */
  const ERR_CODE_EDONE: int := 14

  /** The message operations named in status errors (MSG_OP_RSP, MSG_OP_EVT). */
  datatype MsgOp = OpRsp | OpEvt

  /** The message types named in status and timeout errors (MSG_TYPE_...). */
  datatype MsgType =
    | TypeTerminate | TypeConnCancel | TypeDiscSvcUuid | TypeDiscSvcEvt
    | TypeDiscAllChrs | TypeDiscChrEvt | TypeWriteCmd | TypeExchangeMtu
    | TypeMtuChangeEvt | TypeScan

  /** A discovered service, characteristic and scan report; the protocols never look inside them. */
  datatype BleSvc = BleSvc(json: Bytes)
  datatype BleChr = BleChr(json: Bytes)
  datatype ScanReport = ScanReport(json: Bytes)

  /** The messages the commands' type switches name; every other kind is `Other`. */
  datatype Msg =
    | TerminateRsp(status: int)
    | ConnCancelRsp(status: int)
    | DiscSvcUuidRsp(status: int)
    | DiscSvcEvt(status: int, svc: BleSvc)
    | DiscAllChrsRsp(status: int)
    | DiscChrEvt(status: int, chr: BleChr)
    | WriteCmdRsp(status: int)
    | ExchangeMtuRsp(status: int)
    | MtuChangeEvt(status: int, mtu: int)
    | ScanRsp(status: int)
    | ScanEvt(report: ScanReport)
    | ScanCancelRsp(status: int)
    | Other

  /** What a wait loop can select: the error channel, the record channel, the timer, the abort channel. */
  datatype Event = Error(err: BleError) | Record(msg: Msg) | Timeout | Abort

  datatype ActError =
    | Failed(err: BleError)                             // returned as it came
    | StatusError(op: MsgOp, typ: MsgType, status: int)  // StatusError(op, type, status)
    | TimeoutError(typ: MsgType)                        // BhdTimeoutError(type)
    | ServiceNotFound(status: int, uuid: Uuid)          // "Peer doesn't support required service"

  /** The listener's Acked flag, the only part of it the commands write. */
  class BleListener {
    var acked: bool

    constructor ()
      ensures !acked
    {
      acked := false;
    }
  }

  /** A command's result, or Waiting when the loop is still running at the end of the script. */
  datatype Outcome<T> = Done(result: Result<T, ActError>) | Waiting

  /** A run of a wait loop: its outcome, how many events it consumed, whether it set Acked. */
  datatype Wait<T> = Wait(outcome: Outcome<T>, consumed: nat, acked: bool)

  /** The run that ends on the first event with result r. */
  function Stop<T>(r: Result<T, ActError>, ack: bool): Wait<T> {
    Wait(Done(r), 1, ack)
  }

  /** A run preceded by n more consumed events, of which some set Acked when ack holds. */
  function Shift<T>(w: Wait<T>, n: nat, ack: bool): Wait<T> {
    Wait(w.outcome, w.consumed + n, w.acked || ack)
  }

  // ---------------------------------------------------------------------
  // connect

  /**
   * connect: a failed send returns its error, otherwise the value read from
   * connChan (None for nil) decides; no listener is involved.
   */
  function Connect(sendErr: Option<BleError>, connChanValue: Option<BleError>): (r: Result<(), ActError>)
    ensures r.Success? <==> sendErr.None? && connChanValue.None?
    ensures sendErr.Some? ==> r == Failure(Failed(sendErr.value))
    ensures sendErr.None? && connChanValue.Some? ==> r == Failure(Failed(connChanValue.value))
  {
    if sendErr.Some? then Failure(Failed(sendErr.value))
    else if connChanValue.Some? then Failure(Failed(connChanValue.value))
    else Success(())
  }

  // ---------------------------------------------------------------------
  // terminate, connCancel, writeCmd, scanCancel: one acknowledgement ends the loop

  datatype AckCmd = AckTerminate | AckConnCancel | AckWriteCmd | AckScanCancel

  /** The status of m when m is the response the command's switch names. */
  function AckStatus(cmd: AckCmd, m: Msg): Option<int> {
    match m
    case TerminateRsp(s) => if cmd == AckTerminate then Some(s) else None
    case ConnCancelRsp(s) => if cmd == AckConnCancel then Some(s) else None
    case WriteCmdRsp(s) => if cmd == AckWriteCmd then Some(s) else None
    case ScanCancelRsp(s) => if cmd == AckScanCancel then Some(s) else None
    case _ => None
  }

  /** The response of the command with the given status. */
  function AckRsp(cmd: AckCmd, status: int): Msg {
    match cmd
    case AckTerminate => TerminateRsp(status)
    case AckConnCancel => ConnCancelRsp(status)
    case AckWriteCmd => WriteCmdRsp(status)
    case AckScanCancel => ScanCancelRsp(status)
  }

  /** The type a nonzero response status is reported under. */
  function AckStatusType(cmd: AckCmd): MsgType {
    match cmd
    case AckTerminate => TypeTerminate
    case AckConnCancel => TypeConnCancel
    case AckWriteCmd => TypeWriteCmd
    case AckScanCancel => TypeScan
  }

  /** The type the timeout is reported under, as the source has it. */
  function AckTimeoutType(cmd: AckCmd): MsgType {
    match cmd
    case AckTerminate => TypeTerminate
    case AckConnCancel => TypeTerminate
    case AckWriteCmd => TypeWriteCmd
    case AckScanCancel => TypeExchangeMtu
  }

  /** The wait loop of a single-acknowledgement command. */
  function AckWait(cmd: AckCmd, script: seq<Event>): (w: Wait<()>)
    ensures w.consumed <= |script|
    ensures w.outcome.Waiting? ==> w.consumed == |script|
    ensures w.outcome.Done? ==> 0 < w.consumed
    ensures w.acked ==> w.outcome.Done?
    decreases |script|
  {
    if script == [] then Wait(Waiting, 0, false)
    else match script[0]
      case Error(e) => Stop(Failure(Failed(e)), false)
      case Timeout => Stop(Failure(TimeoutError(AckTimeoutType(cmd))), false)
      case Abort => Shift(AckWait(cmd, script[1..]), 1, false)
      case Record(m) =>
        match AckStatus(cmd, m)
        case None => Shift(AckWait(cmd, script[1..]), 1, false)
        case Some(s) =>
          Stop(if s != 0 then Failure(StatusError(OpRsp, AckStatusType(cmd), s)) else Success(()), true)
  }

  /** The events a single-acknowledgement loop passes over. */
  predicate AckIgnores(cmd: AckCmd, ev: Event) {
    ev.Abort? || (ev.Record? && AckStatus(cmd, ev.msg).None?)
  }

  /** The loop passes over the events it ignores and stops at the first one it does not; it is acknowledged exactly when that stopping event is a record. */
  lemma {:induction false} AckWaitStops(cmd: AckCmd, script: seq<Event>)
    ensures var w := AckWait(cmd, script);
      && (w.outcome.Waiting? ==> !w.acked && forall i :: 0 <= i < |script| ==> AckIgnores(cmd, script[i]))
      && (w.outcome.Done? ==>
            && !AckIgnores(cmd, script[w.consumed - 1])
            && (forall i :: 0 <= i < w.consumed - 1 ==> AckIgnores(cmd, script[i]))
            && (w.acked <==> script[w.consumed - 1].Record?))
    decreases |script|
  {
    if script != [] && AckIgnores(cmd, script[0]) {
      AckWaitStops(cmd, script[1..]);
      assert forall i :: 1 <= i < |script| ==> script[i] == script[1..][i - 1];
    }
  }

  lemma {:induction false} AckWaitSkipsIgnored(cmd: AckCmd, prefix: seq<Event>, rest: seq<Event>)
    requires forall i :: 0 <= i < |prefix| ==> AckIgnores(cmd, prefix[i])
    ensures AckWait(cmd, prefix + rest) == Shift(AckWait(cmd, rest), |prefix|, false)
    decreases |prefix|
  {
    if prefix == [] {
      assert prefix + rest == rest;
    } else {
      assert (prefix + rest)[0] == prefix[0];
      assert (prefix + rest)[1..] == prefix[1..] + rest;
      AckWaitSkipsIgnored(cmd, prefix[1..], rest);
    }
  }

  /**
   * After any events the loop ignores, the command's response ends it: it
   * sets Acked and succeeds on status 0, else reports the status.
   */
  lemma AckCompletion(cmd: AckCmd, prefix: seq<Event>, status: int, rest: seq<Event>)
    requires forall i :: 0 <= i < |prefix| ==> AckIgnores(cmd, prefix[i])
    ensures AckWait(cmd, prefix + [Record(AckRsp(cmd, status))] + rest) ==
      Wait(Done(if status == 0 then Success(()) else Failure(StatusError(OpRsp, AckStatusType(cmd), status))),
           |prefix| + 1, true)
  {
    assert prefix + [Record(AckRsp(cmd, status))] + rest == prefix + ([Record(AckRsp(cmd, status))] + rest);
    AckWaitSkipsIgnored(cmd, prefix, [Record(AckRsp(cmd, status))] + rest);
  }

  /** After any events the loop ignores, an error or the timer ends it. */
  lemma AckErrorOrTimeout(cmd: AckCmd, prefix: seq<Event>, ev: Event, rest: seq<Event>)
    requires forall i :: 0 <= i < |prefix| ==> AckIgnores(cmd, prefix[i])
    requires ev.Error? || ev.Timeout?
    ensures AckWait(cmd, prefix + [ev] + rest) ==
      Wait(Done(Failure(if ev.Error? then Failed(ev.err) else TimeoutError(AckTimeoutType(cmd)))),
           |prefix| + 1, false)
  {
    assert prefix + [ev] + rest == prefix + ([ev] + rest);
    AckWaitSkipsIgnored(cmd, prefix, [ev] + rest);
  }

  /** terminate. */
  method Terminate(sendErr: Option<BleError>, bl: BleListener, script: seq<Event>)
    returns (r: Outcome<()>, consumed: nat)
    modifies bl
    ensures sendErr.Some? ==>
      r == Done(Failure(Failed(sendErr.value))) && consumed == 0 && bl.acked == old(bl.acked)
    ensures sendErr.None? ==>
      var w := AckWait(AckTerminate, script);
      r == w.outcome && consumed == w.consumed && bl.acked == (old(bl.acked) || w.acked)
  {
    if sendErr.Some? {
      return Done(Failure(Failed(sendErr.value))), 0;
    }
    var i := 0;
    while i < |script|
      invariant i <= |script|
      invariant AckWait(AckTerminate, script) == Shift(AckWait(AckTerminate, script[i..]), i, false)
      invariant bl.acked == old(bl.acked)
    {
      assert script[i..][1..] == script[i + 1..];
      match script[i] {
      case Error(e) =>
        return Done(Failure(Failed(e))), i + 1;
      case Timeout =>
        return Done(Failure(TimeoutError(TypeTerminate))), i + 1;
      case Abort =>
      case Record(m) =>
        if m.TerminateRsp? {
          bl.acked := true;
          if m.status != 0 {
            return Done(Failure(StatusError(OpRsp, TypeTerminate, m.status))), i + 1;
          } else {
            return Done(Success(())), i + 1;
          }
        }
      }
      i := i + 1;
    }
    return Waiting, i;
  }

  /** connCancel. */
  method ConnCancel(sendErr: Option<BleError>, bl: BleListener, script: seq<Event>)
    returns (r: Outcome<()>, consumed: nat)
    modifies bl
    ensures sendErr.Some? ==>
      r == Done(Failure(Failed(sendErr.value))) && consumed == 0 && bl.acked == old(bl.acked)
    ensures sendErr.None? ==>
      var w := AckWait(AckConnCancel, script);
      r == w.outcome && consumed == w.consumed && bl.acked == (old(bl.acked) || w.acked)
  {
    if sendErr.Some? {
      return Done(Failure(Failed(sendErr.value))), 0;
    }
    var i := 0;
    while i < |script|
      invariant i <= |script|
      invariant AckWait(AckConnCancel, script) == Shift(AckWait(AckConnCancel, script[i..]), i, false)
      invariant bl.acked == old(bl.acked)
    {
      assert script[i..][1..] == script[i + 1..];
      match script[i] {
      case Error(e) =>
        return Done(Failure(Failed(e))), i + 1;
      case Timeout =>
        return Done(Failure(TimeoutError(TypeTerminate))), i + 1;
      case Abort =>
      case Record(m) =>
        if m.ConnCancelRsp? {
          bl.acked := true;
          if m.status != 0 {
            return Done(Failure(StatusError(OpRsp, TypeConnCancel, m.status))), i + 1;
          } else {
            return Done(Success(())), i + 1;
          }
        }
      }
      i := i + 1;
    }
    return Waiting, i;
  }

  /** writeCmd. */
  method WriteCmd(sendErr: Option<BleError>, bl: BleListener, script: seq<Event>)
    returns (r: Outcome<()>, consumed: nat)
    modifies bl
    ensures sendErr.Some? ==>
      r == Done(Failure(Failed(sendErr.value))) && consumed == 0 && bl.acked == old(bl.acked)
    ensures sendErr.None? ==>
      var w := AckWait(AckWriteCmd, script);
      r == w.outcome && consumed == w.consumed && bl.acked == (old(bl.acked) || w.acked)
  {
    if sendErr.Some? {
      return Done(Failure(Failed(sendErr.value))), 0;
    }
    var i := 0;
    while i < |script|
      invariant i <= |script|
      invariant AckWait(AckWriteCmd, script) == Shift(AckWait(AckWriteCmd, script[i..]), i, false)
      invariant bl.acked == old(bl.acked)
    {
      assert script[i..][1..] == script[i + 1..];
      match script[i] {
      case Error(e) =>
        return Done(Failure(Failed(e))), i + 1;
      case Timeout =>
        return Done(Failure(TimeoutError(TypeWriteCmd))), i + 1;
      case Abort =>
      case Record(m) =>
        if m.WriteCmdRsp? {
          bl.acked := true;
          if m.status != 0 {
            return Done(Failure(StatusError(OpRsp, TypeWriteCmd, m.status))), i + 1;
          } else {
            return Done(Success(())), i + 1;
          }
        }
      }
      i := i + 1;
    }
    return Waiting, i;
  }

  /** scanCancel. */
  method ScanCancel(sendErr: Option<BleError>, bl: BleListener, script: seq<Event>)
    returns (r: Outcome<()>, consumed: nat)
    modifies bl
    ensures sendErr.Some? ==>
      r == Done(Failure(Failed(sendErr.value))) && consumed == 0 && bl.acked == old(bl.acked)
    ensures sendErr.None? ==>
      var w := AckWait(AckScanCancel, script);
      r == w.outcome && consumed == w.consumed && bl.acked == (old(bl.acked) || w.acked)
  {
    if sendErr.Some? {
      return Done(Failure(Failed(sendErr.value))), 0;
    }
    var i := 0;
    while i < |script|
      invariant i <= |script|
      invariant AckWait(AckScanCancel, script) == Shift(AckWait(AckScanCancel, script[i..]), i, false)
      invariant bl.acked == old(bl.acked)
    {
      assert script[i..][1..] == script[i + 1..];
      match script[i] {
      case Error(e) =>
        return Done(Failure(Failed(e))), i + 1;
      case Timeout =>
        return Done(Failure(TimeoutError(TypeExchangeMtu))), i + 1;
      case Abort =>
      case Record(m) =>
        if m.ScanCancelRsp? {
          bl.acked := true;
          if m.status != 0 {
            return Done(Failure(StatusError(OpRsp, TypeScan, m.status))), i + 1;
          }
          return Done(Success(())), i + 1;
        }
      }
      i := i + 1;
    }
    return Waiting, i;
  }

  // ---------------------------------------------------------------------
  // discSvcUuid

  /** The wait loop of discSvcUuid, with svc the candidate service captured so far. */
  function DiscSvcWait(uuid: Uuid, svc: Option<BleSvc>, script: seq<Event>): (w: Wait<BleSvc>)
    ensures w.consumed <= |script|
    ensures w.outcome.Waiting? ==> w.consumed == |script|
    ensures w.outcome.Done? ==> 0 < w.consumed
    decreases |script|
  {
    if script == [] then Wait(Waiting, 0, false)
    else match script[0]
      case Error(e) => Stop(Failure(Failed(e)), false)
      case Timeout => Stop(Failure(TimeoutError(TypeDiscSvcUuid)), false)
      case Abort => Shift(DiscSvcWait(uuid, svc, script[1..]), 1, false)
      case Record(DiscSvcUuidRsp(status)) =>
        if status != 0 then Stop(Failure(StatusError(OpRsp, TypeDiscSvcUuid, status)), true)
        else Shift(DiscSvcWait(uuid, svc, script[1..]), 1, true)
      case Record(DiscSvcEvt(status, s)) =>
        if status == 0 then Shift(DiscSvcWait(uuid, Some(s), script[1..]), 1, false)
        else if status == ERR_CODE_EDONE then
          Stop(if svc.None? then Failure(ServiceNotFound(status, uuid)) else Success(svc.value), false)
        else Stop(Failure(StatusError(OpEvt, TypeDiscSvcEvt, status)), false)
      case Record(_) => Shift(DiscSvcWait(uuid, svc, script[1..]), 1, false)
  }

  /** The events after which discSvcUuid's loop goes on. */
  predicate DiscSvcContinues(ev: Event) {
    match ev
    case Error(_) => false
    case Timeout => false
    case Abort => true
    case Record(DiscSvcUuidRsp(status)) => status == 0
    case Record(DiscSvcEvt(status, _)) => status == 0
    case Record(_) => true
  }

  /** discSvcUuid's loop goes on while the events continue it and stops at the first one that does not. */
  lemma {:induction false} DiscSvcWaitStops(uuid: Uuid, svc: Option<BleSvc>, script: seq<Event>)
    ensures var w := DiscSvcWait(uuid, svc, script);
      && (w.outcome.Waiting? ==> forall i :: 0 <= i < |script| ==> DiscSvcContinues(script[i]))
      && (w.outcome.Done? ==>
            && !DiscSvcContinues(script[w.consumed - 1])
            && (forall i :: 0 <= i < w.consumed - 1 ==> DiscSvcContinues(script[i])))
    decreases |script|
  {
    if script != [] && DiscSvcContinues(script[0]) {
      DiscSvcWaitStops(uuid, if script[0].Record? && script[0].msg.DiscSvcEvt? then Some(script[0].msg.svc) else svc, script[1..]);
      assert forall i :: 1 <= i < |script| ==> script[i] == script[1..][i - 1];
    }
  }

  /** The candidate after a run of events: the service of the last status-0 discovery event, if any. */
  function LastSvc(svc: Option<BleSvc>, events: seq<Event>): Option<BleSvc>
    decreases |events|
  {
    if events == [] then svc
    else match events[0]
      case Record(DiscSvcEvt(0, s)) => LastSvc(Some(s), events[1..])
      case _ => LastSvc(svc, events[1..])
  }

  /** Whether some event in events is a record of which p holds. */
  ghost predicate HasRecord(events: seq<Event>, p: Msg -> bool) {
    exists i :: 0 <= i < |events| && events[i].Record? && p(events[i].msg)
  }

  lemma {:induction false} DiscSvcTracksLast(uuid: Uuid, svc: Option<BleSvc>, prefix: seq<Event>, rest: seq<Event>)
    requires forall i :: 0 <= i < |prefix| ==> DiscSvcContinues(prefix[i])
    ensures DiscSvcWait(uuid, svc, prefix + rest) ==
      Shift(DiscSvcWait(uuid, LastSvc(svc, prefix), rest), |prefix|, HasRecord(prefix, (m: Msg) => m.DiscSvcUuidRsp?))
    decreases |prefix|
  {
    if prefix == [] {
      assert prefix + rest == rest;
    } else {
      assert (prefix + rest)[0] == prefix[0];
      assert (prefix + rest)[1..] == prefix[1..] + rest;
      var next := match prefix[0] case Record(DiscSvcEvt(0, s)) => Some(s) case _ => svc;
      DiscSvcTracksLast(uuid, next, prefix[1..], rest);
      HasRecordCons(prefix, (m: Msg) => m.DiscSvcUuidRsp?);
    }
  }

  /** A record occurs in a non-empty sequence when it is its head or occurs in its tail. */
  lemma HasRecordCons(events: seq<Event>, p: Msg -> bool)
    requires events != []
    ensures HasRecord(events, p) <==> (events[0].Record? && p(events[0].msg)) || HasRecord(events[1..], p)
  {
    if HasRecord(events[1..], p) {
      var i :| 0 <= i < |events[1..]| && events[1..][i].Record? && p(events[1..][i].msg);
      assert events[i + 1] == events[1..][i];
    }
    if HasRecord(events, p) && !(events[0].Record? && p(events[0].msg)) {
      var i :| 0 <= i < |events| && events[i].Record? && p(events[i].msg);
      assert events[1..][i - 1] == events[i];
    }
  }

  /**
   * After events that keep discSvcUuid waiting, the end-of-discovery status
   * returns the last captured service, or the host error carrying the
   * status when none was captured; any other nonzero event status fails.
   */
  lemma DiscSvcUuidEnds(uuid: Uuid, prefix: seq<Event>, status: int, s: BleSvc, rest: seq<Event>)
    requires forall i :: 0 <= i < |prefix| ==> DiscSvcContinues(prefix[i])
    requires status != 0
    ensures var w := DiscSvcWait(uuid, None, prefix + [Record(DiscSvcEvt(status, s))] + rest);
      && w.consumed == |prefix| + 1
      && w.outcome == Done(
        if status != ERR_CODE_EDONE then Failure(StatusError(OpEvt, TypeDiscSvcEvt, status))
        else if LastSvc(None, prefix).None? then Failure(ServiceNotFound(status, uuid))
        else Success(LastSvc(None, prefix).value))
  {
    assert prefix + [Record(DiscSvcEvt(status, s))] + rest == prefix + ([Record(DiscSvcEvt(status, s))] + rest);
    DiscSvcTracksLast(uuid, None, prefix, [Record(DiscSvcEvt(status, s))] + rest);
  }

  /** A failed discovery response ends the loop at once, acknowledged, whatever came before it. */
  lemma DiscSvcRspFails(uuid: Uuid, prefix: seq<Event>, status: int, rest: seq<Event>)
    requires forall i :: 0 <= i < |prefix| ==> DiscSvcContinues(prefix[i])
    requires status != 0
    ensures DiscSvcWait(uuid, None, prefix + [Record(DiscSvcUuidRsp(status))] + rest) ==
      Wait(Done(Failure(StatusError(OpRsp, TypeDiscSvcUuid, status))), |prefix| + 1, true)
  {
    assert prefix + [Record(DiscSvcUuidRsp(status))] + rest == prefix + ([Record(DiscSvcUuidRsp(status))] + rest);
    DiscSvcTracksLast(uuid, None, prefix, [Record(DiscSvcUuidRsp(status))] + rest);
  }

  /** LastSvc is the last status-0 discovery event's service: a later one always replaces it. */
  lemma {:induction false} LastSvcIsLast(svc: Option<BleSvc>, events: seq<Event>, s: BleSvc)
    ensures LastSvc(svc, events + [Record(DiscSvcEvt(0, s))]) == Some(s)
    ensures forall ev: Event :: !(ev.Record? && ev.msg.DiscSvcEvt? && ev.msg.status == 0) ==>
      LastSvc(svc, events + [ev]) == LastSvc(svc, events)
    decreases |events|
  {
    if events != [] {
      assert (events + [Record(DiscSvcEvt(0, s))])[1..] == events[1..] + [Record(DiscSvcEvt(0, s))];
      forall ev: Event ensures (events + [ev])[1..] == events[1..] + [ev] && (events + [ev])[0] == events[0] {}
      var next := match events[0] case Record(DiscSvcEvt(0, s')) => Some(s') case _ => svc;
      LastSvcIsLast(next, events[1..], s);
    }
  }

  /** discSvcUuid. */
  method DiscSvcUuid(sendErr: Option<BleError>, bl: BleListener, uuid: Uuid, script: seq<Event>)
    returns (r: Outcome<BleSvc>, consumed: nat)
    modifies bl
    ensures sendErr.Some? ==>
      r == Done(Failure(Failed(sendErr.value))) && consumed == 0 && bl.acked == old(bl.acked)
    ensures sendErr.None? ==>
      var w := DiscSvcWait(uuid, None, script);
      r == w.outcome && consumed == w.consumed && bl.acked == (old(bl.acked) || w.acked)
  {
    if sendErr.Some? {
      return Done(Failure(Failed(sendErr.value))), 0;
    }
    var svc: Option<BleSvc> := None;
    ghost var acked := false;
    var i := 0;
    while i < |script|
      invariant i <= |script|
      invariant DiscSvcWait(uuid, None, script) == Shift(DiscSvcWait(uuid, svc, script[i..]), i, acked)
      invariant bl.acked == (old(bl.acked) || acked)
    {
      assert script[i..][1..] == script[i + 1..];
      match script[i] {
      case Error(e) =>
        return Done(Failure(Failed(e))), i + 1;
      case Timeout =>
        return Done(Failure(TimeoutError(TypeDiscSvcUuid))), i + 1;
      case Abort =>
      case Record(m) =>
        match m
        case DiscSvcUuidRsp(status) =>
          bl.acked := true;
          acked := true;
          if status != 0 {
            return Done(Failure(StatusError(OpRsp, TypeDiscSvcUuid, status))), i + 1;
          }
        case DiscSvcEvt(status, s) =>
          if status == 0 {
            svc := Some(s);
          } else if status == ERR_CODE_EDONE {
            if svc.None? {
              return Done(Failure(ServiceNotFound(status, uuid))), i + 1;
            }
            return Done(Success(svc.value)), i + 1;
          } else {
            return Done(Failure(StatusError(OpEvt, TypeDiscSvcEvt, status))), i + 1;
          }
        case _ =>
      }
      i := i + 1;
    }
    return Waiting, i;
  }

  // ---------------------------------------------------------------------
  // discAllChrs

  /** The wait loop of discAllChrs, with chrs the characteristics collected so far. */
  function DiscChrsWait(chrs: seq<BleChr>, script: seq<Event>): (w: Wait<seq<BleChr>>)
    ensures w.consumed <= |script|
    ensures w.outcome.Waiting? ==> w.consumed == |script|
    ensures w.outcome.Done? ==> 0 < w.consumed
    decreases |script|
  {
    if script == [] then Wait(Waiting, 0, false)
    else match script[0]
      case Error(e) => Stop(Failure(Failed(e)), false)
      case Timeout => Stop(Failure(TimeoutError(TypeDiscAllChrs)), false)
      case Abort => Shift(DiscChrsWait(chrs, script[1..]), 1, false)
      case Record(DiscAllChrsRsp(status)) =>
        if status != 0 then Stop(Failure(StatusError(OpRsp, TypeDiscAllChrs, status)), true)
        else Shift(DiscChrsWait(chrs, script[1..]), 1, true)
      case Record(DiscChrEvt(status, c)) =>
        if status == 0 then Shift(DiscChrsWait(chrs + [c], script[1..]), 1, false)
        else if status == ERR_CODE_EDONE then Stop(Success(chrs), false)
        else Stop(Failure(StatusError(OpEvt, TypeDiscChrEvt, status)), false)
      case Record(_) => Shift(DiscChrsWait(chrs, script[1..]), 1, false)
  }

  /** The events after which discAllChrs's loop goes on. */
  predicate DiscChrsContinues(ev: Event) {
    match ev
    case Error(_) => false
    case Timeout => false
    case Abort => true
    case Record(DiscAllChrsRsp(status)) => status == 0
    case Record(DiscChrEvt(status, _)) => status == 0
    case Record(_) => true
  }

  /** discAllChrs's loop goes on while the events continue it and stops at the first one that does not. */
  lemma {:induction false} DiscChrsWaitStops(chrs: seq<BleChr>, script: seq<Event>)
    ensures var w := DiscChrsWait(chrs, script);
      && (w.outcome.Waiting? ==> forall i :: 0 <= i < |script| ==> DiscChrsContinues(script[i]))
      && (w.outcome.Done? ==>
            && !DiscChrsContinues(script[w.consumed - 1])
            && (forall i :: 0 <= i < w.consumed - 1 ==> DiscChrsContinues(script[i])))
    decreases |script|
  {
    if script != [] && DiscChrsContinues(script[0]) {
      DiscChrsWaitStops(if script[0].Record? && script[0].msg.DiscChrEvt? then chrs + [script[0].msg.chr] else chrs, script[1..]);
      assert forall i :: 1 <= i < |script| ==> script[i] == script[1..][i - 1];
    }
  }

  /** The characteristics of the status-0 discovery events, in arrival order. */
  function ChrsOf(events: seq<Event>): seq<BleChr>
    decreases |events|
  {
    if events == [] then []
    else match events[0]
      case Record(DiscChrEvt(0, c)) => [c] + ChrsOf(events[1..])
      case _ => ChrsOf(events[1..])
  }

  lemma {:induction false} DiscChrsCollects(chrs: seq<BleChr>, prefix: seq<Event>, rest: seq<Event>)
    requires forall i :: 0 <= i < |prefix| ==> DiscChrsContinues(prefix[i])
    ensures DiscChrsWait(chrs, prefix + rest) ==
      Shift(DiscChrsWait(chrs + ChrsOf(prefix), rest), |prefix|, HasRecord(prefix, (m: Msg) => m.DiscAllChrsRsp?))
    decreases |prefix|
  {
    if prefix == [] {
      assert prefix + rest == rest;
      assert chrs + ChrsOf(prefix) == chrs;
    } else {
      assert (prefix + rest)[0] == prefix[0];
      assert (prefix + rest)[1..] == prefix[1..] + rest;
      if prefix[0].Record? && prefix[0].msg.DiscChrEvt? && prefix[0].msg.status == 0 {
        var c := prefix[0].msg.chr;
        DiscChrsCollects(chrs + [c], prefix[1..], rest);
        assert chrs + [c] + ChrsOf(prefix[1..]) == chrs + ([c] + ChrsOf(prefix[1..]));
      } else {
        DiscChrsCollects(chrs, prefix[1..], rest);
      }
      HasRecordCons(prefix, (m: Msg) => m.DiscAllChrsRsp?);
    }
  }

  /**
   * After events that keep discAllChrs waiting, the end-of-discovery status
   * returns every status-0 characteristic in arrival order (possibly none);
   * any other nonzero event status fails.
   */
  lemma DiscAllChrsEnds(prefix: seq<Event>, status: int, c: BleChr, rest: seq<Event>)
    requires forall i :: 0 <= i < |prefix| ==> DiscChrsContinues(prefix[i])
    requires status != 0
    ensures var w := DiscChrsWait([], prefix + [Record(DiscChrEvt(status, c))] + rest);
      && w.consumed == |prefix| + 1
      && w.outcome == Done(
        if status == ERR_CODE_EDONE then Success(ChrsOf(prefix))
        else Failure(StatusError(OpEvt, TypeDiscChrEvt, status)))
  {
    assert prefix + [Record(DiscChrEvt(status, c))] + rest == prefix + ([Record(DiscChrEvt(status, c))] + rest);
    DiscChrsCollects([], prefix, [Record(DiscChrEvt(status, c))] + rest);
    assert [] + ChrsOf(prefix) == ChrsOf(prefix);
  }

  /** A failed characteristic-discovery response ends the loop at once, acknowledged. */
  lemma DiscChrsRspFails(prefix: seq<Event>, status: int, rest: seq<Event>)
    requires forall i :: 0 <= i < |prefix| ==> DiscChrsContinues(prefix[i])
    requires status != 0
    ensures DiscChrsWait([], prefix + [Record(DiscAllChrsRsp(status))] + rest) ==
      Wait(Done(Failure(StatusError(OpRsp, TypeDiscAllChrs, status))), |prefix| + 1, true)
  {
    assert prefix + [Record(DiscAllChrsRsp(status))] + rest == prefix + ([Record(DiscAllChrsRsp(status))] + rest);
    DiscChrsCollects([], prefix, [Record(DiscAllChrsRsp(status))] + rest);
  }

  /** discAllChrs. */
  method DiscAllChrs(sendErr: Option<BleError>, bl: BleListener, script: seq<Event>)
    returns (r: Outcome<seq<BleChr>>, consumed: nat)
    modifies bl
    ensures sendErr.Some? ==>
      r == Done(Failure(Failed(sendErr.value))) && consumed == 0 && bl.acked == old(bl.acked)
    ensures sendErr.None? ==>
      var w := DiscChrsWait([], script);
      r == w.outcome && consumed == w.consumed && bl.acked == (old(bl.acked) || w.acked)
  {
    if sendErr.Some? {
      return Done(Failure(Failed(sendErr.value))), 0;
    }
    var chrs: seq<BleChr> := [];
    ghost var acked := false;
    var i := 0;
    while i < |script|
      invariant i <= |script|
      invariant DiscChrsWait([], script) == Shift(DiscChrsWait(chrs, script[i..]), i, acked)
      invariant bl.acked == (old(bl.acked) || acked)
    {
      assert script[i..][1..] == script[i + 1..];
      match script[i] {
      case Error(e) =>
        return Done(Failure(Failed(e))), i + 1;
      case Timeout =>
        return Done(Failure(TimeoutError(TypeDiscAllChrs))), i + 1;
      case Abort =>
      case Record(m) =>
        match m
        case DiscAllChrsRsp(status) =>
          bl.acked := true;
          acked := true;
          if status != 0 {
            return Done(Failure(StatusError(OpRsp, TypeDiscAllChrs, status))), i + 1;
          }
        case DiscChrEvt(status, c) =>
          if status == 0 {
            chrs := chrs + [c];
          } else if status == ERR_CODE_EDONE {
            return Done(Success(chrs)), i + 1;
          } else {
            return Done(Failure(StatusError(OpEvt, TypeDiscChrEvt, status))), i + 1;
          }
        case _ =>
      }
      i := i + 1;
    }
    return Waiting, i;
  }

  // ---------------------------------------------------------------------
  // exchangeMtu

  /** The wait loop of exchangeMtu. */
  function MtuWait(script: seq<Event>): (w: Wait<int>)
    ensures w.consumed <= |script|
    ensures w.outcome.Waiting? ==> w.consumed == |script|
    ensures w.outcome.Done? ==> 0 < w.consumed
    decreases |script|
  {
    if script == [] then Wait(Waiting, 0, false)
    else match script[0]
      case Error(e) => Stop(Failure(Failed(e)), false)
      case Timeout => Stop(Failure(TimeoutError(TypeExchangeMtu)), false)
      case Abort => Shift(MtuWait(script[1..]), 1, false)
      case Record(ExchangeMtuRsp(status)) =>
        if status != 0 then Stop(Failure(StatusError(OpRsp, TypeExchangeMtu, status)), true)
        else Shift(MtuWait(script[1..]), 1, true)
      case Record(MtuChangeEvt(status, mtu)) =>
        if status != 0 then Stop(Failure(StatusError(OpEvt, TypeMtuChangeEvt, status)), false)
        else Stop(Success(mtu), false)
      case Record(_) => Shift(MtuWait(script[1..]), 1, false)
  }

  /** The events after which exchangeMtu's loop goes on. */
  predicate MtuContinues(ev: Event) {
    match ev
    case Error(_) => false
    case Timeout => false
    case Abort => true
    case Record(ExchangeMtuRsp(status)) => status == 0
    case Record(MtuChangeEvt(_, _)) => false
    case Record(_) => true
  }

  /** exchangeMtu's loop goes on while the events continue it and stops at the first one that does not. */
  lemma {:induction false} MtuWaitStops(script: seq<Event>)
    ensures var w := MtuWait(script);
      && (w.outcome.Waiting? ==> forall i :: 0 <= i < |script| ==> MtuContinues(script[i]))
      && (w.outcome.Done? ==>
            && !MtuContinues(script[w.consumed - 1])
            && (forall i :: 0 <= i < w.consumed - 1 ==> MtuContinues(script[i])))
    decreases |script|
  {
    if script != [] && MtuContinues(script[0]) {
      MtuWaitStops(script[1..]);
      assert forall i :: 1 <= i < |script| ==> script[i] == script[1..][i - 1];
    }
  }

  lemma {:induction false} MtuWaitSkips(prefix: seq<Event>, rest: seq<Event>)
    requires forall i :: 0 <= i < |prefix| ==> MtuContinues(prefix[i])
    ensures MtuWait(prefix + rest) == Shift(MtuWait(rest), |prefix|, HasRecord(prefix, (m: Msg) => m.ExchangeMtuRsp?))
    decreases |prefix|
  {
    if prefix == [] {
      assert prefix + rest == rest;
    } else {
      assert (prefix + rest)[0] == prefix[0];
      assert (prefix + rest)[1..] == prefix[1..] + rest;
      MtuWaitSkips(prefix[1..], rest);
      HasRecordCons(prefix, (m: Msg) => m.ExchangeMtuRsp?);
    }
  }

  /**
   * After events that keep exchangeMtu waiting (a status-0 response among
   * them), the MTU-change event ends the loop: status 0 yields its MTU,
   * any other status fails.
   */
  lemma ExchangeMtuEnds(prefix: seq<Event>, status: int, mtu: int, rest: seq<Event>)
    requires forall i :: 0 <= i < |prefix| ==> MtuContinues(prefix[i])
    ensures var w := MtuWait(prefix + [Record(MtuChangeEvt(status, mtu))] + rest);
      && w.consumed == |prefix| + 1
      && w.outcome == Done(if status == 0 then Success(mtu) else Failure(StatusError(OpEvt, TypeMtuChangeEvt, status)))
  {
    assert prefix + [Record(MtuChangeEvt(status, mtu))] + rest == prefix + ([Record(MtuChangeEvt(status, mtu))] + rest);
    MtuWaitSkips(prefix, [Record(MtuChangeEvt(status, mtu))] + rest);
  }

  /** A failed MTU-exchange response ends the loop at once, acknowledged. */
  lemma MtuRspFails(prefix: seq<Event>, status: int, rest: seq<Event>)
    requires forall i :: 0 <= i < |prefix| ==> MtuContinues(prefix[i])
    requires status != 0
    ensures MtuWait(prefix + [Record(ExchangeMtuRsp(status))] + rest) ==
      Wait(Done(Failure(StatusError(OpRsp, TypeExchangeMtu, status))), |prefix| + 1, true)
  {
    assert prefix + [Record(ExchangeMtuRsp(status))] + rest == prefix + ([Record(ExchangeMtuRsp(status))] + rest);
    MtuWaitSkips(prefix, [Record(ExchangeMtuRsp(status))] + rest);
  }

  /** exchangeMtu. */
  method ExchangeMtu(sendErr: Option<BleError>, bl: BleListener, script: seq<Event>)
    returns (r: Outcome<int>, consumed: nat)
    modifies bl
    ensures sendErr.Some? ==>
      r == Done(Failure(Failed(sendErr.value))) && consumed == 0 && bl.acked == old(bl.acked)
    ensures sendErr.None? ==>
      var w := MtuWait(script);
      r == w.outcome && consumed == w.consumed && bl.acked == (old(bl.acked) || w.acked)
  {
    if sendErr.Some? {
      return Done(Failure(Failed(sendErr.value))), 0;
    }
    ghost var acked := false;
    var i := 0;
    while i < |script|
      invariant i <= |script|
      invariant MtuWait(script) == Shift(MtuWait(script[i..]), i, acked)
      invariant bl.acked == (old(bl.acked) || acked)
    {
      assert script[i..][1..] == script[i + 1..];
      match script[i] {
      case Error(e) =>
        return Done(Failure(Failed(e))), i + 1;
      case Timeout =>
        return Done(Failure(TimeoutError(TypeExchangeMtu))), i + 1;
      case Abort =>
      case Record(m) =>
        match m
        case ExchangeMtuRsp(status) =>
          bl.acked := true;
          acked := true;
          if status != 0 {
            return Done(Failure(StatusError(OpRsp, TypeExchangeMtu, status))), i + 1;
          }
        case MtuChangeEvt(status, mtu) =>
          if status != 0 {
            return Done(Failure(StatusError(OpEvt, TypeMtuChangeEvt, status))), i + 1;
          } else {
            return Done(Success(mtu)), i + 1;
          }
        case _ =>
      }
      i := i + 1;
    }
    return Waiting, i;
  }

  // ---------------------------------------------------------------------
  // scan

  /** A run of scan's loop together with the reports handed to scanCb, in call order. */
  datatype ScanRun = ScanRun(wait: Wait<()>, reports: seq<ScanReport>)

  function ShiftRun(run: ScanRun, n: nat, ack: bool): ScanRun {
    ScanRun(Shift(run.wait, n, ack), run.reports)
  }

  /** The wait loop of scan, with log the reports already handed to scanCb. */
  function ScanWait(log: seq<ScanReport>, script: seq<Event>): (run: ScanRun)
    ensures run.wait.consumed <= |script|
    ensures run.wait.outcome.Waiting? ==> run.wait.consumed == |script|
    ensures run.wait.outcome.Done? ==> 0 < run.wait.consumed
    decreases |script|
  {
    if script == [] then ScanRun(Wait(Waiting, 0, false), log)
    else match script[0]
      case Error(e) => ScanRun(Stop(Failure(Failed(e)), false), log)
      case Timeout => ScanRun(Stop(Failure(TimeoutError(TypeExchangeMtu)), false), log)
      case Abort => ScanRun(Stop(Success(()), false), log)
      case Record(ScanRsp(status)) =>
        if status != 0 then ScanRun(Stop(Failure(StatusError(OpRsp, TypeScan, status)), true), log)
        else ShiftRun(ScanWait(log, script[1..]), 1, true)
      case Record(ScanEvt(report)) => ShiftRun(ScanWait(log + [report], script[1..]), 1, false)
      case Record(_) => ShiftRun(ScanWait(log, script[1..]), 1, false)
  }

  /** The events after which scan's loop goes on. */
  predicate ScanContinues(ev: Event) {
    match ev
    case Record(ScanRsp(status)) => status == 0
    case Record(_) => true
    case _ => false
  }

  /** scan's loop goes on while the events continue it and stops at the first one that does not: an error, a timeout, an abort or a failed response. */
  lemma {:induction false} ScanWaitStops(log: seq<ScanReport>, script: seq<Event>)
    ensures var w := ScanWait(log, script).wait;
      && (w.outcome.Waiting? ==> forall i :: 0 <= i < |script| ==> ScanContinues(script[i]))
      && (w.outcome.Done? ==>
            && !ScanContinues(script[w.consumed - 1])
            && (forall i :: 0 <= i < w.consumed - 1 ==> ScanContinues(script[i])))
    decreases |script|
  {
    if script != [] && ScanContinues(script[0]) {
      ScanWaitStops(if script[0].Record? && script[0].msg.ScanEvt? then log + [script[0].msg.report] else log, script[1..]);
      assert forall i :: 1 <= i < |script| ==> script[i] == script[1..][i - 1];
    }
  }

  /** The reports of the scan events, in arrival order. */
  function ReportsOf(events: seq<Event>): seq<ScanReport>
    decreases |events|
  {
    if events == [] then []
    else match events[0]
      case Record(ScanEvt(report)) => [report] + ReportsOf(events[1..])
      case _ => ReportsOf(events[1..])
  }

  lemma {:induction false} ScanReportsInOrder(log: seq<ScanReport>, prefix: seq<Event>, rest: seq<Event>)
    requires forall i :: 0 <= i < |prefix| ==> ScanContinues(prefix[i])
    ensures ScanWait(log, prefix + rest) ==
      ShiftRun(ScanWait(log + ReportsOf(prefix), rest), |prefix|, HasRecord(prefix, (m: Msg) => m.ScanRsp?))
    decreases |prefix|
  {
    if prefix == [] {
      assert prefix + rest == rest;
      assert log + ReportsOf(prefix) == log;
    } else {
      assert (prefix + rest)[0] == prefix[0];
      assert (prefix + rest)[1..] == prefix[1..] + rest;
      if prefix[0].Record? && prefix[0].msg.ScanEvt? {
        var report := prefix[0].msg.report;
        ScanReportsInOrder(log + [report], prefix[1..], rest);
        assert log + [report] + ReportsOf(prefix[1..]) == log + ([report] + ReportsOf(prefix[1..]));
      } else {
        ScanReportsInOrder(log, prefix[1..], rest);
      }
      HasRecordCons(prefix, (m: Msg) => m.ScanRsp?);
    }
  }

  /** Abort ends a scan without error, after every scan event before it has reached scanCb, in order. */
  lemma ScanAbortEnds(prefix: seq<Event>, rest: seq<Event>)
    requires forall i :: 0 <= i < |prefix| ==> ScanContinues(prefix[i])
    ensures var run := ScanWait([], prefix + [Abort] + rest);
      run.wait.outcome == Done(Success(())) && run.wait.consumed == |prefix| + 1 && run.reports == ReportsOf(prefix)
  {
    assert prefix + [Abort] + rest == prefix + ([Abort] + rest);
    ScanReportsInOrder([], prefix, [Abort] + rest);
    assert [] + ReportsOf(prefix) == ReportsOf(prefix);
  }

  /** A failed scan response ends the loop at once, acknowledged, after the reports of the events before it. */
  lemma ScanRspFails(prefix: seq<Event>, status: int, rest: seq<Event>)
    requires forall i :: 0 <= i < |prefix| ==> ScanContinues(prefix[i])
    requires status != 0
    ensures var run := ScanWait([], prefix + [Record(ScanRsp(status))] + rest);
      && run.wait == Wait(Done(Failure(StatusError(OpRsp, TypeScan, status))), |prefix| + 1, true)
      && run.reports == ReportsOf(prefix)
  {
    assert prefix + [Record(ScanRsp(status))] + rest == prefix + ([Record(ScanRsp(status))] + rest);
    ScanReportsInOrder([], prefix, [Record(ScanRsp(status))] + rest);
    assert [] + ReportsOf(prefix) == ReportsOf(prefix);
  }

  /** scan: `reports` are the calls made to scanCb, in order. */
  method Scan(sendErr: Option<BleError>, bl: BleListener, script: seq<Event>)
    returns (r: Outcome<()>, consumed: nat, reports: seq<ScanReport>)
    modifies bl
    ensures sendErr.Some? ==>
      r == Done(Failure(Failed(sendErr.value))) && consumed == 0 && reports == [] && bl.acked == old(bl.acked)
    ensures sendErr.None? ==>
      var run := ScanWait([], script);
      && r == run.wait.outcome && consumed == run.wait.consumed && reports == run.reports
      && bl.acked == (old(bl.acked) || run.wait.acked)
  {
    reports := [];
    if sendErr.Some? {
      return Done(Failure(Failed(sendErr.value))), 0, reports;
    }
    ghost var acked := false;
    var i := 0;
    while i < |script|
      invariant i <= |script|
      invariant ScanWait([], script) == ShiftRun(ScanWait(reports, script[i..]), i, acked)
      invariant bl.acked == (old(bl.acked) || acked)
    {
      assert script[i..][1..] == script[i + 1..];
      match script[i] {
      case Error(e) =>
        return Done(Failure(Failed(e))), i + 1, reports;
      case Timeout =>
        return Done(Failure(TimeoutError(TypeExchangeMtu))), i + 1, reports;
      case Abort =>
        return Done(Success(())), i + 1, reports;
      case Record(m) =>
        match m
        case ScanRsp(status) =>
          bl.acked := true;
          acked := true;
          if status != 0 {
            return Done(Failure(StatusError(OpRsp, TypeScan, status))), i + 1, reports;
          }
        case ScanEvt(report) =>
          reports := reports + [report];
        case _ =>
      }
      i := i + 1;
    }
    return Waiting, i, reports;
  }

  // ---------------------------------------------------------------------
  // Properties that hold across commands

  /** The timeout kind each command reports, exactly as the source tags it. */
  lemma TimeoutTagsAsWritten(uuid: Uuid, rest: seq<Event>)
    ensures AckWait(AckTerminate, [Timeout] + rest).outcome == Done(Failure(TimeoutError(TypeTerminate)))
    ensures AckWait(AckConnCancel, [Timeout] + rest).outcome == Done(Failure(TimeoutError(TypeTerminate)))
    ensures DiscSvcWait(uuid, None, [Timeout] + rest).outcome == Done(Failure(TimeoutError(TypeDiscSvcUuid)))
    ensures DiscChrsWait([], [Timeout] + rest).outcome == Done(Failure(TimeoutError(TypeDiscAllChrs)))
    ensures AckWait(AckWriteCmd, [Timeout] + rest).outcome == Done(Failure(TimeoutError(TypeWriteCmd)))
    ensures MtuWait([Timeout] + rest).outcome == Done(Failure(TimeoutError(TypeExchangeMtu)))
    ensures ScanWait([], [Timeout] + rest).wait.outcome == Done(Failure(TimeoutError(TypeExchangeMtu)))
    ensures AckWait(AckScanCancel, [Timeout] + rest).outcome == Done(Failure(TimeoutError(TypeExchangeMtu)))
  {
  }

  /** An error on the listener ends every wait loop at once, with that error. */
  lemma ErrorEndsEveryWait(e: BleError, cmd: AckCmd, uuid: Uuid, svc: Option<BleSvc>, chrs: seq<BleChr>,
                           log: seq<ScanReport>, rest: seq<Event>)
    ensures AckWait(cmd, [Error(e)] + rest) == Wait(Done(Failure(Failed(e))), 1, false)
    ensures DiscSvcWait(uuid, svc, [Error(e)] + rest) == Wait(Done(Failure(Failed(e))), 1, false)
    ensures DiscChrsWait(chrs, [Error(e)] + rest) == Wait(Done(Failure(Failed(e))), 1, false)
    ensures MtuWait([Error(e)] + rest) == Wait(Done(Failure(Failed(e))), 1, false)
    ensures ScanWait(log, [Error(e)] + rest) == ScanRun(Wait(Done(Failure(Failed(e))), 1, false), log)
  {
  }

  /**
   * Worked exchanges: two characteristics then the end of discovery; a
   * service discovery with and without a candidate; an MTU exchange that
   * succeeds and one whose response status fails it without waiting further.
   */
  lemma ScriptedExamples(uuid: Uuid, a: BleChr, b: BleChr, c: BleChr, s: BleSvc)
    ensures DiscChrsWait([], [Record(DiscAllChrsRsp(0)), Record(DiscChrEvt(0, a)), Record(DiscChrEvt(0, b)),
                             Record(DiscChrEvt(ERR_CODE_EDONE, c))]).outcome == Done(Success([a, b]))
    ensures DiscSvcWait(uuid, None, [Record(DiscSvcUuidRsp(0)), Record(DiscSvcEvt(ERR_CODE_EDONE, s))]).outcome
      == Done(Failure(ServiceNotFound(ERR_CODE_EDONE, uuid)))
    ensures DiscSvcWait(uuid, None, [Record(DiscSvcUuidRsp(0)), Record(DiscSvcEvt(0, s)),
                                     Record(DiscSvcEvt(ERR_CODE_EDONE, s))]).outcome == Done(Success(s))
    ensures MtuWait([Record(ExchangeMtuRsp(0)), Record(MtuChangeEvt(0, 256))]).outcome == Done(Success(256))
    ensures MtuWait([Record(ExchangeMtuRsp(7)), Record(MtuChangeEvt(0, 256))])
      == Wait(Done(Failure(StatusError(OpRsp, TypeExchangeMtu, 7))), 1, true)
  {
    var chrsRun := [Record(DiscAllChrsRsp(0)), Record(DiscChrEvt(0, a)), Record(DiscChrEvt(0, b))];
    assert chrsRun[1..][1..] == [Record(DiscChrEvt(0, b))];
    assert ChrsOf([Record(DiscChrEvt(0, b))]) == [b] + ChrsOf([]);
    assert ChrsOf(chrsRun[1..]) == [a] + [b];
    assert ChrsOf(chrsRun) == [a, b];
    DiscAllChrsEnds(chrsRun, ERR_CODE_EDONE, c, []);
    assert chrsRun + [Record(DiscChrEvt(ERR_CODE_EDONE, c))] + [] ==
      [Record(DiscAllChrsRsp(0)), Record(DiscChrEvt(0, a)), Record(DiscChrEvt(0, b)), Record(DiscChrEvt(ERR_CODE_EDONE, c))];
    var svcRun := [Record(DiscSvcUuidRsp(0)), Record(DiscSvcEvt(0, s))];
    assert svcRun[1..][1..] == [];
    assert LastSvc(None, svcRun) == LastSvc(None, svcRun[1..]) == Some(s);
    DiscSvcUuidEnds(uuid, svcRun, ERR_CODE_EDONE, s, []);
    assert svcRun + [Record(DiscSvcEvt(ERR_CODE_EDONE, s))] + [] ==
      [Record(DiscSvcUuidRsp(0)), Record(DiscSvcEvt(0, s)), Record(DiscSvcEvt(ERR_CODE_EDONE, s))];
  }
}
