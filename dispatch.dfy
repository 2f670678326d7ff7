/**
 * The BLE message dispatcher of nmxact/nmble/dispatch.go: a registry of
 * listeners keyed either by a request's sequence number or by a partially
 * wildcarded message header, the routing of one inbound record to at most
 * one listener, and the broadcast of a transport error to every listener.
 */
module Dispatch {
  import opened Wrappers
  import opened BleTypes

  /** The value a header field carries when it stands for "any". */
  const WILD: int := -1

  // Message operation codes (Go's MsgOp).  Their declarations live in
  // ble_proto.go, which is not part of this model; the model relies only on
  // the codes being distinct and non-negative.
  const MSG_OP_RSP: int := 1
  const MSG_OP_EVT: int := 2

  // Message type codes (Go's MsgType), under the same proviso.
  const MSG_TYPE_ERR: int := 1
  const MSG_TYPE_SYNC: int := 2
  const MSG_TYPE_CONNECT: int := 3
  const MSG_TYPE_TERMINATE: int := 4
  const MSG_TYPE_DISC_SVC_UUID: int := 6
  const MSG_TYPE_DISC_CHR_UUID: int := 7
  const MSG_TYPE_DISC_ALL_CHRS: int := 8
  const MSG_TYPE_WRITE_CMD: int := 10
  const MSG_TYPE_EXCHANGE_MTU: int := 11
  const MSG_TYPE_SYNC_EVT: int := 2049
  const MSG_TYPE_CONNECT_EVT: int := 2050
  const MSG_TYPE_DISCONNECT_EVT: int := 2051
  const MSG_TYPE_DISC_SVC_EVT: int := 2052
  const MSG_TYPE_DISC_CHR_EVT: int := 2053
  const MSG_TYPE_NOTIFY_RX_EVT: int := 2055
  const MSG_TYPE_MTU_CHANGE_EVT: int := 2056

  /** Capacities of a listener's two channels. */
  const BLE_CHAN_CAPACITY: nat := 16
  const ERR_CHAN_CAPACITY: nat := 1

  /** The correlation header every record carries; WILD in a field matches anything. */
  datatype MsgBase = MsgBase(op: int, typ: int, seqNum: int, connHandle: int)

  datatype OpTypePair = OpTypePair(op: int, typ: int)

  /** The message types msgCtorMap can construct. */
  datatype MsgKind =
    | ErrRsp | SyncRsp | ConnectRsp | TerminateRsp | DiscSvcUuidRsp
    | DiscChrUuidRsp | DiscAllChrsRsp | WriteCmdRsp | ExchangeMtuRsp
    | SyncEvt | ConnectEvt | DisconnectEvt | DiscSvcEvt | DiscChrEvt
    | NotifyRxEvt | MtuChangeEvt

  /** A decoded message: the kind its constructor produced, filled from the record's bytes. */
  datatype BleMsg = BleMsg(kind: MsgKind, body: Bytes)

  /**
   * The JSON decoder, which this model does not look into: `header` reads
   * the header fields of a record or fails, `body` says whether a record's
   * bytes unmarshal into a message of the given kind.
   */
  datatype Codec = Codec(header: Bytes -> Option<MsgBase>, body: (MsgKind, Bytes) -> bool)

  datatype DecodeError =
    | MalformedHeader
    | UnrecognizedPair(op: int, typ: int)
    | MalformedBody(kind: MsgKind)

  /** The (op, type) pair under which msgCtorMap lists each kind. */
  function KindPair(k: MsgKind): OpTypePair {
    match k
    case ErrRsp => OpTypePair(MSG_OP_RSP, MSG_TYPE_ERR)
    case SyncRsp => OpTypePair(MSG_OP_RSP, MSG_TYPE_SYNC)
    case ConnectRsp => OpTypePair(MSG_OP_RSP, MSG_TYPE_CONNECT)
    case TerminateRsp => OpTypePair(MSG_OP_RSP, MSG_TYPE_TERMINATE)
    case DiscSvcUuidRsp => OpTypePair(MSG_OP_RSP, MSG_TYPE_DISC_SVC_UUID)
    case DiscChrUuidRsp => OpTypePair(MSG_OP_RSP, MSG_TYPE_DISC_CHR_UUID)
    case DiscAllChrsRsp => OpTypePair(MSG_OP_RSP, MSG_TYPE_DISC_ALL_CHRS)
    case WriteCmdRsp => OpTypePair(MSG_OP_RSP, MSG_TYPE_WRITE_CMD)
    case ExchangeMtuRsp => OpTypePair(MSG_OP_RSP, MSG_TYPE_EXCHANGE_MTU)
    case SyncEvt => OpTypePair(MSG_OP_EVT, MSG_TYPE_SYNC_EVT)
    case ConnectEvt => OpTypePair(MSG_OP_EVT, MSG_TYPE_CONNECT_EVT)
    case DisconnectEvt => OpTypePair(MSG_OP_EVT, MSG_TYPE_DISCONNECT_EVT)
    case DiscSvcEvt => OpTypePair(MSG_OP_EVT, MSG_TYPE_DISC_SVC_EVT)
    case DiscChrEvt => OpTypePair(MSG_OP_EVT, MSG_TYPE_DISC_CHR_EVT)
    case NotifyRxEvt => OpTypePair(MSG_OP_EVT, MSG_TYPE_NOTIFY_RX_EVT)
    case MtuChangeEvt => OpTypePair(MSG_OP_EVT, MSG_TYPE_MTU_CHANGE_EVT)
  }

  /** The constructor table: which message kind a record's (op, type) pair decodes to. */
  const MsgCtorMap: map<OpTypePair, MsgKind> := map[
    OpTypePair(MSG_OP_RSP, MSG_TYPE_ERR) := ErrRsp,
    OpTypePair(MSG_OP_RSP, MSG_TYPE_SYNC) := SyncRsp,
    OpTypePair(MSG_OP_RSP, MSG_TYPE_CONNECT) := ConnectRsp,
    OpTypePair(MSG_OP_RSP, MSG_TYPE_TERMINATE) := TerminateRsp,
    OpTypePair(MSG_OP_RSP, MSG_TYPE_DISC_SVC_UUID) := DiscSvcUuidRsp,
    OpTypePair(MSG_OP_RSP, MSG_TYPE_DISC_CHR_UUID) := DiscChrUuidRsp,
    OpTypePair(MSG_OP_RSP, MSG_TYPE_DISC_ALL_CHRS) := DiscAllChrsRsp,
    OpTypePair(MSG_OP_RSP, MSG_TYPE_WRITE_CMD) := WriteCmdRsp,
    OpTypePair(MSG_OP_RSP, MSG_TYPE_EXCHANGE_MTU) := ExchangeMtuRsp,
    OpTypePair(MSG_OP_EVT, MSG_TYPE_SYNC_EVT) := SyncEvt,
    OpTypePair(MSG_OP_EVT, MSG_TYPE_CONNECT_EVT) := ConnectEvt,
    OpTypePair(MSG_OP_EVT, MSG_TYPE_DISCONNECT_EVT) := DisconnectEvt,
    OpTypePair(MSG_OP_EVT, MSG_TYPE_DISC_SVC_EVT) := DiscSvcEvt,
    OpTypePair(MSG_OP_EVT, MSG_TYPE_DISC_CHR_EVT) := DiscChrEvt,
    OpTypePair(MSG_OP_EVT, MSG_TYPE_NOTIFY_RX_EVT) := NotifyRxEvt,
    OpTypePair(MSG_OP_EVT, MSG_TYPE_MTU_CHANGE_EVT) := MtuChangeEvt
  ]

  /** Every pair in the constructor table is the pair of the kind it constructs. */
  lemma MsgCtorMapSound()
    ensures forall p :: p in MsgCtorMap ==> KindPair(MsgCtorMap[p]) == p
  {
  }

  /** Every kind is listed in the constructor table, under its own pair. */
  lemma MsgCtorMapComplete()
    ensures forall k: MsgKind :: KindPair(k) in MsgCtorMap && MsgCtorMap[KindPair(k)] == k
  {
    forall k: MsgKind ensures KindPair(k) in MsgCtorMap && MsgCtorMap[KindPair(k)] == k {
      match k
      case ErrRsp =>
      case SyncRsp =>
      case ConnectRsp =>
      case TerminateRsp =>
      case DiscSvcUuidRsp =>
      case DiscChrUuidRsp =>
      case DiscAllChrsRsp =>
      case WriteCmdRsp =>
      case ExchangeMtuRsp =>
      case SyncEvt =>
      case ConnectEvt =>
      case DisconnectEvt =>
      case DiscSvcEvt =>
      case DiscChrEvt =>
      case NotifyRxEvt =>
      case MtuChangeEvt =>
    }
  }

  /**
   * decodeBleMsg: decode the header, look the (op, type) pair up in the
   * constructor table, then unmarshal the body into a message of that kind.
   */
  function DecodeBleMsg(data: Bytes, codec: Codec): (r: Result<(MsgBase, BleMsg), DecodeError>)
    ensures codec.header(data).None? ==> r == Failure(MalformedHeader)
    ensures codec.header(data).Some? ==>
      var h := codec.header(data).value;
      OpTypePair(h.op, h.typ) !in MsgCtorMap ==> r == Failure(UnrecognizedPair(h.op, h.typ))
    ensures r.Success? <==>
      && codec.header(data).Some?
      && OpTypePair(codec.header(data).value.op, codec.header(data).value.typ) in MsgCtorMap
      && codec.body(MsgCtorMap[OpTypePair(codec.header(data).value.op, codec.header(data).value.typ)], data)
    ensures codec.header(data).Some? ==>
      var h := codec.header(data).value;
      var pair := OpTypePair(h.op, h.typ);
      pair in MsgCtorMap && !codec.body(MsgCtorMap[pair], data) ==> r == Failure(MalformedBody(MsgCtorMap[pair]))
    ensures r.Success? ==>
      && codec.header(data) == Some(r.value.0)
      && KindPair(r.value.1.kind) == OpTypePair(r.value.0.op, r.value.0.typ)
      && codec.body(r.value.1.kind, data)
      && r.value.1.body == data
    ensures r.Success? ==> r.value.0.op != WILD && r.value.0.typ != WILD
  {
    match codec.header(data)
    case None => Failure(MalformedHeader)
    case Some(base) =>
      var pair := OpTypePair(base.op, base.typ);
      if pair !in MsgCtorMap then Failure(UnrecognizedPair(base.op, base.typ))
      else
        var kind := MsgCtorMap[pair];
        if !codec.body(kind, data) then Failure(MalformedBody(kind))
        else MsgCtorMapSound(); Success((base, BleMsg(kind, data)))
  }

  /** One field matches another when either is WILD or both are equal. */
  predicate FieldCompatible(a: int, b: int): (r: bool)
    ensures a == WILD || b == WILD ==> r
    ensures a != WILD && b != WILD ==> (r <==> a == b)
  {
    a == WILD || b == WILD || a == b
  }

  /** The test findBaseListener applies to a baseMap key: a field mismatch excludes the key only when both sides are concrete. */
  predicate Compatible(k: MsgBase, base: MsgBase): (r: bool)
    ensures !r <==>
      || (k.op != WILD && base.op != WILD && k.op != base.op)
      || (k.typ != WILD && base.typ != WILD && k.typ != base.typ)
      || (k.connHandle != WILD && base.connHandle != WILD && k.connHandle != base.connHandle)
  {
    && FieldCompatible(k.op, base.op)
    && FieldCompatible(k.typ, base.typ)
    && FieldCompatible(k.connHandle, base.connHandle)
  }

  /** Compatibility is symmetric and ignores the Seq field of both sides. */
  lemma CompatibleSymmetricIgnoresSeq(k: MsgBase, base: MsgBase, s1: int, s2: int)
    ensures Compatible(k, base) == Compatible(base.(seqNum := s1), k.(seqNum := s2))
  {
  }

  /** A key wild in every field but Type matches exactly the headers of that Type or of a wild Type. */
  lemma TypeOnlyKeyMatchesType(t: int, base: MsgBase)
    requires t != WILD
    ensures Compatible(MsgBase(WILD, t, WILD, WILD), base) <==> base.typ == t || base.typ == WILD
  {
  }

  /** Two headers with concrete op, type and handle that are compatible with one are compatible with each other. */
  lemma CompatibleThroughConcrete(k1: MsgBase, k2: MsgBase, base: MsgBase)
    requires base.op != WILD && base.typ != WILD && base.connHandle != WILD
    requires Compatible(k1, base) && Compatible(k2, base)
    ensures Compatible(k1, k2)
  {
  }

  /** A listener: the queue of records delivered to it and the queue of errors sent to it. */
  class BleListener {
    var bleChan: seq<BleMsg>
    var errChan: seq<BleError>
    const bleCapacity: nat
    const errCapacity: nat

    /** NewBleListener. */
    constructor ()
      ensures bleChan == [] && errChan == []
      ensures bleCapacity == BLE_CHAN_CAPACITY && errCapacity == ERR_CHAN_CAPACITY
    {
      bleChan := [];
      errChan := [];
      bleCapacity := BLE_CHAN_CAPACITY;
      errCapacity := ERR_CHAN_CAPACITY;
    }
  }

  /** A map entry found by a lookup: the key it is stored under and its listener. */
  datatype Found = Found(key: MsgBase, listener: BleListener)

  /** One registration, as ErrorAll snapshots it. */
  datatype Entry =
    | SeqEntry(seqNum: int, listener: BleListener)
    | BaseEntry(key: MsgBase, listener: BleListener)

  /** The dispatcher's two maps as a value. */
  datatype Registry = Registry(seqMap: map<int, BleListener>, baseMap: map<MsgBase, BleListener>) {

    /**
     * The registry invariant: seqMap keys are concrete, every baseMap key has
     * a wild Seq, and no two baseMap keys are compatible.
     */
    ghost predicate Inv() {
      && WILD !in seqMap
      && (forall k :: k in baseMap ==> k.seqNum == WILD)
      && (forall k1, k2 :: k1 in baseMap && k2 in baseMap && Compatible(k1, k2) ==> k1 == k2)
    }

    function Listeners(): set<BleListener> {
      seqMap.Values + baseMap.Values
    }

    /** The results findBaseListener may return: some compatible key, or nothing if there is none. */
    ghost predicate IsBaseResult(base: MsgBase, r: Option<Found>) {
      match r
      case None => forall k :: k in baseMap ==> !Compatible(k, base)
      case Some(f) => f.key in baseMap && Compatible(f.key, base) && baseMap[f.key] == f.listener
    }

    /** The results findDupListener may return: a concrete Seq is looked up in seqMap only. */
    ghost predicate IsDupResult(base: MsgBase, r: Option<Found>) {
      if base.seqNum != WILD then
        r == (if base.seqNum in seqMap then Some(Found(base, seqMap[base.seqNum])) else None)
      else IsBaseResult(base, r)
    }

    /** The results findListener may return: seqMap first for a concrete Seq, else the base scan. */
    ghost predicate IsFindResult(base: MsgBase, r: Option<Found>) {
      if base.seqNum != WILD && base.seqNum in seqMap then r == Some(Found(base, seqMap[base.seqNum]))
      else IsBaseResult(base, r)
    }

    /** Whether AddListener's duplicate check fires for base. */
    predicate Overlaps(base: MsgBase) {
      if base.seqNum != WILD then base.seqNum in seqMap
      else exists k :: k in baseMap && Compatible(k, base)
    }

    /** The entry f names is registered, in the map its key's Seq selects. */
    ghost predicate Holds(f: Found) {
      if f.key.seqNum != WILD then f.key.seqNum in seqMap && seqMap[f.key.seqNum] == f.listener
      else f.key in baseMap && baseMap[f.key] == f.listener
    }

    ghost predicate HasEntry(e: Entry) {
      match e
      case SeqEntry(s, l) => s in seqMap && seqMap[s] == l
      case BaseEntry(k, l) => k in baseMap && baseMap[k] == l
    }
  }

  /** An invalid registration: an overlap with `oldBase`, or a concrete Seq with non-wild fields. */
  datatype AddError =
    | Duplicate(oldBase: MsgBase, newBase: MsgBase)
    | InvalidBase

  /** A concrete Seq combined with any non-wild other field. */
  predicate MixesSeq(base: MsgBase) {
    base.seqNum != WILD && (base.op != WILD || base.typ != WILD || base.connHandle != WILD)
  }

  /** findDupListener reports a registration exactly when the registry overlaps base. */
  lemma DupResultMeansOverlap(reg: Registry, base: MsgBase, r: Option<Found>)
    requires reg.IsDupResult(base, r)
    ensures r.Some? <==> reg.Overlaps(base)
  {
  }

  /** Inserting a wild-Seq header that overlaps nothing keeps the invariant. */
  lemma InsertWildPreservesInv(reg: Registry, base: MsgBase, l: BleListener)
    requires reg.Inv()
    requires base.seqNum == WILD && !reg.Overlaps(base)
    ensures Registry(reg.seqMap, reg.baseMap[base := l]).Inv()
  {
    forall k | k in reg.baseMap ensures !Compatible(k, base) && !Compatible(base, k) {
    }
  }

  /** Inserting a concrete Seq keeps the invariant. */
  lemma InsertSeqPreservesInv(reg: Registry, s: int, l: BleListener)
    requires reg.Inv() && s != WILD
    ensures Registry(reg.seqMap[s := l], reg.baseMap).Inv()
  {
  }

  /**
   * Under the invariant, what findListener resolves is registered in the map
   * its key's Seq selects, so RemoveListener deletes exactly that entry.
   */
  lemma ResolvedEntryIsHeld(reg: Registry, base: MsgBase, f: Found)
    requires reg.Inv() && reg.IsFindResult(base, Some(f))
    ensures reg.Holds(f)
    ensures f.listener in reg.Listeners()
  {
    if base.seqNum != WILD && base.seqNum in reg.seqMap {
      assert reg.seqMap[base.seqNum] in reg.seqMap.Values;
    } else {
      assert f.key.seqNum == WILD;
      assert reg.baseMap[f.key] in reg.baseMap.Values;
    }
  }

  /** Deleting the entry a lookup resolved keeps the invariant. */
  lemma DeleteHeldPreservesInv(reg: Registry, f: Found)
    requires reg.Inv()
    ensures f.key.seqNum != WILD ==> Registry(reg.seqMap - {f.key.seqNum}, reg.baseMap).Inv()
    ensures f.key.seqNum == WILD ==> Registry(reg.seqMap, reg.baseMap - {f.key}).Inv()
  {
  }

  /**
   * Under the invariant, a record whose op, type and handle are all concrete
   * resolves to at most one listener, whatever order the base scan visits keys in.
   */
  lemma ConcreteRecordResolvesUniquely(reg: Registry, base: MsgBase, r1: Option<Found>, r2: Option<Found>)
    requires reg.Inv()
    requires base.op != WILD && base.typ != WILD && base.connHandle != WILD
    requires reg.IsFindResult(base, r1) && reg.IsFindResult(base, r2)
    ensures r1 == r2
  {
    if !(base.seqNum != WILD && base.seqNum in reg.seqMap) && r1.Some? && r2.Some? {
      CompatibleThroughConcrete(r1.value.key, r2.value.key, base);
    }
  }

  /** The number of entries of s whose listener is l. */
  ghost function Occurrences(s: seq<Entry>, l: BleListener): nat {
    if s == [] then 0
    else Occurrences(s[..|s| - 1], l) + (if s[|s| - 1].listener == l then 1 else 0)
  }

  /** Some element of a non-empty set. */
  lemma Element<T>(s: set<T>) returns (x: T)
    requires s != {}
    ensures x in s
  {
    x :| x in s;
  }

  /** n copies of x. */
  function Repeat<T>(x: T, n: nat): (r: seq<T>)
    ensures |r| == n && forall i :: 0 <= i < n ==> r[i] == x
  {
    if n == 0 then [] else Repeat(x, n - 1) + [x]
  }

  class BleDispatcher {
    var seqMap: map<int, BleListener>
    var baseMap: map<MsgBase, BleListener>

    function Reg(): Registry
      reads this
    {
      Registry(seqMap, baseMap)
    }

    ghost predicate Valid()
      reads this
    {
      Reg().Inv()
    }

    function Listeners(): set<BleListener>
      reads this
    {
      Reg().Listeners()
    }

    /** NewBleDispatcher. */
    constructor ()
      ensures Valid()
      ensures seqMap == map[] && baseMap == map[]
    {
      seqMap := map[];
      baseMap := map[];
    }

    /** findBaseListener: scan baseMap, in an unspecified order, for a key compatible with base. */
    method FindBaseListener(base: MsgBase) returns (r: Option<Found>)
      ensures Reg().IsBaseResult(base, r)
    {
      var keys := baseMap.Keys;
      while keys != {}
        invariant keys <= baseMap.Keys
        invariant forall k :: k in baseMap && k !in keys ==> !Compatible(k, base)
        decreases keys
      {
        var k :| k in keys;
        if Compatible(k, base) {
          return Some(Found(k, baseMap[k]));
        }
        keys := keys - {k};
      }
      return None;
    }

    /** findDupListener: a concrete Seq is looked up in seqMap and nowhere else. */
    method FindDupListener(base: MsgBase) returns (r: Option<Found>)
      ensures Reg().IsDupResult(base, r)
      ensures r.Some? <==> Reg().Overlaps(base)
    {
      if base.seqNum != WILD {
        if base.seqNum in seqMap {
          r := Some(Found(base, seqMap[base.seqNum]));
        } else {
          r := None;
        }
      } else {
        r := FindBaseListener(base);
      }
      DupResultMeansOverlap(Reg(), base, r);
    }

    /** findListener: seqMap first when the Seq is concrete and registered, then the base scan. */
    method FindListener(base: MsgBase) returns (r: Option<Found>)
      ensures base.seqNum != WILD && base.seqNum in seqMap ==> r == Some(Found(base, seqMap[base.seqNum]))
      ensures !(base.seqNum != WILD && base.seqNum in seqMap) ==> Reg().IsBaseResult(base, r)
    {
      if base.seqNum != WILD && base.seqNum in seqMap {
        return Some(Found(base, seqMap[base.seqNum]));
      }
      r := FindBaseListener(base);
    }

    /** AddListener: refuse an overlap, then a concrete Seq with non-wild fields, else register. */
    method AddListener(base: MsgBase, listener: BleListener) returns (err: Option<AddError>)
      requires Valid()
      modifies this
      ensures Valid()
      ensures old(Reg()).Overlaps(base) ==>
        && err.Some? && err.value.Duplicate? && err.value.newBase == base
        && (base.seqNum != WILD ==> err.value.oldBase == base)
        && (base.seqNum == WILD ==> err.value.oldBase in old(baseMap) && Compatible(err.value.oldBase, base))
      ensures !old(Reg()).Overlaps(base) && MixesSeq(base) ==> err == Some(InvalidBase)
      ensures !old(Reg()).Overlaps(base) && !MixesSeq(base) ==> err.None?
      ensures err.Some? ==> Reg() == old(Reg())
      ensures err.None? && base.seqNum != WILD ==>
        seqMap == old(seqMap)[base.seqNum := listener] && baseMap == old(baseMap)
      ensures err.None? && base.seqNum == WILD ==>
        baseMap == old(baseMap)[base := listener] && seqMap == old(seqMap)
    {
      var dup := FindDupListener(base);
      if dup.Some? {
        return Some(Duplicate(dup.value.key, base));
      }
      if base.seqNum != WILD {
        if base.op != WILD || base.typ != WILD || base.connHandle != WILD {
          return Some(InvalidBase);
        }
        InsertSeqPreservesInv(Reg(), base.seqNum, listener);
        seqMap := seqMap[base.seqNum := listener];
      } else {
        InsertWildPreservesInv(Reg(), base, listener);
        baseMap := baseMap[base := listener];
      }
      return None;
    }

    /**
     * RemoveListener: delete what findListener resolves and return its
     * listener; `found` names the resolution.
     */
    method RemoveListener(base: MsgBase) returns (bl: Option<BleListener>, ghost found: Option<Found>)
      requires Valid()
      modifies this
      ensures Valid()
      ensures old(Reg()).IsFindResult(base, found)
      ensures bl == (if found.Some? then Some(found.value.listener) else None)
      ensures found.None? ==> Reg() == old(Reg())
      ensures found.Some? ==> old(Reg()).Holds(found.value)
      ensures found.Some? && found.value.key.seqNum != WILD ==>
        seqMap == old(seqMap) - {found.value.key.seqNum} && baseMap == old(baseMap)
      ensures found.Some? && found.value.key.seqNum == WILD ==>
        baseMap == old(baseMap) - {found.value.key} && seqMap == old(seqMap)
    {
      var f := FindListener(base);
      found := f;
      if f.None? {
        return None, found;
      }
      ResolvedEntryIsHeld(Reg(), base, f.value);
      DeleteHeldPreservesInv(Reg(), f.value);
      if f.value.key.seqNum != WILD {
        seqMap := seqMap - {f.value.key.seqNum};
      } else {
        baseMap := baseMap - {f.value.key};
      }
      bl := Some(f.value.listener);
    }

    /**
     * Dispatch: a record that does not decode is dropped; otherwise the
     * message goes to the listener findListener resolves, or nowhere.
     */
    method Dispatch(data: Bytes, codec: Codec) returns (ghost found: Option<Found>)
      requires Valid()
      modifies Listeners()
      ensures Reg() == old(Reg())
      ensures DecodeBleMsg(data, codec).Failure? ==> found.None?
      ensures DecodeBleMsg(data, codec).Success? ==>
        Reg().IsFindResult(DecodeBleMsg(data, codec).value.0, found)
      ensures forall l :: l in Listeners() ==> l.errChan == old(l.errChan)
      ensures forall l :: l in Listeners() ==>
        l.bleChan == if found.Some? && l == found.value.listener
                     then old(l.bleChan) + [DecodeBleMsg(data, codec).value.1]
                     else old(l.bleChan)
    {
      var decoded := DecodeBleMsg(data, codec);
      if decoded.Failure? {
        return None;
      }
      var (base, msg) := decoded.value;
      var f := FindListener(base);
      found := f;
      if f.None? {
        return;
      }
      ResolvedEntryIsHeld(Reg(), base, f.value);
      var listener := f.value.listener;
      listener.bleChan := listener.bleChan + [msg];
    }

    /** The first loop of ErrorAll: one listener per seqMap entry, in an unspecified order. */
    method SnapshotSeqMap() returns (listeners: seq<BleListener>, ghost entries: seq<Entry>)
      ensures |listeners| == |entries|
      ensures forall i :: 0 <= i < |entries| ==> entries[i].listener == listeners[i]
      ensures forall i :: 0 <= i < |entries| ==> entries[i].SeqEntry? && Reg().HasEntry(entries[i])
      ensures forall s :: s in seqMap ==> SeqEntry(s, seqMap[s]) in entries
      ensures forall i, j :: 0 <= i < j < |entries| ==> entries[i] != entries[j]
    {
      listeners, entries := [], [];
      var keys := seqMap.Keys;
      while keys != {}
        invariant keys <= seqMap.Keys
        invariant |listeners| == |entries|
        invariant forall i :: 0 <= i < |entries| ==> entries[i].listener == listeners[i]
        invariant forall i :: 0 <= i < |entries| ==>
          entries[i].SeqEntry? && entries[i].seqNum !in keys && Reg().HasEntry(entries[i])
        invariant forall s :: s in seqMap && s !in keys ==> SeqEntry(s, seqMap[s]) in entries
        invariant forall i, j :: 0 <= i < j < |entries| ==> entries[i] != entries[j]
        decreases keys
      {
        ghost var picked := Element(keys);
        var s :| s in keys;
        listeners := listeners + [seqMap[s]];
        entries := entries + [SeqEntry(s, seqMap[s])];
        keys := keys - {s};
      }
    }

    /** The second loop of ErrorAll: one listener per baseMap entry, in an unspecified order. */
    method SnapshotBaseMap() returns (listeners: seq<BleListener>, ghost entries: seq<Entry>)
      ensures |listeners| == |entries|
      ensures forall i :: 0 <= i < |entries| ==> entries[i].listener == listeners[i]
      ensures forall i :: 0 <= i < |entries| ==> entries[i].BaseEntry? && Reg().HasEntry(entries[i])
      ensures forall k :: k in baseMap ==> BaseEntry(k, baseMap[k]) in entries
      ensures forall i, j :: 0 <= i < j < |entries| ==> entries[i] != entries[j]
    {
      listeners, entries := [], [];
      var keys := baseMap.Keys;
      while keys != {}
        invariant keys <= baseMap.Keys
        invariant |listeners| == |entries|
        invariant forall i :: 0 <= i < |entries| ==> entries[i].listener == listeners[i]
        invariant forall i :: 0 <= i < |entries| ==>
          entries[i].BaseEntry? && entries[i].key !in keys && Reg().HasEntry(entries[i])
        invariant forall k :: k in baseMap && k !in keys ==> BaseEntry(k, baseMap[k]) in entries
        invariant forall i, j :: 0 <= i < j < |entries| ==> entries[i] != entries[j]
        decreases keys
      {
        var k :| k in keys;
        listeners := listeners + [baseMap[k]];
        entries := entries + [BaseEntry(k, baseMap[k])];
        keys := keys - {k};
      }
    }

    /**
     * ErrorAll: snapshot every registration of both maps, then send err to
     * each snapshot member; `snapshot` names the registrations in send order.
     */
    method ErrorAll(err: BleError) returns (ghost snapshot: seq<Entry>)
      modifies Listeners()
      ensures Reg() == old(Reg())
      ensures forall i :: 0 <= i < |snapshot| ==> Reg().HasEntry(snapshot[i])
      ensures forall s :: s in seqMap ==> SeqEntry(s, seqMap[s]) in snapshot
      ensures forall k :: k in baseMap ==> BaseEntry(k, baseMap[k]) in snapshot
      ensures forall i, j :: 0 <= i < j < |snapshot| ==> snapshot[i] != snapshot[j]
      ensures forall l :: l in Listeners() ==> l.bleChan == old(l.bleChan)
      ensures forall l :: l in Listeners() ==>
        l.errChan == old(l.errChan) + Repeat(err, Occurrences(snapshot, l))
    {
      var seqListeners, seqEntries := SnapshotSeqMap();
      var baseListeners, baseEntries := SnapshotBaseMap();
      var listeners := seqListeners + baseListeners;
      snapshot := seqEntries + baseEntries;
      forall i | 0 <= i < |snapshot| ensures snapshot[i].listener == listeners[i] && listeners[i] in Listeners() {
        assert Reg().HasEntry(snapshot[i]);
        match snapshot[i]
        case SeqEntry(s, l) => assert seqMap[s] in seqMap.Values;
        case BaseEntry(k, l) => assert baseMap[k] in baseMap.Values;
      }
      SendErr(listeners, snapshot, err, Listeners());
    }
  }

  /** The last loop of ErrorAll: send err to every listener of the snapshot, in order. */
  method SendErr(listeners: seq<BleListener>, ghost entries: seq<Entry>, err: BleError, ghost targets: set<BleListener>)
    requires |listeners| == |entries|
    requires forall i :: 0 <= i < |entries| ==> entries[i].listener == listeners[i] && listeners[i] in targets
    modifies targets
    ensures forall l :: l in targets ==> l.bleChan == old(l.bleChan)
    ensures forall l :: l in targets ==> l.errChan == old(l.errChan) + Repeat(err, Occurrences(entries, l))
  {
    for i := 0 to |listeners|
      invariant forall l :: l in targets ==> l.bleChan == old(l.bleChan)
      invariant forall l :: l in targets ==>
        l.errChan == old(l.errChan) + Repeat(err, Occurrences(entries[..i], l))
    {
      assert entries[..i + 1][..i] == entries[..i];
      listeners[i].errChan := listeners[i].errChan + [err];
    }
    assert entries[..|listeners|] == entries;
  }
}
