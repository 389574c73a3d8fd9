/**
 * The display SPI driver (`disp_spi.c`, present in two near-identical
 * variants): the descriptor builder of `disp_spi_transaction`, the
 * pre-transfer callback that drives the DC line, and the pool of
 * preallocated descriptors with its drain and reserve loops.
 *
 * The pool is modelled sequentially. `idle` is the FreeRTOS queue
 * `TransactionPool`, `inFlight` the FIFO of descriptors the SPI driver has
 * accepted and not yet handed back. A reap either returns the oldest
 * in-flight descriptor or times out; how often it times out is an input and
 * does not change where a loop ends.
 */
module DispSpi {
  import opened SpiTypes

  // The `disp_spi_send_flag_t` bits.
  const SendQueued: bv32 := 0x0000_0000
  const SendPolling: bv32 := 0x0000_0001
  const SendSynchronous: bv32 := 0x0000_0002
  const SignalFlush: bv32 := 0x0000_0004
  const Receive: bv32 := 0x0000_0008
  const Address8: bv32 := 0x0000_0040
  const Address16: bv32 := 0x0000_0080
  const Address24: bv32 := 0x0000_0100
  const Address32: bv32 := 0x0000_0200
  const ModeDio: bv32 := 0x0000_0400
  const ModeQio: bv32 := 0x0000_0800
  const ModeDioQioAddr: bv32 := 0x0000_1000
  const VariableDummyFlag: bv32 := 0x0000_2000

  const AddressMask: bv32 := Address8 | Address16 | Address24 | Address32

  // Pool dimensions.
  const PoolSize: nat := 50
  const PoolReservePercentage: nat := 10
  const PoolReserve: nat := PoolSize / PoolReservePercentage

  /** `uint64_t`. */
  type uint64 = x: int | 0 <= x < 0x1_0000_0000_0000_0000

  function Min(a: nat, b: nat): (m: nat)
    ensures m <= a && m <= b && (m == a || m == b)
  {
    if a <= b then a else b
  }

  // ---------------------------------------------------------------------
  // Descriptor construction
  // ---------------------------------------------------------------------

  datatype Discipline = Polling | Synchronous | QueuedAsync

  /** The branch `disp_spi_transaction` takes: polling wins over synchronous; queued is neither. */
  function DisciplineOf(flags: bv32): (d: Discipline)
    ensures d == Polling <==> flags & SendPolling != 0
    ensures d == Synchronous <==> flags & SendPolling == 0 && flags & SendSynchronous != 0
    ensures d == QueuedAsync <==> flags & (SendPolling | SendSynchronous) == SendQueued
  {
    if flags & SendPolling != 0 then Polling
    else if flags & SendSynchronous != 0 then Synchronous
    else QueuedAsync
  }

  /** The address phase width chosen by the conditional chain: the first set flag from 8 up. */
  function AddressWidth(flags: bv32): (w: nat)
    ensures w == 8 || w == 16 || w == 24 || w == 32
    ensures w == 8 <==> flags & Address8 != 0
    ensures w == 32 ==> flags & (Address8 | Address16 | Address24) == 0
  {
    if flags & Address8 != 0 then 8
    else if flags & Address16 != 0 then 16
    else if flags & Address24 != 0 then 24
    else 32
  }

  /** Every address width whose flag is set in `flags`: an independent reading of the flag word. */
  function RequestedWidths(flags: bv32): (ws: set<nat>)
    ensures forall w :: w in ws ==> w == 8 || w == 16 || w == 24 || w == 32
  {
    (if flags & Address8 != 0 then {8} else {})
    + (if flags & Address16 != 0 then {16} else {})
    + (if flags & Address24 != 0 then {24} else {})
    + (if flags & Address32 != 0 then {32} else {})
  }

  /** True when the small-payload branch applies: the bytes are copied into the descriptor. */
  predicate IsInline(data: Ptr, length: nat)
  {
    length <= 4 && data.Mem?
  }

  /**
   * The descriptor `disp_spi_transaction` builds on its stack from its
   * arguments, before it picks a discipline.
   */
  function BuildTransaction(data: Ptr, length: nat, flags: bv32, out: Ptr, addr: uint64, dummyBits: byte): (t: Transaction)
    requires length < SizeModulus
    requires IsInline(data, length) ==> length <= |data.bytes|
    ensures t.length == (8 * length) % SizeModulus
    ensures length < SizeModulus / 8 ==> t.length == 8 * length
    ensures t.user == flags
    ensures UseTxData in t.flags <==> IsInline(data, length)
    ensures IsInline(data, length) ==> t.txBuffer == Null && t.txData == data.bytes[..length]
    ensures !IsInline(data, length) ==> t.txBuffer == data && t.txData == []
    ensures flags & Receive != 0 ==> t.rxBuffer == out && t.rxLength == t.length
    ensures flags & Receive == 0 ==> t.rxBuffer == Null && t.rxLength == 0
    ensures VariableAddr in t.flags <==> flags & AddressMask != 0
    ensures flags & AddressMask != 0 ==> t.addr == addr && t.addressBits == AddressWidth(flags)
    ensures flags & AddressMask == 0 ==> t.addr == 0 && t.addressBits == 0
    ensures VariableDummy in t.flags <==> flags & VariableDummyFlag != 0
    ensures t.dummyBits == if flags & VariableDummyFlag != 0 then dummyBits else 0
    ensures UseRxData !in t.flags && CsKeepActive !in t.flags
  {
    var inline := IsInline(data, length);
    var base := Zeroed.(
      length := (length * 8) % SizeModulus,
      txBuffer := if inline then Null else data,
      txData := if inline then data.bytes[..length] else [],
      flags := if inline then {UseTxData} else {},
      user := flags);
    var withRx :=
      if flags & Receive != 0 then base.(rxBuffer := out, rxLength := base.length) else base;
    var withAddr :=
      if flags & AddressMask != 0 then
        withRx.(addressBits := AddressWidth(flags), addr := addr, flags := withRx.flags + {VariableAddr})
      else withRx;
    if flags & VariableDummyFlag != 0 then
      withAddr.(dummyBits := dummyBits as nat, flags := withAddr.flags + {VariableDummy})
    else withAddr
  }

  /** Whatever route a request takes, the descriptor transmits exactly the caller's first `length` bytes. */
  lemma PayloadIsCallerBytes(data: Ptr, length: nat, flags: bv32, out: Ptr, addr: uint64, dummyBits: byte)
    requires data.Mem? && 0 < length <= |data.bytes| && length < SizeModulus / 8
    ensures Payload(BuildTransaction(data, length, flags, out, addr, dummyBits)) == Some(data.bytes[..length])
  {
    var t := BuildTransaction(data, length, flags, out, addr, dummyBits);
    assert t.length / 8 == length;
    if IsInline(data, length) {
      assert UseTxData in t.flags && t.txData == data.bytes[..length];
      assert t.txData[..length] == t.txData;
    } else {
      assert UseTxData !in t.flags && t.txBuffer == data;
    }
  }

  /** The width the conditional chain picks is the smallest width requested. */
  lemma {:induction false} AddressWidthIsSmallestRequested(flags: bv32)
    ensures RequestedWidths(flags) != {} <==> flags & AddressMask != 0
    ensures RequestedWidths(flags) != {} ==>
      && AddressWidth(flags) in RequestedWidths(flags)
      && forall w :: w in RequestedWidths(flags) ==> AddressWidth(flags) <= w
  {
    assert flags & AddressMask != 0 <==>
      (flags & Address8 != 0 || flags & Address16 != 0 || flags & Address24 != 0 || flags & Address32 != 0);
  }

  /** So a descriptor has an address phase exactly when some width is requested, and it is the smallest one. */
  lemma DescriptorAddressPhase(data: Ptr, length: nat, flags: bv32, out: Ptr, addr: uint64, dummyBits: byte)
    requires length < SizeModulus
    requires IsInline(data, length) ==> length <= |data.bytes|
    ensures var t := BuildTransaction(data, length, flags, out, addr, dummyBits);
      && (RequestedWidths(flags) != {} <==> VariableAddr in t.flags)
      && (RequestedWidths(flags) != {} ==>
            && t.addr == addr
            && t.addressBits in RequestedWidths(flags)
            && forall w :: w in RequestedWidths(flags) ==> t.addressBits <= w)
      && (RequestedWidths(flags) == {} ==> t.addressBits == 0 && t.addr == 0)
  {
    AddressWidthIsSmallestRequested(flags);
  }

  /**
   * The line-mode and flush-signal bits reach the descriptor only through
   * the opaque `user` word: everything else is built as without them.
   */
  lemma IgnoredFlagsOnlyTagUser(data: Ptr, length: nat, flags: bv32, extra: bv32, out: Ptr, addr: uint64, dummyBits: byte)
    requires length < SizeModulus
    requires IsInline(data, length) ==> length <= |data.bytes|
    requires extra & !(ModeDio | ModeQio | ModeDioQioAddr | SignalFlush) == 0
    ensures BuildTransaction(data, length, flags | extra, out, addr, dummyBits)
         == BuildTransaction(data, length, flags, out, addr, dummyBits).(user := flags | extra)
    ensures DisciplineOf(flags | extra) == DisciplineOf(flags)
  {
    var g := flags | extra;
    assert g & Receive == flags & Receive;
    assert g & AddressMask == flags & AddressMask;
    assert g & Address8 == flags & Address8;
    assert g & Address16 == flags & Address16;
    assert g & Address24 == flags & Address24;
    assert g & VariableDummyFlag == flags & VariableDummyFlag;
    assert g & SendPolling == flags & SendPolling;
    assert g & SendSynchronous == flags & SendSynchronous;
  }

  /**
   * `disp_spi_pre_transfer_callback`: the DC line is set from the `user`
   * word; `gpio_set_level` drives the pin high for any non-zero level.
   */
  function PreTransferDc(t: Transaction): (level: nat)
    ensures level <= 1
    ensures level == 1 <==> t.user != 0
  {
    if t.user != 0 then 1 else 0
  }

  // The flag words of the two public senders.
  const SendDataFlags: bv32 := SendPolling
  const SendColorsFlags: bv32 := SendQueued | SignalFlush

  /**
   * `disp_spi_send_data` polls and `disp_spi_send_colors` queues; both put
   * a non-zero word in `user`, so both transfer with DC high.
   */
  lemma SendersDisciplineAndDc(data: Ptr, length: nat)
    requires length < SizeModulus
    requires IsInline(data, length) ==> length <= |data.bytes|
    ensures DisciplineOf(SendDataFlags) == Polling
    ensures DisciplineOf(SendColorsFlags) == QueuedAsync
    ensures PreTransferDc(BuildTransaction(data, length, SendDataFlags, Null, 0, 0)) == 1
    ensures PreTransferDc(BuildTransaction(data, length, SendColorsFlags, Null, 0, 0)) == 1
    ensures RequestedWidths(SendDataFlags) == {} && RequestedWidths(SendColorsFlags) == {}
  {
  }

  // ---------------------------------------------------------------------
  // Initialisation
  // ---------------------------------------------------------------------

  /** `lvgl_tft/disp_spi.c` logs set-up failures and returns; `lvgl_spi/disp_spi.c` aborts through `ESP_ERROR_CHECK`. */
  datatype Variant = TftDriver | SpiDriver

  datatype InitOutcome = Initialized(descriptors: nat) | ReturnedEarly | Aborted

  /** How `disp_spi_init_config` ends when a set-up step fails before the pool is filled. */
  function EarlyInitOutcome(variant: Variant, busOk: bool, deviceOk: bool, queueOk: bool): (r: Option<InitOutcome>)
    ensures r == None <==> busOk && deviceOk && queueOk
    ensures r == Some(Aborted) <==> variant == SpiDriver && !(busOk && deviceOk)
    ensures r.Some? ==> !r.value.Initialized?
  {
    if !busOk || !deviceOk then Some(if variant == SpiDriver then Aborted else ReturnedEarly)
    else if !queueOk then Some(ReturnedEarly)
    else None
  }

  /**
   * The descriptors the fill loop enqueues, identified by loop index, in
   * enqueue order: one for each allocation that succeeded.
   */
  function AllocatedIds(ok: seq<bool>): (ids: seq<nat>)
    ensures |ids| <= |ok|
    ensures forall i :: 0 <= i < |ids| ==> ids[i] < |ok|
  {
    if ok == [] then []
    else
      var n := |ok| - 1;
      AllocatedIds(ok[..n]) + (if ok[n] then [n] else [])
  }

  lemma AllocatedIdsStep(ok: seq<bool>, i: nat)
    requires i < |ok|
    ensures AllocatedIds(ok[..i + 1]) == AllocatedIds(ok[..i]) + (if ok[i] then [i] else [])
  {
    assert ok[..i + 1][..i] == ok[..i];
  }

  /** The number of successful allocations. */
  function CountTrue(ok: seq<bool>): (n: nat)
    ensures n <= |ok|
  {
    if ok == [] then 0 else CountTrue(ok[..|ok| - 1]) + (if ok[|ok| - 1] then 1 else 0)
  }

  lemma {:induction false} AllocatedCount(ok: seq<bool>)
    ensures |AllocatedIds(ok)| == CountTrue(ok)
  {
    if ok != [] {
      AllocatedCount(ok[..|ok| - 1]);
    }
  }

  /** The pool holds descriptor `k` exactly when the `k`-th allocation succeeded, and in allocation order. */
  lemma {:induction false} AllocatedIdsAreSuccesses(ok: seq<bool>)
    ensures forall k: nat :: k in AllocatedIds(ok) <==> k < |ok| && ok[k]
    ensures forall i, j :: 0 <= i < j < |AllocatedIds(ok)| ==> AllocatedIds(ok)[i] < AllocatedIds(ok)[j]
  {
    if ok != [] {
      var n := |ok| - 1;
      AllocatedIdsAreSuccesses(ok[..n]);
      forall k: nat ensures k in AllocatedIds(ok) <==> k < |ok| && ok[k] {
        if k < n {
          assert ok[..n][k] == ok[k];
        }
      }
    }
  }

  // ---------------------------------------------------------------------
  // The pool as a state machine
  // ---------------------------------------------------------------------

  /** What the bus has started, in order: a polled transfer, a blocking transfer, or a queued descriptor. */
  datatype BusEvent =
    | PolledTransfer(t: Transaction)
    | SyncTransfer(t: Transaction)
    | QueuedTransfer(id: nat, t: Transaction)

  datatype SendOutcome =
    | Skipped   // zero length: nothing happens
    | Sent      // transmitted (polling, synchronous) or accepted by the driver queue
    | Rejected  // `spi_device_queue_trans` refused; the descriptor went back to the pool
    | Hung      // a reap loop whose target cannot be reached: the source spins forever here

  /**
   * The observable pool state: idle descriptors (oldest first), in-flight
   * descriptors (oldest first), the contents last written into each
   * descriptor, and the log of started transfers.
   */
  datatype PoolState = PoolState(idle: seq<nat>, inFlight: seq<nat>, store: map<nat, Transaction>, log: seq<BusEvent>)

  /** No descriptor appears twice among idle and in-flight ones. */
  ghost predicate ExclusivelyOwned(s: PoolState)
  {
    forall d :: multiset(s.idle + s.inFlight)[d] <= 1
  }

  /** How many descriptors a loop `while idle < target { reap }` takes back before it stops or starves. */
  function ReapCount(s: PoolState, target: nat): (k: nat)
    ensures k <= |s.inFlight|
  {
    if |s.idle| >= target then 0 else Min(target - |s.idle|, |s.inFlight|)
  }

  /**
   * The loop `while (idle < target) { if (get_trans_result(...) == OK) release(result); }`.
   * Each successful reap moves the oldest in-flight descriptor to the back
   * of the idle queue. The second component is true when the loop runs out
   * of in-flight descriptors with the target unreached: from then on every
   * reap times out and the source never leaves the loop.
   */
  function ReapLoop(s: PoolState, target: nat): (r: (PoolState, bool))
    ensures r.0.idle + r.0.inFlight == s.idle + s.inFlight
    ensures r.0.store == s.store && r.0.log == s.log
    ensures |s.idle| <= |r.0.idle|
    ensures r.1 <==> |s.idle| + |s.inFlight| < target
    ensures r.1 ==> r.0.inFlight == []
    ensures !r.1 ==> target <= |r.0.idle|
    ensures target <= |s.idle| ==> r.0 == s
    ensures !r.1 && |s.idle| < target ==> |r.0.idle| == target
  {
    var k := ReapCount(s, target);
    assert s.inFlight[..k] + s.inFlight[k..] == s.inFlight;
    (s.(idle := s.idle + s.inFlight[..k], inFlight := s.inFlight[k..]), |s.idle| + |s.inFlight| < target)
  }

  /**
   * The queued tail of `disp_spi_transaction`: take the oldest idle
   * descriptor, overwrite it with `t` and hand it to the driver; on
   * rejection put it back at the end of the pool.
   */
  function QueueStep(s: PoolState, t: Transaction, accepted: bool): (r: (PoolState, SendOutcome))
    requires s.idle != []
    ensures r.1 == Sent <==> accepted
    ensures r.1 == Sent || r.1 == Rejected
    ensures |r.0.idle| + |r.0.inFlight| == |s.idle| + |s.inFlight|
    ensures r.0.store.Keys == s.store.Keys + {s.idle[0]} && r.0.store[s.idle[0]] == t
    ensures accepted ==> |r.0.inFlight| == |s.inFlight| + 1 && |r.0.log| == |s.log| + 1
    ensures !accepted ==> r.0.inFlight == s.inFlight && r.0.log == s.log && |r.0.idle| == |s.idle|
  {
    var d := s.idle[0];
    var taken := s.(idle := s.idle[1..], store := s.store[d := t]);
    if accepted then
      (taken.(inFlight := s.inFlight + [d], log := s.log + [QueuedTransfer(d, t)]), Sent)
    else
      (taken.(idle := taken.idle + [d]), Rejected)
  }

  /** A polling or synchronous send: drain the whole pool first, then put the transfer on the bus. */
  function BlockingSend(s: PoolState, e: BusEvent): (r: (PoolState, SendOutcome))
    ensures r.1 == Sent || r.1 == Hung
    ensures r.1 == Hung <==> |s.idle| + |s.inFlight| < PoolSize
    ensures r.0.store == s.store
    ensures r.0.idle + r.0.inFlight == s.idle + s.inFlight
    ensures r.1 == Sent ==> r.0.log == s.log + [e] && PoolSize <= |r.0.idle|
    ensures r.1 == Hung ==> r.0.log == s.log && r.0.inFlight == []
  {
    var (d, hung) := ReapLoop(s, PoolSize);
    if hung then (d, Hung) else (d.(log := d.log + [e]), Sent)
  }

  /** A queued send: refill to the reserve when the pool is empty, then queue. */
  function QueuedSend(s: PoolState, t: Transaction, accepted: bool): (r: (PoolState, SendOutcome))
    ensures r.1 == Sent || r.1 == Rejected || r.1 == Hung
    ensures r.1 == Hung <==> s.idle == [] && |s.inFlight| < PoolReserve
    ensures r.1 != Hung ==> (r.1 == Sent <==> accepted)
    ensures |r.0.idle| + |r.0.inFlight| == |s.idle| + |s.inFlight|
    ensures r.1 == Sent ==> |r.0.log| == |s.log| + 1
    ensures r.1 != Sent ==> r.0.log == s.log
  {
    var (d, hung) := if s.idle == [] then ReapLoop(s, PoolReserve) else (s, false);
    if hung then (d, Hung) else QueueStep(d, t, accepted)
  }

  /** The whole of `disp_spi_transaction` as one step of the pool state machine. */
  function TransactionStep(s: PoolState, data: Ptr, length: nat, flags: bv32, out: Ptr, addr: uint64, dummyBits: byte,
                           accepted: bool): (r: (PoolState, SendOutcome))
    requires length < SizeModulus
    requires IsInline(data, length) ==> length <= |data.bytes|
    ensures r.1 == Skipped <==> length == 0
    ensures r.1 == Rejected ==> !accepted && DisciplineOf(flags) == QueuedAsync
    ensures r.1 == Hung ==> r.0.log == s.log
    ensures r.1 == Sent ==> |r.0.log| == |s.log| + 1
    ensures r.1 == Skipped ==> r == (s, Skipped)
  {
    if length == 0 then (s, Skipped)
    else
      var t := BuildTransaction(data, length, flags, out, addr, dummyBits);
      match DisciplineOf(flags)
      case Polling => BlockingSend(s, PolledTransfer(t))
      case Synchronous => BlockingSend(s, SyncTransfer(t))
      case QueuedAsync => QueuedSend(s, t, accepted)
  }

  // ---------------------------------------------------------------------
  // Properties of the state machine
  // ---------------------------------------------------------------------

  /** Pool conservation: every descriptor stays either idle or in flight, each exactly once. */
  lemma TransactionConservesPool(s: PoolState, data: Ptr, length: nat, flags: bv32, out: Ptr, addr: uint64, dummyBits: byte,
                                 accepted: bool)
    requires length < SizeModulus
    requires IsInline(data, length) ==> length <= |data.bytes|
    ensures var r := TransactionStep(s, data, length, flags, out, addr, dummyBits, accepted).0;
      multiset(r.idle + r.inFlight) == multiset(s.idle + s.inFlight)
    ensures var r := TransactionStep(s, data, length, flags, out, addr, dummyBits, accepted).0;
      |r.idle| + |r.inFlight| == |s.idle| + |s.inFlight|
  {
    if length > 0 && DisciplineOf(flags) == QueuedAsync {
      var (d, hung) := if s.idle == [] then ReapLoop(s, PoolReserve) else (s, false);
      if !hung {
        QueueStepConserves(d, BuildTransaction(data, length, flags, out, addr, dummyBits), accepted);
      }
    }
  }

  lemma QueueStepConserves(s: PoolState, t: Transaction, accepted: bool)
    requires s.idle != []
    ensures var r := QueueStep(s, t, accepted).0;
      multiset(r.idle + r.inFlight) == multiset(s.idle + s.inFlight)
  {
    var r := QueueStep(s, t, accepted).0;
    var d := s.idle[0];
    assert s.idle == [d] + s.idle[1..];
    if accepted {
      assert r.idle + r.inFlight == s.idle[1..] + s.inFlight + [d];
    } else {
      assert r.idle + r.inFlight == s.idle[1..] + [d] + s.inFlight;
    }
  }

  /**
   * Leak freedom: a rejected queued send leaves the same number of idle
   * descriptors as a send without the rejection would have found after
   * reserving, and leaves earlier in-flight transfers and the log alone.
   */
  lemma RejectionReturnsDescriptor(s: PoolState, data: Ptr, length: nat, flags: bv32, out: Ptr, addr: uint64, dummyBits: byte)
    requires 0 < length < SizeModulus
    requires IsInline(data, length) ==> length <= |data.bytes|
    requires DisciplineOf(flags) == QueuedAsync
    requires s.idle != []
    ensures var r := TransactionStep(s, data, length, flags, out, addr, dummyBits, false);
      && r.1 == Rejected
      && |r.0.idle| == |s.idle|
      && multiset(r.0.idle) == multiset(s.idle)
      && r.0.inFlight == s.inFlight
      && r.0.log == s.log
  {
    var r := TransactionStep(s, data, length, flags, out, addr, dummyBits, false);
    assert s.idle == [s.idle[0]] + s.idle[1..];
    assert r.0.idle == s.idle[1..] + [s.idle[0]];
  }

  /**
   * An accepted queued send with a non-empty pool does not wait for earlier
   * transfers: it takes the oldest idle descriptor, writes exactly the built
   * descriptor into it and appends it to the bus queue.
   */
  lemma QueuedSendTakesOldestIdle(s: PoolState, data: Ptr, length: nat, flags: bv32, out: Ptr, addr: uint64, dummyBits: byte)
    requires 0 < length < SizeModulus
    requires IsInline(data, length) ==> length <= |data.bytes|
    requires DisciplineOf(flags) == QueuedAsync
    requires s.idle != []
    ensures var t := BuildTransaction(data, length, flags, out, addr, dummyBits);
      var r := TransactionStep(s, data, length, flags, out, addr, dummyBits, true);
      && r.1 == Sent
      && r.0.idle == s.idle[1..]
      && r.0.inFlight == s.inFlight + [s.idle[0]]
      && r.0.store == s.store[s.idle[0] := t]
      && r.0.log == s.log + [QueuedTransfer(s.idle[0], t)]
  {
  }

  /**
   * Backpressure: a queued send that finds the pool empty first takes back
   * `PoolReserve` (5) descriptors, oldest first, and then queues into the
   * oldest of them; with fewer than 5 descriptors in the pool it never gets
   * past the reserve loop.
   */
  lemma EmptyPoolReservesFirst(s: PoolState, data: Ptr, length: nat, flags: bv32, out: Ptr, addr: uint64, dummyBits: byte,
                               accepted: bool)
    requires 0 < length < SizeModulus
    requires IsInline(data, length) ==> length <= |data.bytes|
    requires DisciplineOf(flags) == QueuedAsync
    requires s.idle == []
    ensures var r := TransactionStep(s, data, length, flags, out, addr, dummyBits, accepted);
      && (r.1 == Hung <==> |s.inFlight| < PoolReserve)
      && (r.1 == Hung ==> r.0.idle == s.inFlight && r.0.inFlight == [] && r.0.store == s.store && r.0.log == s.log)
      && (r.1 != Hung ==>
            var kept := s.inFlight[PoolReserve..];
            && r.0.store == s.store[s.inFlight[0] := BuildTransaction(data, length, flags, out, addr, dummyBits)]
            && (accepted ==>
                  r.1 == Sent && r.0.idle == s.inFlight[1..PoolReserve] && r.0.inFlight == kept + [s.inFlight[0]])
            && (!accepted ==>
                  r.1 == Rejected && r.0.idle == s.inFlight[1..PoolReserve] + [s.inFlight[0]] && r.0.inFlight == kept))
  {
    var (d, hung) := ReapLoop(s, PoolReserve);
    if !hung {
      assert d.idle == s.inFlight[..PoolReserve];
      assert d.idle[1..] == s.inFlight[1..PoolReserve];
    }
  }

  /**
   * Ordering: a polling or synchronous send starts only once every earlier
   * queued transfer has been reaped, with all `PoolSize` descriptors idle;
   * it leaves the descriptors' contents alone. It hangs exactly when fewer
   * than `PoolSize` descriptors exist.
   */
  lemma BlockingSendDrainsFirst(s: PoolState, data: Ptr, length: nat, flags: bv32, out: Ptr, addr: uint64, dummyBits: byte,
                                accepted: bool)
    requires 0 < length < SizeModulus
    requires IsInline(data, length) ==> length <= |data.bytes|
    requires DisciplineOf(flags) != QueuedAsync
    requires |s.idle| + |s.inFlight| <= PoolSize
    ensures var t := BuildTransaction(data, length, flags, out, addr, dummyBits);
      var r := TransactionStep(s, data, length, flags, out, addr, dummyBits, accepted);
      && r.0.inFlight == []
      && r.0.idle == s.idle + s.inFlight
      && r.0.store == s.store
      && (r.1 == Hung <==> |s.idle| + |s.inFlight| < PoolSize)
      && (r.1 != Hung ==>
            && r.1 == Sent && |r.0.idle| == PoolSize
            && r.0.log == s.log + [if DisciplineOf(flags) == Polling then PolledTransfer(t) else SyncTransfer(t)])
      && (r.1 == Hung ==> r.0.log == s.log)
  {
  }

  /**
   * Single writer: a queued send writes only into the descriptor it took
   * from the idle queue, which is not in flight, so every in-flight
   * descriptor keeps its contents. (The reap loops never write at all.)
   */
  lemma QueueStepWritesOnlyIdle(s: PoolState, t: Transaction, accepted: bool)
    requires s.idle != [] && ExclusivelyOwned(s)
    ensures var r := QueueStep(s, t, accepted).0;
      && s.idle[0] !in s.inFlight
      && r.store == s.store[s.idle[0] := t]
      && (forall e :: e in s.inFlight && e in s.store ==> e in r.store && r.store[e] == s.store[e])
  {
    var d := s.idle[0];
    assert multiset(s.idle + s.inFlight)[d] == multiset(s.idle)[d] + multiset(s.inFlight)[d];
    assert multiset(s.idle)[d] >= 1;
  }

  /** Exclusive ownership and conservation follow from the multiset invariant of the driver. */
  lemma {:induction false} OwnershipAndCount(idle: seq<nat>, inFlight: seq<nat>, pool: set<nat>)
    requires multiset(idle + inFlight) == multiset(pool)
    ensures |idle| + |inFlight| == |pool|
    ensures forall d :: d in pool <==> d in idle || d in inFlight
    ensures forall d :: !(d in idle && d in inFlight)
  {
    SetMultisetCard(pool);
    assert |multiset(idle + inFlight)| == |idle + inFlight|;
    forall d ensures !(d in idle && d in inFlight) {
      assert multiset(idle + inFlight)[d] == multiset(idle)[d] + multiset(inFlight)[d];
      assert d in idle ==> multiset(idle)[d] >= 1;
      assert d in inFlight ==> multiset(inFlight)[d] >= 1;
    }
    forall d ensures d in pool <==> d in idle || d in inFlight {
      assert d in multiset(idle + inFlight) <==> d in idle + inFlight;
    }
  }

  lemma AddFresh(idle: seq<nat>, pool: set<nat>, d: nat)
    requires multiset(idle) == multiset(pool) && d !in pool
    ensures multiset(idle + [d]) == multiset(pool + {d})
  {
    assert multiset(pool + {d}) == multiset(pool) + multiset{d};
  }

  /** Two splits of one sequence with equally long prefixes are the same split. */
  lemma SameSplit(a: seq<nat>, b: seq<nat>, c: seq<nat>, d: seq<nat>)
    requires a + b == c + d && |a| == |c|
    ensures a == c && b == d
  {
    assert a == (a + b)[..|a|];
    assert c == (c + d)[..|c|];
    assert b == (a + b)[|a|..];
    assert d == (c + d)[|c|..];
  }

  lemma MoveHead(a: seq<nat>, b: seq<nat>)
    requires b != []
    ensures a + b == (a + [b[0]]) + b[1..]
  {
    assert b == [b[0]] + b[1..];
  }

  /** Where the reap loop can stop, given what it keeps invariant: exactly where `ReapLoop` says. */
  lemma ReapLoopExit(s: PoolState, target: nat, idle: seq<nat>, inFlight: seq<nat>, k: nat, hung: bool)
    requires idle + inFlight == s.idle + s.inFlight
    requires |idle| == |s.idle| + k
    requires k > 0 ==> |idle| <= target
    requires hung ==> inFlight == [] && |idle| < target
    requires !hung ==> target <= |idle|
    ensures (s.(idle := idle, inFlight := inFlight), hung) == ReapLoop(s, target)
  {
    var r := ReapLoop(s, target);
    SameSplit(idle, inFlight, r.0.idle, r.0.inFlight);
  }

  lemma {:induction false} SetMultisetCard(p: set<nat>)
    ensures |multiset(p)| == |p|
  {
    if p != {} {
      var x :| x in p;
      SetMultisetCard(p - {x});
      assert multiset(p) == multiset(p - {x}) + multiset{x};
    }
  }

  // ---------------------------------------------------------------------
  // The driver object
  // ---------------------------------------------------------------------

  /** Number of reaps that time out before the `k`-th successful one (none when not given). */
  function TimeoutsBefore(timeouts: seq<nat>, k: nat): (wait: nat)
  {
    if k < |timeouts| then timeouts[k] else 0
  }

  /**
   * The file-scope state of `disp_spi.c`: `TransactionPool` and the SPI
   * device's queue of in-flight descriptors, with the memory behind each
   * descriptor pointer.
   */
  class DisplaySpi {
    const variant: Variant
    var created: bool                   // TransactionPool != NULL
    var idle: seq<nat>                  // descriptors in TransactionPool, oldest first
    var inFlight: seq<nat>              // descriptors queued on the SPI device, oldest first
    var store: map<nat, Transaction>    // what was last written into each descriptor
    var log: seq<BusEvent>              // transfers started on the bus, in order
    ghost var pool: set<nat>            // every descriptor allocated at init

    ghost predicate Valid()
      reads this
    {
      && multiset(idle + inFlight) == multiset(pool)
      && |pool| <= PoolSize
      && (!created ==> pool == {})
    }

    ghost function State(): PoolState
      reads this
    {
      PoolState(idle, inFlight, store, log)
    }

    constructor (variant: Variant)
      ensures Valid() && this.variant == variant && !created
      ensures idle == [] && inFlight == [] && store == map[] && log == [] && pool == {}
    {
      this.variant := variant;
      created := false;
      idle, inFlight, store, log := [], [], map[], [];
      pool := {};
    }

    /**
     * `disp_spi_init_config`. The bus, device and queue creation results and
     * each of the `PoolSize` DMA allocations are inputs.
     */
    method InitConfig(busOk: bool, deviceOk: bool, queueOk: bool, allocOk: seq<bool>) returns (outcome: InitOutcome)
      requires Valid() && !created && |allocOk| == PoolSize
      modifies this`created, this`idle, this`pool
      ensures Valid()
      ensures store == old(store) && log == old(log)
      ensures EarlyInitOutcome(variant, busOk, deviceOk, queueOk).Some? ==>
        && outcome == EarlyInitOutcome(variant, busOk, deviceOk, queueOk).value
        && !created && idle == old(idle) && inFlight == old(inFlight) && pool == old(pool)
      ensures EarlyInitOutcome(variant, busOk, deviceOk, queueOk).None? ==>
        && created && idle == AllocatedIds(allocOk) && inFlight == []
        && outcome == Initialized(CountTrue(allocOk)) && |pool| == CountTrue(allocOk) <= PoolSize
    {
      var early := EarlyInitOutcome(variant, busOk, deviceOk, queueOk);
      if early.Some? {
        return early.value;
      }
      OwnershipAndCount(idle, inFlight, pool);
      created := true;
      FillPool(allocOk);
      assert idle + inFlight == idle;
      outcome := Initialized(CountTrue(allocOk));
    }

    /** The fill loop of `disp_spi_init_config`: one descriptor per successful allocation, in order. */
    method FillPool(allocOk: seq<bool>)
      requires |allocOk| == PoolSize
      modifies this`idle, this`pool
      ensures idle == AllocatedIds(allocOk)
      ensures multiset(idle) == multiset(pool)
      ensures |pool| == CountTrue(allocOk) <= PoolSize
    {
      idle := [];
      pool := {};
      for i := 0 to PoolSize
        invariant idle == AllocatedIds(allocOk[..i])
        invariant multiset(idle) == multiset(pool)
        invariant forall d :: d in pool ==> d < i
      {
        AllocatedIdsStep(allocOk, i);
        if allocOk[i] {
          AddFresh(idle, pool, i);
          idle := idle + [i];
          pool := pool + {i};
        }
      }
      assert allocOk[..PoolSize] == allocOk;
      AllocatedCount(allocOk);
      OwnershipAndCount(idle, [], pool);
    }

    /**
     * The reap loop shared by `disp_wait_for_pending_transactions` (target
     * `PoolSize`) and the reserve refill of a queued send (target
     * `PoolReserve`). Reaps time out `timeouts[k]` times before the `k`-th
     * succeeds. When nothing is in flight and the target is still above the
     * idle count, every further reap times out and the source loops forever:
     * the model stops there and reports `hung`.
     */
    method ReapUntil(target: nat, timeouts: seq<nat>) returns (hung: bool)
      requires Valid() && created
      modifies this`idle, this`inFlight
      ensures Valid()
      ensures (State(), hung) == ReapLoop(old(State()), target)
    {
      hung := false;
      var k := 0;
      var wait := TimeoutsBefore(timeouts, 0);
      while |idle| < target
        invariant idle + inFlight == old(idle) + old(inFlight)
        invariant |idle| == |old(idle)| + k
        invariant k > 0 ==> |idle| <= target
        decreases |inFlight|, wait
      {
        if inFlight == [] {
          hung := true;
          break;
        }
        if wait > 0 {
          // spi_device_get_trans_result timed out
          wait := wait - 1;
        } else {
          MoveHead(idle, inFlight);
          idle, inFlight := idle + [inFlight[0]], inFlight[1..];
          k := k + 1;
          wait := TimeoutsBefore(timeouts, k);
        }
      }
      ReapLoopExit(old(State()), target, idle, inFlight, k, hung);
    }

    /**
     * `disp_wait_for_pending_transactions`. Requires a created pool: on a
     * null queue handle `uxQueueMessagesWaiting` fails its assertion rather
     * than looping.
     */
    method WaitForPendingTransactions(timeouts: seq<nat>) returns (hung: bool)
      requires Valid() && created
      modifies this`idle, this`inFlight
      ensures Valid()
      ensures (State(), hung) == ReapLoop(old(State()), PoolSize)
      ensures idle == old(idle) + old(inFlight) && inFlight == []
      ensures hung <==> |pool| < PoolSize
      ensures !hung ==> |idle| == PoolSize
    {
      OwnershipAndCount(idle, inFlight, pool);
      hung := ReapUntil(PoolSize, timeouts);
      OwnershipAndCount(idle, inFlight, pool);
    }

    /** The queued tail of `disp_spi_transaction`, from `xQueueReceive` on. */
    method QueueTransaction(t: Transaction, accepted: bool) returns (outcome: SendOutcome)
      requires Valid() && idle != []
      modifies this`idle, this`inFlight, this`store, this`log
      ensures Valid()
      ensures (State(), outcome) == QueueStep(old(State()), t, accepted)
    {
      ghost var s0 := State();
      QueueStepConserves(s0, t, accepted);
      var d := idle[0];
      idle := idle[1..];
      store := store[d := t];
      if accepted {
        inFlight := inFlight + [d];
        log := log + [QueuedTransfer(d, t)];
        outcome := Sent;
      } else {
        idle := idle + [d];
        outcome := Rejected;
      }
      assert State() == QueueStep(s0, t, accepted).0;
    }

    /**
     * `disp_spi_transaction`. `timeouts` says how often reaps time out,
     * `accepted` whether `spi_device_queue_trans` takes a queued descriptor.
     * Requires an initialised pool (the source dereferences the queue
     * handle) and a caller buffer at least `length` bytes long.
     */
    method SendTransaction(data: Ptr, length: nat, flags: bv32, out: Ptr, addr: uint64, dummyBits: byte,
                           timeouts: seq<nat>, accepted: bool) returns (outcome: SendOutcome)
      requires Valid() && created
      requires length < SizeModulus
      requires data.Mem? ==> length <= |data.bytes|
      modifies this`idle, this`inFlight, this`store, this`log
      ensures Valid()
      ensures (State(), outcome) == TransactionStep(old(State()), data, length, flags, out, addr, dummyBits, accepted)
      ensures |idle| + |inFlight| == |pool| <= PoolSize
    {
      if length == 0 {
        OwnershipAndCount(idle, inFlight, pool);
        return Skipped;
      }
      var t := BuildTransaction(data, length, flags, out, addr, dummyBits);
      match DisciplineOf(flags) {
        case Polling =>
          outcome := SendBlocking(PolledTransfer(t), timeouts);
        case Synchronous =>
          outcome := SendBlocking(SyncTransfer(t), timeouts);
        case QueuedAsync =>
          outcome := SendQueued(t, timeouts, accepted);
      }
      OwnershipAndCount(idle, inFlight, pool);
    }

    /** The polling and synchronous branches of `disp_spi_transaction`. */
    method SendBlocking(e: BusEvent, timeouts: seq<nat>) returns (outcome: SendOutcome)
      requires Valid() && created
      modifies this`idle, this`inFlight, this`log
      ensures Valid()
      ensures (State(), outcome) == BlockingSend(old(State()), e)
    {
      ghost var s0 := State();
      var hung := WaitForPendingTransactions(timeouts);
      ghost var r := ReapLoop(s0, PoolSize);
      assert State() == r.0 && hung == r.1;
      if hung {
        return Hung;
      }
      log := log + [e];
      outcome := Sent;
      assert State() == r.0.(log := r.0.log + [e]);
    }

    /** The queued branch of `disp_spi_transaction`. */
    method SendQueued(t: Transaction, timeouts: seq<nat>, accepted: bool) returns (outcome: SendOutcome)
      requires Valid() && created
      modifies this`idle, this`inFlight, this`store, this`log
      ensures Valid()
      ensures (State(), outcome) == QueuedSend(old(State()), t, accepted)
    {
      if idle == [] {
        var hung := ReapUntil(PoolReserve, timeouts);
        if hung {
          return Hung;
        }
      }
      outcome := QueueTransaction(t, accepted);
    }

    /** `disp_spi_send_data`: a polled send of a caller buffer. */
    method SendData(data: Ptr, length: nat, timeouts: seq<nat>) returns (outcome: SendOutcome)
      requires Valid() && created
      requires length < SizeModulus
      requires data.Mem? ==> length <= |data.bytes|
      modifies this`idle, this`inFlight, this`store, this`log
      ensures Valid()
      ensures (State(), outcome) == TransactionStep(old(State()), data, length, SendDataFlags, Null, 0, 0, true)
    {
      outcome := SendTransaction(data, length, SendDataFlags, Null, 0, 0, timeouts, true);
    }

    /** `disp_spi_send_colors`: a queued send of pixel data, tagged with the flush signal. */
    method SendColors(data: Ptr, length: nat, timeouts: seq<nat>, accepted: bool) returns (outcome: SendOutcome)
      requires Valid() && created
      requires length < SizeModulus
      requires data.Mem? ==> length <= |data.bytes|
      modifies this`idle, this`inFlight, this`store, this`log
      ensures Valid()
      ensures (State(), outcome) == TransactionStep(old(State()), data, length, SendColorsFlags, Null, 0, 0, accepted)
    {
      outcome := SendTransaction(data, length, SendColorsFlags, Null, 0, 0, timeouts, accepted);
    }
  }
}
