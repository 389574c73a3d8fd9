/**
 * The shapes of the ESP-IDF SPI master descriptor (`spi_transaction_t`,
 * extended with the fields of `spi_transaction_ext_t`) that the display
 * drivers fill in, and what such a descriptor puts on the bus.
 */
module SpiTypes {

  /** An unsigned byte. */
  type byte = b: int | 0 <= b < 0x100

  /** `size_t` on the ESP32 (32 bits wide). */
  const SizeModulus: int := 0x1_0000_0000

  /**
   * A C pointer. A non-null pointer is modelled by the bytes it points to,
   * so two descriptors that reference the same caller buffer compare equal.
   */
  datatype Ptr = Null | Mem(bytes: seq<byte>)

  /** The `SPI_TRANS_*` bits of a descriptor's `flags` word that these drivers use. */
  datatype TransFlag = UseTxData | UseRxData | VariableAddr | VariableDummy | CsKeepActive

  /**
   * One SPI descriptor. `length` and `rxLength` are in bits; `txData` is the
   * inline transmit buffer (meaningful only with `UseTxData`); `user` is the
   * opaque word handed to the pre-transfer callback; `addressBits` and
   * `dummyBits` are the extension fields of `spi_transaction_ext_t`.
   */
  datatype Transaction = Transaction(
    length: nat,
    rxLength: nat,
    flags: set<TransFlag>,
    user: bv32,
    txBuffer: Ptr,
    txData: seq<byte>,
    rxBuffer: Ptr,
    addr: nat,
    addressBits: nat,
    dummyBits: nat)

  /** A descriptor after `memset(&t, 0, sizeof(t))` or `= { 0 }`. */
  const Zeroed: Transaction :=
    Transaction(0, 0, {}, 0, Null, [], Null, 0, 0, 0)

  /**
   * The bytes a descriptor transmits: the first `length / 8` bytes of the
   * inline buffer when `UseTxData` is set, otherwise of the referenced
   * buffer; `None` when there is no transmit buffer or it is too short.
   */
  function Payload(t: Transaction): (p: Option<seq<byte>>)
    ensures p.Some? ==> |p.value| == t.length / 8
  {
    var n := t.length / 8;
    if UseTxData in t.flags then
      if n <= |t.txData| then Some(t.txData[..n]) else None
    else
      match t.txBuffer
      case Null => None
      case Mem(b) => if n <= |b| then Some(b[..n]) else None
  }

  datatype Option<T> = None | Some(value: T)
}
