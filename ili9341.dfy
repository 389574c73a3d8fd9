/**
 * The ILI9341 panel bring-up of `ili9341.c`: the command and data
 * descriptors `lcd_cmd` and `lcd_data` build, the ID read of `lcd_get_id`
 * and its classification, and `lcd_init`, which pulses reset, reads the ID
 * and plays an initialisation table to its `0xff` sentinel before switching
 * the backlight on.
 *
 * The effect of bring-up is a trace of events. Every transfer is a polling
 * transmit on the display device, whose pre-transfer callback drives DC
 * from the descriptor's `user` word (`DispSpi.PreTransferDc`). The table
 * itself and the ID bytes the panel answers with are parameters.
 */
module Ili9341 {
  import opened SpiTypes
  import DispSpi

  /** `LCD_BK_LIGHT_ON_LEVEL`; the backlight is active low. */
  const BacklightOnLevel: nat := 0
  /** The command that reads the display identification. */
  const ReadIdCommand: byte := 0x04
  /** The `databytes` value that ends a table. */
  const Sentinel: byte := 0xff
  /** The delay after reset edges and after flagged table entries, in milliseconds. */
  const DelayMs: nat := 100

  /** One row of an initialisation table (`lcd_init_cmd_t`). */
  datatype InitCmd = InitCmd(cmd: byte, data: seq<byte>, databytes: byte)

  /** The two output pins `lcd_init` drives itself (DC is driven by the pre-transfer callback). */
  datatype Pin = ResetPin | BacklightPin

  datatype Event =
    | ConfigurePins
    | SetLevel(pin: Pin, level: nat)
    | Delay(ms: nat)
    | AcquireBus
    | ReleaseBus
    | Transmit(t: Transaction)

  /** `type_lcd_t`: `LCD_TYPE_ILI` (1) and `LCD_TYPE_ST` (2). */
  datatype Panel = Ili | St

  // -----------------------------------------------------------------------
  // Descriptors
  // -----------------------------------------------------------------------

  /**
   * `lcd_cmd`: one byte, the command itself, sent with DC low; chip select
   * stays asserted afterwards exactly when `keepCsActive` is set.
   */
  function LcdCmd(cmd: byte, keepCsActive: bool): (t: Transaction)
    ensures t.length == 8 && Payload(t) == Some([cmd])
    ensures DispSpi.PreTransferDc(t) == 0
    ensures CsKeepActive in t.flags <==> keepCsActive
    ensures t.flags <= {CsKeepActive} && t.rxBuffer == Null && t.rxLength == 0
  {
    assert [cmd][..1] == [cmd];
    Zeroed.(length := 8, txBuffer := Mem([cmd]), user := 0, flags := if keepCsActive then {CsKeepActive} else {})
  }

  /**
   * `lcd_data`: nothing at all for an empty payload; otherwise `len` bytes
   * of `data`, counted in bits, sent with DC high.
   */
  function LcdData(data: seq<byte>, len: nat): (t: Option<Transaction>)
    ensures t.None? <==> len == 0
    ensures t.Some? ==> t.value.length == 8 * len && t.value.flags == {}
    ensures t.Some? ==> DispSpi.PreTransferDc(t.value) == 1 && t.value.txBuffer == Mem(data)
    ensures t.Some? && len <= |data| ==> Payload(t.value) == Some(data[..len])
  {
    if len == 0 then None
    else Some(Zeroed.(length := len * 8, txBuffer := Mem(data), user := 1))
  }

  // -----------------------------------------------------------------------
  // Panel identification
  // -----------------------------------------------------------------------

  /** The 24-bit read of `lcd_get_id`: inline receive buffer, DC high. */
  const IdRequest: Transaction := Zeroed.(length := 8 * 3, flags := {UseRxData}, user := 1)

  /** What `lcd_get_id` does on the bus. */
  const GetIdTrace: seq<Event> :=
    [AcquireBus, Transmit(LcdCmd(ReadIdCommand, true)), Transmit(IdRequest), ReleaseBus]

  /** The three ID bytes the panel answers with. */
  datatype IdReply = IdReply(b0: byte, b1: byte, b2: byte)

  /** `rx_data` after the read: the three received bytes; the fourth stays zero from the `memset`. */
  function RxData(r: IdReply): (rx: seq<byte>)
    ensures |rx| == 4
  {
    [r.b0, r.b1, r.b2, 0]
  }

  /** The 32-bit word read out of `rx_data` is zero, whatever its byte order, exactly when all its bytes are. */
  predicate IdIsZero(r: IdReply)
  {
    forall i :: 0 <= i < 4 ==> RxData(r)[i] == 0
  }

  /** The classification of `lcd_init`: an ILI9341 answers with ID 0, anything else is taken for an ST7789V. */
  function Classify(r: IdReply): (p: Panel)
    ensures p == Ili <==> r.b0 == 0 && r.b1 == 0 && r.b2 == 0
  {
    var rx := RxData(r);
    assert rx[0] == r.b0 && rx[1] == r.b1 && rx[2] == r.b2 && rx[3] == 0;
    if IdIsZero(r) then Ili else St
  }

  /** The ID read sends the read-ID command with DC low and chip select held, then reads three bytes with DC high. */
  lemma GetIdShape()
    ensures GetIdTrace[1].t.length == 8 && Payload(GetIdTrace[1].t) == Some([ReadIdCommand])
    ensures CsKeepActive in GetIdTrace[1].t.flags && DispSpi.PreTransferDc(GetIdTrace[1].t) == 0
    ensures IdRequest.length == 24 && IdRequest.flags == {UseRxData} && DispSpi.PreTransferDc(IdRequest) == 1
    ensures GetIdTrace[0] == AcquireBus && GetIdTrace[|GetIdTrace| - 1] == ReleaseBus
  {
  }

  // -----------------------------------------------------------------------
  // Initialisation table
  // -----------------------------------------------------------------------

  /** `databytes & 0x1F`: the low five bits, the number of data bytes of an entry. */
  function DataCount(databytes: byte): (n: nat)
    ensures n < 32
  {
    databytes % 32
  }

  /** `databytes & 0x80`: the top bit, whether the entry is followed by a delay. */
  predicate HasDelay(databytes: byte)
  {
    databytes >= 0x80
  }

  /** What one loop iteration of `lcd_init` puts on the bus for one entry. */
  function EntryEvents(e: InitCmd): (evs: seq<Event>)
    ensures 1 <= |evs| <= 3 && evs[0] == Transmit(LcdCmd(e.cmd, false))
    ensures (|evs| >= 2 && evs[1].Transmit?) <==> DataCount(e.databytes) > 0
    ensures DataCount(e.databytes) > 0 ==>
      && evs[1].t.length == 8 * DataCount(e.databytes)
      && DispSpi.PreTransferDc(evs[1].t) == 1
      && evs[1].t.txBuffer == Mem(e.data)
    ensures DataCount(e.databytes) > 0 && DataCount(e.databytes) <= |e.data| ==>
      Payload(evs[1].t) == Some(e.data[..DataCount(e.databytes)])
    ensures evs[|evs| - 1] == Delay(DelayMs) <==> HasDelay(e.databytes)
  {
    var data := LcdData(e.data, DataCount(e.databytes));
    [Transmit(LcdCmd(e.cmd, false))]
      + (if data.Some? then [Transmit(data.value)] else [])
      + (if HasDelay(e.databytes) then [Delay(DelayMs)] else [])
  }

  /** The events of the entries in index order. */
  function TableTrace(entries: seq<InitCmd>): (evs: seq<Event>)
    ensures |entries| <= |evs| <= 3 * |entries|
  {
    if entries == [] then []
    else TableTrace(entries[..|entries| - 1]) + EntryEvents(entries[|entries| - 1])
  }

  lemma TableTraceStep(table: seq<InitCmd>, k: nat)
    requires k < |table|
    ensures TableTrace(table[..k + 1]) == TableTrace(table[..k]) + EntryEvents(table[k])
  {
    assert table[..k + 1][..k] == table[..k];
  }

  predicate HasSentinel(table: seq<InitCmd>)
  {
    exists i :: 0 <= i < |table| && table[i].databytes == Sentinel
  }

  /** The index of the first sentinel row. */
  function FirstSentinel(table: seq<InitCmd>): (n: nat)
    requires HasSentinel(table)
    ensures n < |table| && table[n].databytes == Sentinel
    ensures forall i :: 0 <= i < n ==> table[i].databytes != Sentinel
  {
    if table[0].databytes == Sentinel then 0
    else
      var i :| 0 <= i < |table| && table[i].databytes == Sentinel;
      assert table[1..][i - 1].databytes == Sentinel;
      1 + FirstSentinel(table[1..])
  }

  /** Pin setup and the reset pulse that open `lcd_init`. */
  const StartupTrace: seq<Event> :=
    [ConfigurePins, SetLevel(ResetPin, 0), Delay(DelayMs), SetLevel(ResetPin, 1), Delay(DelayMs)]

  lemma AppendAssoc(a: seq<Event>, b: seq<Event>, c: seq<Event>)
    ensures a + b + c == a + (b + c)
  {
  }

  lemma BeforeSentinel(table: seq<InitCmd>, k: nat)
    requires HasSentinel(table) && k <= FirstSentinel(table) && table[k].databytes != Sentinel
    ensures k < FirstSentinel(table)
  {
  }

  /** The whole bring-up of `lcd_init` for a table. */
  function InitTrace(table: seq<InitCmd>): (evs: seq<Event>)
    requires HasSentinel(table)
    ensures |evs| >= |StartupTrace| + |GetIdTrace| + FirstSentinel(table) + 1
    ensures evs[0] == ConfigurePins && evs[|evs| - 1] == SetLevel(BacklightPin, BacklightOnLevel)
  {
    StartupTrace
      + GetIdTrace
      + TableTrace(table[..FirstSentinel(table)])
      + [SetLevel(BacklightPin, BacklightOnLevel)]
  }

  /**
   * `lcd_init`. `idReply` is what the panel answers to the ID read. The
   * table is read up to its first sentinel row, which the source relies on
   * being there.
   */
  method LcdInit(table: seq<InitCmd>, idReply: IdReply) returns (trace: seq<Event>, panel: Panel)
    requires HasSentinel(table)
    ensures trace == InitTrace(table)
    ensures panel == Classify(idReply)
  {
    trace := StartupTrace;
    trace := trace + GetIdTrace;
    panel := Classify(idReply);
    ghost var prefix := trace;
    var cmd := 0;
    while table[cmd].databytes != Sentinel
      invariant 0 <= cmd <= FirstSentinel(table)
      invariant trace == prefix + TableTrace(table[..cmd])
      decreases FirstSentinel(table) - cmd
    {
      var sent := PlayEntry(table[cmd]);
      TableTraceStep(table, cmd);
      AppendAssoc(prefix, TableTrace(table[..cmd]), sent);
      trace := trace + sent;
      BeforeSentinel(table, cmd);
      cmd := cmd + 1;
    }
    assert cmd == FirstSentinel(table);
    trace := trace + [SetLevel(BacklightPin, BacklightOnLevel)];
  }

  /** One iteration of the `lcd_init` loop: the command, its data bytes if any, and the delay if flagged. */
  method PlayEntry(e: InitCmd) returns (sent: seq<Event>)
    ensures sent == EntryEvents(e)
  {
    sent := [Transmit(LcdCmd(e.cmd, false))];
    var data := LcdData(e.data, DataCount(e.databytes));
    if data.Some? {
      sent := sent + [Transmit(data.value)];
    }
    if HasDelay(e.databytes) {
      sent := sent + [Delay(DelayMs)];
    }
  }

  // -----------------------------------------------------------------------
  // Properties of the trace
  // -----------------------------------------------------------------------

  /** The bytes sent with DC low, in order: the command stream the panel sees. */
  function CommandBytes(trace: seq<Event>): (bytes: seq<byte>)
  {
    if trace == [] then []
    else
      var last := trace[|trace| - 1];
      CommandBytes(trace[..|trace| - 1])
        + (if last.Transmit? && DispSpi.PreTransferDc(last.t) == 0 && Payload(last.t).Some? then Payload(last.t).value else [])
  }

  /** The number of delays in a trace. */
  function DelayCount(trace: seq<Event>): (n: nat)
    ensures n <= |trace|
  {
    if trace == [] then 0
    else DelayCount(trace[..|trace| - 1]) + (if trace[|trace| - 1].Delay? then 1 else 0)
  }

  /** The commands of the table rows. */
  function Commands(entries: seq<InitCmd>): (cmds: seq<byte>)
    ensures |cmds| == |entries|
    ensures forall i :: 0 <= i < |entries| ==> cmds[i] == entries[i].cmd
  {
    if entries == [] then [] else Commands(entries[..|entries| - 1]) + [entries[|entries| - 1].cmd]
  }

  /** The number of rows with the delay bit set. */
  function FlaggedCount(entries: seq<InitCmd>): (n: nat)
    ensures n <= |entries|
  {
    if entries == [] then 0
    else FlaggedCount(entries[..|entries| - 1]) + (if HasDelay(entries[|entries| - 1].databytes) then 1 else 0)
  }

  lemma {:induction false} CommandBytesAppend(a: seq<Event>, b: seq<Event>)
    ensures CommandBytes(a + b) == CommandBytes(a) + CommandBytes(b)
    decreases |b|
  {
    if b != [] {
      assert (a + b)[..|a + b| - 1] == a + b[..|b| - 1];
      CommandBytesAppend(a, b[..|b| - 1]);
    } else {
      assert a + b == a;
    }
  }

  lemma {:induction false} DelayCountAppend(a: seq<Event>, b: seq<Event>)
    ensures DelayCount(a + b) == DelayCount(a) + DelayCount(b)
    decreases |b|
  {
    if b != [] {
      assert (a + b)[..|a + b| - 1] == a + b[..|b| - 1];
      DelayCountAppend(a, b[..|b| - 1]);
    } else {
      assert a + b == a;
    }
  }

  /**
   * Each row contributes exactly its command to the DC-low stream, and one
   * delay exactly when bit 0x80 is set.
   */
  lemma EntryContribution(e: InitCmd)
    ensures CommandBytes(EntryEvents(e)) == [e.cmd]
    ensures DelayCount(EntryEvents(e)) == if HasDelay(e.databytes) then 1 else 0
  {
    var c := [Transmit(LcdCmd(e.cmd, false))];
    var data := LcdData(e.data, DataCount(e.databytes));
    var d: seq<Event> := if data.Some? then [Transmit(data.value)] else [];
    var w: seq<Event> := if HasDelay(e.databytes) then [Delay(DelayMs)] else [];
    assert EntryEvents(e) == c + d + w;
    CommandBytesAppend(c + d, w);
    CommandBytesAppend(c, d);
    DelayCountAppend(c + d, w);
    DelayCountAppend(c, d);
    assert CommandBytes(c) == [e.cmd] by {
      assert c[..0] == [];
    }
    if data.Some? {
      assert d[..0] == [];
    }
    if HasDelay(e.databytes) {
      assert w[..0] == [];
    }
  }

  /** Playing rows sends their commands, in index order, and nothing else with DC low. */
  lemma {:induction false} TableCommandsInOrder(entries: seq<InitCmd>)
    ensures CommandBytes(TableTrace(entries)) == Commands(entries)
  {
    if entries != [] {
      var init := entries[..|entries| - 1];
      TableCommandsInOrder(init);
      CommandBytesAppend(TableTrace(init), EntryEvents(entries[|entries| - 1]));
      EntryContribution(entries[|entries| - 1]);
    }
  }

  /** Playing rows waits once per row whose `databytes` has bit 0x80 set. */
  lemma {:induction false} TableDelays(entries: seq<InitCmd>)
    ensures DelayCount(TableTrace(entries)) == FlaggedCount(entries)
  {
    if entries != [] {
      var init := entries[..|entries| - 1];
      TableDelays(init);
      DelayCountAppend(TableTrace(init), EntryEvents(entries[|entries| - 1]));
      EntryContribution(entries[|entries| - 1]);
    }
  }

  /** What a single event contributes to the command stream and to the delays. */
  lemma SingleCounts(e: Event)
    ensures CommandBytes([e]) ==
      if e.Transmit? && DispSpi.PreTransferDc(e.t) == 0 && Payload(e.t).Some? then Payload(e.t).value else []
    ensures DelayCount([e]) == if e.Delay? then 1 else 0
  {
    assert [e][..0] == [];
  }

  lemma StartupCounts()
    ensures CommandBytes(StartupTrace) == [] && DelayCount(StartupTrace) == 2
  {
    var p := [ConfigurePins];
    var q := [SetLevel(ResetPin, 0), Delay(DelayMs)];
    var r := [SetLevel(ResetPin, 1), Delay(DelayMs)];
    assert StartupTrace == p + q + r;
    SingleCounts(ConfigurePins);
    SingleCounts(SetLevel(ResetPin, 0));
    SingleCounts(SetLevel(ResetPin, 1));
    SingleCounts(Delay(DelayMs));
    CommandBytesAppend([SetLevel(ResetPin, 0)], [Delay(DelayMs)]);
    DelayCountAppend([SetLevel(ResetPin, 0)], [Delay(DelayMs)]);
    CommandBytesAppend([SetLevel(ResetPin, 1)], [Delay(DelayMs)]);
    DelayCountAppend([SetLevel(ResetPin, 1)], [Delay(DelayMs)]);
    CommandBytesAppend(p, q);
    DelayCountAppend(p, q);
    CommandBytesAppend(p + q, r);
    DelayCountAppend(p + q, r);
  }

  lemma GetIdCounts()
    ensures CommandBytes(GetIdTrace) == [ReadIdCommand] && DelayCount(GetIdTrace) == 0
  {
    var c := Transmit(LcdCmd(ReadIdCommand, true));
    var rd := Transmit(IdRequest);
    var p := [AcquireBus, c];
    var q := [rd, ReleaseBus];
    assert GetIdTrace == p + q;
    SingleCounts(AcquireBus);
    SingleCounts(c);
    SingleCounts(rd);
    SingleCounts(ReleaseBus);
    CommandBytesAppend([AcquireBus], [c]);
    DelayCountAppend([AcquireBus], [c]);
    CommandBytesAppend([rd], [ReleaseBus]);
    DelayCountAppend([rd], [ReleaseBus]);
    CommandBytesAppend(p, q);
    DelayCountAppend(p, q);
  }

  /**
   * The DC-low stream of the whole bring-up: the read-ID command, then the
   * command of every row before the sentinel, in order; the sentinel row
   * and everything after it send nothing. Besides the two reset delays,
   * there is one delay per flagged row.
   */
  lemma InitCommandStream(table: seq<InitCmd>)
    requires HasSentinel(table)
    ensures CommandBytes(InitTrace(table)) == [ReadIdCommand] + Commands(table[..FirstSentinel(table)])
    ensures DelayCount(InitTrace(table)) == 2 + FlaggedCount(table[..FirstSentinel(table)])
  {
    var rows := table[..FirstSentinel(table)];
    var body := TableTrace(rows);
    var tail := [SetLevel(BacklightPin, BacklightOnLevel)];
    var a := StartupTrace + GetIdTrace;
    var b := a + body;
    assert InitTrace(table) == b + tail;
    StartupCounts();
    GetIdCounts();
    CommandBytesAppend(StartupTrace, GetIdTrace);
    DelayCountAppend(StartupTrace, GetIdTrace);
    assert CommandBytes(a) == [ReadIdCommand] && DelayCount(a) == 2;
    TableCommandsInOrder(rows);
    TableDelays(rows);
    CommandBytesAppend(a, body);
    DelayCountAppend(a, body);
    SingleCounts(SetLevel(BacklightPin, BacklightOnLevel));
    CommandBytesAppend(b, tail);
    DelayCountAppend(b, tail);
  }

  /** The rows after the first sentinel never matter. */
  lemma IgnoresRowsAfterSentinel(t1: seq<InitCmd>, t2: seq<InitCmd>)
    requires HasSentinel(t1)
    requires FirstSentinel(t1) < |t2| && t2[..FirstSentinel(t1) + 1] == t1[..FirstSentinel(t1) + 1]
    ensures HasSentinel(t2) && InitTrace(t2) == InitTrace(t1)
  {
    var n := FirstSentinel(t1);
    assert t2[n] == t1[n];
    assert HasSentinel(t2);
    var m := FirstSentinel(t2);
    forall i | 0 <= i < n
      ensures t2[i] == t1[i]
    {
      assert t2[..n + 1][i] == t2[i];
    }
    assert m == n;
    assert t2[..n] == t1[..n];
  }
}
