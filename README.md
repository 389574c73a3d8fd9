# ESP32 LVGL display and touch drivers, modelled in Dafny

This project models four pieces of sequential logic from the ESP32 LVGL driver components, and proves properties about them:

- **Display SPI transfers** (`disp_spi.c`, in the `lvgl_tft` and `lvgl_spi` variants), in `spi_types.dfy` and `disp_spi.dfy`:
  - how `disp_spi_transaction` turns a request into an SPI descriptor;
  - how it picks one of three transfer disciplines: polling, synchronous or queued;
  - the pre-transfer callback that drives the DC (data/command) line;
  - the fixed pool of up to 50 preallocated descriptors, with its fill, drain and reserve loops.

  The pool is the class `DispSpi.DisplaySpi`:
  - `idle` is the FreeRTOS queue `TransactionPool`;
  - `inFlight` is the FIFO of descriptors that the SPI driver has accepted and not yet handed back;
  - `store` is what was last written into each descriptor;
  - `log` is the sequence of transfers started on the bus.

  Each method is proved against a pure step function (`ReapLoop`, `QueueStep`, `TransactionStep`). The properties are proved as lemmas about those functions. The two variants differ only in what happens when initialisation fails, and the `Variant` parameter selects that behaviour.
- **XPT2046 touch pipeline** (`xpt2046.c`), in `xpt2046.dfy`. It covers the register read, touch detection from the IRQ line and the pressure estimate, coordinate correction, the four-deep moving average (kept in place in two arrays), and the `last_x`/`last_y`/`avg_last` state of the read callback (class `Xpt2046.TouchState`).
  - The C conversions are written out: the `int16_t` wrap-around, and `>>` as an arithmetic shift.
  - The controller's replies, the IRQ level and the display resolution (`LV_HOR_RES`, `LV_VER_RES`) are inputs.
- **ILI9341 bring-up** (`ili9341.c`), in `ili9341.dfy`. The effect of `lcd_init` is a trace of events: pin set-up, the reset pulse, the ID read, the init-table player up to its `0xff` sentinel, and the backlight.
  - The descriptors come from `lcd_cmd` and `lcd_data`.
  - DC is derived with the display driver's pre-transfer callback.
  - The init table (`ili_init_cmds` is not part of this model) and the panel's ID reply are inputs.

Terms used below:
- A *reap* is one call of `spi_device_get_trans_result`. It either returns the oldest in-flight descriptor or times out. The parameter `timeouts` says how many reaps time out before each success.
- `Hung` means a reap loop whose target cannot be reached. This happens when the pool was created, nothing is in flight, and fewer descriptors exist than the loop waits for. The C loop then spins forever; the model stops and reports that outcome. Before the pool is created the queue handle is null, and `uxQueueMessagesWaiting` fails its assertion instead, so the reap loops require a created pool.

## Model

| member | source | states |
|---|---|---|
| DispSpi.DisciplineOf | components/lvgl_esp32_drivers/lvgl_tft/disp_spi.c:135-141 | Polling exactly when the POLLING bit is set. Synchronous exactly when SYNCHRONOUS is set without POLLING. Queued exactly when neither bit is set, which is what `DISP_SPI_SEND_QUEUED == 0` denotes. |
| DispSpi.BuildTransaction | components/lvgl_esp32_drivers/lvgl_tft/disp_spi.c:105-133 | Bit length is `8*length` (modulo the 32-bit `size_t`). `user` is the flag word. Inline copy (`USE_TXDATA`, the first `length` bytes in `tx_data`; `tx_buffer` is modelled as a separate null field) exactly when `length <= 4` and data is non-null; otherwise `tx_buffer == data`. RECEIVE sets `rx_buffer = out` and `rxlength = length`, else both stay zero. The address is copied and `VARIABLE_ADDR` set exactly when an address flag is set. Dummy bits and their flag are set exactly with `VARIABLE_DUMMY`. Nothing else is set. |
| DispSpi.AddressWidth | components/lvgl_esp32_drivers/lvgl_tft/disp_spi.c:124-125 | The width is one of 8, 16, 24 and 32. It is 8 exactly when ADDRESS_8 is set, and 32 only when none of the three smaller flags is set. |
| DispSpi.PayloadIsCallerBytes | components/lvgl_esp32_drivers/lvgl_tft/disp_spi.c:107-116 | On both the inline and the referenced route, the descriptor's payload is the caller's first `length` bytes as they are when `disp_spi_transaction` is called. On the referenced route this holds only if the caller leaves the buffer alone until the transfer is done (see Left out). |
| DispSpi.AddressWidthIsSmallestRequested | components/lvgl_esp32_drivers/lvgl_tft/disp_spi.c:123-125 | Some width is requested iff an address flag is set. The conditional chain then picks a requested width, and it is the smallest one. |
| DispSpi.DescriptorAddressPhase | components/lvgl_esp32_drivers/lvgl_spi/disp_spi.c:114-119 | A built descriptor has an address phase iff a width is requested. It then carries `addr` and the smallest requested width; otherwise the address and width are zero. |
| DispSpi.IgnoredFlagsOnlyTagUser | components/lvgl_esp32_drivers/lvgl_tft/disp_spi.c:105-141 | Adding DIO, QIO, DIOQIO_ADDR or SIGNAL_FLUSH changes only the `user` word of the descriptor, and never the discipline. |
| DispSpi.PreTransferDc | components/lvgl_esp32_drivers/lvgl_tft/disp_spi.c:25-29 | DC is driven high exactly when the descriptor's `user` word is non-zero. |
| DispSpi.SendersDisciplineAndDc | components/lvgl_esp32_drivers/lvgl_tft/disp_spi.c:163-174 | `send_data` polls and `send_colors` queues. Both transfer with DC high and without an address phase. |
| DispSpi.EarlyInitOutcome | components/lvgl_esp32_drivers/lvgl_spi/disp_spi.c:43-53 | Initialisation goes on to the fill only when the bus, the device and the queue all come up. In the `lvgl_spi` variant a bus or device failure aborts (`ESP_ERROR_CHECK`). Every other early failure returns. |
| DispSpi.AllocatedIds | components/lvgl_esp32_drivers/lvgl_tft/disp_spi.c:73-80 | The fill enqueues at most one descriptor per attempt, each identified by its attempt index. |
| DispSpi.AllocatedCount | components/lvgl_esp32_drivers/lvgl_tft/disp_spi.c:73-80 | The number of descriptors enqueued equals the number of allocations that succeeded. |
| DispSpi.AllocatedIdsAreSuccesses | components/lvgl_esp32_drivers/lvgl_spi/disp_spi.c:54-59 | Descriptor `k` is in the pool iff the `k`-th allocation succeeded, so failed ones are skipped. The pool is in allocation order. |
| DispSpi.ReapLoop | components/lvgl_esp32_drivers/lvgl_tft/disp_spi.c:87-95 | The loop only moves descriptors from the head of in-flight to the back of idle. It never writes descriptors or the log, and it never shrinks idle. It hangs iff idle plus in-flight is below the target. Otherwise it stops at once if the target is already met, and with exactly the target idle when it started below it. |
| DispSpi.QueueStep | components/lvgl_esp32_drivers/lvgl_tft/disp_spi.c:150-156 | The outcome is Sent exactly when the driver accepts, and Rejected otherwise. The number of descriptors is kept. The taken descriptor now holds the new descriptor. On acceptance one more is in flight and one transfer is logged; on rejection in-flight, the log and the idle count are unchanged. |
| DispSpi.BlockingSend | components/lvgl_esp32_drivers/lvgl_tft/disp_spi.c:135-140 | The outcome is Sent or Hung, and Hung exactly when fewer than 50 descriptors exist. Contents are kept, and the reap only moves descriptors from in-flight to idle in order. Sent means at least 50 are idle and exactly the transfer is logged. Hung means nothing is logged and nothing is in flight. |
| DispSpi.QueuedSend | components/lvgl_esp32_drivers/lvgl_tft/disp_spi.c:141-157 | The outcome is Sent, Rejected or Hung, and Hung exactly when the pool is empty with fewer than 5 in flight. Otherwise the outcome is Sent exactly when the driver accepts. The descriptor count is kept. Only Sent logs, and it logs one transfer. |
| DispSpi.TransactionStep | components/lvgl_esp32_drivers/lvgl_tft/disp_spi.c:100-158 | Skipped exactly for zero length (the early return at line 103), and then pool, bus queue, descriptors and log are unchanged. Rejected only for a queued send the driver refuses. A Hung send logs nothing, and a Sent one logs exactly one transfer. |
| DispSpi.TransactionConservesPool | components/lvgl_esp32_drivers/lvgl_tft/disp_spi.c:135-157 | Every step keeps the multiset of descriptors that are idle or in flight, and so their total count, whatever the discipline and outcome. |
| DispSpi.QueueStepConserves | components/lvgl_esp32_drivers/lvgl_tft/disp_spi.c:150-156 | Acquire, overwrite and queue, or hand back on rejection: the idle and in-flight descriptors stay the same multiset. |
| DispSpi.RejectionReturnsDescriptor | components/lvgl_esp32_drivers/lvgl_spi/disp_spi.c:141-146 | A rejected queued send returns the descriptor. Idle keeps the same descriptors and count. In-flight and the log are unchanged. |
| DispSpi.QueuedSendTakesOldestIdle | components/lvgl_esp32_drivers/lvgl_tft/disp_spi.c:150-153 | An accepted queued send with a non-empty pool takes the oldest idle descriptor, overwrites it with exactly the built descriptor, and appends it to the bus queue. |
| DispSpi.EmptyPoolReservesFirst | components/lvgl_esp32_drivers/lvgl_tft/disp_spi.c:142-153 | A queued send that finds the pool empty first reaps the 5 oldest in-flight descriptors (`50/10`). It then acquires the oldest of them. It hangs iff fewer than 5 are in flight. |
| DispSpi.BlockingSendDrainsFirst | components/lvgl_esp32_drivers/lvgl_tft/disp_spi.c:135-140 | A polling or synchronous send first reaps everything in flight, in order. It runs with all 50 descriptors idle and leaves their contents alone. It hangs iff fewer than 50 exist. |
| DispSpi.QueueStepWritesOnlyIdle | components/lvgl_esp32_drivers/lvgl_tft/disp_spi.c:150-152 | Under exclusive ownership, a queued send writes only the descriptor it took, which is not in flight. Every in-flight descriptor keeps its contents. |
| DispSpi.OwnershipAndCount | components/lvgl_esp32_drivers/lvgl_tft/disp_spi.c:150-156 | From the driver invariant: idle plus in-flight equals the number allocated, each allocated descriptor is in exactly one of them, and none is in both. |
| DispSpi.DisplaySpi.constructor | components/lvgl_esp32_drivers/lvgl_tft/disp_spi.c:15 | Before initialisation there is no pool, nothing idle, nothing in flight. |
| DispSpi.DisplaySpi.InitConfig | components/lvgl_esp32_drivers/lvgl_tft/disp_spi.c:34-82 | On an early failure, ends as `EarlyInitOutcome` says, with no pool. Otherwise the pool holds exactly the successfully allocated descriptors (at most 50), nothing is in flight, and the invariant holds. |
| DispSpi.DisplaySpi.FillPool | components/lvgl_esp32_drivers/lvgl_spi/disp_spi.c:54-59 | The loop leaves idle equal to `AllocatedIds` with one entry per successful allocation, and at most 50 of them. |
| DispSpi.DisplaySpi.ReapUntil | components/lvgl_esp32_drivers/lvgl_spi/disp_spi.c:135-139 | The reap loop, with any pattern of time-outs, ends in the state `ReapLoop` gives and keeps the invariant. |
| DispSpi.DisplaySpi.WaitForPendingTransactions | components/lvgl_esp32_drivers/lvgl_spi/disp_spi.c:74-81 | Afterwards everything once in flight is idle, in reap order. There are 50 idle descriptors unless fewer than 50 were allocated, in which case it hangs. |
| DispSpi.DisplaySpi.QueueTransaction | components/lvgl_esp32_drivers/lvgl_spi/disp_spi.c:141-146 | Acquire, overwrite and queue, or return on rejection: the new state is `QueueStep`, and the invariant holds. |
| DispSpi.DisplaySpi.SendBlocking | components/lvgl_esp32_drivers/lvgl_tft/disp_spi.c:135-140 | Drain, then start the transfer on the bus, or hang. |
| DispSpi.DisplaySpi.SendQueued | components/lvgl_esp32_drivers/lvgl_spi/disp_spi.c:132-146 | Reserve when the pool is empty, then queue. |
| DispSpi.DisplaySpi.SendTransaction | components/lvgl_esp32_drivers/lvgl_tft/disp_spi.c:100-158 | The new state and outcome are `TransactionStep`. The invariant is kept, and idle plus in-flight still equals the number allocated. |
| DispSpi.DisplaySpi.SendData | components/lvgl_esp32_drivers/lvgl_tft/disp_spi.c:163-166 | A polled transaction with no receive buffer, address or dummy bits. |
| DispSpi.DisplaySpi.SendColors | components/lvgl_esp32_drivers/lvgl_tft/disp_spi.c:171-174 | A queued transaction tagged with the flush signal. |
| Xpt2046.ReadValue | components/lvgl_esp32_drivers/lvgl_touch/xpt2046.c:125-130 | The register value is `hi*256 + lo`, as `int16_t`: values with the top bit set come out negative. |
| Xpt2046.ReadValueRoundTrip | components/lvgl_esp32_drivers/lvgl_touch/xpt2046.c:127-129 | Combining the two bytes loses nothing. Splitting the value again gives back the bytes, and every 16-bit value is the combination of its bytes. |
| Xpt2046.Int16 | components/lvgl_esp32_drivers/lvgl_touch/xpt2046.c:129 | The conversion to `int16_t` gives a value in [-32768, 32767], congruent to the input modulo 2^16, and leaves values that fit unchanged. |
| Xpt2046.ShiftRight | components/lvgl_esp32_drivers/lvgl_touch/xpt2046.c:76-77 | `>>` on a signed value keeps its sign and does not grow a non-negative value. |
| Xpt2046.IsTouchDetected | components/lvgl_esp32_drivers/lvgl_touch/xpt2046.c:100-120 | Either no register is read, or Z1 then Z2 are read. A touch is reported only after both pressure reads, and only at `z >= 400`. |
| Xpt2046.Pressure | components/lvgl_esp32_drivers/lvgl_touch/xpt2046.c:110-112 | `z = (z1 >> 3) + 4096 - (z2 >> 3)`, with the sum proved not to wrap in `int16_t`. |
| Xpt2046.DetectionGates | components/lvgl_esp32_drivers/lvgl_touch/xpt2046.c:100-120 | A high IRQ line means no touch and no reads. With the line low, Z1 then Z2 are read, and a touch is reported exactly when `z >= 400`. |
| Xpt2046.CorrAxis | components/lvgl_esp32_drivers/lvgl_touch/xpt2046.c:143-150 | Inputs at or below the calibration minimum map to 0, and the result fits `int16_t`. |
| Xpt2046.Corr | components/lvgl_esp32_drivers/lvgl_touch/xpt2046.c:135-159 | Both corrected coordinates fit `int16_t`. With the header's configuration there is no swap and no inversion. |
| Xpt2046.CorrAxisScales | components/lvgl_esp32_drivers/lvgl_touch/xpt2046.c:149-150 | For raw values in [0,4095] and a resolution below 2^15, no 32-bit product wraps. The result is `v*res/4095`, lies in [0,res], and 4095 maps to `res`. |
| Xpt2046.CorrAxisMonotone | components/lvgl_esp32_drivers/lvgl_touch/xpt2046.c:143-150 | The correction never decreases as the raw value grows. |
| Xpt2046.CorrMapsIntoScreen | components/lvgl_esp32_drivers/lvgl_touch/xpt2046.c:135-159 | Corrected x lies in [0, hor] and corrected y in [0, ver]. A non-positive input maps to 0. |
| Xpt2046.CorrectedReadBound | components/lvgl_esp32_drivers/lvgl_touch/xpt2046.c:72-80 | Since coordinates are shifted right by 4, and the calibration assumes a maximum of 4095, the corrected coordinate of one read, before averaging, never exceeds `2047*res/4095`, whatever the controller answers. |
| Xpt2046.TruncMeanWithin | components/lvgl_esp32_drivers/lvgl_touch/xpt2046.c:175-182 | The truncated mean lies between any lower and upper bound of the averaged samples, so between their minimum and maximum. |
| Xpt2046.MeanOfInt16s | components/lvgl_esp32_drivers/lvgl_touch/xpt2046.c:181-182 | The mean of 16-bit samples fits `int16_t`, so the final assignment cannot wrap. |
| Xpt2046.TruncMeanSingle | components/lvgl_esp32_drivers/lvgl_touch/xpt2046.c:181 | The mean of one sample is that sample. |
| Xpt2046.SumPrefix | components/lvgl_esp32_drivers/lvgl_touch/xpt2046.c:175-179 | The summing loop computes the sum of the first `n` buffer entries. |
| Xpt2046.TouchState.constructor | components/lvgl_esp32_drivers/lvgl_touch/xpt2046.c:20-63 | Static storage starts zeroed: empty buffers and `avg_last == 0` (the file-scope statics at lines 20-22), and last point (0,0) (the function-local statics of `xpt2046_read` at lines 62-63). |
| Xpt2046.TouchState.PushSample | components/lvgl_esp32_drivers/lvgl_touch/xpt2046.c:166-171 | After the in-place shift, entry 0 is the new sample and entry `i` is the old entry `i-1`. |
| Xpt2046.TouchState.Average | components/lvgl_esp32_drivers/lvgl_touch/xpt2046.c:164-183 | The buffers hold the new sample in front of the old first three. `avg_last` counts up and saturates at 4, staying in [1,4]. The results are the truncated means of the counted entries, and fit `int16_t`. The first call after a reset returns the sample itself. |
| Xpt2046.TouchState.Read | components/lvgl_esp32_drivers/lvgl_touch/xpt2046.c:60-95 | Always returns false. Without a touch it reports the last point as released, resets `avg_last` and issues no coordinate reads. With a touch it reads X then Y, shifts, corrects and averages, and reports the filtered point as pressed and as the new last point. |
| Ili9341.LcdCmd | components/lvgl_esp32_drivers/lvgl_tft/ili9341.c:51-64 | One 8-bit transfer of the command byte, with DC low, and no receive. CS is kept active exactly when requested. |
| Ili9341.LcdData | components/lvgl_esp32_drivers/lvgl_tft/ili9341.c:66-79 | No transfer for `len == 0`. Otherwise `len*8` bits from the data buffer, with DC high. |
| Ili9341.Classify | components/lvgl_esp32_drivers/lvgl_tft/ili9341.c:20-33 | ILI exactly when all ID bytes are zero (the ID word is 0), ST7789V otherwise. |
| Ili9341.GetIdShape | components/lvgl_esp32_drivers/lvgl_tft/ili9341.c:81-99 | The ID read acquires the bus, sends `0x04` with DC low and CS kept, reads 24 bits inline with DC high, then releases the bus. |
| Ili9341.GetIdCounts | components/lvgl_esp32_drivers/lvgl_tft/ili9341.c:84-99 | The ID read contributes only `0x04` to the DC-low stream, and no delay. |
| Ili9341.StartupCounts | components/lvgl_esp32_drivers/lvgl_tft/ili9341.c:9-18 | Pin set-up and the reset pulse send no command and wait twice. |
| Ili9341.EntryEvents | components/lvgl_esp32_drivers/lvgl_tft/ili9341.c:40-44 | One row gives one to three events. It opens with the command transfer with CS released. A data transfer follows exactly when `databytes & 0x1F` is non-zero. It is `8 * (databytes & 0x1F)` bits from the row's `data` buffer, with DC high, and sends the first `databytes & 0x1F` bytes of it. The row ends with a 100 ms delay exactly when bit `0x80` is set. |
| Ili9341.PlayEntry | components/lvgl_esp32_drivers/lvgl_tft/ili9341.c:40-45 | One loop iteration emits exactly `EntryEvents` of its row. |
| Ili9341.InitTrace | components/lvgl_esp32_drivers/lvgl_tft/ili9341.c:4-49 | The bring-up starts with the pin set-up and ends with the backlight at level 0. It has at least one event per row before the sentinel, besides the start-up and the ID read. |
| Ili9341.FirstSentinel | components/lvgl_esp32_drivers/lvgl_tft/ili9341.c:39 | The index of the first row whose `databytes` is `0xff`. No earlier row is a sentinel. |
| Ili9341.LcdInit | components/lvgl_esp32_drivers/lvgl_tft/ili9341.c:4-49 | The loop emits the bring-up trace `InitTrace`: pins, reset low, delay, reset high, delay, ID read, the rows before the first sentinel, backlight at level 0 last. The panel is classified from the ID. |
| Ili9341.EntryContribution | components/lvgl_esp32_drivers/lvgl_tft/ili9341.c:40-44 | A row contributes exactly its command to the DC-low stream. It adds one delay exactly when bit `0x80` is set. |
| Ili9341.TableCommandsInOrder | components/lvgl_esp32_drivers/lvgl_tft/ili9341.c:39-46 | Playing the rows sends their commands in index order, and nothing else, with DC low. |
| Ili9341.TableDelays | components/lvgl_esp32_drivers/lvgl_tft/ili9341.c:42-44 | Playing the rows waits once per row with bit `0x80` set. |
| Ili9341.InitCommandStream | components/lvgl_esp32_drivers/lvgl_tft/ili9341.c:15-48 | The whole DC-low stream is `0x04` followed by the commands of the rows before the sentinel; the sentinel and later rows send nothing. The delays are the two reset delays plus one per flagged row. |
| Ili9341.IgnoresRowsAfterSentinel | components/lvgl_esp32_drivers/lvgl_tft/ili9341.c:39-46 | Two tables that agree up to and including the first sentinel produce the same bring-up. |

## Left out

- Concurrency: the SPI driver completes transfers in the background and an ISR fills its result queue. The model treats the reaps as a sequence of outcomes chosen up front (`timeouts`) and has no threads.
- FreeRTOS blocking: `portMAX_DELAY` waits, the one-tick time-out value, and `vTaskDelay` tick rounding. A delay is a trace event carrying milliseconds.
- The hardware transfer queue (`queue_size = 7`), clock, mode, pins and `max_transfer_sz`. These are configuration, and `spi_device_queue_trans` accepting or rejecting is an input (`accepted`).
- DMA-capable `heap_caps_malloc`. Each allocation's success is an input, and descriptors are named by their allocation index.
- Logging (`ESP_LOGx`, `printf`) and the text of the messages. The `lvgl_tft` variant logs a rejection and the `lvgl_spi` variant stays silent. Apart from that, both return the descriptor in the same way.
- Transmit errors in `ili9341.c`: `assert(ret == ESP_OK)` aborts there. The model assumes every polling transmit succeeds.
- The byte order of the ID word read from `rx_data`. Only "zero iff all bytes are zero" is modelled.
- The flush pipeline: `ili9341_flush` is declared in `ili9341.h`. Its definition, like the table `ili_init_cmds`, is not part of this model, so the init table is a parameter. The same holds for `ili9341_init`, `ili9341_sleep_in` and `ili9341_sleep_out`.
- Whole files outside the core:
  - `lvgl_touch/touch_spi.c` is the two-byte register read. It is an input (`Reply`).
  - `lvgl_port/lvgl_port.c` is LVGL and timer wiring.
  - `main/main.c` is UI construction and the task loop.
  - `xpt2046_init` is pin set-up and device registration, with a log-and-return on a GPIO failure.
- Descriptor contents are modelled as values. `Ptr` carries the bytes of the buffer it points to, so two pointers to equal bytes are not told apart.
- DispSpi.PayloadIsCallerBytes and DispSpi.BuildTransaction: a referenced payload (more than 4 bytes) is the buffer's bytes at call time. The source stores only the pointer, and a queued send returns before the DMA runs, so the bytes go out as they are at transfer time. A caller that changes its buffer before the reap is not modelled.
- DispSpi.BuildTransaction: in `spi_transaction_t`, `tx_buffer` and `tx_data` share one union. The model keeps them as two fields, so after the inline copy it shows `tx_buffer` as null while in C that memory holds the copied bytes.
- Both variants skip a failed descriptor allocation and carry on with a smaller pool, and the model does the same. A pool with fewer than 50 descriptors then makes every polling or synchronous send hang, and a queued send hangs once the pool is empty with fewer than 5 descriptors in flight. The lemmas above state this (`Hung`).
- DispSpi.DisplaySpi.InitConfig: requires a pool that has not been created yet. A second `disp_spi_init_config` is not modelled; in the source its `spi_bus_initialize` on the already initialised bus would fail first.
- DispSpi.DisplaySpi.SendTransaction, DispSpi.DisplaySpi.SendData, DispSpi.DisplaySpi.SendColors, DispSpi.DisplaySpi.WaitForPendingTransactions, DispSpi.DisplaySpi.ReapUntil, DispSpi.DisplaySpi.SendBlocking and DispSpi.DisplaySpi.SendQueued: require a created pool. The source uses the queue handle unchecked, and on a null handle FreeRTOS's `configASSERT` aborts. That abort is a reachable path (after an early return of `disp_spi_init_config`), and the model does not capture it.
- DispSpi.DisplaySpi.SendTransaction, DispSpi.DisplaySpi.SendData and DispSpi.DisplaySpi.SendColors: require a non-null `data` to hold at least `length` bytes, because the source reads that many.
- Ili9341.LcdInit: requires the table to contain a sentinel row, because the source reads past the end of the array otherwise.
- Ili9341.LcdData: `len` is a natural number. The driver only ever passes `databytes & 0x1F`, and a negative `int` is not modelled.
- Xpt2046.Corr: the swap and inversion branches, and a non-zero calibration minimum, are modelled only as configured (`XY_SWAP`, `X_INV`, `Y_INV` are 0; `X_MIN` and `Y_MIN` are 0). The range and monotonicity lemmas are stated for this configuration.
- Xpt2046.TouchState.Average: the x and y sums are computed by two calls of one summing loop, where the source uses one loop for both.
