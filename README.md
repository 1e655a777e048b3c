# Flame Tunnel: a model of the IR-to-serial entropy app

This project models the core of a small Flipper Zero app. The app derives a 32-bit
pseudo-random value from the raw timings of each received infrared signal. It sends
the value over serial as the record `RNG:<decimal>\n` and, when logging is on, also
writes the record to a log file. It shows the value on screen. The Back and Ok
buttons drive a press/hold state machine: a Back hold quits, an Ok hold opens or
closes the configuration menu, and a short Ok press inside the menu toggles logging.

The model is in six modules:

- `Word32` (`word32.dfy`): `uint32_t` as a natural below 2^32. Addition and
  subtraction wrap around explicitly. `^` is bitwise exclusive-or, defined bit by
  bit, with its algebra proved (associative, commutative, self-inverse, stays
  within 32 bits).
- `Decimal` (`decimal.dfy`): the digits of `%lu`, the zero padding of `%06lu`
  (ISO C11 section 7.21.6.1), and what `snprintf` stores in a bounded buffer and
  returns (ISO C11 section 7.21.6.5). `DecimalValue` is the reference reading of a
  digit string that the formatting is proved against.
- `Entropy` (`entropy.dfy`): `generate_rng` as a method with a loop, checked
  against the recursive fold `Fold`.
- `Emission` (`emission.dfy`): the serial/log record, a parser for it as its
  inverse, and the readout text of the normal view.
- `FlameTunnel` (`flame_tunnel.dfy`): the state record. `Fields` and the pure
  transitions `OnInput`, `OnIr` and `Draw` say what each handler does to the
  record. The class `FlameTunnelState` holds the same fields and updates them in
  place in `ProcessIr`, `IrCallback` and `InputCb`; each method's `ensures` ties
  the new fields to the transition function. Lemmas about `Run`, the record after
  any sequence of IR signals and input events, give the properties that hold
  across handlers.
- `LogFile` (`log_file.dfy`): what the log file holds after a series of writes.
  It covers both the open mode the code uses and the append mode it evidently
  intends (see Findings).

Inputs that come from hardware are parameters:

- the seed `furi_hal_random_get() ^ DWT->CYCCNT`;
- the raw durations of a signal;
- the tick count `furi_get_tick()` at an input event.

Serial transmission and log writes are traces of the records sent: `SerialPort.sent`
and `LogStorage.writes`. `LogStorage.writes` is the `writes` argument of
`LogFile.ReplayAsWritten`, which gives the file those writes leave behind.

The model follows the code in these places:

- Press times are plain `uint32_t` fields that start at 0 and are never cleared.
  A release with no press before it is therefore measured
  from tick 0 or from a stale press (`ReleaseWithoutPressMeasuredFromZero`).
- Only the IR callback takes the mutex. `input_cb` and `draw` touch the record
  without it. The model claims no lock discipline: each handler is one atomic
  step.
- `process_ir` reports no errors. It ignores the results of the serial write and
  of every file call, so no error path is modelled.
- The log is opened with `FSOM_OPEN_ALWAYS`, not in append mode (see Findings).

## Model

| member | source | states |
|---|---|---|
| `Word32.Add` | bgw_flipper_ir_serial.c:34 | `times[i] + i` on `uint32_t` is the plain sum when it fits in 32 bits, and the sum less 2^32 when it carries out |
| `Word32.Sub` | bgw_flipper_ir_serial.c:91-93 | `now - pressed` on `uint32_t` is the difference, plus 2^32 when `pressed > now`; never negative |
| `Word32.Xor32` | bgw_flipper_ir_serial.c:34 | `seed ^ term` of two 32-bit words is again a 32-bit word, equal to their bitwise exclusive-or |
| `Word32.XorUndo` | bgw_flipper_ir_serial.c:34 | folding in the same word twice gives back the starting value |
| `Entropy.GenerateRng` | bgw_flipper_ir_serial.c:29-36 | the loop returns the left-to-right fold `seed ^= (times[i] + i) mod 2^32`; with no durations it returns the seed unchanged |
| `Entropy.TermInjective` | bgw_flipper_ir_serial.c:34 | at a fixed index, distinct durations give distinct terms, despite the wrap-around |
| `Entropy.FoldSeedShift` | bgw_flipper_ir_serial.c:33-35 | XORing the seed with `b` XORs the result with `b` |
| `Entropy.SeedSensitive` | bgw_flipper_ir_serial.c:33-35 | for the same durations, distinct seeds give distinct values |
| `Entropy.FoldPointChange` | bgw_flipper_ir_serial.c:34 | replacing the duration at index k changes the result by exactly the old term XOR the new term |
| `Entropy.DurationSensitive` | bgw_flipper_ir_serial.c:34 | changing any single duration changes the value |
| `Decimal.DecimalString` | bgw_flipper_ir_serial.c:41 | `%lu` gives a non-empty digit string without leading zeros; it is "0" exactly for 0 |
| `Decimal.DecimalRoundTrip` | bgw_flipper_ir_serial.c:41 | the digits `%lu` prints denote the printed value |
| `Decimal.CanonicalRoundTrip` | bgw_flipper_ir_serial.c:41 | every digit string without leading zeros is the `%lu` text of its value, so the text is unique |
| `Decimal.U32DecimalLength` | bgw_flipper_ir_serial.c:41 | a `uint32_t` prints in at most 10 digits |
| `Decimal.ZeroPad` | bgw_flipper_ir_serial.c:76 | the `0` flag with width 6 left-pads with '0' to at least 6 characters and never truncates |
| `Decimal.LeadingZeros` | bgw_flipper_ir_serial.c:76 | leading zeros do not change the value of the readout |
| `Decimal.Snprintf` | bgw_flipper_ir_serial.c:41 | snprintf stores a prefix of the text, at most size-1 characters, and returns the full text's length |
| `Emission.FormatRecord` | bgw_flipper_ir_serial.c:40-41 | the record for any value is stored whole in the 64-byte buffer; the returned length (6 to 15) is its exact length |
| `Emission.RecordParseExact` | bgw_flipper_ir_serial.c:41 | a string parses back to `rng` if and only if it is exactly `"RNG:"`, the decimal of `rng` and `"\n"` |
| `Emission.Readout` | bgw_flipper_ir_serial.c:74-76 | the normal view's text is the zero-padded decimal of the value: 6 to 10 digits, within `buf[32]`, denoting the value |
| `Emission.RecordOf12345` | bgw_flipper_ir_serial.c:41 | the record of 12345 is `"RNG:12345\n"` |
| `Emission.ReadoutOfZero` | bgw_flipper_ir_serial.c:76 | before any signal the readout is "000000" |
| `FlameTunnel.HoldIsElapsedTicks` | bgw_flipper_ir_serial.c:91-93 | a release that comes k ticks after its press on the wrapping tick counter is a hold exactly when k >= 1000 |
| `FlameTunnel.HoldBoundary` | bgw_flipper_ir_serial.c:15 | exactly 1000 ticks after the press is a hold and 999 is not, also when the tick counter wraps |
| `FlameTunnel.OnInput` | bgw_flipper_ir_serial.c:83-99 | a press stamps only the pressed key's time; a Back hold clears `running` and a short Back release does nothing; an Ok hold toggles `in_menu`; a short Ok release toggles `log_to_file` if and only if `in_menu`; every other event changes nothing |
| `FlameTunnel.OnIr` | bgw_flipper_ir_serial.c:52 | after process_ir, `last_rng` is the new value and every other field is unchanged |
| `FlameTunnel.RunningNeverRestarts` | bgw_flipper_ir_serial.c:90-98 | across any sequence of handlers, `running` is never set back to true |
| `FlameTunnel.OnlyBackReleaseStops` | bgw_flipper_ir_serial.c:91-92 | if a running app stops, some event in the sequence was a Back release |
| `FlameTunnel.PressTimesOnlyChangeOnPress` | bgw_flipper_ir_serial.c:87-98 | without press events, both press timestamps stay as they were |
| `FlameTunnel.LastRngIsLatestSignal` | bgw_flipper_ir_serial.c:52-60 | after any sequence of events, `last_rng` is the value derived from the latest IR signal, or the old value if there was none |
| `FlameTunnel.OpenMenuThenEnableLog` | bgw_flipper_ir_serial.c:93-97 | Ok held from tick 0 to 1500 opens the menu; then an Ok press from 2000 to 2300 turns logging on |
| `FlameTunnel.ShortBackPressKeepsRunning` | bgw_flipper_ir_serial.c:91-92 | a Back release 999 ticks after its press leaves the app running |
| `FlameTunnel.ReleaseWithoutPressMeasuredFromZero` | bgw_flipper_ir_serial.c:110-111 | with no press recorded, a Back release at tick 1000 or later stops the app |
| `FlameTunnel.Draw` | bgw_flipper_ir_serial.c:70-79 | the menu view is shown if and only if `in_menu`; it reads "Log ON" if and only if `log_to_file`; the normal view shows exactly the `%06lu` text of `last_rng`: its decimal digits left-padded with '0' to six, 6 to 10 digits denoting `last_rng` |
| `FlameTunnel.SerialPort.Tx` | bgw_flipper_ir_serial.c:42 | a transmission appends the bytes to what the serial port has sent |
| `FlameTunnel.LogStorage.Write` | bgw_flipper_ir_serial.c:45-50 | a log write adds the record to the writes made to the log |
| `FlameTunnel.FlameTunnelState.constructor` | bgw_flipper_ir_serial.c:104-112 | the record starts running, not logging, not in the menu, with value and press times 0 |
| `FlameTunnel.FlameTunnelState.ProcessIr` | bgw_flipper_ir_serial.c:39-53 | the record goes to serial every time, and to the log if and only if `log_to_file` was set; then `last_rng` is the value and nothing else changes |
| `FlameTunnel.FlameTunnelState.IrCallback` | bgw_flipper_ir_serial.c:56-62 | the callback sends the record of the folded value, logs it if and only if `log_to_file` was set, and stores that value |
| `FlameTunnel.FlameTunnelState.InputCb` | bgw_flipper_ir_serial.c:83-99 | the in-place handler leaves the fields exactly as `OnInput` prescribes |
| `FlameTunnel.FlameTunnelState.View` | bgw_flipper_ir_serial.c:65-80 | the screen shows the menu exactly when `in_menu` is set, with "Log ON" exactly when `log_to_file` is set; otherwise it shows the `%06lu` text of `last_rng` |
| `LogFile.OverwriteHead` | bgw_flipper_ir_serial.c:47-48 | a write after opening with `FSOM_OPEN_ALWAYS` replaces the head of the file and keeps the rest |
| `LogFile.LaterRecordOverwritesEarlier` | bgw_flipper_ir_serial.c:47-48 | whenever a record with fewer digits is logged after one with more, the file holds the second record followed by the tail of the first, so the first record is lost |
| `LogFile.OverwriteOf12345Then7` | bgw_flipper_ir_serial.c:47-48 | writing "RNG:12345\n" and then "RNG:7\n" leaves "RNG:7\n345\n" |
| `LogFile.AppendRecord` | bgw_flipper_ir_serial.c:47-48 | an append keeps the old file as a prefix and adds the record after it |
| `LogFile.ReplayKeepsLog` | bgw_flipper_ir_serial.c:44-50 | with appending, the log is the old contents followed by the records in emission order, and nothing is lost |
| `LogFile.AppendedRecordsSurvive` | bgw_flipper_ir_serial.c:47-48 | with appending, the same two records are both kept, in order |

## Findings

| source | as written | input that shows it | evidently intended | confidence | as-written member | corrected member |
|---|---|---|---|---|---|---|
| bgw_flipper_ir_serial.c:47 | the log is opened with `FSOM_OPEN_ALWAYS`, which leaves the write position at offset 0, so each record overwrites the start of the file | log on; values 12345 then 7 give the file "RNG:7\n345\n" | open with `FSOM_OPEN_APPEND`, so each record is added at the end and earlier records are kept | medium, not executed; it relies on the storage API's meaning of `FSOM_OPEN_ALWAYS`, and that API is not part of this model | `LogFile.LaterRecordOverwritesEarlier` | `LogFile.ReplayKeepsLog` |

## Left out

- Hardware entropy: `furi_hal_random_get()` and `DWT->CYCCNT` are hardware reads. Their XOR is the `seed` parameter.
- Reading the raw signal: `infrared_worker_get_raw_signal` is a driver call. Its durations are the `times` parameter.
- Serial setup and teardown: `furi_hal_serial_control_init`, acquire, init at 115200 baud, deinit and release are driver calls. Only the transmitted records are modelled, as `SerialPort.sent`.
- Storage calls: opening the storage record, allocating, opening, writing and closing the stream, and their unchecked results are driver calls. Only the decision to write and the record written are modelled, as `LogStorage.writes`. The file contents each open mode produces are in `LogFile`.
- The mutex: the model treats each handler as one atomic step and claims no locking. Interleavings inside a handler and the missing lock in `input_cb` and `draw` are not modelled.
- GUI: canvas calls, fonts, coordinates, alignment and the view-port and GUI lifecycle are drawing calls. Only the strings `draw` chooses are modelled.
- The main loop and teardown: `while(st.running)` with its 100 ms delay, and the release of the worker, view port, mutex and records, are timing and plumbing. The model only proves that `running` never returns to true once cleared (`RunningNeverRestarts`), which is what ends the loop.
- The NUL terminator that `snprintf` stores after the text is not modelled: only the characters before it are passed on.
