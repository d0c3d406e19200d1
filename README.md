# Pulse and breath monitor firmware: a verified model of its core

This project models, in Dafny, the core logic of the TM4C123 health-monitor firmware.

- **BPM aggregator** (`bpm_aggregator.dfy`, lab9 and its lab7 form). `calc_bpm` takes a captured
  period of the 40 MHz wide timer and returns sixty times that period in seconds, counted in
  whole microseconds. The firmware prints this value as the BPM, and a longer period gives a
  larger value. `insert_bpm_array` keeps a five-slot
  circular history with a write cursor; it admits only values strictly between the bounds that
  differ from the slot before the cursor. `get_avg` takes the integer average of the occupied
  (non-zero) slots. `show_bpm` inserts and then reports the average. `show_pulse` reports only
  when the current average lies strictly between the bounds.
- **Finger presence** (`pulse_presence.dfy`). `pulse_check` runs once per timer-4 tick. It takes
  one ADC reading with the red LED on and one with it off. A finger is present when the lit
  reading exceeds 1500 and the unlit one exceeds it by more than 80. A present finger is cleared
  once the miss count exceeds 2.
- **Breath sensor reader** (`breath_reader.dfy`). `get_breath` waits for the data line to go
  high, clocks in 24 bits, and gives one extra clock pulse.
- **Command line** (`command_line.dfy`, lab5, repeated in lab9). `getsUart0` is the line
  editor: backspace and DEL erase, carriage return ends the line, printable characters are
  stored, and a line stops at 80 characters. `parseFields` cuts the line in place into at most
  five typed fields. `getFieldString`, `getFieldInteger`, `str_to_int`, `str_comp` and
  `isCommand` read the fields back.

Each part is first described by pure functions on values: the history, the presence state, the
line events, and the buffer's contents. Lemmas prove what the firmware relies on. The globals
(`BpmHistory`, `Detector`) and the USER_DATA record that main passes by pointer (`UserData`)
are then classes whose methods are proved against those functions. The global `str` that
getFieldString fills is an `array<char>` parameter of the methods that write it. The array
writes of each parseFields branch are in one method per branch (`ScanWordStep`,
`ScanDelimiterStep`, `ScanTerminatorStep`), which the parse loop calls in the source's order. `wrappers.dfy` holds `Option`, and
`machine_ints.dfy` holds `uint8`/`uint32` and the explicit 32-bit wrap-arounds.

Where the code's behaviour is surprising, the model follows the code:

- A qualifying sample never resets `finger_missing_count`. After the first removal, one miss
  clears presence again (`SecondRemovalTakesOneMiss`).
- `calc_bpm` multiplies the period in seconds by 60 rather than dividing 60 by it. A period of
  half a second (20,000,000 ticks) gives 30, and one of two seconds gives 120 (`CalcBpm`,
  `CalcBpmMonotonic`).
- `get_breath` ORs each bit in *before* shifting. The word it returns is therefore twice the
  most-significant-first value of the 24 samples. It is always even (`GetBreath`) and below
  2^25 (`WordBounds`).
- `calc_bpm` divides the tick count by 40 in integer arithmetic before the floating-point
  steps. Its value therefore depends only on whole microseconds
  (`CalcBpmDependsOnMicroseconds`).
- The history's duplicate test reads `bpm_array[bpm_index - 1]`. At cursor 0 that is the word
  before the array, not slot 4. A value repeated across the wrap is therefore stored twice,
  unless the word before the array happens to equal it (`WrapAroundStoresDuplicates`, with
  that word 0).
- The upper-case test of `parseFields` is `65 < c < 90`. This excludes 'A' and 'Z', which
  therefore act as delimiters (`UpperCaseEndpointsAreDelimiters`).
- show_pulse inserts only when the current average already lies between the bounds. The
  zero-initialised history has no average, so from power-up show_pulse never stores a value
  and never reports one, however often it is called (`PowerUpPulseNeverReported`).
- At column 0, DEL is not treated as an erase key. Being at least 32, it is stored
  (`EraseAtColumnZero`).

## Model

| member | source | states |
|---|---|---|
| BpmAggregator.CalcBpm | lab9_Jerome_Siljan.c:203-208 | the value times 10^6 is 60 times the whole microseconds of the period (ticks divided by 40), and lies in [0, 6442.45092] |
| BpmAggregator.CalcBpmExamples | lab9_Jerome_Siljan.c:203-208 | 40,000,000 ticks (one second) give 60 BPM; periods under one microsecond give 0 |
| BpmAggregator.CalcBpmDependsOnMicroseconds | lab9_Jerome_Siljan.c:204 | two periods with the same whole number of microseconds give the same BPM |
| BpmAggregator.CalcBpmMonotonic | lab9_Jerome_Siljan.c:203-208 | a longer period never gives a smaller BPM value |
| BpmAggregator.CalcBpmAcceptedPeriods | lab7_Jerome_Siljan.c:48-53 | with bounds 40 and 150, the value is admissible exactly for periods in [26,666,680, 100,000,000) ticks |
| BpmAggregator.History.Insert | lab9_Jerome_Siljan.c:287-296 | an accepted value is written at the cursor, the cursor advances modulo 5, and every other slot is kept; a rejected value changes nothing |
| BpmAggregator.InsertChangesIffAccepted | lab9_Jerome_Siljan.c:288 | the history changes exactly when the value is strictly between the bounds and differs from the value before the cursor |
| BpmAggregator.InsertKeepsInvariant | lab9_Jerome_Siljan.c:287-296 | five slots, cursor below 5, every slot 0 or strictly between the bounds: preserved by an insert |
| BpmAggregator.InsertAll | lab9_Jerome_Siljan.c:287-296 | any sequence of inserts, each with its own word before the array, leaves five slots and a cursor below 5 |
| BpmAggregator.InsertAllKeepsInvariant | lab9_Jerome_Siljan.c:287-296 | the invariant is preserved by any sequence of inserts (InsertAll) |
| BpmAggregator.HistoryStaysInRange | lab9_Jerome_Siljan.c:60-63 | from the zero-initialised globals, after any inserts, the cursor is below 5 and each non-zero slot is within the bounds |
| BpmAggregator.AcceptedDiffersFromPredecessor | lab9_Jerome_Siljan.c:288-289 | away from cursor 0, the value written differs from the one written just before it |
| BpmAggregator.RepeatedInsertIsNoop | lab9_Jerome_Siljan.c:288 | inserting the same value twice in a row stores it once, unless the first write was to the last slot |
| BpmAggregator.WrapAroundStoresDuplicates | lab9_Jerome_Siljan.c:288-294 | at cursor 0 the value is compared with the word before the array, not with slot 4; with that word 0, a value equal to slot 4 is accepted, and one value repeated across the wrap is stored in slots 4 and 0 |
| BpmAggregator.AverageOf | lab9_Jerome_Siljan.c:298-307 | there is no average exactly when every slot is 0; otherwise the average is the integer quotient of the truncated sum (FloorSum, get_avg's `sum += (uint32_t)bpm_array[i]` over the occupied slots) by the number of occupied slots (NonZeroCount) |
| BpmAggregator.NonZeroCount | lab9_Jerome_Siljan.c:300-305 | the count of occupied slots is at most the slot count, and is zero exactly when every slot is 0 |
| BpmAggregator.AverageExamples | lab9_Jerome_Siljan.c:298-307 | averages of sample histories, with the fractions of each slot truncated into the integer sum; the empty history has no average |
| BpmAggregator.FloorSumBounds | lab9_Jerome_Siljan.c:300-305 | with every occupied slot strictly between the bounds, the truncated sum (FloorSum) lies between lower and upper - 1 times the count |
| BpmAggregator.AverageWithinBounds | lab9_Jerome_Siljan.c:298-307 | under the invariant, the average is undefined exactly when all slots are empty, and otherwise lies in [lower, upper - 1] |
| BpmAggregator.ReportedIffAboveLower | lab9_Jerome_Siljan.c:354-361 | under the invariant show_pulse's upper test never fails: it reports exactly when the average is above the lower bound |
| BpmAggregator.LowAverageIsNotReported | lab9_Jerome_Siljan.c:354-361 | a valid history holding only 40.5 has average 40 and is reported as not detected |
| BpmAggregator.PowerUpPulseNeverReported | lab9_Jerome_Siljan.c:354-361 | the power-up history fails show_pulse's test, and any number of show_pulse calls from it (PulseShownAll, the fold of PulseShown over the captured periods) leave it unchanged |
| BpmAggregator.BpmHistory.constructor | lab9_Jerome_Siljan.c:60-63 | the global array starts with all slots 0, the cursor at 0, and the given bounds |
| BpmAggregator.BpmHistory.Insert | lab9_Jerome_Siljan.c:287-296 | the array and cursor become History.Insert of their old value, and the invariant is kept |
| BpmAggregator.BpmHistory.GetAvg | lab9_Jerome_Siljan.c:298-307 | the loop returns the truncated sum of the occupied slots divided by their count, or None when none is occupied |
| BpmAggregator.BpmHistory.ShowBpm | lab9_Jerome_Siljan.c:334-352 | inserts calc_bpm of the period, then returns the new average and the BPM value |
| BpmAggregator.BpmHistory.ShowPulse | lab9_Jerome_Siljan.c:354-361 | when the old average is strictly between the bounds, it inserts and reports the new average; otherwise it changes nothing and reports not detected; the new history is PulseShown of the old one |
| PulsePresence.Step | lab9_Jerome_Siljan.c:309-332 | the LED is on exactly when the sample qualifies; presence holds exactly when the sample qualifies or the finger was present and the miss count is still at most 2; only a miss while present increments the count |
| PulsePresence.Difference | lab9_Jerome_Siljan.c:318 | the unsigned difference read back as int32 lies in the int32 range and equals the true difference modulo 2^32 |
| PulsePresence.DifferenceOfAdcReadings | lab9_Jerome_Siljan.c:311-318 | for readings below 2^31 (any 12-bit ADC value) the difference is exact |
| PulsePresence.QualifiesExamples | lab9_Jerome_Siljan.c:319 | a bright, contrasting sample qualifies; a dim one, one with contrast of exactly 80, or one with a negative difference does not |
| PulsePresence.QualifyingSampleKeepsCount | lab9_Jerome_Siljan.c:319-321 | a qualifying sample sets presence and leaves the miss count unchanged |
| PulsePresence.MissWhileAbsentChangesNothing | lab9_Jerome_Siljan.c:322-323 | a non-qualifying sample while absent changes neither presence nor the count |
| PulsePresence.ThirdMissClears | lab9_Jerome_Siljan.c:322-329 | from count 0, presence survives two misses and the third clears it, leaving the count at 3 |
| PulsePresence.SingleMissClearsAfterRemoval | lab9_Jerome_Siljan.c:324-326 | once the count exceeds 2 (and before it wraps), one miss clears presence |
| PulsePresence.SecondRemovalTakesOneMiss | lab9_Jerome_Siljan.c:309-332 | from power-up: contact, three misses, contact, then one miss is enough to clear presence |
| PulsePresence.RunAppend | lab9_Jerome_Siljan.c:309-332 | running two sequences of ticks is running their concatenation |
| PulsePresence.MissCountNeverDecreases | lab9_Jerome_Siljan.c:324 | over ticks that cannot wrap it, the miss count never decreases and grows by at most one per tick |
| PulsePresence.Detector.constructor | lab9_Jerome_Siljan.c:54-58 | presence false, count 0, LED off |
| PulsePresence.Detector.PulseCheck | lab9_Jerome_Siljan.c:309-332 | the globals and the LED become Step of their old values and the two readings |
| BreathReader.MsbFirst | lab9_Jerome_Siljan.c:376-377 | the value of the bits shifted in at the bottom is below 2^n for n bits |
| BreathReader.MsbFirstIsWeightedSum | lab9_Jerome_Siljan.c:370-379 | shifting in at the bottom gives the positional value, bit i weighted by 2^(n-1-i) |
| BreathReader.OrBit | lab9_Jerome_Siljan.c:376 | OR with a 0/1 reading keeps the upper bits and sets the lowest bit when the reading is 1 |
| BreathReader.ShiftLeft1 | lab9_Jerome_Siljan.c:377 | the shifted word is even, and is twice the word when bit 31 was clear |
| BreathReader.BitEventsFacts | lab9_Jerome_Siljan.c:370-379 | the bit loop raises the clock once per bit, samples the bits in order, and samples each while the clock is high |
| BreathReader.ReadTraceFacts | lab9_Jerome_Siljan.c:370-384 | one read raises the clock 25 times, samples the 24 levels in order with the clock high, and ends with the clock low |
| BreathReader.WordBounds | lab9_Jerome_Siljan.c:376-377 | the word is below 2^25, so it never overflows 32 bits |
| BreathReader.GetBreath | lab9_Jerome_Siljan.c:363-390 | waits for the first high poll, returns twice the MSB-first value of the 24 samples (so an even word below 2^25), and produces the trace of ReadTrace |
| CommandLine.CLength | lab5_Jerome_Siljan.c:117 | the index a NUL-terminated loop stops at: a NUL, with none before it |
| CommandLine.PaddedReadsBack | lab5_Jerome_Siljan.c:169-187 | a text copied into the cleared 81-character str reads back as that text |
| CommandLine.Read | lab5_Jerome_Siljan.c:95-112 | a completed line leaves an 81-character buffer with a NUL at the count, the count at most 80, and input consumed within the stream |
| CommandLine.LineIsPrintable | lab5_Jerome_Siljan.c:105-107 | every character the editor keeps is at least a space |
| CommandLine.TypedLineIsStored | lab5_Jerome_Siljan.c:98-108 | a line shorter than 80 characters, typed without editing keys and ended by carriage return, is stored as typed, consuming one character more than its length |
| CommandLine.EraseUndoesTyping | lab5_Jerome_Siljan.c:100-101 | a typed character followed by backspace or DEL returns the editor to its count before, only the freed slot holding the erased character |
| CommandLine.EraseAtColumnZero | lab5_Jerome_Siljan.c:100-107 | at column 0 backspace is ignored but DEL is stored as a character |
| CommandLine.EightyCharactersEndTheLine | lab5_Jerome_Siljan.c:98-110 | after 80 stored characters the line ends without carriage return and reads nothing more |
| CommandLine.UpperCaseEndpointsAreDelimiters | lab5_Jerome_Siljan.c:136-139 | 'A', 'Z', space and comma are delimiters; 'B', 'Y', 'a', 'z', '-' and '.' are not |
| CommandLine.Terminator | lab5_Jerome_Siljan.c:144 | the first NUL or line feed, with none before it |
| CommandLine.DelimitersFacts | lab5_Jerome_Siljan.c:147-151 | the recorded positions are exactly the delimiter indices before the scan position, in increasing order |
| CommandLine.FieldReadsBack | lab5_Jerome_Siljan.c:125-155 | after parsing, each field reads back as a C string holding exactly the characters between its delimiters, all digits or letters |
| CommandLine.TypesStep | lab5_Jerome_Siljan.c:131-143 | one scanned character types the current field only when it is that field's first character |
| CommandLine.Accumulate | lab5_Jerome_Siljan.c:114-123 | the int32 accumulator stays in the int32 range |
| CommandLine.StrToIntIsDecimal | lab5_Jerome_Siljan.c:114-123 | str_to_int of at most nine decimal digits is their decimal value; empty gives 0 |
| CommandLine.MainLineStructure | lab5_Jerome_Siljan.c:228-236 | "add 12,2" fits the field table, ends at 8, and has delimiters at 3 and 6 |
| CommandLine.MainLineParse | lab5_Jerome_Siljan.c:228-238 | parsing main's line types its fields 'a', 'n', 'n' and leaves the other two entries as they were |
| CommandLine.MainLineFields | lab5_Jerome_Siljan.c:238-242 | the fields of main's line read back as "add", "12" and "2" |
| CommandLine.StrToInt | lab5_Jerome_Siljan.c:114-123 | the loop returns the wrapped accumulation over the characters before the NUL |
| CommandLine.StrComp | lab5_Jerome_Siljan.c:192-201 | true exactly when the C string in the first argument is a prefix of the second |
| CommandLine.UserData.constructor | lab5_Jerome_Siljan.c:56-61 | a USER_DATA with the given buffer, count and table contents |
| CommandLine.UserData.GetsUart0 | lab5_Jerome_Siljan.c:95-112 | the loop leaves the buffer and consumed input exactly as Read describes |
| CommandLine.UserData.ScanWordStep | lab5_Jerome_Siljan.c:131-143 | a digit or letter types the current field with 'n' or 'a' when it is the field's first character, and keeps the scan state of the characters read so far |
| CommandLine.UserData.ScanDelimiterStep | lab5_Jerome_Siljan.c:147-152 | a delimiter becomes NUL, its index is recorded at the count, the count grows, and the next character starts a field |
| CommandLine.UserData.ScanTerminatorStep | lab5_Jerome_Siljan.c:144-146 | the terminator becomes NUL, leaving the count, buffer, positions and types that parseFields promises |
| CommandLine.UserData.ParseFields | lab5_Jerome_Siljan.c:125-155 | the count is the number of delimiters before the terminator; delimiters and terminator become NUL; positions record the delimiters; each field with a first character is typed 'n' or 'a' |
| CommandLine.UserData.ParsedFieldIsToken | lab5_Jerome_Siljan.c:167-190 | after parseFields, each field up to the count starts one past its delimiter, is readable, and copies exactly that token of the line |
| CommandLine.ClearString | lab5_Jerome_Siljan.c:168-171 | the 81 characters of str become NUL |
| CommandLine.CopyCString | lab5_Jerome_Siljan.c:182-187 | the cleared str receives the C string at the start index, followed by NULs |
| CommandLine.UserData.GetFieldString | lab5_Jerome_Siljan.c:167-190 | an untyped field gives NULL and a cleared str; a typed one gives str holding the C string at the field's start, then NULs |
| CommandLine.UserData.GetFieldInteger | lab5_Jerome_Siljan.c:157-165 | 0 for an untyped field, otherwise str_to_int of the field's text |
| CommandLine.UserData.IsCommand | lab5_Jerome_Siljan.c:203-212 | true exactly when field 0 is a prefix of the command and the count is at least minArguments |
| CommandLine.UserData.MainLineFieldTexts | lab5_Jerome_Siljan.c:238-242 | after parsing main's line, fields 0, 1 and 2 are readable and hold "add", "12" and "2" |
| CommandLine.LabFiveMain | lab5_Jerome_Siljan.c:218-246 | main's sequence on "add 12,2": str holds "add" then NULs, the two integers are 12 and 2, and isCommand("add", 4) is false because two delimiters are fewer than 4 arguments |

## Left out

- Hardware set-up, clocks, the UART, the ADC, the timers, and the capture interrupt are not
  modelled. ADC readings, captured periods, and the levels of the data line are parameters.
  Delays (`waitMicrosecond`, `_delay_cycles`) are not modelled because they change no state.
- Console output is not modelled: `snprintf` and `putsUart0` in show_bpm, show_pulse and
  get_breath. ShowBpm and ShowPulse return what would be printed instead.
- Concurrency is not modelled. pulse_check runs in the timer-4 interrupt while the main loop
  reads the same globals. Each call is modelled as atomic.
- Floating point is modelled as exact reals. calc_bpm, `a != bpm_array[...]` and the float-to-uint32
  conversion in get_avg therefore ignore IEEE rounding.
- BpmHistory.GetAvg: with no occupied slot the source divides by zero. The Cortex-M4 gives 0
  there when division traps are off, and 0 is never above the lower bound. The model returns
  None there, and show_pulse reports not detected.
- BpmHistory.Insert: the word read before the array at cursor 0 is the `outside` parameter.
  The model does not say what memory lies there.
- lab7's show_bpm also turns the red LED on and prints the raw BPM value, and its bounds are
  the literals 40 and 150. The model covers lab7 through BpmHistory with those bounds. It
  leaves out that LED write, which also clears the other bits of port C.
- Detector.PulseCheck: port C is modelled as the red LED bit alone. The source's
  `GPIO_PORTC_DATA_R = RED_LED_MASK` clears the other bits of port C, and that is not
  modelled.
- GetBreath: the ready wait `while (!DATA);` never ends if the line stays low. The model
  requires a poll sequence that contains a high level.
- UserData.GetsUart0 returns the number of characters it consumed where the source always
  returns 0. The model also requires the stream to complete the line, because the source
  blocks in `getcUart0` otherwise.
- UserData.ParseFields requires that the line have a terminator, at most five delimiters, and
  no sixth field. On other lines the source writes past `fieldPosition` or `fieldType`, or
  reads past `buffer`.
- UserData.GetFieldString and UserData.GetFieldInteger require `fieldNumber < MaxFields`,
  because the source reads `fieldType[fieldNumber]` past the table for larger numbers. They
  also require that a typed field's start lie inside the buffer and that a NUL follow it
  (FieldReadable). Otherwise the source reads outside USER_DATA.
- UserData.IsCommand requires that field 0 be typed. Otherwise the source passes NULL to
  str_comp.
- USER_DATA in lab5's main is an uninitialised local. The constructor takes its contents as
  parameters, so every lemma holds for any prior contents.
- StrToInt: the signed overflow of `int32_t` is undefined behaviour in C. It is modelled as
  two's-complement wrap-around, as the compiler for this target emits it.
- StrComp and StrToInt require the C string to be shorter than 256 characters, because their
  `uint8_t` index would otherwise wrap. Every buffer here holds at most 81.
- lab9's copy of the command-line routines (lab9_Jerome_Siljan.c:84-201) is identical to
  lab5's and is modelled once.
- The truncation of getFieldInteger's result to `uint8_t` in lab5's main is not modelled.
