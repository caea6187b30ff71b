# Serial telemetry logger — a Dafny model

This project models the logic of `testLogger/logger.py`, a lab tool that reads
three serial devices at once: a PSoC board sending telemetry and the RX and TX
sides of an RN2483 radio. It appends each stream to its own CSV log.

What is modelled:

- **Line handling.** Every decoded line is stripped of `\r`/`\n` at both ends,
  and lines that end up empty are skipped.
- **PSoC classifier.** A PSoC line is split on commas and its sequence index
  is dropped. The line is DEBUG when each of the next eight fields (at most
  eight; fewer if the line is short) is `"0"`, and ERROR otherwise.
- **Plain streams.** The RN2483 streams log every non-empty line at DEBUG.
- **Log layout.** Each record is written as
  `MM/DD/YYYY,HH:MM:SS,name,LEVEL,message`. A parser proves that a written
  line reads back into the same record.
- **Workers.** Each worker is a `Worker` object. It owns an append-only
  sequence of records and consumes a finite sequence of events: decoded lines
  or a disconnect.
- **Port assignment.** `main` fills three slots (PSoC, RX, TX) from the sorted
  port list, in order, with the ports whose description starts with
  `"USB Serial Port"`.
- **Animation.** The four-frame "Reading" animation counter.

Modules:

| module | file | what it holds |
|---|---|---|
| `Wrappers` | wrappers.dfy | `Option` |
| `Seqs` | seqs.dfy | two generic sequence facts |
| `Text` | text.dfy | `strip('\r\n')`, `split(",")`, their inverse `Join` |
| `Records` | records.dfy | levels, in-range timestamps, record layout, parse-back, file text |
| `Classifier` | classifier.dfy | the PSoC level and the two per-line steps |
| `Ingest` | ingest.dfy | the `Worker` class and the specification of a run |
| `Ports` | ports.dfy | the COM-port matching loop |
| `Animation` | animation.dfy | the frame counter |
| `Supervisor` | supervisor.dfy | `main` wiring the three workers after the assignment |

The two worker functions of the source, `task_psoc_read` and
`task_serial_read`, run the same loop. They differ in their per-line step,
their logger name and their disconnect handling; the last is not modelled
(see "Closing the port on disconnect" under "## Left out").
They are modelled as one `Worker` class that holds a `Stream` tag: `Psoc`, or
`Serial(name)` for a plain stream.

Behaviour of `logger.py` that the model keeps as written:

- A short PSoC line such as `"5,0,0"`, or just `"5"`, is DEBUG, because
  Python's `all` over a short or empty slice is true (logger.py:38-43).
- Stripping removes every `\r` and `\n` from both ends of the line and
  nothing else (logger.py:36, 80).
- The first animation frame is a single space (logger.py:95).
- A fourth matching COM port indexes a three-slot list and raises
  (logger.py:140-147).

## Model

| member | source | states |
|---|---|---|
| `Text.TrimLeft` | testLogger/logger.py:36 | the result is a suffix of the line; everything dropped is `\r`/`\n`; the result does not start with one |
| `Text.TrimRight` | testLogger/logger.py:36 | the result is a prefix of the line; everything dropped is `\r`/`\n`; the result does not end with one |
| `Text.Strip` | testLogger/logger.py:36 | the stripped line is no longer than the line and has no `\r`/`\n` at either end |
| `Text.StripIsCore` | testLogger/logger.py:36 | the stripped line is an infix of the line with only `\r`/`\n` before and after it |
| `Text.StripPadding` | testLogger/logger.py:80 | any run of `\r`/`\n` around a message is removed and the message, interior characters included, is kept exactly |
| `Text.StripIdempotent` | testLogger/logger.py:36 | stripping twice gives the same as stripping once |
| `Text.StripEmptyIff` | testLogger/logger.py:41-42 | a line strips to `""` exactly when it holds nothing but `\r` and `\n` |
| `Text.Split` | testLogger/logger.py:37 | `split(",")` returns at least one field and no field holds a comma |
| `Text.JoinSplit` | testLogger/logger.py:37 | joining the fields of a line with commas gives back the line |
| `Text.SplitJoin` | testLogger/logger.py:37 | splitting comma-free fields joined with commas gives back the fields |
| `Classifier.MeasurementsOfFields` | testLogger/logger.py:37-39 | after `pop(0)` and `[:8]` the compared fields are those at positions 1 to 8 that exist |
| `Classifier.Measurements` | testLogger/logger.py:37-39 | the fields compared; specified by `Classifier.MeasurementsOfFields` |
| `Classifier.PsocLevel` | testLogger/logger.py:43-46 | the level of a PSoC line; specified by `Classifier.PsocLevelByFields` and the example lemmas below |
| `Classifier.PsocLevelByFields` | testLogger/logger.py:37-46 | a line is DEBUG if and only if every present field at positions 1..8 equals `"0"`; field 0 and fields past 8 play no part |
| `Classifier.TrailingFieldsIgnored` | testLogger/logger.py:39 | fields after the ninth never change the level |
| `Classifier.NominalLineIsDebug` | testLogger/logger.py:43-44 | `"5,0,0,0,0,0,0,0,0"` is DEBUG |
| `Classifier.AnomalousLineIsError` | testLogger/logger.py:45-46 | `"5,1,0,0,0,0,0,0,0"` is ERROR |
| `Classifier.ShortLinesAreDebug` | testLogger/logger.py:38-44 | the short lines `"5,0,0"` and `"5"` are DEBUG |
| `Classifier.TenthFieldIsIgnored` | testLogger/logger.py:39-44 | `"5,0,0,0,0,0,0,0,0,7"` is DEBUG |
| `Classifier.PsocStepSpec` | testLogger/logger.py:36-46 | no record exactly when the line is only `\r`/`\n`; otherwise one record named `PSoC Readings` holding the stripped line, DEBUG if and only if all its measurements are `"0"` |
| `Classifier.PlainStepSpec` | testLogger/logger.py:80-85 | no record exactly when the line is only `\r`/`\n`; otherwise one DEBUG record holding the stripped line unchanged |
| `Classifier.PsocStep` | testLogger/logger.py:36-46 | one pass of the PSoC loop; specified by `Classifier.PsocStepSpec` |
| `Classifier.PlainStep` | testLogger/logger.py:80-85 | one pass of a plain stream's loop; specified by `Classifier.PlainStepSpec` |
| `Records.DecimalRoundTrip` | testLogger/logger.py:28 | a zero-padded field of fixed width reads back as its number |
| `Records.StampRoundTrip` | testLogger/logger.py:28 | the `%m/%d/%Y` and `%H:%M:%S` texts of an in-range timestamp read back as its six fields |
| `Records.RecordFields` | testLogger/logger.py:72 | a record line splits into date, time, name and level, then the fields of the message |
| `Records.FormatParse` | testLogger/logger.py:28 | re-reading a written record line gives back its timestamp, name, level and message, even when the message holds commas |
| `Records.RenderAppend` | testLogger/logger.py:24 | appending records only appends text to the file |
| `Records.FormatRecord` | testLogger/logger.py:28 | the `date,time,name,LEVEL,message` line of one record; specified by `Records.RecordFields` and `Records.FormatParse` |
| `Records.Render` | testLogger/logger.py:24 | the text the append-mode file holds, one line per record; specified by `Records.RenderAppend` |
| `Ingest.EmitContents` | testLogger/logger.py:41-46 | a line adds at most one record, and none exactly when it is only `\r`/`\n`; the record it adds holds the stripped text, the stream's name and the stream's level for that text |
| `Ingest.Emit` | testLogger/logger.py:41-46 | the records one line adds; specified by `Ingest.EmitContents` |
| `Ingest.Logged` | testLogger/logger.py:34-51 | the records a run over a sequence of events appends; specified by `Ingest.LoggedMessages`, `Ingest.LoggedRecords`, `Ingest.LoggedAppend` and `Ingest.LoggedStopsAtDisconnect` |
| `Ingest.LoggedAppend` | testLogger/logger.py:34-46 | before a disconnect, the records of two stretches of input are those of each, in read order |
| `Ingest.LoggedStopsAtDisconnect` | testLogger/logger.py:48-51 | nothing read after a disconnect is logged |
| `Ingest.LoggedUpToDisconnect` | testLogger/logger.py:87-91 | the input after the first disconnect has no effect on the log |
| `Ingest.BlankLineAddsNothing` | testLogger/logger.py:82-83 | a line of only `\r`/`\n` leaves the log as it is |
| `Ingest.LoggedMessages` | testLogger/logger.py:78-85 | the messages of a run are exactly the non-empty stripped lines read before the first disconnect, in read order |
| `Ingest.LoggedRecords` | testLogger/logger.py:34-46 | each logged record has the stream's name, a non-empty message, and the level the stream gives it (the PSoC level or DEBUG) |
| `Ingest.SerialNeverLogsError` | testLogger/logger.py:82-85 | a plain stream never logs an ERROR record |
| `Ingest.Worker.constructor` | testLogger/logger.py:24 | a new worker starts connecting, and the records already in its append-mode file are kept |
| `Ingest.Worker.Connect` | testLogger/logger.py:12-17 | a port that opens starts reading; one that fails ends the worker; the log is unchanged either way |
| `Ingest.Worker.Handle` | testLogger/logger.py:35-51 | one pass of the loop: a disconnect ends the worker; a line appends its record, if any, to the log |
| `Ingest.Worker.Run` | testLogger/logger.py:34-51 | the log becomes the old log followed by the run's records, so earlier records and the file's earlier text are kept; the run ends at the first disconnect, which is the last event consumed; otherwise it consumes all input and the worker is still reading, so a further stretch of input can follow |
| `Ingest.Worker.Task` | testLogger/logger.py:54-91 | a worker whose port does not open logs nothing; otherwise it logs the run's records, and it ends exactly when the port fails or the device disconnects, being still in the reading loop otherwise |
| `Ports.MatchesIffPrefix` | testLogger/logger.py:145 | `desc[:15] == "USB Serial Port"` holds exactly when the description starts with that 15-character prefix; shorter descriptions never match |
| `Ports.MatchingPortsAppend` | testLogger/logger.py:143-147 | the matches of two stretches of the port list are those of each, in order |
| `Ports.NonMatchingIgnored` | testLogger/logger.py:143-147 | a port whose description does not match never takes a slot |
| `Ports.MatchingPortsFromMatches` | testLogger/logger.py:143-147 | every port name taken belongs to an enumerated port whose description matches |
| `Ports.MatchesAreTaken` | testLogger/logger.py:143-147 | every enumerated port whose description matches is among the names taken |
| `Ports.Matches` | testLogger/logger.py:145 | the description test; specified by `Ports.MatchesIffPrefix` |
| `Ports.MatchingPorts` | testLogger/logger.py:143-147 | the matching port names in enumeration order; specified by `Ports.MatchingPortsFromMatches`, `Ports.MatchesAreTaken` and `Ports.NonMatchingIgnored` |
| `Ports.AssignPorts` | testLogger/logger.py:139-156 | a fourth match is an out-of-range error exactly when more than three ports match; otherwise the assignment succeeds exactly when three ports match and none is named `''`, and then slots 0, 1 and 2 hold them in sorted order |
| `Animation.Animate` | testLogger/logger.py:94-101 | pass k writes `"\rReading"` followed by frame `k % 4`, the first frame being a single space; the counter stays in 0..3 |
| `Animation.FrameText` | testLogger/logger.py:99 | what pass k writes; specified by `Animation.Animate` |
| `Supervisor.Launch` | testLogger/logger.py:139-172 | workers start only when the assignment succeeds, and then the PSoC, RN2483 RX and RN2483 TX workers read the devices on the first, second and third matching ports; each log is its old content followed by the records of its own device, independent of the other two; when the assignment fails every log is left as it was |

## Left out

- Serial transport (pyserial): opening, `readline`, the 60-second timeout, `isOpen`/`close`, baud, parity and stop-bit settings. These are foreign I/O. A worker sees each read as a `Line` or `Disconnect` event, and a port opening as a boolean.
- UTF-8 decoding with `errors='ignore'`. This is a library call, so each line arrives already decoded. Bytes it cannot decode are dropped.
- The `logging` library: the logger registry, level filtering, handler buffering and durability. The log is a sequence of records. The file text is `Records.Render` of that sequence, with `\n` as the line terminator. Platform newline translation is not modelled.
- Wall-clock time. Each `Line` event carries the timestamp at which its record is written, always within the ranges `strftime` prints at fixed width.
- Threads. `Supervisor.Launch` runs the three workers one after another rather than concurrently. The workers share no state, so each log depends only on its own input. Interleaving is not modelled.
- Console I/O: `input`, `print`, `sys.stdout.write`, `time.sleep` and `exit()`. Their effect is modelled only as a worker reaching `Halted`. Whether the whole process exits is not modelled.
- The `SerialException` handler in `waiting_animation`. Nothing in that loop can raise it.
- Closing the port on disconnect. The PSoC worker closes it unconditionally; the plain workers close it only if it is open.
- Construction of the log paths under the home directory. It depends on the environment.
- Port enumeration and its sort. The sorted list of `(port, desc, hwid)` entries is the input. `hwid` is carried but never used, as in the source.
- Animation.Animate: runs a given number of passes instead of looping forever.
- Records.ParseRecord has no counterpart in the source. It exists to state that the written layout can be read back.
