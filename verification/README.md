# QR attendance logger: delivery pipeline

A Dafny model of the delivery path of `QRAttendanceLogger`:

- Producers call `log(text)`, which stamps the text with the current time and
  puts a `LogItem` on a queue.
- A worker thread takes one record at a time. It first re-reads the fallback
  file of earlier failures onto the queue tail (`_requeue_tempfile`). It then
  sends the record's line `<str(timestamp)>\t<text>\n` to the monthly blob
  `year=<y>/month=<mm>/attendance.log`.
- When sending raises, the worker appends the line to the fallback file
  (`_log_to_tempfile`).
- The blob client `AzureLogger` remembers the blob names it knows
  (`existing_log_files`). It seeds them from the container listing in
  `connect`. It creates a blob the first time it writes to an unknown name,
  and then appends the text.

Modules, one per file:

- `Wrappers` (wrappers.dfy) holds `Option` and `Result`.
- `Text` (text.dfy) models the Python string operations the code relies on:
  `str(n)`, `zfill`, `split`, `replace` of a character, and `readlines`.
- `Timestamps` (timestamps.dfy) models naive `datetime` values, `str(datetime)`,
  and a parser for that layout.
- `Records` (records.dfy) holds `LogItem`, the fallback line format and its
  parser, and the blob name of a record.
- `AzureSink` (azure_sink.dfy) models `AzureLogger.connect` and
  `AzureLogger.log` over an abstract container.
- `Delivery` (delivery.dfy) models the logger state, `log`, one worker cycle,
  requeueing, the fallback file, and runs of interleaved `log` calls and
  cycles.

Everything is a pure function of the state:

- The fallback file is `Option<string>`: `None` when the file does not exist,
  otherwise its full text.
- The clock reading is a parameter of `log`.
- Whether `create_blob` or `append_blob_from_text` raises is a parameter
  (`Faults`) of each remote call.
- The container is a map from blob name to text, plus a multiset counting the
  `create_blob` calls per name.
- `create_blob` on a name that already exists replaces that blob with an
  empty one.
- Many guarantees hold under `AzureSink.Coherent`: the known names are exactly
  the container's blobs. `Connect` establishes it from a complete listing, and
  `AzureSink.Log` and `Delivery.Cycle` preserve it.

Behaviours of the code worth knowing:

- Timestamps keep microseconds, because `datetime.today()` has them, and
  `str(datetime)` prints them whenever they are not zero.
- Creating a blob is not idempotent. `create_blob` on a name missing from
  `existing_log_files` empties a blob of that name that already exists.
- Two `log` calls to one name create it at most once. A name that is already
  known, or a create that raises, leads to no create.
- Re-read fallback records go behind the records already on the queue,
  including records logged after the failure.
- A text holding a newline is written to the fallback file as several lines.
  Only its first line comes back as the record's text. Each later piece is
  dropped, or read back as a record of its own when it looks like
  `<timestamp>\t<text>` (`Records.NewlineSplitsRecord`).
- A text holding a tab comes back only up to its first tab.

## Model

| member | source | states |
|---|---|---|
| Delivery.Log | src/qr_attendance_logger/__init__.py:60-64 | The queue grows by exactly one record. The old queue is its prefix and the new tail is `(now, text)`. The fallback file and the blob client are unchanged. |
| Records.BlobNamePartition | src/qr_attendance_logger/__init__.py:73-75 | Two timestamps get the same blob name if and only if they have the same year and the same month. |
| Text.PadFacts | src/qr_attendance_logger/__init__.py:74 | For `n < 10^w`, `str(n).zfill(w)` has exactly `w` characters. All of them are digits, and they read back as `n`. |
| Text.Decimal | src/qr_attendance_logger/__init__.py:74 | `str(n)` is a non-empty string of digits whose value is `n`, with no leading zero unless `n` is a single digit. |
| Text.DecimalOfValue | src/qr_attendance_logger/__init__.py:74 | Every digit string without a leading zero is `str` of its own value, so `str(n)` is the one canonical spelling of `n`. |
| Text.Pad | src/qr_attendance_logger/__init__.py:74 | `str(n).zfill(w)` has width `w`, or the width of `str(n)` when that is wider. |
| Text.PadValue | src/qr_attendance_logger/__init__.py:74 | `str(n).zfill(w)` still reads as the number `n`: the added zeros change nothing. |
| Text.ZFillShape | src/qr_attendance_logger/__init__.py:74 | `zfill(w)` gives width `max(len, w)`, keeps the string as its suffix, and puts only zeros in front of it. |
| Timestamps.Format | src/qr_attendance_logger/__init__.py:77 | `str(t)` has 26 characters when the microsecond is not zero, and 19 otherwise. |
| Timestamps.Parse | src/qr_attendance_logger/__init__.py:99 | Any text the parser accepts has the `YYYY-MM-DD HH:MM:SS` layout, with digit fields at fixed places and an optional six-digit fraction. |
| Records.BlobName | src/qr_attendance_logger/__init__.py:73-75 | The name is `year=`, the year as `str`, `/month=`, two digits reading as the month, then `/attendance.log`, and has exactly 29 characters more than the year. |
| Records.Serialize | src/qr_attendance_logger/__init__.py:77 | A record's line is one complete line if and only if its text has no newline. |
| Records.NewlineSplitsRecord | src/qr_attendance_logger/__init__.py:77 | A text `a\nb` with a tab-free, newline-free `a` becomes two lines. Read back, the first gives the record with text `a` only. |
| Timestamps.ParseFormat | src/qr_attendance_logger/__init__.py:99 | Parsing the printed form `str(t)` of any valid timestamp gives back `t`, microseconds included. |
| Timestamps.FormatParse | src/qr_attendance_logger/__init__.py:99 | A parsed text was either `str(t)` or `str(t)` followed by a fraction `.000000`. The parser accepts nothing else. |
| Records.FormatHasNoControl | src/qr_attendance_logger/__init__.py:77 | The printed timestamp holds neither a tab nor a newline, so it stays a single first field of the line. |
| Records.ParseLines | src/qr_attendance_logger/__init__.py:94-104 | Reading the lines of the file gives at most one record per line, and every record read is clean: no tab, no newline in its text. |
| Records.ParseLine | src/qr_attendance_logger/__init__.py:95-100 | Every record read from a line has a text without tab and without newline. |
| Records.ParseLineAccepts | src/qr_attendance_logger/__init__.py:97-104 | A line is kept if and only if it holds a tab and the text before its first tab parses as a timestamp. That timestamp becomes the record's. A line without a tab, or with an unparsable timestamp, is dropped. |
| Records.ParseSerialize | src/qr_attendance_logger/__init__.py:97-100 | A record whose text holds neither tab nor newline is read back from its line unchanged. |
| Records.TabTruncatesText | src/qr_attendance_logger/__init__.py:97-100 | A text with a tab comes back only up to its first tab. |
| Records.SerializeIsLine | src/qr_attendance_logger/__init__.py:77 | The line of a record whose text has no newline is one complete line: non-empty, ending in its only newline. |
| Records.CorruptLineIsolated | src/qr_attendance_logger/__init__.py:94-104 | A line that does not parse is dropped on its own. The lines before and after it yield exactly what they yield without it. |
| Records.ParseLinesAppend | src/qr_attendance_logger/__init__.py:94-104 | Reading the lines `a + b` gives the records of `a` followed by those of `b`, so file order is kept. |
| Records.ReadBackLines | src/qr_attendance_logger/__init__.py:94-102 | A file made of the lines of clean records reads back as exactly those records, in order. |
| Text.Split | src/qr_attendance_logger/__init__.py:97 | `line.split("\t")` gives at least one field. No field holds a tab, and joining the fields with tabs gives the line back. There are two or more fields exactly when the line holds a tab, and the first field is the text before the first tab. |
| Text.SplitJoin | src/qr_attendance_logger/__init__.py:97 | Splitting tab-free fields joined by tabs gives back the same fields. |
| Text.RemoveChar | src/qr_attendance_logger/__init__.py:100 | `replace("\n", "")` leaves no newline. It changes nothing when there was none, and it never lengthens the text. A one-character text is dropped when it is the newline and kept otherwise. |
| Text.RemoveCharAppend | src/qr_attendance_logger/__init__.py:100 | Removing a character from `a + b` removes it from `a` and from `b` separately. With the one-character case this fixes the result: every other character stays, in order. |
| Text.ReadLines | src/qr_attendance_logger/__init__.py:94 | `readlines()` splits the file into pieces whose concatenation is the file. Each piece is non-empty and has no newline before its end, and every piece but the last is a complete line. |
| Text.ReadLinesOfLines | src/qr_attendance_logger/__init__.py:94 | A file that is a concatenation of complete lines is read back as exactly those lines. |
| Delivery.Requeue | src/qr_attendance_logger/__init__.py:90-105 | Afterwards the fallback file is absent and the blob client is unchanged. The old queue is a prefix of the new one. The added tail is what the file's lines parse to, in file order, and no longer than the file's line count. Without a file nothing changes. |
| Delivery.RequeueRoundTrip | src/qr_attendance_logger/__init__.py:90-105 | A fallback file of clean records' lines puts exactly those records on the queue tail, in order, and the file is gone. |
| Delivery.RequeueSkipsCorruptLine | src/qr_attendance_logger/__init__.py:90-105 | With one malformed line among well-formed ones, every well-formed record is put back in order. The malformed line is lost and the file is gone. |
| Delivery.LogToTempfile | src/qr_attendance_logger/__init__.py:108-112 | Afterwards the file exists. Its old text is kept as a prefix and the written text is exactly its suffix. |
| Delivery.AppendAddsOneLine | src/qr_attendance_logger/__init__.py:108-112 | Appending a complete line to a file of complete lines reads back as the old lines followed by the new one. |
| Delivery.Cycle | src/qr_attendance_logger/__init__.py:66-88 | The head leaves the queue and the re-read fallback records join the tail. The fallback ends absent or holding exactly the head's line. Without a connection the line goes to the fallback file and the client is unchanged. Under `Coherent`: when the fallback ends absent, the line was appended to the head's monthly blob; when it holds the line, no blob changed; no other blob ever changes. A connected, coherent client with no faults leaves no fallback file. |
| Delivery.FallbackHoldsOneLine | src/qr_attendance_logger/__init__.py:72-105 | After any cycle whose record's text has no newline, the fallback file is absent or reads as the one line of that record. |
| Delivery.FailedRecordIsRetried | src/qr_attendance_logger/__init__.py:72-105 | For a clean record (no tab, no newline) whose cycle failed, the next cycle in any later state that still has that fallback file puts the record back on the queue tail, unchanged. `log` calls do not touch the file. |
| Delivery.FailedRecordAfterLogs | src/qr_attendance_logger/__init__.py:60-105 | `log` leaves the fallback file alone. So in any state that still has the file of a clean record's failed cycle, a `log` call followed by a cycle puts that record back on the queue tail, unchanged. |
| Delivery.HealthyCycle | src/qr_attendance_logger/__init__.py:66-88 | With a connected, coherent client and no faults, a cycle delivers the head's line to its blob, adds nothing to any other blob, and keeps the state healthy. |
| Delivery.FifoDelivery | src/qr_attendance_logger/__init__.py:60-88 | While every remote call succeeds, the state stays healthy. The queue is a suffix of everything queued, and each blob received exactly the lines of the records before that suffix that belong to its month, in queue order. |
| Delivery.RunKeepsFifo | src/qr_attendance_logger/__init__.py:60-88 | Any run of `log` calls and successful cycles keeps that delivery invariant. |
| AzureSink.Connect | src/qr_attendance_logger/qr_loggers.py:43-46 | The known names are the listed blob names, position by position, in listing order. When the listing is complete the client is coherent. |
| AzureSink.Log | src/qr_attendance_logger/qr_loggers.py:70-83 | Without a connection it raises and nothing changes. The known names are unchanged, or gain exactly the target name when it was unknown, so they never shrink and never gain a duplicate. On success it returns `True`, the name is known, and the blob's text gains exactly the given text. No other blob changes. A known name is never created again, and an unknown one at most once. Coherence is preserved. Under coherence a failure changes no blob, and with no faults the call succeeds. |
| AzureSink.Create | src/qr_attendance_logger/qr_loggers.py:73-75 | The named blob exists and is empty. Other blobs are unchanged, and the name's create count goes up by one. |
| AzureSink.Append | src/qr_attendance_logger/qr_loggers.py:77-82 | The named blob gains exactly the text at its end. No other blob and no create count changes. |
| AzureSink.AtMostOneCreate | src/qr_attendance_logger/qr_loggers.py:72-76 | Over any sequence of `log` calls, each name is created at most once more, and a name already known is never created. |
| AzureSink.SameNameCreatedOnce | src/qr_attendance_logger/qr_loggers.py:72-76 | Two `log` calls to the same blob name create it at most once between them. |
| AzureSink.LogMany | src/qr_attendance_logger/qr_loggers.py:72-76 | Over any sequence of `log` calls the connection is unchanged, and the earlier known names stay as a prefix. |

## Left out

- The worker thread, the blocking `Queue.get`, `task_done` and `sleep(0.3)`
  are concurrency and timing. A cycle is one pure step that needs a non-empty
  queue. `Delivery.Run` interleaves `log` calls and cycles one at a time.
- `datetime.today()` is a clock. The timestamp is an argument of `Delivery.Log`.
- `dateutil.parser.parse` accepts far more than the `str(datetime)` layout.
  The model parses exactly that layout, with or without a six-digit fraction.
  Other text is rejected, where dateutil might accept it.
- `AppDirs`, `mkdir`, `os.path.isfile`, `os.remove` and the constructor's
  warning about an existing fallback file are file system effects. The
  fallback file is only its content.
- Text-mode newline translation and character encoding of the fallback file
  are not modelled; a string is a sequence of characters.
- Logging calls are not modelled. That includes the info message after
  requeueing, which prints its placeholder literally.
- `connect`'s credential and environment-variable lookup and the construction
  of `AppendBlobService` are not modelled. The connected service and its
  listing are parameters of `AzureSink.Connect`, so the order `list_blobs`
  returns is whatever the caller passes.
- The Azure SDK calls, the container name and the 5-second timeout are not
  modelled. Each remote call either succeeds on the abstract container or
  raises, as the `Faults` argument says. A `create_blob` that raises creates
  nothing and is not counted.
- `zfill` is modelled for sign-free digit strings only, which is all the
  code passes it (a month number).
- The example terminal program with its input loop and signal handler is not
  part of this model.
- Delivery.FifoDelivery: ordering is proved only for runs in which every
  remote call succeeds. After a failure, re-read records join the queue
  tail behind records logged in the meantime, so delivery order then
  differs from logging order. The model keeps that behaviour.
- Delivery.Cycle: the per-blob content guarantees are stated under
  `AzureSink.Coherent`. Without it a `create_blob` on a name the client did
  not know would empty an existing blob, which is what the code does in that
  situation.
