# TimerApp stopwatch and time records, in Dafny

TimerApp is a desktop time tracker for warehouse work. A worker picks a
client and an activity, starts a stopwatch, and stops it. Stopping appends
one line, `"<date time> - <client> - <activity>: <M:SS:mmm>"`, to a record
list. That list can be edited (delete the selected line), exported, or
saved to a database. Export and save both parse every line back into four
fields and skip the lines that do not parse.

This project models the logic behind that window:

- **Duration text** (`TimeFormat`): `format_time`, integer milliseconds to
  `M:SS:mmm`. It is built on `Decimal` (Python's `str(int)` and
  zero-padded formatting).
- **Record lines** (`RecordCodec`, using `Text` for Python's
  `str.split(sep, 1)` and `Timestamps` for the `%Y-%m-%d %H:%M:%S`
  timestamp): the f-string that writes a line, the three first-occurrence
  splits that read it back, and exactly when the two are inverse.
- **Export/save loops** (`RecordBatch`): the loop that collects one row
  per parsable line, in order, and skips the others. It also covers the
  save action's choice between "No data to save" and one warehouse-tagged
  insert per row.
- **Record list** (`RecordStore`): a class over the sequence of lines,
  with append and delete-selected.
- **Stopwatch** (`TimerApp`): a class with the fields `isRunning`,
  `startTime` and `elapsed`, driven by toggle, start, tick and stop.
  - The clock is an input.
  - Elapsed time is always recomputed from the start reading.
  - Stopping records the elapsed time of the last tick; it takes no new
    reading.

The record format has one weakness, proved here rather than hidden.
If a custom activity contains `": "`, the line does not read back as
written: the text after the colon moves into the duration
(`RecordCodec.ColonInActivityMisparses`, `TimerApp.CustomActivityBreaksRoundTrip`).
Timestamps, the fixed clients and the three standard activities always
read back unchanged (`TimerApp.OfferedStopRecordRoundTrips`).

## Model

| member | source | states |
|---|---|---|
| Text.SplitOnce | timer_app.py:282 | `s.split(sep, 1)` unpacked into two names fails exactly when `sep` does not occur. Otherwise the pieces rejoin to `s`, and the cut is at the leftmost occurrence. |
| Text.SplitOnceJoined | timer_app.py:282-284 | Splitting `a + sep + b` always succeeds, and gives back `(a, b)` iff `sep` occurs nowhere before the end of `a`. |
| Decimal.NatToStringSpec | timer_app.py:251 | `str(n)` is nonempty digits with no leading zero, and reads back as `n`. |
| Decimal.ZeroPadSpec | timer_app.py:251 | `{n:0w}` is digits that read back as `n`. Its length is `w` or the length of `n`'s digits, whichever is larger. |
| Decimal.IntToStringSpec | timer_app.py:251 | `str(i)` of any integer is integer text that reads back as `i`. |
| TimeFormat.FormatTimeShape | timer_app.py:248-251 | Every display is `M:SS:mmm`: integer text, a colon, exactly two digits, a colon, exactly three digits. The fields are `str`, `{:02}` and `{:03}` of the two `divmod` results. |
| TimeFormat.FormatTimeFields | timer_app.py:248-251 | The fields read back as minutes `m // 60000`, seconds `(m // 1000) % 60` below 60 and milliseconds `m % 1000` below 1000, and they add back up to `m`. |
| TimeFormat.FormatTimeMinutesUnpadded | timer_app.py:251 | For `m >= 0` the minutes are plain digits with no padding or leading zero. |
| TimeFormat.FormatTimeInjective | timer_app.py:248-251 | Two durations with the same display are equal. |
| TimeFormat.InitialLabelIsZero | timer_app.py:141 | The label's initial text `"0:00:000"` is the display of 0 ms. |
| TimeFormat.FormatTimeExamples | timer_app.py:248-251 | Sample displays: 61234 → `1:01:234`, 999 → `0:00:999`, 3600000 → `60:00:000`, 61500 → `1:01:500`. |
| Timestamps.StrftimeIsDashSafe | timer_app.py:237 | A `%Y-%m-%d %H:%M:%S` timestamp never contains `" - "` and never ends in `" -"`. |
| RecordCodec.DecodeEncodeSucceeds | timer_app.py:282-284 | Every line the stopwatch can write parses, whatever its fields hold. |
| RecordCodec.DecodeEncode | timer_app.py:282-284 | Parsing a written line gives back the original four fields iff timestamp and client are free of `" - "` and do not end in `" -"`, and the activity is free of `": "`. |
| RecordCodec.EncodeDecode | timer_app.py:282-284 | A line that parses is exactly the line its four fields would be written as, and those fields meet the round-trip condition. |
| RecordCodec.DecodeFailsIff | timer_app.py:281-287 | A line raises `ValueError` and is skipped iff no record is written as that line. |
| RecordCodec.DecodeNeedsSeparators | timer_app.py:282-284 | A line without `" - "`, or without `": "`, does not parse. |
| RecordCodec.DecodeMissingSecondSeparator | timer_app.py:283 | After a well-formed timestamp and its `" - "`, a rest with no second `" - "` makes the line fail. |
| RecordCodec.DecodeMissingSecondSeparatorExample | timer_app.py:283 | The line `2024-01-01 10:00:00 - Sarah Other 1:00:000` is rejected. |
| RecordCodec.ColonInActivityMisparses | timer_app.py:284 | Activity `Break: lunch` with duration `0:05:000` reads back as activity `Break` and duration `lunch: 0:05:000`. |
| RecordBatch.DecodeBatchOrder | timer_app.py:280-288 | One row per parsable line and none from any other line. Each row is its line's parse. The rows keep the lines' relative order. A line yields a row iff it parses. |
| RecordBatch.DecodeBatchAppend | timer_app.py:280-288 | Collecting over two stretches of lines in turn collects their rows in turn. |
| RecordBatch.DecodeBatchEmptyIff | timer_app.py:316-318 | Nothing is collected iff no line parses. |
| RecordBatch.DecodeBatchOfEncoded | timer_app.py:280-288 | A list written from records that meet the round-trip condition is collected back to exactly those records. |
| RecordBatch.CollectRows | timer_app.py:306-314 | The loop's rows are the collected rows of the list. Rows and reported lines together number the lines. Every reported line is from the list and fails to parse. |
| RecordBatch.PlanSave | timer_app.py:316-328 | "No data to save" iff no line parses. Otherwise one insert per collected row, in order, with that row's four fields and the warehouse. |
| RecordStore.DeleteSelected | timer_app.py:261-265 | With a selection inside the list, the list loses one line. Lines before it keep their place and later lines move up by one. Otherwise the list is unchanged. |
| RecordStore.DeleteSelectedRemovesOne | timer_app.py:263 | Deleting removes exactly one copy of the selected line from the multiset of lines. |
| RecordStore.DeleteAppended | timer_app.py:263 | Deleting the line just appended restores the list. |
| RecordStore.RecordList.constructor | timer_app.py:178 | The list box starts empty. |
| RecordStore.RecordList.Insert | timer_app.py:238 | The line goes at the end and earlier lines are untouched. |
| RecordStore.RecordList.DeleteRecord | timer_app.py:261-265 | The new list is the old one with the first selected line deleted. The "Record deleted" outcome is reported iff a line was selected. |
| TimerApp.ResolveActivity | timer_app.py:233-235 | The radio value is used unchanged unless it is "Other". "Other" becomes the custom text, or stays "Other" when that text is empty. |
| TimerApp.ClientsAreDashSafe | timer_app.py:91 | Every fixed client name can stand before `" - "`. |
| TimerApp.ActivitiesAreColonSafe | timer_app.py:156 | None of the three radio values contains `": "`. |
| TimerApp.StopRecordRoundTrip | timer_app.py:229-238 | A stopwatch record for a listed client reads back unchanged iff its activity holds no `": "`. |
| TimerApp.OfferedStopRecordRoundTrips | timer_app.py:229-238 | With a standard activity, or custom text free of `": "`, the stopwatch record reads back unchanged. |
| TimerApp.CustomActivityBreaksRoundTrip | timer_app.py:235 | The custom activity `Break: lunch` does not read back as written. |
| TimerApp.Stopwatch.constructor | timer_app.py:202-204 | Stopped, no start time, 0 ms elapsed, label `0:00:000`, empty record list. |
| TimerApp.Stopwatch.UpdateTimer | timer_app.py:241-246 | A tick while running sets elapsed to the reading minus the start. That never decreases elapsed, and the label shows it. A tick while stopped changes nothing. |
| TimerApp.Stopwatch.StartTimer | timer_app.py:222-227 | Running, start time = the reading, and elapsed = the immediate tick's reading minus the start. Earlier elapsed time is dropped. |
| TimerApp.Stopwatch.StopTimer | timer_app.py:229-239 | Stopped, with exactly one line appended. Its duration is the display of the last ticked elapsed (the label's text), the activity is resolved, and the timestamp is stamped. Elapsed, start and label are unchanged. |
| TimerApp.Stopwatch.ToggleTimer | timer_app.py:216-220 | The running flag flips. Starting appends nothing. Stopping appends exactly the record of the last ticked elapsed. |
| TimerApp.Stopwatch.DeleteRecord | timer_app.py:261-265 | The record list loses its first selected line. The stopwatch state keeps its invariant. |
| TimerApp.Session | timer_app.py:216-246 | Start at 1000 ms, tick at 62500 ms, stop as Sarah/Packing: one line, parsing to duration `1:01:500`. |

## Left out

- The tkinter window is not modelled: widgets, layout, colours, the context-menu popup and the console messages with their time stamps. The console warning for a malformed line is modelled only as the list of skipped lines.
- The `root.after(10, …)` rescheduling is not an event loop here. Each tick is an explicit `UpdateTimer` call.
- `time.time()` floats and the `int(elapsed * 1000)` truncation are floating point. The clock is an integer number of milliseconds, passed to each method that reads it. That it never goes back is a precondition (`clock <= now`).
- `datetime.now()` is an input `DateTime`, and only its `%Y-%m-%d %H:%M:%S` rendering is modelled. Every field is zero-padded, the year to four digits. Some C libraries write years below 1000 without padding; the model does not.
- Spreadsheet writing (pandas, xlsxwriter, the file dialog, header styling) is library I/O. Only the row-collecting loop of `export_to_excel` is modelled; it is the same loop as in `save_to_database`.
- The MySQL connection, statement execution, commit and error handling are database I/O. `PlanSave` names the inserts that would be issued, nothing more. `show_client_records`, `show_all_messages` and `update_connection_status` are queries and display.
- `prompt_update`, `download_update` and `update_checker.py` are network access and file extraction.
- `warehouse_selector_module.py` and `main.py` are window setup and process exit.
- `on_activity_change` is UI only: enabling or clearing the entry has no effect on records. `ResolveActivity` ignores the custom text unless the radio value is "Other".
- RecordStore.RecordList.DeleteRecord: the list box allows one selection at a time. The selection is therefore an optional index, and a multi-selection is represented by its first index.
