# MPU6050 serial plotter: ingestion and recording core

This project is a Dafny model of the live sensor viewer
`src/detect_velocity/plot_variables.py` and of its earlier version,
`Code/first_draft/mpu6050/detect_velocity/plot_variables.py`.

The sensor sends seven comma-separated readings per line: `acc_x`, `acc_y`,
`acc_z`, `gyro_x`, `gyro_y`, `gyro_z` and `temp`.

- On every poll, `animate` decodes the waiting line, strips it and splits it on commas. It keeps the line only when it has exactly seven non-blank fields.
- It then appends `float()` of each field to that channel's rolling buffer, a `deque(maxlen=100)`.
- While the global `recording` flag is set, it also appends a row to `data_store`. The row holds the time and the newest value of each buffer.
- The Record button flips the flag. Turning it on clears the store. Turning it off writes the store to `data_collection/<name>.csv`.
- The Pause button flips the same flag and does nothing else.
- The text box changes the file name.

Modules:

- `Wrappers`: the `Option` type.
- `Text`: Python's `str.strip()` and `str.split(sep)` on code-point strings, with `Join` as the partner of `Split`.
- `Frame`: frame validation (`Fields`), its soundness and completeness, and the float conversion `Convert` / `Reading`.
- `Rolling`: the bounded deque (`Push`), the reference `Window` definition, and the channel-by-channel append of one frame (`AppendFrame`, with `FirstBad` finding the first field `float()` rejects). That append can stop part-way on a `ValueError`.
- `Recorder`: the later version's state (buffers, flag, store, file name) and its four events (`OnLine`, `Record`, `Pause`, `SetName`). It also defines `Run` over an event sequence and the button scenarios.
- `FirstDraft`: the earlier `animate`, which has buffers only. It is proved to agree with the buffer part of `Recorder.OnLine`, one poll at a time and along whole runs.

The following are parameters:

- **Float values:** the value type `V`.
- **Timestamps:** the type `T`.
- **`float()`:** the partial function `conv: string -> Option<V>`, where `None` means `ValueError`.
- **`time.time()`:** the `now` argument carried by each line event.

## Model

| member | source | states |
|---|---|---|
| Text.Strip | src/detect_velocity/plot_variables.py:80 | stripping never lengthens a line; the result is empty exactly when the line is all whitespace; otherwise it starts and ends with a non-space character |
| Text.StripShape | src/detect_velocity/plot_variables.py:80 | the stripped line is the infix of the line after its leading whitespace, and only whitespace lies on either side of it |
| Text.Split | src/detect_velocity/plot_variables.py:81 | `split(",")` always yields at least one piece and no piece contains the separator |
| Text.JoinSplit | src/detect_velocity/plot_variables.py:81 | joining the pieces of a split with the separator gives back the original string |
| Text.SplitJoin | src/detect_velocity/plot_variables.py:81 | splitting the join of separator-free pieces gives back exactly those pieces |
| Frame.Fields | src/detect_velocity/plot_variables.py:80-82 | an accepted line has seven comma-free fields; `Frame.FieldsSound` and `Frame.FieldsComplete` together state exactly which lines are accepted and with which fields |
| Frame.FieldsSound | src/detect_velocity/plot_variables.py:80-82 | an accepted line yields exactly seven fields; each is comma-free and non-blank; joined by commas they rebuild the stripped line |
| Frame.FieldsComplete | src/detect_velocity/plot_variables.py:80-82 | any seven comma-free, non-blank fields that make up the stripped line are accepted as exactly those fields |
| Frame.FieldsWrongCount | src/detect_velocity/plot_variables.py:82 | a stripped line that splits into a number of pieces other than seven is rejected |
| Frame.Convert | src/detect_velocity/plot_variables.py:85-91 | converting the fields succeeds exactly when every field converts, and then yields their values in field order |
| Rolling.Push | src/detect_velocity/plot_variables.py:33-44 | appending to a `deque(maxlen=100)` keeps the newest values of buffer-plus-value, at most 100 of them, in order, and ends with the new value |
| Rolling.PushFull | src/detect_velocity/plot_variables.py:33-44 | appending to a full buffer drops exactly its oldest value |
| Rolling.PushRoom | src/detect_velocity/plot_variables.py:33-44 | appending to a buffer below capacity loses nothing |
| Rolling.FeedWindow | src/detect_velocity/plot_variables.py:33-44 | after any sequence of appends, a buffer holds exactly the last 100 values of its whole history, oldest first |
| Rolling.FeedFromEmpty | src/detect_velocity/plot_variables.py:33-44 | from an empty deque, the buffer is the window of the appended values and never exceeds 100 |
| Rolling.FirstBad | src/detect_velocity/plot_variables.py:85-91 | the channel where the first `float()` failure happens: every earlier field converts, and that field does not (or it is past the last channel when all convert) |
| Rolling.AppendFrame | src/detect_velocity/plot_variables.py:85-91 | the seven appends in channel order. A frame completes exactly when every field converts, and then channel c gains field c. Otherwise it raises at a field that does not convert; the channels before it have gained their value, and it and the later channels are untouched |
| Rolling.AppendFramePreserves | src/detect_velocity/plot_variables.py:85-91 | appending a frame keeps every buffer within capacity; a completed append keeps equal-length buffers equal |
| Rolling.RaisedMisaligns | src/detect_velocity/plot_variables.py:85-91 | when the first field converts but a later one does not, buffers that were aligned and not full end with unequal lengths |
| Recorder.Init | src/detect_velocity/plot_variables.py:33-57 | at start-up the buffers are empty and aligned, the flag is off, the store has no rows and the file name is the one given |
| Recorder.AppendRow | src/detect_velocity/plot_variables.py:118-126 | appending one entry to each of the eight columns adds exactly one row at the end of the table and keeps every other row |
| Recorder.Cleared | src/detect_velocity/plot_variables.py:197 | resetting the store keeps its columns and leaves it without rows |
| Recorder.SavePath | src/detect_velocity/plot_variables.py:68 | the save path is `data_collection/` then the file name then `.csv` |
| Recorder.SavePathInjective | src/detect_velocity/plot_variables.py:68 | two different file names never map to the same save path |
| Recorder.Newest | src/detect_velocity/plot_variables.py:120-126 | one value per buffer, the last one of each (`acc_x[-1]` ... `temp[-1]`) |
| Recorder.Accept | src/detect_velocity/plot_variables.py:82-126 | an accepted frame completes exactly when every field converts. It then pushes field c onto buffer c and, exactly while recording, appends the row (timestamp, those values). Otherwise it raises at the first bad field with the store untouched. Flag and file name never change |
| Recorder.NewestAfterAppend | src/detect_velocity/plot_variables.py:120-126 | after a completed append, the newest value of each buffer (`acc_x[-1]` ...) is that channel's converted field |
| Recorder.Capture | src/detect_velocity/plot_variables.py:118-126 | while recording, the store gains the sample as its last row; otherwise the store is unchanged; nothing else changes |
| Recorder.OnLine | src/detect_velocity/plot_variables.py:77-129 | no waiting data, a decode error and a rejected frame leave the state as it was; no line event ever exports or changes the flag or file name |
| Recorder.LineAccepted | src/detect_velocity/plot_variables.py:82-126 | a line that is accepted and fully converts grows every buffer by its channel value and, exactly while recording, adds the sample as the store's last row |
| Recorder.LineRaises | src/detect_velocity/plot_variables.py:85-91 | a `ValueError` escapes exactly for an accepted frame with a non-converting field; the store is untouched and only the channels before that field were pushed |
| Recorder.Record | src/detect_velocity/plot_variables.py:193-202 | Record flips the flag. Starting clears the store and exports nothing. Stopping exports the unchanged store once, under the eight column names, to the current file name. Buffers and file name are untouched |
| Recorder.Pause | src/detect_velocity/plot_variables.py:234-240 | Pause flips the flag and changes nothing else: no reset, no export |
| Recorder.SetName | src/detect_velocity/plot_variables.py:222-223 | submitting text makes it the file name and changes nothing else |
| Recorder.Step | src/detect_velocity/plot_variables.py:243-246 | every event keeps the buffers within capacity and the store rectangular |
| Recorder.Run | src/detect_velocity/plot_variables.py:243-250 | handling the callbacks and polls in order, the state stays valid, and every exported store has eight columns of equal length, as `pd.DataFrame` in `save_data` (line 67) needs |
| Recorder.StepKeepsAligned | src/detect_velocity/plot_variables.py:85-91 | every event that does not raise keeps the seven buffers of equal length |
| Recorder.RunKeepsAligned | src/detect_velocity/plot_variables.py:33-44 | a run that no `ValueError` interrupts ends with buffers of equal length |
| Recorder.RunFileName | src/detect_velocity/plot_variables.py:215-223 | after an uninterrupted run, the file name is the last submitted text, or the start-up name if none was submitted |
| Recorder.RecordCapturesSamples | src/detect_velocity/plot_variables.py:186-202 | Record, A, B, Record produces exactly one export, to the current file name under the column header, with rows A then B |
| Recorder.PauseSkipsSamples | src/detect_velocity/plot_variables.py:227-240 | Record, A, Pause, B, Pause, C, Record produces one export with rows A then C; the sample taken while paused is not captured |
| Recorder.PauseThenRecordDiscards | src/detect_velocity/plot_variables.py:193-240 | Record, A, Pause, Record exports nothing and leaves recording on with an empty store, so A is lost |
| Recorder.PauseWhileIdleResumesOldStore | src/detect_velocity/plot_variables.py:193-240 | Pause, B, Record from the idle state exports the previous session's rows followed by B |
| Recorder.EmptySession | src/detect_velocity/plot_variables.py:195-202 | Record pressed twice with no sample between them exports the column header and no data rows |
| FirstDraft.Animate | Code/first_draft/mpu6050/detect_velocity/plot_variables.py:65-106 | no data, a decode error and a rejected frame leave the buffers unchanged; buffers stay within capacity; a completed frame keeps equal-length buffers equal |
| FirstDraft.AnimateAccepted | Code/first_draft/mpu6050/detect_velocity/plot_variables.py:71-78 | an accepted, fully numeric frame pushes field c onto buffer c |
| FirstDraft.AgreesWithRecorder | Code/first_draft/mpu6050/detect_velocity/plot_variables.py:65-106 | the later version's line handling leaves the same buffers as the first draft and raises exactly when it does |
| FirstDraft.AnimateAll | Code/first_draft/mpu6050/detect_velocity/plot_variables.py:13-16 | over any sequence of polls every buffer stays within 100 values |
| FirstDraft.AnimateWindow | Code/first_draft/mpu6050/detect_velocity/plot_variables.py:72-78 | one poll moves each buffer's window forward by exactly what that poll contributes to the channel |
| FirstDraft.AnimateAllWindow | Code/first_draft/mpu6050/detect_velocity/plot_variables.py:13-16 | buffers that are windows of some histories stay windows of those histories extended by the polls |
| FirstDraft.LineWithoutReading | Code/first_draft/mpu6050/detect_velocity/plot_variables.py:69-71 | a poll that yields no complete reading either leaves the buffers unchanged or raises |
| FirstDraft.RunBuffers | src/detect_velocity/plot_variables.py:77-91 | along any run of the later version, the buffers equal those the first draft builds from the same polls, and the run halts exactly when the first draft raises |
| FirstDraft.RecorderKeepsRecent | src/detect_velocity/plot_variables.py:33-44 | from start-up, unless a `ValueError` escapes, each buffer of the later version holds the last 100 values of its channel over all accepted numeric lines, whatever the button and text-box events |
| FirstDraft.StreamKeepsRecent | Code/first_draft/mpu6050/detect_velocity/plot_variables.py:13-16 | from start-up, unless a `ValueError` escapes, each buffer holds the last 100 values of its channel over all accepted numeric lines, oldest first |

## Left out

- Serial I/O (`Serial(...)`, `in_waiting`, `readline`, `reset_input_buffer`): abstracted as the `Input` of one poll. `NoData` stands for nothing waiting, `DecodeError` for a line that is not UTF-8, and `Decoded` for its text.
- UTF-8 decoding itself: lines are modelled after decoding, as strings of code points.
- `float()`: left abstract as `conv`. Python's float grammar (signs, exponents, `inf`, `nan`, surrounding whitespace) is not modelled.
- `time.time()`: a parameter of each line event. The source reads it before the conversions, which makes no difference to the model.
- Plotting: all of matplotlib (`set_data`, axis limits, labels and figure layout) is presentation and is not modelled.
- CSV writing: `pd.DataFrame(...).to_csv(...)` is modelled as an emitted `Export` of the path, the header (the store's keys, `Columns`) and the store. The text formatting of the CSV and file-system errors are not modelled.
- Command-line handling (src/detect_velocity/plot_variables.py:17-24): the initial file name is a parameter of `Init`. The exit when it is missing is not modelled.
- The `event.inaxes` checks in the button callbacks: a click event in the model is a click on that button.
- Button label changes ("Stop", "Record", "Pause", "Resume") and the `print` calls are not modelled.
- FuncAnimation scheduling: polls and clicks are one interleaved sequence of events, with no concurrency. The later version's `animate()` takes no argument although FuncAnimation passes it a frame number. That call mismatch is outside the model, which treats each poll as one call.
- Recorder.Run: an uncaught `ValueError` ends the run with the state it left behind. What the GUI event loop does after an exception in a timer callback is not modelled.
- Behaviour of the code worth knowing, which the model follows:
  - Pause flips the same `recording` flag as Record, so there is no third, paused state.
  - So Record after Pause starts a new session and discards the captured rows without exporting them (`Recorder.PauseThenRecordDiscards`).
  - Pause while idle resumes capture into the previous session's store (`Recorder.PauseWhileIdleResumesOldStore`).
  - A non-numeric field is not skipped. `float()` raises `ValueError` past the `except UnicodeDecodeError` clause, after the earlier channels were appended (`Recorder.LineRaises`, `Rolling.RaisedMisaligns`).
  - Rejected lines are not counted.
