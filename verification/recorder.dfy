/**
 The per-sample step of `src/detect_velocity/plot_variables.py`: the rolling
 buffers, the single `recording` flag, the column store `data_store`, the CSV
 file name, and the four events that change them — a line from the serial link
 (`animate`), the Record button, the Pause button and the file-name text box.
 Writing the CSV is modelled as an emitted `Export` of the path and the store.
 */
module Recorder {
  import opened Wrappers
  import opened Frame
  import opened Rolling

  /** Keys of `data_store`, which are also the header of the exported CSV. */
  const Columns: seq<string> := ["time", "acc_x", "acc_y", "acc_z", "gyro_x", "gyro_y", "gyro_z", "temp"]

  /** Directory and extension around the file name in `save_data`. */
  const SaveDir: string := "data_collection/"
  const SaveExt: string := ".csv"

  /** `data_store`: the "time" column and one column per channel, in the order of `Columns`. */
  datatype Store<V, T> = Store(time: seq<T>, channels: seq<seq<V>>)

  /** One data row of the store: a timestamp and the seven channel values. */
  datatype Row<V, T> = Row(time: T, values: seq<V>)

  /** All eight columns have the same length, so the store is a table (what `pd.DataFrame` needs). */
  predicate Rectangular<V, T>(s: Store<V, T>) {
    |s.channels| == Channels && forall c | 0 <= c < |s.channels| :: |s.channels[c]| == |s.time|
  }

  /** The store read row by row, which is what the exported CSV holds below its header. */
  function Rows<V, T>(s: Store<V, T>): (r: seq<Row<V, T>>)
    requires Rectangular(s)
    ensures |r| == |s.time|
    ensures forall i | 0 <= i < |r| :: r[i].time == s.time[i] && |r[i].values| == Channels
    ensures forall i, c | 0 <= i < |r| && 0 <= c < Channels :: r[i].values[c] == s.channels[c][i]
  {
    seq(|s.time|, i requires 0 <= i < |s.time| =>
      Row(s.time[i], seq(Channels, c requires 0 <= c < Channels => s.channels[c][i])))
  }

  /** Appending one entry to every column adds exactly one row at the end. */
  function AppendRow<V, T>(s: Store<V, T>, t: T, values: seq<V>): (r: Store<V, T>)
    requires Rectangular(s) && |values| == Channels
    ensures Rectangular(r)
    ensures Rows(r) == Rows(s) + [Row(t, values)]
  {
    var r := Store(s.time + [t], seq(Channels, c requires 0 <= c < Channels => s.channels[c] + [values[c]]));
    AppendRowRows(s, t, values, r);
    r
  }

  lemma AppendRowRows<V, T>(s: Store<V, T>, t: T, values: seq<V>, r: Store<V, T>)
    requires Rectangular(s) && |values| == Channels
    requires r == Store(s.time + [t], seq(Channels, c requires 0 <= c < Channels => s.channels[c] + [values[c]]))
    ensures Rectangular(r)
    ensures Rows(r) == Rows(s) + [Row(t, values)]
  {
    var want := Rows(s) + [Row(t, values)];
    forall i | 0 <= i < |r.time|
      ensures Rows(r)[i] == want[i]
    {
      if i < |s.time| {
        assert Rows(r)[i].values == Rows(s)[i].values;
      } else {
        assert Rows(r)[i].values == values;
      }
    }
  }

  /** `{key: [] for key in data_store}`: the same columns, every one of them empty. */
  function Cleared<V, T>(s: Store<V, T>): (r: Store<V, T>)
    requires Rectangular(s)
    ensures Rectangular(r) && |r.channels| == |s.channels|
    ensures Rows(r) == []
  {
    Store([], seq(|s.channels|, _ => []))
  }

  /** The state `animate` and the callbacks share through module globals. */
  datatype State<V, T> = State(buffers: seq<seq<V>>, recording: bool, store: Store<V, T>, filename: string)

  /** Seven buffers within capacity and a rectangular store. */
  predicate Valid<V, T>(st: State<V, T>) {
    Bounded(st.buffers) && Rectangular(st.store)
  }

  /** Module start-up: empty buffers, not recording, empty store, the file name from the command line. */
  function Init<V, T>(filename: string): (st: State<V, T>)
    ensures Valid(st) && Aligned(st.buffers)
    ensures !st.recording && Rows(st.store) == [] && st.filename == filename
    ensures forall c | 0 <= c < Channels :: st.buffers[c] == []
  {
    State(seq(Channels, _ => []), false, Store([], seq(Channels, _ => [])), filename)
  }

  /** The destination `save_data` writes to for a given file name. */
  function SavePath(name: string): (r: string)
    ensures |r| == |SaveDir| + |name| + |SaveExt|
    ensures r[..|SaveDir|] == SaveDir && r[|r| - |SaveExt|..] == SaveExt
    ensures r[|SaveDir|..|r| - |SaveExt|] == name
  {
    SaveDir + name + SaveExt
  }

  /** Different file names never share a destination. */
  lemma SavePathInjective(a: string, b: string)
    requires SavePath(a) == SavePath(b)
    ensures a == b
  {
    assert a == SavePath(a)[|SaveDir|..|SavePath(a)| - |SaveExt|];
  }

  /** A call of `save_data`: the CSV destination, its header line (the store's keys) and the table written below it. */
  datatype Export<V, T> = Export(path: string, header: seq<string>, store: Store<V, T>)

  /** What handling one event leaves: the new state and the export it emitted, or an uncaught `ValueError`. */
  datatype Reply<V, T> =
    | Done(state: State<V, T>, saved: Option<Export<V, T>>)
    | ValueError(state: State<V, T>, channel: nat)

  /** The newest value of every buffer (`acc_x[-1]`, ..., `temp[-1]`). */
  function Newest<V>(bufs: seq<seq<V>>): (r: seq<V>)
    requires forall c | 0 <= c < |bufs| :: |bufs[c]| > 0
    ensures |r| == |bufs| && forall c | 0 <= c < |bufs| :: r[c] == bufs[c][|bufs[c]| - 1]
  {
    seq(|bufs|, c requires 0 <= c < |bufs| => bufs[c][|bufs[c]| - 1])
  }

  /**
   An accepted frame. When every field converts, field c is pushed onto buffer c
   and, while recording, one row (the timestamp and those seven values) is
   appended to the store. Otherwise `ValueError` escapes at the first field that
   does not convert, after the channels before it were pushed; the store is
   untouched. No export, and the flag and file name stay as they are.
   */
  function Accept<V, T>(st: State<V, T>, fields: seq<string>, now: T, conv: string -> Option<V>): (r: Reply<V, T>)
    requires Valid(st) && |fields| == Channels
    ensures Valid(r.state)
    ensures r.state.recording == st.recording && r.state.filename == st.filename
    ensures r.Done? <==> Convert(fields, conv).Some?
    ensures r.Done? ==>
      var vs := Convert(fields, conv).value;
      && r.saved.None?
      && (forall c | 0 <= c < Channels :: r.state.buffers[c] == Push(st.buffers[c], vs[c]))
      && (st.recording ==> Rows(r.state.store) == Rows(st.store) + [Row(now, vs)])
      && (!st.recording ==> r.state.store == st.store)
    ensures r.ValueError? ==>
      && r.state.store == st.store
      && r.channel < Channels && conv(fields[r.channel]).None?
      && (forall c | 0 <= c < r.channel :: conv(fields[c]).Some? && r.state.buffers[c] == Push(st.buffers[c], conv(fields[c]).value))
      && (forall c | r.channel <= c < Channels :: r.state.buffers[c] == st.buffers[c])
  {
    AppendFramePreserves(st.buffers, fields, conv);
    match AppendFrame(st.buffers, fields, conv)
    case Raised(bufs, k) =>
      ValueError(st.(buffers := bufs), k)
    case Appended(bufs) =>
      NewestAfterAppend(st.buffers, fields, conv);
      Done(Capture(st.(buffers := bufs), now, Newest(bufs)), None)
  }

  /**
   "If recording, store the data": while the flag is set the store gains one row,
   the timestamp and the newest value of each buffer; otherwise it is left alone.
   Nothing else changes.
   */
  function Capture<V, T>(st: State<V, T>, now: T, newest: seq<V>): (r: State<V, T>)
    requires Valid(st) && |newest| == Channels
    ensures Valid(r)
    ensures r.buffers == st.buffers && r.recording == st.recording && r.filename == st.filename
    ensures st.recording ==> Rows(r.store) == Rows(st.store) + [Row(now, newest)]
    ensures !st.recording ==> r.store == st.store
  {
    if st.recording then st.(store := AppendRow(st.store, now, newest)) else st
  }

  /** After a completed append, the newest values of the buffers are the converted fields, in channel order. */
  lemma NewestAfterAppend<V>(bufs: seq<seq<V>>, fields: seq<string>, conv: string -> Option<V>)
    requires |fields| == |bufs| && AppendFrame(bufs, fields, conv).Appended?
    ensures Convert(fields, conv).Some?
    ensures var after := AppendFrame(bufs, fields, conv).buffers;
      (forall c | 0 <= c < |after| :: |after[c]| > 0) && Newest(after) == Convert(fields, conv).value
  {
    var after := AppendFrame(bufs, fields, conv).buffers;
    var vs := Convert(fields, conv).value;
    forall c | 0 <= c < |after|
      ensures |after[c]| > 0 && after[c][|after[c]| - 1] == vs[c]
    {
      assert after[c] == Push(bufs[c], conv(fields[c]).value);
    }
  }

  /**
   The line-handling branch of `animate`: nothing waiting, a decode error and a
   rejected frame change nothing; an accepted frame is handled by `Accept`.
   */
  function OnLine<V, T>(st: State<V, T>, input: Input, now: T, conv: string -> Option<V>): (r: Reply<V, T>)
    requires Valid(st)
    ensures Valid(r.state)
    ensures r.state.recording == st.recording && r.state.filename == st.filename
    ensures r.Done? ==> r.saved.None?
    ensures input.NoData? || input.DecodeError? ==> r == Done(st, None)
    ensures input.Decoded? && Fields(input.text).None? ==> r == Done(st, None)
  {
    match input
    case NoData => Done(st, None)
    case DecodeError => Done(st, None)
    case Decoded(text) =>
      match Fields(text)
      case None => Done(st, None)
      case Some(fields) => Accept(st, fields, now, conv)
  }

  /**
   A line whose frame is accepted and fully converts: every buffer gains its own
   channel's value and, exactly while recording, the store gains that sample as its last row.
   */
  lemma LineAccepted<V, T>(st: State<V, T>, text: string, now: T, conv: string -> Option<V>)
    requires Valid(st) && Reading(text, conv).Some?
    ensures var r := OnLine(st, Decoded(text), now, conv);
      var vs := Reading(text, conv).value;
      && r.Done? && r.saved.None?
      && (forall c | 0 <= c < Channels :: r.state.buffers[c] == Push(st.buffers[c], vs[c]))
      && (st.recording ==> Rows(r.state.store) == Rows(st.store) + [Row(now, vs)])
      && (!st.recording ==> r.state.store == st.store)
  {
  }

  /**
   A `ValueError` escapes exactly for an accepted frame with a field that does not
   convert; the store is then untouched and only the channels before it were pushed.
   */
  lemma LineRaises<V, T>(st: State<V, T>, text: string, now: T, conv: string -> Option<V>)
    requires Valid(st)
    ensures var r := OnLine(st, Decoded(text), now, conv);
      && (r.ValueError? <==> Fields(text).Some? && Reading(text, conv).None?)
      && (r.ValueError? ==>
        var fs := Fields(text).value;
        && r.state.store == st.store
        && r.channel < Channels && conv(fs[r.channel]).None?
        && (forall c | 0 <= c < r.channel :: r.state.buffers[c] == Push(st.buffers[c], conv(fs[c]).value))
        && (forall c | r.channel <= c < Channels :: r.state.buffers[c] == st.buffers[c]))
  {
  }

  /**
   The Record button. Starting (flag was false) clears every store column and
   emits nothing; stopping (flag was true) keeps the store and emits exactly one
   export of it to the current file name. Buffers and file name are untouched.
   */
  function Record<V, T>(st: State<V, T>): (r: Reply<V, T>)
    requires Valid(st)
    ensures r.Done? && Valid(r.state)
    ensures r.state.recording == !st.recording
    ensures r.state.buffers == st.buffers && r.state.filename == st.filename
    ensures !st.recording ==> r.saved.None? && Rows(r.state.store) == []
    ensures st.recording ==> r.saved == Some(Export(SavePath(st.filename), Columns, st.store)) && r.state.store == st.store
  {
    if !st.recording then Done(st.(recording := true, store := Cleared(st.store)), None)
    else Done(st.(recording := false), Some(Export(SavePath(st.filename), Columns, st.store)))
  }

  /** The Pause button: flips the same flag and nothing else — no reset, no export. */
  function Pause<V, T>(st: State<V, T>): (r: Reply<V, T>)
    requires Valid(st)
    ensures r.Done? && r.saved.None? && Valid(r.state)
    ensures r.state.recording == !st.recording
    ensures r.state.buffers == st.buffers && r.state.store == st.store && r.state.filename == st.filename
  {
    Done(st.(recording := !st.recording), None)
  }

  /** The file-name text box: the submitted text becomes the file name of later exports. */
  function SetName<V, T>(st: State<V, T>, text: string): (r: Reply<V, T>)
    requires Valid(st)
    ensures r.Done? && r.saved.None? && Valid(r.state)
    ensures r.state.filename == text
    ensures r.state.buffers == st.buffers && r.state.store == st.store && r.state.recording == st.recording
  {
    Done(st.(filename := text), None)
  }

  /** The events the program reacts to; a line carries the `time.time()` reading taken for it. */
  datatype Event<T> = Line(input: Input, now: T) | RecordClick | PauseClick | Submit(text: string)

  function Step<V, T>(st: State<V, T>, ev: Event<T>, conv: string -> Option<V>): (r: Reply<V, T>)
    requires Valid(st)
    ensures Valid(r.state)
  {
    match ev
    case Line(input, now) => OnLine(st, input, now, conv)
    case RecordClick => Record(st)
    case PauseClick => Pause(st)
    case Submit(text) => SetName(st, text)
  }

  /** The outcome of a run of events: final state, exports in order, and the channel of an escaped `ValueError`, if any. */
  datatype Trace<V, T> = Trace(state: State<V, T>, exports: seq<Export<V, T>>, halted: Option<nat>)

  function SavedList<V, T>(saved: Option<Export<V, T>>): seq<Export<V, T>> {
    match saved
    case None => []
    case Some(e) => [e]
  }

  /**
   Handles the events in order. An uncaught `ValueError` ends the run with the
   state it left behind. Every state reached is valid and every exported store is
   rectangular, so building its DataFrame never meets columns of unequal length.
   */
  function Run<V, T>(st: State<V, T>, evs: seq<Event<T>>, conv: string -> Option<V>): (r: Trace<V, T>)
    requires Valid(st)
    ensures Valid(r.state)
    ensures forall i | 0 <= i < |r.exports| :: Rectangular(r.exports[i].store)
    decreases |evs|
  {
    if evs == [] then
      Trace(st, [], None)
    else
      match Step(st, evs[0], conv)
      case ValueError(s, k) => Trace(s, [], Some(k))
      case Done(s, saved) =>
        var rest := Run(s, evs[1..], conv);
        Trace(rest.state, SavedList(saved) + rest.exports, rest.halted)
  }

  /** Every event except an escaped `ValueError` keeps the seven buffers aligned. */
  lemma StepKeepsAligned<V, T>(st: State<V, T>, ev: Event<T>, conv: string -> Option<V>)
    requires Valid(st) && Aligned(st.buffers)
    ensures Step(st, ev, conv).Done? ==> Aligned(Step(st, ev, conv).state.buffers)
  {
    if ev.Line? && ev.input.Decoded? && Fields(ev.input.text).Some? {
      var fields := Fields(ev.input.text).value;
      AppendFramePreserves(st.buffers, fields, conv);
      assert Step(st, ev, conv) == Accept(st, fields, ev.now, conv);
    }
  }

  /** A run that no `ValueError` interrupts ends with aligned buffers. */
  lemma {:induction false} RunKeepsAligned<V, T>(st: State<V, T>, evs: seq<Event<T>>, conv: string -> Option<V>)
    requires Valid(st) && Aligned(st.buffers)
    ensures Run(st, evs, conv).halted.None? ==> Aligned(Run(st, evs, conv).state.buffers)
    decreases |evs|
  {
    if evs != [] {
      StepKeepsAligned(st, evs[0], conv);
      var r := Step(st, evs[0], conv);
      if r.Done? {
        RunKeepsAligned(r.state, evs[1..], conv);
      }
    }
  }

  /** The file name after a sequence of events: the last submitted text, or the initial name. */
  function LastName<T>(initial: string, evs: seq<Event<T>>): string
    decreases |evs|
  {
    if evs == [] then initial
    else if evs[|evs| - 1].Submit? then evs[|evs| - 1].text
    else LastName(initial, evs[..|evs| - 1])
  }

  lemma LastNameCons<T>(initial: string, ev: Event<T>, evs: seq<Event<T>>)
    ensures LastName(initial, [ev] + evs) == LastName(if ev.Submit? then ev.text else initial, evs)
    decreases |evs|
  {
    if evs != [] {
      assert ([ev] + evs)[..|evs|] == [ev] + evs[..|evs| - 1];
      LastNameCons(initial, ev, evs[..|evs| - 1]);
    }
  }

  /** After an uninterrupted run, the file name exports go to is the last text submitted (or the start-up name). */
  lemma {:induction false} RunFileName<V, T>(st: State<V, T>, evs: seq<Event<T>>, conv: string -> Option<V>)
    requires Valid(st)
    ensures Run(st, evs, conv).halted.None? ==> Run(st, evs, conv).state.filename == LastName(st.filename, evs)
    decreases |evs|
  {
    if evs != [] {
      var r := Step(st, evs[0], conv);
      if r.Done? {
        RunFileName(r.state, evs[1..], conv);
        LastNameCons(st.filename, evs[0], evs[1..]);
        assert [evs[0]] + evs[1..] == evs;
      }
    }
  }

  /** Unfolds `Run` by its first event, when that event does not raise. */
  lemma RunNext<V, T>(st: State<V, T>, evs: seq<Event<T>>, conv: string -> Option<V>)
    requires Valid(st) && |evs| > 0 && Step(st, evs[0], conv).Done?
    ensures var s := Step(st, evs[0], conv);
      var rest := Run(s.state, evs[1..], conv);
      Run(st, evs, conv) == Trace(rest.state, SavedList(s.saved) + rest.exports, rest.halted)
  {
  }

  /** A run with no events left ends where it is, having exported nothing. */
  lemma RunDone<V, T>(st: State<V, T>, evs: seq<Event<T>>, conv: string -> Option<V>)
    requires Valid(st) && |evs| == 0
    ensures Run(st, evs, conv) == Trace(st, [], None)
  {
  }

  /** The next event is a line that is accepted and fully converts: the run goes on from the state it leaves. */
  lemma SampleNext<V, T>(st: State<V, T>, evs: seq<Event<T>>, a: string, ta: T, conv: string -> Option<V>) returns (s: State<V, T>)
    requires Valid(st) && |evs| > 0 && evs[0] == Line(Decoded(a), ta) && Reading(a, conv).Some?
    ensures Valid(s) && s.recording == st.recording && s.filename == st.filename
    ensures st.recording ==> Rows(s.store) == Rows(st.store) + [Row(ta, Reading(a, conv).value)]
    ensures !st.recording ==> s.store == st.store
    ensures Run(st, evs, conv) == Run(s, evs[1..], conv)
  {
    LineAccepted(st, a, ta, conv);
    s := OnLine(st, Decoded(a), ta, conv).state;
    RunNext(st, evs, conv);
    assert SavedList<V, T>(None) + Run(s, evs[1..], conv).exports == Run(s, evs[1..], conv).exports;
  }

  /** The next event is a Pause click: the run goes on with the flag flipped and the store as it was. */
  lemma PauseNext<V, T>(st: State<V, T>, evs: seq<Event<T>>, conv: string -> Option<V>) returns (s: State<V, T>)
    requires Valid(st) && |evs| > 0 && evs[0] == PauseClick
    ensures Valid(s) && s.recording == !st.recording && s.store == st.store && s.filename == st.filename
    ensures Run(st, evs, conv) == Run(s, evs[1..], conv)
  {
    s := Pause(st).state;
    RunNext(st, evs, conv);
    assert SavedList<V, T>(None) + Run(s, evs[1..], conv).exports == Run(s, evs[1..], conv).exports;
  }

  /** The next event is a Record click that starts a recording: the run goes on with an empty store. */
  lemma StartNext<V, T>(st: State<V, T>, evs: seq<Event<T>>, conv: string -> Option<V>) returns (s: State<V, T>)
    requires Valid(st) && !st.recording && |evs| > 0 && evs[0] == RecordClick
    ensures Valid(s) && s.recording && Rows(s.store) == [] && s.filename == st.filename
    ensures Run(st, evs, conv) == Run(s, evs[1..], conv)
  {
    s := Record(st).state;
    RunNext(st, evs, conv);
    assert SavedList<V, T>(None) + Run(s, evs[1..], conv).exports == Run(s, evs[1..], conv).exports;
  }

  /** The next event is a Record click that stops a recording: the store is exported first, then the run goes on. */
  lemma StopNext<V, T>(st: State<V, T>, evs: seq<Event<T>>, conv: string -> Option<V>) returns (s: State<V, T>)
    requires Valid(st) && st.recording && |evs| > 0 && evs[0] == RecordClick
    ensures Valid(s) && !s.recording && s.store == st.store && s.filename == st.filename
    ensures var rest := Run(s, evs[1..], conv);
      Run(st, evs, conv) == Trace(rest.state, [Export(SavePath(st.filename), Columns, st.store)] + rest.exports, rest.halted)
  {
    s := Record(st).state;
    RunNext(st, evs, conv);
  }

  /** Record, sample A, sample B, Record: one export, to the current file name, holding rows A then B. */
  lemma RecordCapturesSamples<V, T>(st: State<V, T>, a: string, ta: T, b: string, tb: T, conv: string -> Option<V>)
    requires Valid(st) && !st.recording
    requires Reading(a, conv).Some? && Reading(b, conv).Some?
    ensures var r := Run(st, [RecordClick, Line(Decoded(a), ta), Line(Decoded(b), tb), RecordClick], conv);
      && r.halted.None? && !r.state.recording
      && |r.exports| == 1 && r.exports[0].path == SavePath(st.filename) && r.exports[0].header == Columns
      && Rows(r.exports[0].store) == [Row(ta, Reading(a, conv).value), Row(tb, Reading(b, conv).value)]
  {
    var e0: seq<Event<T>> := [RecordClick, Line(Decoded(a), ta), Line(Decoded(b), tb), RecordClick];
    var e1 := e0[1..];
    var e2 := e1[1..];
    var e3 := e2[1..];
    var s1 := StartNext(st, e0, conv);
    var s2 := SampleNext(s1, e1, a, ta, conv);
    var s3 := SampleNext(s2, e2, b, tb, conv);
    var s4 := StopNext(s3, e3, conv);
    RunDone(s4, e3[1..], conv);
    TwoRows(Row(ta, Reading(a, conv).value), Row(tb, Reading(b, conv).value));
  }

  /**
   Record, A, Pause, B, Pause, C, Record: the paused sample B is not captured, and
   the single export holds rows A then C.
   */
  lemma PauseSkipsSamples<V, T>(st: State<V, T>, a: string, ta: T, b: string, tb: T, c: string, tc: T, conv: string -> Option<V>)
    requires Valid(st) && !st.recording
    requires Reading(a, conv).Some? && Reading(b, conv).Some? && Reading(c, conv).Some?
    ensures var r := Run(st, [RecordClick, Line(Decoded(a), ta), PauseClick, Line(Decoded(b), tb), PauseClick, Line(Decoded(c), tc), RecordClick], conv);
      && r.halted.None? && !r.state.recording
      && |r.exports| == 1 && r.exports[0].path == SavePath(st.filename) && r.exports[0].header == Columns
      && Rows(r.exports[0].store) == [Row(ta, Reading(a, conv).value), Row(tc, Reading(c, conv).value)]
  {
    var e0: seq<Event<T>> := [RecordClick, Line(Decoded(a), ta), PauseClick, Line(Decoded(b), tb), PauseClick, Line(Decoded(c), tc), RecordClick];
    var e1 := e0[1..];
    var e2 := e1[1..];
    var e3 := e2[1..];
    var e4 := e3[1..];
    var e5 := e4[1..];
    var e6 := e5[1..];
    var s1 := StartNext(st, e0, conv);
    var s2 := SampleNext(s1, e1, a, ta, conv);
    var s3 := PauseNext(s2, e2, conv);
    var s4 := SampleNext(s3, e3, b, tb, conv);
    var s5 := PauseNext(s4, e4, conv);
    var s6 := SampleNext(s5, e5, c, tc, conv);
    var s7 := StopNext(s6, e6, conv);
    RunDone(s7, e6[1..], conv);
    TwoRows(Row(ta, Reading(a, conv).value), Row(tc, Reading(c, conv).value));
  }

  /**
   Record, A, Pause, Record: the flag is off after Pause, so the second Record starts a
   fresh recording; the captured sample A is discarded and nothing is exported.
   */
  lemma PauseThenRecordDiscards<V, T>(st: State<V, T>, a: string, ta: T, conv: string -> Option<V>)
    requires Valid(st) && !st.recording && Reading(a, conv).Some?
    ensures var r := Run(st, [RecordClick, Line(Decoded(a), ta), PauseClick, RecordClick], conv);
      && r.halted.None? && r.state.recording && r.exports == [] && Rows(r.state.store) == []
  {
    var e0: seq<Event<T>> := [RecordClick, Line(Decoded(a), ta), PauseClick, RecordClick];
    var e1 := e0[1..];
    var e2 := e1[1..];
    var e3 := e2[1..];
    var s1 := StartNext(st, e0, conv);
    var s2 := SampleNext(s1, e1, a, ta, conv);
    var s3 := PauseNext(s2, e2, conv);
    var s4 := StartNext(s3, e3, conv);
    RunDone(s4, e3[1..], conv);
  }

  /**
   Pause, B, Record from a non-recording state: Pause turns capture on without
   clearing the store, so the export holds the rows left from the previous
   session followed by B.
   */
  lemma PauseWhileIdleResumesOldStore<V, T>(st: State<V, T>, b: string, tb: T, conv: string -> Option<V>)
    requires Valid(st) && !st.recording && Reading(b, conv).Some?
    ensures var r := Run(st, [PauseClick, Line(Decoded(b), tb), RecordClick], conv);
      && r.halted.None? && !r.state.recording
      && |r.exports| == 1 && r.exports[0].path == SavePath(st.filename) && r.exports[0].header == Columns
      && Rows(r.exports[0].store) == Rows(st.store) + [Row(tb, Reading(b, conv).value)]
  {
    var e0: seq<Event<T>> := [PauseClick, Line(Decoded(b), tb), RecordClick];
    var e1 := e0[1..];
    var e2 := e1[1..];
    var s1 := PauseNext(st, e0, conv);
    var s2 := SampleNext(s1, e1, b, tb, conv);
    var s3 := StopNext(s2, e2, conv);
    RunDone(s3, e2[1..], conv);
  }

  /** Record pressed twice with no sample in between exports the header and no data rows. */
  lemma EmptySession<V, T>(st: State<V, T>, conv: string -> Option<V>)
    requires Valid(st) && !st.recording
    ensures var r := Run(st, [RecordClick, RecordClick], conv);
      && r.halted.None? && !r.state.recording
      && |r.exports| == 1 && r.exports[0].path == SavePath(st.filename) && r.exports[0].header == Columns
      && Rows(r.exports[0].store) == []
  {
    var e0: seq<Event<T>> := [RecordClick, RecordClick];
    var e1 := e0[1..];
    var s1 := StartNext(st, e0, conv);
    var s2 := StopNext(s1, e1, conv);
    RunDone(s2, e1[1..], conv);
  }

  lemma TwoRows<X>(x: X, y: X)
    ensures [] + [x] + [y] == [x, y]
  {
  }
}
