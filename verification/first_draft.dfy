/**
 `animate` of `Code/first_draft/mpu6050/detect_velocity/plot_variables.py`: the
 same frame validation and rolling buffers as the later version, with no
 recording state. The seven buffers are the only state it changes.
 */
module FirstDraft {
  import opened Wrappers
  import opened Frame
  import opened Rolling
  import Recorder

  /**
   One call of `animate` on what the link yielded. Nothing waiting, a decode error
   and a rejected frame leave the buffers as they were; an accepted frame is
   appended channel by channel, up to the first field `float()` rejects.
   */
  function Animate<V>(bufs: seq<seq<V>>, input: Input, conv: string -> Option<V>): (r: Appended<V>)
    requires Bounded(bufs)
    ensures Bounded(r.buffers)
    ensures input.NoData? || input.DecodeError? ==> r == Appended(bufs)
    ensures input.Decoded? && Fields(input.text).None? ==> r == Appended(bufs)
    ensures Aligned(bufs) && r.Appended? ==> Aligned(r.buffers)
  {
    match input
    case NoData => Appended(bufs)
    case DecodeError => Appended(bufs)
    case Decoded(text) =>
      match Fields(text)
      case None => Appended(bufs)
      case Some(fields) =>
        AppendFramePreserves(bufs, fields, conv);
        AppendFrame(bufs, fields, conv)
  }

  /** The channel values a poll yields when its line is accepted and fully converts. */
  function ReadingOf<V>(input: Input, conv: string -> Option<V>): Option<seq<V>> {
    if input.Decoded? then Reading(input.text, conv) else None
  }

  /** A fully numeric accepted frame appends field c to buffer c, one value per buffer. */
  lemma AnimateAccepted<V>(bufs: seq<seq<V>>, input: Input, conv: string -> Option<V>)
    requires Bounded(bufs) && ReadingOf(input, conv).Some?
    ensures var r := Animate(bufs, input, conv);
      && r.Appended?
      && forall c | 0 <= c < Channels :: r.buffers[c] == Push(bufs[c], ReadingOf(input, conv).value[c])
  {
  }

  /**
   The buffer part of the later version's line handling is exactly this `animate`:
   same buffers afterwards, and a `ValueError` in one exactly when in the other.
   */
  lemma AgreesWithRecorder<V, T>(st: Recorder.State<V, T>, input: Input, now: T, conv: string -> Option<V>)
    requires Recorder.Valid(st)
    ensures Recorder.OnLine(st, input, now, conv).state.buffers == Animate(st.buffers, input, conv).buffers
    ensures Recorder.OnLine(st, input, now, conv).ValueError? <==> Animate(st.buffers, input, conv).Raised?
  {
  }

  /** The seven buffers at start-up, all empty. */
  function Empty<V>(): (r: seq<seq<V>>)
    ensures Bounded(r) && forall c | 0 <= c < Channels :: r[c] == []
  {
    seq(Channels, _ => [])
  }

  /** `animate` over successive polls; a `ValueError` ends the sequence. */
  function AnimateAll<V>(bufs: seq<seq<V>>, inputs: seq<Input>, conv: string -> Option<V>): (r: Appended<V>)
    requires Bounded(bufs)
    ensures Bounded(r.buffers)
    decreases |inputs|
  {
    if inputs == [] then
      Appended(bufs)
    else
      match Animate(bufs, inputs[0], conv)
      case Raised(b, k) => Raised(b, k)
      case Appended(b) => AnimateAll(b, inputs[1..], conv)
  }

  /** What one poll adds to the history of channel c: its value if the line is accepted and fully numeric, else nothing. */
  function Contribution<V>(input: Input, conv: string -> Option<V>, c: nat): seq<V> {
    var head := ReadingOf(input, conv);
    if head.Some? && c < |head.value| then [head.value[c]] else []
  }

  /** Reference definition: the values of channel c carried by the accepted, fully numeric lines, in arrival order. */
  function History<V>(inputs: seq<Input>, conv: string -> Option<V>, c: nat): seq<V>
    decreases |inputs|
  {
    if inputs == [] then [] else Contribution(inputs[0], conv, c) + History(inputs[1..], conv, c)
  }

  /** One poll moves every buffer's window forward by that poll's contribution. */
  lemma AnimateWindow<V>(bufs: seq<seq<V>>, hs: seq<seq<V>>, input: Input, conv: string -> Option<V>)
    requires Bounded(bufs) && |hs| == Channels
    requires forall c | 0 <= c < Channels :: bufs[c] == Window(hs[c])
    ensures var r := Animate(bufs, input, conv);
      r.Appended? ==> forall c | 0 <= c < Channels :: r.buffers[c] == Window(hs[c] + Contribution(input, conv, c))
  {
    var r := Animate(bufs, input, conv);
    if r.Appended? {
      forall c | 0 <= c < Channels
        ensures r.buffers[c] == Window(hs[c] + Contribution(input, conv, c))
      {
        var head := ReadingOf(input, conv);
        if head.Some? {
          AnimateAccepted(bufs, input, conv);
          PushWindow(hs[c], head.value[c]);
        } else {
          LineWithoutReading(bufs, input, conv);
          assert hs[c] + [] == hs[c];
        }
      }
    }
  }

  /** Starting from buffers that are the windows of some histories, they stay the windows of the extended histories. */
  lemma {:induction false} AnimateAllWindow<V>(bufs: seq<seq<V>>, hs: seq<seq<V>>, inputs: seq<Input>, conv: string -> Option<V>)
    requires Bounded(bufs) && |hs| == Channels
    requires forall c | 0 <= c < Channels :: bufs[c] == Window(hs[c])
    ensures var r := AnimateAll(bufs, inputs, conv);
      r.Appended? ==> forall c | 0 <= c < Channels :: r.buffers[c] == Window(hs[c] + History(inputs, conv, c))
    decreases |inputs|
  {
    if inputs != [] {
      var step := Animate(bufs, inputs[0], conv);
      if step.Appended? {
        AnimateWindow(bufs, hs, inputs[0], conv);
        var hs' := Extend(hs, inputs[0], conv);
        AnimateAllWindow(step.buffers, hs', inputs[1..], conv);
        HistoryCons(hs, inputs, conv);
      }
    }
  }

  /** Every history extended by what one poll contributes to its channel. */
  function Extend<V>(hs: seq<seq<V>>, input: Input, conv: string -> Option<V>): (r: seq<seq<V>>)
    requires |hs| == Channels
    ensures |r| == Channels && forall c | 0 <= c < Channels :: r[c] == hs[c] + Contribution(input, conv, c)
  {
    seq(Channels, c requires 0 <= c < Channels => hs[c] + Contribution(input, conv, c))
  }

  /** Extending by the first poll and then by the rest is extending by the whole history. */
  lemma HistoryCons<V>(hs: seq<seq<V>>, inputs: seq<Input>, conv: string -> Option<V>)
    requires |hs| == Channels && inputs != []
    ensures forall c | 0 <= c < Channels :: Extend(hs, inputs[0], conv)[c] + History(inputs[1..], conv, c) == hs[c] + History(inputs, conv, c)
  {
    forall c | 0 <= c < Channels
      ensures Extend(hs, inputs[0], conv)[c] + History(inputs[1..], conv, c) == hs[c] + History(inputs, conv, c)
    {
      assert hs[c] + Contribution(inputs[0], conv, c) + History(inputs[1..], conv, c) == hs[c] + (Contribution(inputs[0], conv, c) + History(inputs[1..], conv, c));
    }
  }

  /** A poll that yields no reading either changes nothing or raises. */
  lemma LineWithoutReading<V>(bufs: seq<seq<V>>, input: Input, conv: string -> Option<V>)
    requires Bounded(bufs) && ReadingOf(input, conv).None?
    ensures Animate(bufs, input, conv).Appended? ==> Animate(bufs, input, conv).buffers == bufs
  {
    if input.Decoded? && Fields(input.text).Some? {
      var fields := Fields(input.text).value;
      assert Convert(fields, conv).None?;
    }
  }

  /**
   From empty buffers, as long as no `ValueError` escapes, each buffer holds the
   most recent `MaxLength` values of its channel, oldest first.
   */
  lemma StreamKeepsRecent<V>(inputs: seq<Input>, conv: string -> Option<V>)
    ensures var r := AnimateAll(Empty(), inputs, conv);
      r.Appended? ==> forall c | 0 <= c < Channels :: r.buffers[c] == Window(History(inputs, conv, c))
  {
    var empty: seq<seq<V>> := Empty();
    EmptyWindows(empty);
    AnimateAllWindow(empty, empty, inputs, conv);
    var r := AnimateAll(empty, inputs, conv);
    if r.Appended? {
      forall c | 0 <= c < Channels
        ensures r.buffers[c] == Window(History(inputs, conv, c))
      {
        assert empty[c] == [];
        assert r.buffers[c] == Window(empty[c] + History(inputs, conv, c));
        assert empty[c] + History(inputs, conv, c) == History(inputs, conv, c);
      }
    }
  }

  /** Empty buffers are the windows of empty histories. */
  lemma EmptyWindows<V>(empty: seq<seq<V>>)
    requires |empty| == Channels && forall c | 0 <= c < Channels :: empty[c] == []
    ensures forall c | 0 <= c < Channels :: empty[c] == Window(empty[c])
  {
    forall c | 0 <= c < Channels
      ensures empty[c] == Window(empty[c])
    {
      assert |Window(empty[c])| == 0;
    }
  }

  /** The serial polls among a sequence of events of the later version, in order. */
  function Polls<T>(evs: seq<Recorder.Event<T>>): seq<Input>
    decreases |evs|
  {
    if evs == [] then []
    else (if evs[0].Line? then [evs[0].input] else []) + Polls(evs[1..])
  }

  /**
   Along any run of the later version, the buffers are those this `animate` builds
   from the same polls — the button and text-box events do not touch them — and the
   run halts on a `ValueError` exactly when this one does.
   */
  lemma {:induction false} RunBuffers<V, T>(st: Recorder.State<V, T>, evs: seq<Recorder.Event<T>>, conv: string -> Option<V>)
    requires Recorder.Valid(st)
    ensures var r := Recorder.Run(st, evs, conv);
      var a := AnimateAll(st.buffers, Polls(evs), conv);
      r.state.buffers == a.buffers && (r.halted.None? <==> a.Appended?)
    decreases |evs|
  {
    if evs != [] {
      var ev := evs[0];
      var step := Recorder.Step(st, ev, conv);
      if ev.Line? {
        AgreesWithRecorder(st, ev.input, ev.now, conv);
        assert Polls(evs) == [ev.input] + Polls(evs[1..]);
        assert Polls(evs)[0] == ev.input && Polls(evs)[1..] == Polls(evs[1..]);
        if step.Done? {
          RunBuffers(step.state, evs[1..], conv);
        }
      } else {
        assert step.Done? && step.state.buffers == st.buffers;
        assert Polls(evs) == [] + Polls(evs[1..]) == Polls(evs[1..]);
        RunBuffers(step.state, evs[1..], conv);
      }
    }
  }

  /**
   From start-up, as long as no `ValueError` escapes, each buffer of the later
   version holds the most recent `MaxLength` values of its channel over the polls
   so far, oldest first, whatever the button and text-box events in between.
   */
  lemma RecorderKeepsRecent<V, T>(filename: string, evs: seq<Recorder.Event<T>>, conv: string -> Option<V>)
    ensures var r := Recorder.Run(Recorder.Init(filename), evs, conv);
      r.halted.None? ==> forall c | 0 <= c < Channels :: r.state.buffers[c] == Window(History(Polls(evs), conv, c))
  {
    var st: Recorder.State<V, T> := Recorder.Init(filename);
    var empty: seq<seq<V>> := Empty();
    assert st.buffers == empty;
    RunBuffers(st, evs, conv);
    StreamKeepsRecent(Polls(evs), conv);
  }
}
