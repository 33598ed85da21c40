/**
 The seven `deque(maxlen=100)` rolling buffers, one per channel, and the
 sequential per-channel appends of an accepted frame. A field that `float()`
 rejects raises an uncaught `ValueError` after the earlier channels were
 already appended; the model returns that partial state with the failing channel.
 */
module Rolling {
  import opened Wrappers

  /** Capacity of every rolling buffer (`max_length`). */
  const MaxLength: nat := 100

  /** Number of channels: acc_x, acc_y, acc_z, gyro_x, gyro_y, gyro_z, temp, in this order. */
  const Channels: nat := 7

  function Min(a: nat, b: nat): nat {
    if a <= b then a else b
  }

  /**
   `deque.append` on a deque with `maxlen=MaxLength`: the result holds the most
   recent values of `buf + [x]`, as many as fit, in arrival order, and ends with `x`.
   */
  function Push<V>(buf: seq<V>, x: V): (r: seq<V>)
    ensures |r| == Min(|buf| + 1, MaxLength)
    ensures r == (buf + [x])[|buf| + 1 - |r|..]
    ensures r[|r| - 1] == x
  {
    var s := buf + [x];
    if |s| <= MaxLength then s else s[|s| - MaxLength..]
  }

  /** Appending to a full buffer drops its oldest value. */
  lemma PushFull<V>(buf: seq<V>, x: V)
    requires |buf| == MaxLength
    ensures Push(buf, x) == buf[1..] + [x]
  {
    assert (buf + [x])[1..] == buf[1..] + [x];
  }

  /** Appending to a buffer with room keeps everything. */
  lemma PushRoom<V>(buf: seq<V>, x: V)
    requires |buf| < MaxLength
    ensures Push(buf, x) == buf + [x]
  {
  }

  /** Reference definition: the last `MaxLength` values of a history (all of it when shorter). */
  function Window<V>(history: seq<V>): (r: seq<V>)
    ensures |r| == Min(|history|, MaxLength)
  {
    history[|history| - Min(|history|, MaxLength)..]
  }

  /** Appending the values `xs` one by one. */
  function Feed<V>(buf: seq<V>, xs: seq<V>): seq<V>
    decreases |xs|
  {
    if xs == [] then buf else Feed(Push(buf, xs[0]), xs[1..])
  }

  /** One append moves the window of a history forward by one value. */
  lemma PushWindow<V>(history: seq<V>, x: V)
    ensures Push(Window(history), x) == Window(history + [x])
  {
    var w := Window(history);
    var h := history + [x];
    var r := Push(w, x);
    assert |r| == |Window(h)|;
    forall k | 0 <= k < |r|
      ensures r[k] == Window(h)[k]
    {
      var off := |w| + 1 - |r|;
      assert r[k] == (w + [x])[off + k];
      if off + k < |w| {
        assert w[off + k] == history[|history| - |w| + off + k];
      }
    }
  }

  /**
   Whatever the starting history, feeding more values leaves in the buffer
   exactly the most recent `MaxLength` values of the whole history, oldest first.
   */
  lemma {:induction false} FeedWindow<V>(history: seq<V>, xs: seq<V>)
    ensures Feed(Window(history), xs) == Window(history + xs)
    decreases |xs|
  {
    if xs != [] {
      var h' := history + [xs[0]];
      calc {
        Feed(Window(history), xs);
        Feed(Push(Window(history), xs[0]), xs[1..]);
        { PushWindow(history, xs[0]); }
        Feed(Window(h'), xs[1..]);
        { FeedWindow(h', xs[1..]); }
        Window(h' + xs[1..]);
        { assert h' + xs[1..] == history + xs; }
        Window(history + xs);
      }
    }
  }

  /** From an empty buffer, the buffer after any stream is the window of that stream. */
  lemma FeedFromEmpty<V>(xs: seq<V>)
    ensures Feed([], xs) == Window(xs)
    ensures |Feed([], xs)| <= MaxLength
  {
    FeedWindow([], xs);
    assert [] + xs == xs;
  }

  /** Seven buffers, none above capacity. */
  predicate Bounded<V>(bufs: seq<seq<V>>) {
    |bufs| == Channels && forall c | 0 <= c < |bufs| :: |bufs[c]| <= MaxLength
  }

  /** All buffers have the same length. */
  predicate Aligned<V>(bufs: seq<seq<V>>) {
    forall c, d | 0 <= c < |bufs| && 0 <= d < |bufs| :: |bufs[c]| == |bufs[d]|
  }

  /** Outcome of appending one frame: all channels appended, or a `ValueError` raised at `channel`. */
  datatype Appended<V> = Appended(buffers: seq<seq<V>>) | Raised(buffers: seq<seq<V>>, channel: nat)

  /**
   The channel at which `float()` first fails, scanning the fields from `k` in
   order, or `|fields|` when every remaining field converts.
   */
  function FirstBad<V>(fields: seq<string>, conv: string -> Option<V>, k: nat): (n: nat)
    requires k <= |fields|
    ensures k <= n <= |fields|
    ensures forall c | k <= c < n :: conv(fields[c]).Some?
    ensures n < |fields| ==> conv(fields[n]).None?
    decreases |fields| - k
  {
    if k == |fields| || conv(fields[k]).None? then k else FirstBad(fields, conv, k + 1)
  }

  /**
   The seven appends `buffers[c].append(float(fields[c]))`, channel 0 first. Each
   conversion runs before its append, so the first field that does not convert
   stops the sequence: the channels before it have gained their own field's value,
   it and the later ones are untouched. When every field converts, every channel
   gains its value.
   */
  function AppendFrame<V>(bufs: seq<seq<V>>, fields: seq<string>, conv: string -> Option<V>): (r: Appended<V>)
    requires |fields| == |bufs|
    ensures |r.buffers| == |bufs|
    ensures r.Appended? <==> forall c | 0 <= c < |bufs| :: conv(fields[c]).Some?
    ensures r.Appended? ==> forall c | 0 <= c < |bufs| :: r.buffers[c] == Push(bufs[c], conv(fields[c]).value)
    ensures r.Raised? ==>
      && r.channel < |bufs|
      && conv(fields[r.channel]).None?
      && (forall c | 0 <= c < r.channel :: conv(fields[c]).Some? && r.buffers[c] == Push(bufs[c], conv(fields[c]).value))
      && (forall c | r.channel <= c < |bufs| :: r.buffers[c] == bufs[c])
  {
    var n := FirstBad(fields, conv, 0);
    var after := seq(|bufs|, c requires 0 <= c < |bufs| => if c < n then Push(bufs[c], conv(fields[c]).value) else bufs[c]);
    if n == |bufs| then Appended(after) else Raised(after, n)
  }

  /** A completed append keeps every buffer within capacity and keeps aligned buffers aligned. */
  lemma AppendFramePreserves<V>(bufs: seq<seq<V>>, fields: seq<string>, conv: string -> Option<V>)
    requires Bounded(bufs) && |fields| == Channels
    ensures Bounded(AppendFrame(bufs, fields, conv).buffers)
    ensures AppendFrame(bufs, fields, conv).Appended? && Aligned(bufs) ==> Aligned(AppendFrame(bufs, fields, conv).buffers)
  {
    var r := AppendFrame(bufs, fields, conv);
    forall c | 0 <= c < Channels
      ensures |r.buffers[c]| <= MaxLength
      ensures r.Appended? ==> |r.buffers[c]| == Min(|bufs[c]| + 1, MaxLength)
    {
      if r.Appended? || c < r.channel {
        assert r.buffers[c] == Push(bufs[c], conv(fields[c]).value);
      } else {
        assert r.buffers[c] == bufs[c];
      }
    }
  }

  /**
   A `ValueError` (some field `bad` does not convert) at a channel other than the first, while the buffers are not yet
   full, leaves them misaligned: the earlier channels are one value longer.
   */
  lemma RaisedMisaligns<V>(bufs: seq<seq<V>>, fields: seq<string>, conv: string -> Option<V>, bad: nat)
    requires Bounded(bufs) && Aligned(bufs) && |fields| == Channels
    requires |bufs[0]| < MaxLength
    requires conv(fields[0]).Some?
    requires bad < Channels && conv(fields[bad]).None?
    ensures AppendFrame(bufs, fields, conv).Raised?
    ensures !Aligned(AppendFrame(bufs, fields, conv).buffers)
  {
    var k := RaisedPast(bufs, fields, conv, bad);
    Misaligned(bufs, AppendFrame(bufs, fields, conv).buffers, k);
  }

  /** When channel 0 converts and a later field does not, the append raises past channel 0, having pushed channel 0 only up to there. */
  lemma RaisedPast<V>(bufs: seq<seq<V>>, fields: seq<string>, conv: string -> Option<V>, bad: nat) returns (k: nat)
    requires |bufs| == Channels && |fields| == Channels && |bufs[0]| < MaxLength
    requires conv(fields[0]).Some? && bad < Channels && conv(fields[bad]).None?
    ensures var r := AppendFrame(bufs, fields, conv);
      && r.Raised? && k == r.channel && 0 < k < Channels
      && |r.buffers| == Channels && |r.buffers[0]| == |bufs[0]| + 1 && r.buffers[k] == bufs[k]
  {
    var r := AppendFrame(bufs, fields, conv);
    assert !(forall c | 0 <= c < Channels :: conv(fields[c]).Some?) by {
      assert conv(fields[bad]).None?;
    }
    assert r.Raised?;
    k := r.channel;
    assert k != 0 by {
      assert conv(fields[k]).None?;
    }
    assert r.buffers[0] == Push(bufs[0], conv(fields[0]).value);
    assert |r.buffers[0]| == Min(|bufs[0]| + 1, MaxLength);
  }

  /** A buffer that grew beside one that did not, where both had the same length, breaks alignment. */
  lemma Misaligned<V>(before: seq<seq<V>>, after: seq<seq<V>>, k: nat)
    requires |after| == |before| && 0 < k < |before|
    requires Aligned(before) && |before[0]| < MaxLength
    requires |after[0]| == |before[0]| + 1 && |after[k]| == |before[k]|
    ensures !Aligned(after)
  {
    assert |after[k]| == |before[0]|;
  }
}
