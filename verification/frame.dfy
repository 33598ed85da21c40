/**
 Frame validation of the line-handling branch of `animate`: a decoded line is
 stripped, split on commas, and accepted only as exactly seven fields that are
 each non-blank. Whether the fields are numeric is not checked here; the float
 conversion that follows is the abstract partial function `conv`.
 */
module Frame {
  import opened Wrappers
  import opened Text

  /** Number of fields in a frame, one per channel. */
  const Arity: nat := 7

  /** Field separator on the wire. */
  const Delimiter: char := ','

  /** What one poll of the serial link yields: nothing waiting, a line that is not UTF-8, or its decoded text. */
  datatype Input = NoData | DecodeError | Decoded(text: string)

  /**
   `decoded_line.split(",")` of the stripped line, accepted when it has exactly
   seven fields none of which is empty after stripping; `None` is a rejected
   line (wrong field count or a blank field).
   */
  function Fields(text: string): (r: Option<seq<string>>)
    ensures r.Some? ==> |r.value| == Arity && forall i | 0 <= i < |r.value| :: Delimiter !in r.value[i]
  {
    var data := Split(Strip(text), Delimiter);
    if |data| == Arity && forall i | 0 <= i < |data| :: Strip(data[i]) != [] then Some(data) else None
  }

  /**
   The fields of an accepted frame are seven comma-free, non-blank strings that,
   joined by commas, make up the stripped line.
   */
  lemma FieldsSound(text: string)
    ensures Fields(text).Some? ==>
      var fs := Fields(text).value;
      && |fs| == Arity
      && Join(fs, Delimiter) == Strip(text)
      && forall i | 0 <= i < |fs| :: Delimiter !in fs[i] && !Blank(fs[i])
  {
    JoinSplit(Strip(text), Delimiter);
    if Fields(text).Some? {
      FilledNotBlank(Fields(text).value);
    }
  }

  /** Fields that are non-empty after stripping are exactly the non-blank ones. */
  lemma FilledNotBlank(data: seq<string>)
    requires forall i | 0 <= i < |data| :: Strip(data[i]) != []
    ensures forall i | 0 <= i < |data| :: !Blank(data[i])
  {
    forall i | 0 <= i < |data|
      ensures !Blank(data[i])
    {
      var d := data[i];
      assert Strip(d) != [];
    }
  }

  /** Conversely, any seven comma-free, non-blank fields that make up the stripped line are accepted. */
  lemma FieldsComplete(text: string, fs: seq<string>)
    requires |fs| == Arity
    requires forall i | 0 <= i < |fs| :: Delimiter !in fs[i] && !Blank(fs[i])
    requires Join(fs, Delimiter) == Strip(text)
    ensures Fields(text) == Some(fs)
  {
    SplitJoin(fs, Delimiter);
  }

  /** A stripped line that splits into any other number of fields is rejected. */
  lemma FieldsWrongCount(text: string)
    requires |Split(Strip(text), Delimiter)| != Arity
    ensures Fields(text).None?
  {
  }

  /** `conv` applied to every field, or `None` when some field does not convert. */
  function Convert<V>(fields: seq<string>, conv: string -> Option<V>): (r: Option<seq<V>>)
    ensures r.Some? <==> forall i | 0 <= i < |fields| :: conv(fields[i]).Some?
    ensures r.Some? ==> |r.value| == |fields| && forall i | 0 <= i < |fields| :: r.value[i] == conv(fields[i]).value
  {
    if forall i | 0 <= i < |fields| :: conv(fields[i]).Some? then
      Some(seq(|fields|, i requires 0 <= i < |fields| => conv(fields[i]).value))
    else
      None
  }

  /** The seven channel values of a line whose frame is accepted and whose every field converts. */
  function Reading<V>(text: string, conv: string -> Option<V>): Option<seq<V>>
  {
    match Fields(text)
    case None => None
    case Some(fs) => Convert(fs, conv)
  }
}
