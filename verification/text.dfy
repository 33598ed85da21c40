/**
 The two Python string operations the frame parser relies on: `str.strip()` with
 no argument and `str.split(sep)` with a one-character separator.
 */
module Text {

  /** The characters for which Python's `str.isspace()` holds; `str.strip()` removes exactly these. */
  predicate IsSpace(c: char) {
    || c == ' '
    || ('\t' <= c <= '\r')
    || ('\U{1c}' <= c <= '\U{1f}')
    || c == '\U{85}' || c == '\U{a0}' || c == '\U{1680}'
    || ('\U{2000}' <= c <= '\U{200a}')
    || c == '\U{2028}' || c == '\U{2029}' || c == '\U{202f}' || c == '\U{205f}' || c == '\U{3000}'
  }

  /** A string made of whitespace only (the empty string included). */
  predicate Blank(s: string) {
    forall i | 0 <= i < |s| :: IsSpace(s[i])
  }

  /**
   Python's `s.strip()`: the part of `s` between its leading and its trailing
   whitespace. It is empty exactly when `s` is blank, and otherwise begins and
   ends with a non-space character.
   */
  function Strip(s: string): (r: string)
    ensures |r| <= |s|
    ensures r == [] <==> Blank(s)
    ensures r != [] ==> !IsSpace(r[0]) && !IsSpace(r[|r| - 1])
    decreases |s|
  {
    if |s| > 0 && IsSpace(s[0]) then
      var r := Strip(s[1..]);
      assert Blank(s[1..]) ==> Blank(s) by {
        if Blank(s[1..]) {
          assert forall i | 1 <= i < |s| :: s[i] == s[1..][i - 1];
        }
      }
      r
    else if |s| > 0 && IsSpace(s[|s| - 1]) then
      Strip(s[..|s| - 1])
    else
      s
  }

  /** Number of leading whitespace characters. */
  function Lead(s: string): (n: nat)
    ensures n <= |s|
    decreases |s|
  {
    if |s| > 0 && IsSpace(s[0]) then 1 + Lead(s[1..]) else 0
  }

  /** The stripped string is the infix of `s` after its leading whitespace, and only whitespace surrounds it. */
  lemma {:induction false} StripShape(s: string)
    ensures Lead(s) + |Strip(s)| <= |s|
    ensures Strip(s) == s[Lead(s)..Lead(s) + |Strip(s)|]
    ensures Blank(s[..Lead(s)]) && Blank(s[Lead(s) + |Strip(s)|..])
    decreases |s|, 1
  {
    if |s| > 0 && IsSpace(s[0]) {
      StripShapeLeading(s);
    } else if |s| > 0 && IsSpace(s[|s| - 1]) {
      StripShapeTrailing(s);
    } else {
      assert s[..0] == [] && s[|s|..] == [];
    }
  }

  lemma {:induction false} StripShapeLeading(s: string)
    requires |s| > 0 && IsSpace(s[0])
    ensures Lead(s) + |Strip(s)| <= |s|
    ensures Strip(s) == s[Lead(s)..Lead(s) + |Strip(s)|]
    ensures Blank(s[..Lead(s)]) && Blank(s[Lead(s) + |Strip(s)|..])
    decreases |s|, 0
  {
    var t := s[1..];
    StripShape(t);
    var l, r := Lead(t), Strip(t);
    assert Lead(s) == l + 1 && Strip(s) == r;
    SliceShift(s, l, |r|);
    PrefixShift(s, l);
    BlankCons(s[0], t[..l]);
  }

  /** A prefix of `s` is its first character followed by the matching prefix of `s[1..]`. */
  lemma PrefixShift(s: string, l: nat)
    requires l < |s|
    ensures s[..l + 1] == [s[0]] + s[1..][..l]
  {
    var a, b := s[..l + 1], [s[0]] + s[1..][..l];
    assert forall i | 0 < i < l + 1 :: a[i] == s[i] == b[i];
  }

  /** Slices of `s[1..]` are the slices of `s` shifted by one. */
  lemma SliceShift(s: string, l: nat, n: nat)
    requires |s| > 0 && l + n <= |s| - 1
    ensures s[l + 1..l + 1 + n] == s[1..][l..l + n]
    ensures s[l + 1 + n..] == s[1..][l + n..]
  {
    var a, b := s[l + 1..l + 1 + n], s[1..][l..l + n];
    assert forall i | 0 <= i < n :: a[i] == s[l + 1 + i] == b[i];
  }

  lemma {:induction false} StripShapeTrailing(s: string)
    requires |s| > 0 && !IsSpace(s[0]) && IsSpace(s[|s| - 1])
    ensures Lead(s) + |Strip(s)| <= |s|
    ensures Strip(s) == s[Lead(s)..Lead(s) + |Strip(s)|]
    ensures Blank(s[..Lead(s)]) && Blank(s[Lead(s) + |Strip(s)|..])
    decreases |s|, 0
  {
    var t := s[..|s| - 1];
    StripShape(t);
    var r := Strip(t);
    assert Lead(s) == 0 && Lead(t) == 0 && Strip(s) == r;
    assert s[..|r|] == t[..|r|];
    assert s[|r|..] == t[|r|..] + [s[|s| - 1]];
    BlankSnoc(t[|r|..], s[|s| - 1]);
  }

  lemma BlankCons(c: char, t: string)
    requires IsSpace(c) && Blank(t)
    ensures Blank([c] + t)
  {
    assert forall i | 1 <= i < |t| + 1 :: ([c] + t)[i] == t[i - 1];
  }

  lemma BlankSnoc(t: string, c: char)
    requires IsSpace(c) && Blank(t)
    ensures Blank(t + [c])
  {
    assert forall i | 0 <= i < |t| :: (t + [c])[i] == t[i];
  }

  /** Python's `s.split(sep)`: the maximal separator-free pieces of `s`, in order; there is always at least one. */
  function Split(s: string, sep: char): (r: seq<string>)
    ensures |r| >= 1
    ensures forall i | 0 <= i < |r| :: sep !in r[i]
    decreases |s|
  {
    if |s| == 0 then
      [""]
    else
      var rest := Split(s[1..], sep);
      if s[0] == sep then [""] + rest
      else [[s[0]] + rest[0]] + rest[1..]
  }

  /** Python's `sep.join(parts)` for a non-empty list of parts. */
  function Join(parts: seq<string>, sep: char): string
    requires |parts| >= 1
    decreases |parts|
  {
    if |parts| == 1 then parts[0]
    else parts[0] + [sep] + Join(parts[1..], sep)
  }

  /** Joining the pieces of a split with the same separator gives back the original string. */
  lemma {:induction false} JoinSplit(s: string, sep: char)
    ensures Join(Split(s, sep), sep) == s
    decreases |s|
  {
    if |s| > 0 {
      var rest := Split(s[1..], sep);
      JoinSplit(s[1..], sep);
      if s[0] == sep {
        assert ([""] + rest)[1..] == rest;
      } else {
        var r := [[s[0]] + rest[0]] + rest[1..];
        if |rest| > 1 {
          assert r[1..] == rest[1..];
          assert Join(rest, sep) == rest[0] + [sep] + Join(rest[1..], sep);
        }
      }
    }
  }

  /** A string without separator splits into itself alone. */
  lemma {:induction false} SplitNoSeparator(a: string, sep: char)
    requires sep !in a
    ensures Split(a, sep) == [a]
    decreases |a|
  {
    if |a| > 0 {
      SplitNoSeparator(a[1..], sep);
      assert [a[0]] + a[1..] == a;
    }
  }

  /** A separator-free head followed by the separator splits off as one piece. */
  lemma {:induction false} SplitAfterHead(a: string, sep: char, t: string)
    requires sep !in a
    ensures Split(a + [sep] + t, sep) == [a] + Split(t, sep)
    decreases |a|
  {
    var s := a + [sep] + t;
    if |a| == 0 {
      assert s[1..] == t;
    } else {
      assert s[1..] == a[1..] + [sep] + t;
      SplitAfterHead(a[1..], sep, t);
      assert [a[0]] + a[1..] == a;
    }
  }

  /** Splitting a join of separator-free pieces recovers exactly those pieces. */
  lemma {:induction false} SplitJoin(parts: seq<string>, sep: char)
    requires |parts| >= 1
    requires forall i | 0 <= i < |parts| :: sep !in parts[i]
    ensures Split(Join(parts, sep), sep) == parts
    decreases |parts|
  {
    if |parts| == 1 {
      SplitNoSeparator(parts[0], sep);
    } else {
      SplitJoin(parts[1..], sep);
      SplitAfterHead(parts[0], sep, Join(parts[1..], sep));
      assert [parts[0]] + parts[1..] == parts;
    }
  }
}
