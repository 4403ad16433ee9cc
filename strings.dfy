/** The JavaScript string operations that `basicAuthentication` relies on. */
module Strings {
  import opened Basics

  /** `s.indexOf(c)`: the position of the first `c` in `s`, or None where JavaScript gives -1. */
  function IndexOf(s: string, c: char): (r: Option<nat>)
    ensures r.None? <==> c !in s
    ensures r.Some? ==> r.value < |s| && s[r.value] == c && c !in s[..r.value]
  {
    if s == [] then None
    else if s[0] == c then Some(0)
    else match IndexOf(s[1..], c)
      case None => None
      case Some(i) =>
        assert s[..i + 1] == [s[0]] + s[1..][..i];
        Some(i + 1)
  }

  /** `s.split(sep)` for a one-character separator and no limit: the text between consecutive
      separators, empty fields included, so the result is never empty. */
  function Split(s: string, sep: char): (fields: seq<string>)
    ensures |fields| >= 1
    ensures forall k :: 0 <= k < |fields| ==> sep !in fields[k]
    decreases |s|
  {
    match IndexOf(s, sep)
    case None => [s]
    case Some(i) => [s[..i]] + Split(s[i + 1..], sep)
  }

  /** `fields.join(sep)`: the reference that `Split` inverts. */
  function Join(fields: seq<string>, sep: char): string
    requires |fields| >= 1
    decreases |fields|
  {
    if |fields| == 1 then fields[0] else fields[0] + [sep] + Join(fields[1..], sep)
  }

  /** Joining the fields of a split gives back the original text. */
  lemma {:induction false} JoinSplit(s: string, sep: char)
    ensures Join(Split(s, sep), sep) == s
    decreases |s|
  {
    match IndexOf(s, sep)
    case None =>
    case Some(i) =>
      var fields := Split(s, sep);
      assert fields == [s[..i]] + Split(s[i + 1..], sep);
      assert fields[1..] == Split(s[i + 1..], sep);
      JoinSplit(s[i + 1..], sep);
      calc {
        Join(fields, sep);
        s[..i] + [sep] + Join(Split(s[i + 1..], sep), sep);
        s[..i] + [sep] + s[i + 1..];
        s;
      }
  }

  /** Splitting a join of separator-free fields gives back exactly those fields. */
  lemma {:induction false} SplitJoin(fields: seq<string>, sep: char)
    requires |fields| >= 1
    requires forall k :: 0 <= k < |fields| ==> sep !in fields[k]
    ensures Split(Join(fields, sep), sep) == fields
    decreases |fields|
  {
    if |fields| > 1 {
      var s := Join(fields, sep);
      var head, tail := fields[0], Join(fields[1..], sep);
      assert s == head + [sep] + tail;
      assert s[..|head|] == head && s[|head|] == sep;
      assert s[|head| + 1..] == tail;
      IndexOfFirst(s, sep, |head|);
      assert Split(s, sep) == [head] + Split(tail, sep);
      SplitJoin(fields[1..], sep);
      assert fields == [head] + fields[1..];
    }
  }

  lemma {:induction false} JoinAppend(a: seq<string>, b: seq<string>, sep: char)
    requires |a| >= 1 && |b| >= 1
    ensures Join(a + b, sep) == Join(a, sep) + [sep] + Join(b, sep)
    decreases |a|
  {
    if |a| == 1 {
      assert (a + b)[1..] == b;
    } else {
      assert (a + b)[1..] == a[1..] + b;
      JoinAppend(a[1..], b, sep);
    }
  }

  /** A separator between two texts splits them independently: the fields of `s` come first,
      unchanged by whatever follows the separator. */
  lemma SplitAppend(s: string, t: string, sep: char)
    ensures Split(s + [sep] + t, sep) == Split(s, sep) + Split(t, sep)
  {
    var a, b := Split(s, sep), Split(t, sep);
    JoinSplit(s, sep);
    JoinSplit(t, sep);
    JoinAppend(a, b, sep);
    SplitJoin(a + b, sep);
  }

  /** A position holding `c` with no `c` before it is the one `IndexOf` finds. */
  lemma IndexOfFirst(s: string, c: char, i: nat)
    requires i < |s| && s[i] == c && c !in s[..i]
    ensures IndexOf(s, c) == Some(i)
  {
    assert s[..i + 1][i] == c;
    var j := IndexOf(s, c).value;
    forall k | 0 <= k < i ensures s[k] != c {
      assert s[..i][k] == s[k];
    }
    forall k | 0 <= k < j ensures s[k] != c {
      assert s[..j][k] == s[k];
    }
  }

  /** A text without the separator is a single field. */
  lemma SplitWithoutSeparator(s: string, sep: char)
    requires sep !in s
    ensures Split(s, sep) == [s]
  {
  }

  /** A character that the pattern `[\0-\x1F\x7F]` matches. */
  predicate IsControl(c: char) {
    c as int <= 0x1F || c as int == 0x7F
  }

  /** The regular-expression test `/[\0-\x1F\x7F]/.test(s)`. */
  predicate HasControl(s: string): (h: bool)
    ensures h ==> |s| > 0
    ensures !h <==> forall i :: 0 <= i < |s| ==> 0x20 <= s[i] as int && s[i] as int != 0x7F
  {
    exists i :: 0 <= i < |s| && IsControl(s[i])
  }

  /** A concatenation has a control character iff one of its parts has. */
  lemma HasControlConcat(a: string, b: string)
    ensures HasControl(a + b) <==> HasControl(a) || HasControl(b)
  {
    if HasControl(a + b) {
      var i :| 0 <= i < |a + b| && IsControl((a + b)[i]);
      if i >= |a| {
        assert b[i - |a|] == (a + b)[i];
      }
    }
    if HasControl(a) {
      var j :| 0 <= j < |a| && IsControl(a[j]);
      assert (a + b)[j] == a[j];
    }
    if HasControl(b) {
      var j :| 0 <= j < |b| && IsControl(b[j]);
      assert (a + b)[|a| + j] == b[j];
    }
  }

  /** Every code point of `s` is below U+0100, as in the strings `atob` returns. */
  predicate IsLatin1(s: string) {
    forall i :: 0 <= i < |s| ==> s[i] as int < 0x100
  }
}
