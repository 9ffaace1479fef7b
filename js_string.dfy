/**
 * The parts of JavaScript's string semantics the converter relies on:
 * `String.prototype.indexOf`, `String.prototype.split` with a non-empty
 * separator, and `Array.prototype.join`, over strings as sequences of characters.
 */
module JsString {
  import opened Wrappers

  /** `t` occurs in `s` starting at index `i`. */
  predicate OccursAt(s: string, t: string, i: int) {
    0 <= i && i + |t| <= |s| && s[i..i + |t|] == t
  }

  /** `t` occurs nowhere in `s`. */
  ghost predicate Free(s: string, t: string) {
    forall i :: !OccursAt(s, t, i)
  }

  /** `t` occurs in `s` at most once. */
  ghost predicate AtMostOnce(s: string, t: string) {
    forall i, j :: OccursAt(s, t, i) && OccursAt(s, t, j) ==> i == j
  }

  /** `s.indexOf(t, from)`: the first index at or after `from` where `t` occurs, if any. */
  function IndexOf(s: string, t: string, from: nat): (r: Option<nat>)
    requires from <= |s|
    decreases |s| - from
    ensures r.Some? ==> from <= r.value && OccursAt(s, t, r.value)
    ensures r.Some? ==> forall i :: from <= i < r.value ==> !OccursAt(s, t, i)
    ensures r.None? ==> forall i :: from <= i ==> !OccursAt(s, t, i)
  {
    if |s| < from + |t| then None
    else if OccursAt(s, t, from) then Some(from)
    else IndexOf(s, t, from + 1)
  }

  /**
   * `s.split(sep)` for a non-empty separator: the pieces between the
   * occurrences of `sep` found left to right without overlap.
   */
  function Split(s: string, sep: string): (pieces: seq<string>)
    requires |sep| > 0
    decreases |s|
    ensures |pieces| >= 1
  {
    match IndexOf(s, sep, 0)
    case None => [s]
    case Some(i) => [s[..i]] + Split(s[i + |sep|..], sep)
  }

  /** `pieces.join(sep)`. */
  function Join(pieces: seq<string>, sep: string): string {
    if |pieces| == 0 then ""
    else if |pieces| == 1 then pieces[0]
    else pieces[0] + sep + Join(pieces[1..], sep)
  }

  /** An occurrence in `b` is an occurrence in `a + b`, shifted by `|a|`. */
  lemma OccursShift(a: string, b: string, t: string, i: int)
    requires 0 <= i
    ensures OccursAt(b, t, i) <==> OccursAt(a + b, t, |a| + i)
  {
    if 0 <= i && i + |t| <= |b| {
      assert (a + b)[|a| + i..|a| + i + |t|] == b[i..i + |t|];
    }
  }

  /** An occurrence in `a` is an occurrence in `a + b` at the same index. */
  lemma OccursPrefix(a: string, b: string, t: string, i: int)
    requires 0 <= i && i + |t| <= |a|
    ensures OccursAt(a, t, i) <==> OccursAt(a + b, t, i)
  {
    assert (a + b)[i..i + |t|] == a[i..i + |t|];
  }

  /** Splitting and joining with the same separator gives the string back. */
  lemma {:induction false} JoinSplit(s: string, sep: string)
    requires |sep| > 0
    ensures Join(Split(s, sep), sep) == s
    decreases |s|
  {
    var r := IndexOf(s, sep, 0);
    if r.Some? {
      var i := r.value;
      var rest := s[i + |sep|..];
      var tail := Split(rest, sep);
      JoinSplit(rest, sep);
      var pieces := [s[..i]] + tail;
      assert Split(s, sep) == pieces;
      assert pieces[1..] == tail;
      assert Join(pieces, sep) == s[..i] + sep + Join(tail, sep);
      assert s[i..i + |sep|] == sep;
      assert s == s[..i] + s[i..i + |sep|] + rest;
    }
  }

  /** No piece of a split contains the separator. */
  lemma {:induction false} SplitPiecesFree(s: string, sep: string)
    requires |sep| > 0
    ensures forall k :: 0 <= k < |Split(s, sep)| ==> Free(Split(s, sep)[k], sep)
    decreases |s|
  {
    match IndexOf(s, sep, 0)
    case None =>
    case Some(i) =>
      var rest := s[i + |sep|..];
      SplitPiecesFree(rest, sep);
      forall j | OccursAt(s[..i], sep, j)
        ensures false
      {
        assert s == s[..i] + s[i..];
        OccursPrefix(s[..i], s[i..], sep, j);
      }
      assert Split(s, sep)[1..] == Split(rest, sep);
  }

  /** A suffix of a string in which `t` occurs at most once has the same property. */
  lemma AtMostOnceSuffix(a: string, b: string, t: string)
    requires AtMostOnce(a + b, t)
    ensures AtMostOnce(b, t)
  {
    forall i, j | OccursAt(b, t, i) && OccursAt(b, t, j)
      ensures i == j
    {
      OccursShift(a, b, t, i);
      OccursShift(a, b, t, j);
    }
  }

  /** When `t` occurs exactly once, at `p`, that is where `indexOf` finds it. */
  lemma IndexOfSole(s: string, t: string, p: nat)
    requires AtMostOnce(s, t) && OccursAt(s, t, p)
    ensures IndexOf(s, t, 0) == Some(p)
  {
    var r := IndexOf(s, t, 0);
    assert r.Some?;
    assert OccursAt(s, t, r.value);
  }

  /**
   * When the separator occurs exactly once, right after `lit`, the split has
   * two pieces: what precedes and what follows that occurrence.
   */
  lemma SplitAtSoleOccurrence(lit: string, sep: string, rest: string)
    requires |sep| > 0
    requires AtMostOnce(lit + sep + rest, sep)
    ensures Split(lit + sep + rest, sep) == [lit, rest]
  {
    var s := lit + sep + rest;
    assert s == (lit + sep) + rest;
    assert s[|lit|..|lit| + |sep|] == sep;
    IndexOfSole(s, sep, |lit|);
    assert s[|lit| + |sep|..] == rest;
    assert s[..|lit|] == lit;
    RestFree(lit + sep, rest, sep);
    assert Split(rest, sep) == [rest];
  }

  /** A string that starts with the separator splits first into an empty piece. */
  lemma SplitAtStart(sep: string, rest: string)
    requires |sep| > 0
    ensures Split(sep + rest, sep) == [""] + Split(rest, sep)
  {
    var s := sep + rest;
    assert s[0..|sep|] == sep;
    assert OccursAt(s, sep, 0);
    assert s[..0] == "" && s[|sep|..] == rest;
  }

  /** A string shorter than the separator splits into itself. */
  lemma SplitShort(s: string, sep: string)
    requires 0 < |sep| && |s| < |sep|
    ensures Split(s, sep) == [s]
  {
  }

  /** A single character that does not begin the separator splits into itself. */
  lemma SplitSingleChar(c: char, sep: string)
    requires |sep| > 0 && c != sep[0]
    ensures Split([c], sep) == [[c]]
  {
    assert !OccursAt([c], sep, 0);
  }

  /** One character that does not begin the separator, then the separator: the character, then nothing. */
  lemma SplitAfterChar(c: char, sep: string)
    requires |sep| > 0 && c != sep[0]
    ensures Split([c] + sep, sep) == [[c], ""]
  {
    var s := [c] + sep;
    assert !OccursAt(s, sep, 0);
    assert s[1..1 + |sep|] == sep;
    assert OccursAt(s, sep, 1);
    assert s[..1] == [c] && s[1 + |sep|..] == "";
    SplitShort("", sep);
  }

  /** What follows the only occurrence of `t` does not contain `t`. */
  lemma RestFree(prefix: string, rest: string, t: string)
    requires |t| > 0 && |prefix| >= |t| && OccursAt(prefix, t, |prefix| - |t|)
    requires AtMostOnce(prefix + rest, t)
    ensures IndexOf(rest, t, 0).None?
  {
    var r := IndexOf(rest, t, 0);
    if r.Some? {
      OccursShift(prefix, rest, t, r.value);
      OccursPrefix(prefix, rest, t, |prefix| - |t|);
      assert false;
    }
  }

  /** The regular expression test `/^\d+$/.test(s)`: one or more ASCII digits and nothing else. */
  predicate IsDigits(s: string) {
    |s| > 0 && forall i :: 0 <= i < |s| ==> '0' <= s[i] <= '9'
  }

  /** `parseInt(s, 10)` for a string of ASCII digits: its decimal value. */
  function DecimalValue(s: string): (v: nat)
    requires IsDigits(s)
    decreases |s|
  {
    var last := (s[|s| - 1] - '0') as nat;
    if |s| == 1 then last else 10 * DecimalValue(s[..|s| - 1]) + last
  }

  /** The decimal digits of `n`, most significant first, without leading zeros. */
  function DecimalDigits(n: nat): (s: string)
    ensures IsDigits(s)
  {
    var last := ('0' as int + n % 10) as char;
    if n < 10 then [last] else DecimalDigits(n / 10) + [last]
  }

  /** Parsing the canonical decimal string of a count gives the count back. */
  lemma {:induction false} DecimalValueOfDigits(n: nat)
    ensures DecimalValue(DecimalDigits(n)) == n
  {
    if n >= 10 {
      DecimalValueOfDigits(n / 10);
      assert DecimalDigits(n)[..|DecimalDigits(n)| - 1] == DecimalDigits(n / 10);
    }
  }
}
