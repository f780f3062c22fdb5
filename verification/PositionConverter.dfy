/** Converting offsets in a text to lines and columns. */
module PositionConverter {
  import opened Options
  import opened Locations

  newtype CodeUnit = x: int | 0 <= x < 0x1_0000

  const LINE_FEED: CodeUnit := 0x0a
  const CARRIAGE_RETURN: CodeUnit := 0x0d
  const MAX_ASCII_CHARACTER: CodeUnit := 0x7f
  const LINE_SEPARATOR: CodeUnit := 0x2028
  const PARAGRAPH_SEPARATOR: CodeUnit := 0x2029

  type Text = seq<CodeUnit>

  /** The line terminators of section 7.3 of ECMA-262, edition 5.1. */
  predicate IsLineBreak(ch: CodeUnit) {
    ch == LINE_FEED || ch == CARRIAGE_RETURN || ch == LINE_SEPARATOR || ch == PARAGRAPH_SEPARATOR
  }

  /** A line starts at the beginning and after every line terminator; CR LF is one terminator. */
  predicate IsLineStart(text: Text, i: int) {
    i == 0
    || (0 < i <= |text|
        && IsLineBreak(text[i - 1])
        && !(text[i - 1] == CARRIAGE_RETURN && i < |text| && text[i] == LINE_FEED))
  }

  ghost predicate StrictlyIncreasing(s: seq<int>) {
    forall i, j :: 0 <= i < j < |s| ==> s[i] < s[j]
  }

  /** The line starts of a text, in order. */
  ghost predicate AreLineStarts(text: Text, starts: seq<int>) {
    && StrictlyIncreasing(starts)
    && (forall i :: i in starts <==> IsLineStart(text, i))
  }

  method ComputeLineStarts(text: Text) returns (result: seq<int>)
    ensures AreLineStarts(text, result) && |result| > 0 && result[0] == 0
  {
    result := [];
    var pos, lineStart := 0, 0;
    while pos < |text|
      invariant 0 <= lineStart <= pos <= |text|
      invariant StrictlyIncreasing(result + [lineStart]) && (result + [lineStart])[0] == 0
      invariant forall i :: i in result + [lineStart] <==> i <= pos && IsLineStart(text, i)
      invariant pos > 0 && text[pos - 1] == CARRIAGE_RETURN && pos < |text| ==> text[pos] != LINE_FEED
    {
      var ch := text[pos];
      ghost var from := pos;
      ghost var before := result + [lineStart];
      assert forall k :: 0 <= k < |before| ==> before[k] in before;
      pos := pos + 1;
      if ch == CARRIAGE_RETURN && pos < |text| && text[pos] == LINE_FEED {
        pos := pos + 1;
      }
      if ch == CARRIAGE_RETURN || ch == LINE_FEED || (ch > MAX_ASCII_CHARACTER && IsLineBreak(ch)) {
        result := result + [lineStart];
        lineStart := pos;
        assert result == before;
      }
      assert forall i :: from < i < pos ==> !IsLineStart(text, i);
    }
    result := result + [lineStart];
  }

  /** Only one list holds the line starts of a text. */
  lemma LineStartsAreUnique(text: Text, a: seq<int>, b: seq<int>)
    requires AreLineStarts(text, a) && AreLineStarts(text, b)
    ensures a == b
  {
    SameSorted(a, b);
  }

  lemma {:induction false} SameSorted(a: seq<int>, b: seq<int>)
    requires StrictlyIncreasing(a) && StrictlyIncreasing(b) && forall i :: i in a <==> i in b
    ensures a == b
    decreases |a|
  {
    assert a == [] || a[|a| - 1] in a;
    assert b == [] || b[|b| - 1] in b;
    if a != [] {
      var x, y := a[|a| - 1], b[|b| - 1];
      LastIsGreatest(a, y);
      LastIsGreatest(b, x);
      WithoutLast(a);
      WithoutLast(b);
      var c, d := a[..|a| - 1], b[..|b| - 1];
      forall i
        ensures i in c <==> i in d
      {
        assert i in a <==> i in b;
      }
      SameSorted(c, d);
      assert a == c + [x] && b == d + [y];
    }
  }

  lemma LastIsGreatest(s: seq<int>, x: int)
    requires StrictlyIncreasing(s) && x in s
    ensures x <= s[|s| - 1]
  {
  }

  lemma WithoutLast(s: seq<int>)
    requires StrictlyIncreasing(s) && s != []
    ensures StrictlyIncreasing(s[..|s| - 1]) && forall i :: i in s[..|s| - 1] <==> i in s && i != s[|s| - 1]
  {
    assert s == s[..|s| - 1] + [s[|s| - 1]];
  }

  /** The index of the value, or the complement of the index at which it would be inserted. */
  method BinarySearch(array_: seq<int>, value: int) returns (index: int)
    requires StrictlyIncreasing(array_)
    ensures index >= 0 ==> index < |array_| && array_[index] == value
    ensures index < 0 ==>
      var low := -index - 1;
      && low <= |array_|
      && (forall i :: 0 <= i < low ==> array_[i] < value)
      && (forall i :: low <= i < |array_| ==> array_[i] > value)
  {
    if |array_| == 0 {
      return -1;
    }
    var low, high := 0, |array_| - 1;
    while low <= high
      invariant 0 <= low <= high + 1 <= |array_|
      invariant forall i :: 0 <= i < low ==> array_[i] < value
      invariant forall i :: high < i < |array_| ==> array_[i] > value
      decreases high - low + 1
    {
      var middle := low + (high - low) / 2;
      if array_[middle] < value {
        low := middle + 1;
      } else if array_[middle] > value {
        high := middle - 1;
      } else {
        return middle;
      }
    }
    return -low - 1;
  }

  /** The line is the last one that starts at or before the offset. */
  ghost predicate IsPositionOf(text: Text, starts: seq<int>, offset: int, p: Position) {
    && AreLineStarts(text, starts)
    && 0 <= p.line < |starts|
    && starts[p.line] + p.column == offset && p.column >= 0
    && (p.line + 1 < |starts| ==> offset < starts[p.line + 1])
  }

  class PositionConverter {
    const text: Text
    var lineStarts: Option<seq<int>>

    /** The line starts are computed once, when they are needed. */
    ghost predicate Valid()
      reads this
    {
      lineStarts.Some? ==> AreLineStarts(text, lineStarts.value) && |lineStarts.value| > 0 && lineStarts.value[0] == 0
    }

    constructor (text: Text)
      ensures this.text == text && lineStarts == None && Valid()
    {
      this.text := text;
      lineStarts := None;
    }

    method LineStarts() returns (starts: seq<int>)
      requires Valid()
      modifies this
      ensures Valid() && lineStarts == Some(starts) && AreLineStarts(text, starts) && |starts| > 0 && starts[0] == 0
    {
      if lineStarts.None? {
        starts := ComputeLineStarts(text);
        lineStarts := Some(starts);
      }
      starts := lineStarts.value;
    }

    /** None when the offset precedes the beginning. */
    method PositionFromOffset(offset: int) returns (position: Option<Position>)
      requires Valid()
      modifies this
      ensures Valid() && (position.None? <==> offset < 0)
      ensures position.Some? ==> lineStarts.Some? && IsPositionOf(text, lineStarts.value, offset, position.value)
    {
      var starts := LineStarts();
      var lineNumber := BinarySearch(starts, offset);
      if lineNumber < 0 {
        lineNumber := (-lineNumber - 1) - 1;
        if lineNumber == -1 {
          return None;
        }
      }
      position := Some(Position(lineNumber, offset - starts[lineNumber]));
    }
  }

  /** The position of an offset is unique, and different offsets have different positions, in order. */
  lemma PositionsFollowOffsets(text: Text, starts: seq<int>, a: int, p: Position, b: int, q: Position)
    requires IsPositionOf(text, starts, a, p) && IsPositionOf(text, starts, b, q)
    ensures a <= b <==> Gte(q, p)
    ensures a == b <==> p == q
  {
    if p.line < q.line {
      assert starts[p.line + 1] <= starts[q.line];
    } else if q.line < p.line {
      assert starts[q.line + 1] <= starts[p.line];
    }
  }

  /** No line terminator lies between the start of the line and the position, except a carriage return
      directly before the line feed that ends the line. */
  lemma SameLine(text: Text, starts: seq<int>, offset: int, p: Position, i: nat)
    requires IsPositionOf(text, starts, offset, p) && offset <= |text| && starts[p.line] <= i < offset
    ensures IsLineBreak(text[i]) ==> text[i] == CARRIAGE_RETURN && i + 1 == offset < |text| && text[offset] == LINE_FEED
  {
    assert IsLineStart(text, starts[p.line]) by {
      assert starts[p.line] in starts;
    }
    if IsLineBreak(text[i]) && i + 1 <= offset {
      if IsLineStart(text, i + 1) {
        NoStartBetween(text, starts, offset, p, i + 1);
      } else {
        if i + 1 < offset {
          assert IsLineStart(text, i + 2);
          NoStartBetween(text, starts, offset, p, i + 2);
        }
      }
    }
  }

  lemma NoStartBetween(text: Text, starts: seq<int>, offset: int, p: Position, i: int)
    requires IsPositionOf(text, starts, offset, p) && IsLineStart(text, i)
    ensures i <= starts[p.line] || offset < i
  {
    assert i in starts;
    var k :| 0 <= k < |starts| && starts[k] == i;
    if k > p.line {
      assert starts[p.line + 1] <= starts[k];
    }
  }
}
