// Offsets and positions: line starts, the binary search over them, its inverse, and the shift that moves a
// position inside an embedded region to its host file. A character stands for one UTF-16 code unit.
module Location {
  import opened Wrappers

  type Offset = int

  datatype Position = Position(line: int, column: int)

  // ---- Line starts ----

  // The line terminators of section 12.3 of ECMA-262; a carriage return before a line feed is one with it.
  predicate IsTerminator(c: char) {
    c == '\n' || c == '\r' || c == '\U{2028}' || c == '\U{2029}'
  }

  predicate IsCrLf(text: string, i: int) {
    0 <= i && i + 1 < |text| && text[i] == '\r' && text[i + 1] == '\n'
  }

  // The ends of the terminators matched from `i` on.
  function TerminatorEnds(text: string, i: nat): seq<Offset>
    decreases |text| - i
  {
    if i >= |text| then []
    else if IsCrLf(text, i) then [i + 2] + TerminatorEnds(text, i + 2)
    else if IsTerminator(text[i]) then [i + 1] + TerminatorEnds(text, i + 1)
    else TerminatorEnds(text, i + 1)
  }

  function LineStartsOf(text: string): seq<Offset> {
    [0] + TerminatorEnds(text, 0)
  }

  // A line starts after a terminator, but not inside a carriage return and line feed.
  predicate StartsLine(text: string, x: int) {
    0 < x <= |text| && IsTerminator(text[x - 1]) && !IsCrLf(text, x - 1)
  }

  ghost predicate Increasing(s: seq<Offset>) {
    forall i, j :: 0 <= i < j < |s| ==> s[i] < s[j]
  }

  function NextIndex(text: string, i: nat): nat {
    if IsCrLf(text, i) then i + 2 else i + 1
  }

  lemma NextStartIsExact(text: string, i: nat, x: int)
    requires i < |text| && (i == 0 || !IsCrLf(text, i - 1)) && i < x <= NextIndex(text, i)
    ensures StartsLine(text, x) <==> x == NextIndex(text, i) && IsTerminator(text[i])
    ensures !IsCrLf(text, NextIndex(text, i) - 1)
  {
  }

  lemma {:induction false} EndsAreStarts(text: string, i: nat, x: int)
    requires i == 0 || i > |text| || !IsCrLf(text, i - 1)
    ensures x in TerminatorEnds(text, i) <==> i < x && StartsLine(text, x)
    decreases |text| - i
  {
    if i < |text| {
      var next := NextIndex(text, i);
      NextStartIsExact(text, i, next);
      if i < x <= next {
        NextStartIsExact(text, i, x);
      }
      EndsAreStarts(text, next, x);
    }
  }

  lemma {:induction false} EndsIncrease(text: string, i: nat)
    ensures Increasing(TerminatorEnds(text, i))
    ensures forall k :: 0 <= k < |TerminatorEnds(text, i)| ==> i < TerminatorEnds(text, i)[k]
    decreases |text| - i
  {
    if i < |text| {
      EndsIncrease(text, NextIndex(text, i));
    }
  }

  // After a line feed, a line or paragraph separator, or a carriage return no line feed follows.
  predicate FollowsLine(text: string, x: int) {
    && 0 < x <= |text|
    && (text[x - 1] == '\n' || text[x - 1] == '\U{2028}' || text[x - 1] == '\U{2029}'
        || (text[x - 1] == '\r' && !(x < |text| && text[x] == '\n')))
  }

  /** Line starts strictly increase from 0 and are exactly the offsets a line starts at. */
  lemma LineStartsAreExact(text: string)
    ensures Increasing(LineStartsOf(text)) && LineStartsOf(text)[0] == 0
    ensures forall x :: x in LineStartsOf(text) <==> x == 0 || StartsLine(text, x)
    ensures forall x :: x in LineStartsOf(text) <==> x == 0 || FollowsLine(text, x)
  {
    assert forall x :: StartsLine(text, x) <==> FollowsLine(text, x);
    EndsIncrease(text, 0);
    forall x ensures x in TerminatorEnds(text, 0) <==> 0 < x && StartsLine(text, x) {
      EndsAreStarts(text, 0, x);
    }
  }

  // ---- The binary search ----

  function MiddleIndex(low: int, high: int): int
    requires low <= high
  {
    low + (high - low) / 2
  }

  function PositionAtOffset(lineStarts: seq<Offset>, offset: Offset, low: int, high: int, start: int): Position
    decreases high - low + 1
  {
    if low > high then Position(low, offset - start + 1)
    else
      var middle := MiddleIndex(low, high);
      if !(0 <= middle < |lineStarts|) then Position(low, offset - start + 1)
      else
        var found := lineStarts[middle];
        if found == offset then Position(middle + 1, 1)
        else if found < offset then PositionAtOffset(lineStarts, offset, middle + 1, high, found)
        else PositionAtOffset(lineStarts, offset, low, middle - 1, start)
  }

  function PositionAt(lineStarts: seq<Offset>, offset: Offset): Position {
    PositionAtOffset(lineStarts, offset, 0, |lineStarts| - 1, 0)
  }

  /** Each probe leaves at most half of the line starts on either side. */
  lemma SearchHalves(low: int, high: int)
    requires low <= high
    ensures low <= MiddleIndex(low, high) <= high
    ensures 2 * (MiddleIndex(low, high) - low) <= high - low + 1
    ensures 2 * (high - MiddleIndex(low, high)) <= high - low + 1
  {
  }

  // The line that holds an offset starts at or before it and the next one after it.
  ghost predicate OnLine(lineStarts: seq<Offset>, offset: Offset, line: int) {
    && 1 <= line <= |lineStarts| && lineStarts[line - 1] <= offset
    && (line < |lineStarts| ==> offset < lineStarts[line])
  }

  // What the search has ruled out: everything below `low` starts before the offset, everything above `high` after it.
  ghost predicate Bracketed(lineStarts: seq<Offset>, offset: Offset, low: int, high: int) {
    && 0 <= low <= high + 1 <= |lineStarts|
    && (forall i :: 0 <= i < low ==> lineStarts[i] < offset)
    && (forall i :: high < i < |lineStarts| ==> offset < lineStarts[i])
  }

  lemma Narrowed(lineStarts: seq<Offset>, offset: Offset, low: int, high: int, middle: int)
    requires Increasing(lineStarts) && Bracketed(lineStarts, offset, low, high) && low <= middle <= high
    ensures lineStarts[middle] < offset ==> Bracketed(lineStarts, offset, middle + 1, high)
    ensures lineStarts[middle] > offset ==> Bracketed(lineStarts, offset, low, middle - 1)
  {
  }

  // A position on the line that holds the offset, with the column counted from the line's start.
  ghost predicate Locates(lineStarts: seq<Offset>, offset: Offset, p: Position) {
    OnLine(lineStarts, offset, p.line) && p.column == offset - lineStarts[p.line - 1] + 1
  }

  lemma SearchEnds(lineStarts: seq<Offset>, offset: Offset, low: int, start: int)
    requires Bracketed(lineStarts, offset, low, low - 1)
    requires low > 0 && start == lineStarts[low - 1]
    ensures Locates(lineStarts, offset, Position(low, offset - start + 1))
  {
  }

  lemma SearchHits(lineStarts: seq<Offset>, offset: Offset, middle: int)
    requires Increasing(lineStarts) && 0 <= middle < |lineStarts| && lineStarts[middle] == offset
    ensures Locates(lineStarts, offset, Position(middle + 1, 1))
  {
    assert middle + 1 < |lineStarts| ==> lineStarts[middle] < lineStarts[middle + 1];
  }

  lemma SearchStep(lineStarts: seq<Offset>, offset: Offset, low: int, high: int, start: int)
    requires 0 <= low <= high < |lineStarts|
    ensures low <= MiddleIndex(low, high) <= high
    ensures
      var middle := MiddleIndex(low, high);
      PositionAtOffset(lineStarts, offset, low, high, start) ==
      if lineStarts[middle] == offset then Position(middle + 1, 1)
      else if lineStarts[middle] < offset
        then PositionAtOffset(lineStarts, offset, middle + 1, high, lineStarts[middle])
      else PositionAtOffset(lineStarts, offset, low, middle - 1, start)
  {
  }

  lemma {:induction false} SearchFindsLine(lineStarts: seq<Offset>, offset: Offset, low: int, high: int, start: int)
    requires Increasing(lineStarts) && Bracketed(lineStarts, offset, low, high)
    requires low > 0 ==> start == lineStarts[low - 1]
    requires low > 0 || (lineStarts != [] && lineStarts[0] <= offset)
    ensures Locates(lineStarts, offset, PositionAtOffset(lineStarts, offset, low, high, start))
    decreases high - low + 1
  {
    if low > high {
      SearchEnds(lineStarts, offset, low, start);
    } else {
      SearchStep(lineStarts, offset, low, high, start);
      var middle := MiddleIndex(low, high);
      Narrowed(lineStarts, offset, low, high, middle);
      if lineStarts[middle] < offset {
        SearchFindsLine(lineStarts, offset, middle + 1, high, lineStarts[middle]);
      } else if lineStarts[middle] > offset {
        SearchFindsLine(lineStarts, offset, low, middle - 1, start);
      } else {
        SearchHits(lineStarts, offset, middle);
      }
    }
  }

  // In an increasing list a smaller element stands before a larger one.
  lemma Ascends(lineStarts: seq<Offset>, i: int, j: int)
    requires Increasing(lineStarts) && 0 <= i < |lineStarts| && 0 <= j < |lineStarts| && lineStarts[i] < lineStarts[j]
    ensures i < j
  {
  }

  lemma OneLine(lineStarts: seq<Offset>, offset: Offset, line: int, other: int)
    requires Increasing(lineStarts) && OnLine(lineStarts, offset, line) && OnLine(lineStarts, offset, other)
    ensures line == other
  {
  }

  ghost predicate IsLineStarts(lineStarts: seq<Offset>) {
    Increasing(lineStarts) && lineStarts != [] && lineStarts[0] == 0
  }

  /** The search gives the one line that holds the offset, and the column counts from its start. */
  lemma PositionIsExact(lineStarts: seq<Offset>, offset: Offset)
    requires IsLineStarts(lineStarts) && offset >= 0
    ensures Locates(lineStarts, offset, PositionAt(lineStarts, offset))
    ensures forall line :: OnLine(lineStarts, offset, line) ==> line == PositionAt(lineStarts, offset).line
  {
    SearchFindsLine(lineStarts, offset, 0, |lineStarts| - 1, 0);
    forall line | OnLine(lineStarts, offset, line) ensures line == PositionAt(lineStarts, offset).line {
      OneLine(lineStarts, offset, line, PositionAt(lineStarts, offset).line);
    }
  }

  // ---- Back to offsets ----

  function OffsetAt(lineStarts: seq<Offset>, p: Position): Option<Offset> {
    if !(0 <= p.line - 1 < |lineStarts|) then None
    else
      var offset := lineStarts[p.line - 1] + p.column - 1;
      if !(0 <= p.line < |lineStarts|) then Some(offset)
      else if offset < lineStarts[p.line] then Some(offset) else None
  }

  lemma OffsetOfLocated(lineStarts: seq<Offset>, p: Position, offset: Offset)
    ensures Locates(lineStarts, offset, p) <==> OffsetAt(lineStarts, p) == Some(offset) && p.column >= 1
  {
  }

  lemma OneLocated(lineStarts: seq<Offset>, p: Position, q: Position, offset: Offset)
    requires Increasing(lineStarts) && Locates(lineStarts, offset, p) && Locates(lineStarts, offset, q)
    ensures p == q
  {
    OneLine(lineStarts, offset, p.line, q.line);
  }

  /** On positions with a column, the two directions are inverse to each other. */
  lemma OffsetsAndPositionsAreInverse(lineStarts: seq<Offset>, p: Position, offset: Offset)
    requires IsLineStarts(lineStarts) && offset >= 0
    ensures OffsetAt(lineStarts, p) == Some(offset) && p.column >= 1 <==> PositionAt(lineStarts, offset) == p
  {
    PositionIsExact(lineStarts, offset);
    OffsetOfLocated(lineStarts, p, offset);
    if Locates(lineStarts, offset, p) {
      OneLocated(lineStarts, p, PositionAt(lineStarts, offset), offset);
    }
  }

  predicate Before(p: Position, q: Position) {
    p.line < q.line || (p.line == q.line && p.column < q.column)
  }

  /** A later offset has a later position. */
  lemma PositionsAreMonotone(lineStarts: seq<Offset>, a: Offset, b: Offset)
    requires IsLineStarts(lineStarts) && 0 <= a < b
    ensures Before(PositionAt(lineStarts, a), PositionAt(lineStarts, b))
  {
    PositionIsExact(lineStarts, a);
    PositionIsExact(lineStarts, b);
    var p, q := PositionAt(lineStarts, a), PositionAt(lineStarts, b);
    if q.line < |lineStarts| {
      Ascends(lineStarts, p.line - 1, q.line);
    }
  }

  // ---- Embedded regions ----

  datatype Origin = Origin(line: int, columnShift: int)

  function OriginAt(lineStarts: seq<Offset>, offset: Offset): Origin {
    var p := PositionAt(lineStarts, offset);
    Origin(p.line, p.column - 1)
  }

  function ShiftedPosition(p: Position, origin: Origin): Position {
    Position(p.line + origin.line - 1, p.column + if p.line == 1 then origin.columnShift else 0)
  }

  // The line and the line start of an offset, counted along the text.
  function LineAt(text: string, offset: nat): int {
    if offset == 0 then 1 else LineAt(text, offset - 1) + if StartsLine(text, offset) then 1 else 0
  }

  function StartAt(text: string, offset: nat): (start: nat)
    ensures start <= offset && (start == 0 || StartsLine(text, start))
  {
    if offset == 0 then 0 else if StartsLine(text, offset) then offset else StartAt(text, offset - 1)
  }

  // Counting the line starts up to an offset walks along the list of line starts.
  lemma {:induction false} CountedLine(text: string, offset: nat)
    ensures var lineStarts := LineStartsOf(text);
      OnLine(lineStarts, offset, LineAt(text, offset)) && lineStarts[LineAt(text, offset) - 1] == StartAt(text, offset)
  {
    var lineStarts := LineStartsOf(text);
    LineStartsAreExact(text);
    if offset == 0 {
      assert |lineStarts| > 1 ==> lineStarts[0] < lineStarts[1];
    } else {
      CountedLine(text, offset - 1);
      var line := LineAt(text, offset - 1);
      if StartsLine(text, offset) {
        var i :| 0 <= i < |lineStarts| && lineStarts[i] == offset;
        NextStart(lineStarts, offset, line, i);
      } else if line < |lineStarts| {
        assert lineStarts[line] in lineStarts;
      }
    }
  }

  lemma NextStart(lineStarts: seq<Offset>, offset: nat, line: int, i: int)
    requires Increasing(lineStarts) && offset > 0 && OnLine(lineStarts, offset - 1, line)
    requires 0 <= i < |lineStarts| && lineStarts[i] == offset
    ensures i == line && OnLine(lineStarts, offset, line + 1)
  {
    Ascends(lineStarts, line - 1, i);
    if i + 1 < |lineStarts| {
      assert lineStarts[i] < lineStarts[i + 1];
    }
    if line < |lineStarts| && lineStarts[line] != offset {
      Ascends(lineStarts, i, line);
    }
    assert line + 1 < |lineStarts| ==> lineStarts[line] < lineStarts[line + 1];
  }

  lemma {:induction false} PositionCounts(text: string, offset: nat)
    ensures PositionAt(LineStartsOf(text), offset) == Position(LineAt(text, offset), offset - StartAt(text, offset) + 1)
    ensures LineAt(text, offset) >= 1
  {
    LineStartsAreExact(text);
    CountedLine(text, offset);
    PositionIsExact(LineStartsOf(text), offset);
  }

  // The one way a region's line starts can differ from its host's.
  predicate SplitsCrLf(host: string, s: nat, e: nat) {
    s < e && IsCrLf(host, e - 1)
  }

  lemma RegionStarts(host: string, s: nat, e: nat, x: int)
    requires s <= e <= |host| && 0 < x <= e - s
    ensures StartsLine(host[s..e], x) == (StartsLine(host, s + x) || (x == e - s && SplitsCrLf(host, s, e)))
  {
  }

  lemma {:induction false} RegionCounts(host: string, s: nat, e: nat, offset: nat)
    requires s <= e <= |host| && offset <= e - s && !(offset == e - s && SplitsCrLf(host, s, e))
    ensures LineAt(host, s + offset) == LineAt(host, s) + LineAt(host[s..e], offset) - 1
    ensures LineAt(host[s..e], offset) >= 1
    ensures StartAt(host, s + offset) ==
      if LineAt(host[s..e], offset) == 1 then StartAt(host, s) else s + StartAt(host[s..e], offset)
    ensures LineAt(host[s..e], offset) == 1 ==> StartAt(host[s..e], offset) == 0
  {
    if offset > 0 {
      RegionCounts(host, s, e, offset - 1);
      RegionStarts(host, s, e, offset);
    }
  }

  /** For every region of a host text and every offset in it, shifting the region's position by the region's
      origin gives the host's position, unless the offset is the end of a region that ends between a carriage
      return and its line feed; then it never does. */
  lemma EmbeddedPositions(host: string, s: nat, e: nat, offset: nat)
    requires s <= e <= |host| && offset <= e - s
    ensures
      ShiftedPosition(PositionAt(LineStartsOf(host[s..e]), offset), OriginAt(LineStartsOf(host), s))
      == PositionAt(LineStartsOf(host), s + offset)
      <==> !(offset == e - s && SplitsCrLf(host, s, e))
  {
    PositionCounts(host[s..e], offset);
    PositionCounts(host, s);
    PositionCounts(host, s + offset);
    if offset == e - s && SplitsCrLf(host, s, e) {
      RegionCounts(host, s, e, offset - 1);
      RegionStarts(host, s, e, offset);
    } else {
      RegionCounts(host, s, e, offset);
    }
  }
}
