/** Relocating mutants and tests of a previous run: a file diff is walked edit by edit, and the
    location of every item is shifted in place until the walk has passed it. */
module FileDiff {
  import opened Locations
  import opened Options

  datatype Change = Equal | Added | Removed

  datatype Edit = Edit(change: Change, text: string)

  datatype Item = Item(id: nat, location: Location)

  /** The text before and after a list of edits. */
  function OldText(edits: seq<Edit>): string {
    if edits == [] then "" else (if edits[0].change.Added? then "" else edits[0].text) + OldText(edits[1..])
  }

  function NewText(edits: seq<Edit>): string {
    if edits == [] then "" else (if edits[0].change.Removed? then "" else edits[0].text) + NewText(edits[1..])
  }

  // ----- positions

  /** The position at the end of a text that starts at line 0, column 0. */
  function Offset(text: string): Position {
    if text == "" then Position(0, 0)
    else
      Extend(Offset(text[..|text| - 1]), text[|text| - 1])
  }

  /** The line is the number of line breaks, and the column the number of characters behind the last one. */
  lemma {:induction false} OffsetMeans(text: string)
    ensures var (line, column) := (Offset(text).line, Offset(text).column);
            && line == multiset(text)['\n'] && 0 <= column <= |text|
            && '\n' !in text[|text| - column..] && (column < |text| ==> text[|text| - column - 1] == '\n')
    decreases |text|
  {
    if text != "" {
      var init := text[..|text| - 1];
      OffsetMeans(init);
      assert text == init + [text[|text| - 1]];
    }
  }

  method CalculateOffset(text: string) returns (pos: Position)
    ensures pos == Offset(text)
    ensures pos.line == multiset(text)['\n'] && 0 <= pos.column <= |text|
    ensures '\n' !in text[|text| - pos.column..] && (pos.column < |text| ==> text[|text| - pos.column - 1] == '\n')
  {
    OffsetMeans(text);
    pos := Position(0, 0);
    for i := 0 to |text|
      invariant pos == Offset(text[..i])
    {
      assert text[..i + 1][..i] == text[..i];
      pos := if text[i] == '\n' then Position(pos.line + 1, 0) else pos.(column := pos.column + 1);
    }
    assert text[..|text|] == text;
  }

  function PositionMove(pos: Position, diff: Position): Position {
    Position(pos.line + diff.line, if diff.line == 0 then pos.column + diff.column else diff.column)
  }

  function LocationAdd(loc: Location, shift: Position, currentLine: bool): Location {
    Location(
      Position(loc.start.line + shift.line, loc.start.column + if currentLine then shift.column else 0),
      Position(loc.end.line + shift.line, loc.end.column + if shift.line == 0 && currentLine then shift.column else 0))
  }

  function Negate(p: Position): Position {
    Position(-1 * p.line, -1 * p.column)
  }

  /** The position of an offset into a text. */
  function PosAt(text: string, k: nat): Position
    requires k <= |text|
  {
    Offset(text[..k])
  }

  lemma {:induction false} OffsetBounds(text: string)
    ensures Offset(text).line >= 0 && Offset(text).column >= 0
    ensures Offset(text).line == 0 ==> Offset(text).column == |text|
    decreases |text|
  {
    if text != "" {
      OffsetBounds(text[..|text| - 1]);
    }
  }

  function Extend(p: Position, c: char): Position {
    if c == '\n' then Position(p.line + 1, 0) else Position(p.line, p.column + 1)
  }

  lemma OffsetNone()
    ensures Offset("") == Position(0, 0)
  {
  }

  lemma {:induction false} OffsetLast(text: string)
    requires text != ""
    ensures Offset(text) == Extend(Offset(text[..|text| - 1]), text[|text| - 1])
  {
  }

  lemma MoveExtend(p: Position, q: Position, c: char)
    requires q.line >= 0
    ensures PositionMove(p, Extend(q, c)) == Extend(PositionMove(p, q), c)
  {
  }

  lemma {:induction false} OffsetAppend(a: string, b: string)
    ensures Offset(a + b) == PositionMove(Offset(a), Offset(b))
    decreases |b|
  {
    hide Offset, Extend;
    if b == "" {
      assert a + b == a;
      OffsetNone();
    } else {
      var init, c := b[..|b| - 1], b[|b| - 1];
      OffsetLast(b);
      OffsetLast(a + b);
      assert (a + b)[..|a + b| - 1] == a + init && (a + b)[|a + b| - 1] == c;
      OffsetAppend(a, init);
      OffsetBounds(init);
      MoveExtend(Offset(a), Offset(init), c);
    }
  }

  lemma {:induction false} PosAtAppend(a: string, b: string, k: nat)
    requires k <= |b|
    ensures PosAt(a + b, |a| + k) == PositionMove(Offset(a), PosAt(b, k))
  {
    assert (a + b)[..|a| + k] == a + b[..k];
    OffsetAppend(a, b[..k]);
  }

  lemma PosAtPrefix(a: string, b: string, k: nat)
    requires k <= |a|
    ensures PosAt(a + b, k) == PosAt(a, k)
  {
    assert (a + b)[..k] == a[..k];
  }

  /** Later offsets have later positions. */
  lemma {:induction false} PosAtOrder(text: string, i: nat, j: nat)
    requires i <= j <= |text|
    ensures Gte(PosAt(text, j), PosAt(text, i))
    ensures i < j ==> !Gte(PosAt(text, i), PosAt(text, j))
    decreases j
  {
    if i < j {
      PosAtOrder(text, i, j - 1);
      assert text[..j][..j - 1] == text[..j - 1];
      OffsetBounds(text[..j - 1]);
      OffsetBounds(text[..i]);
    }
  }

  lemma GteIsOrder(text: string, i: nat, j: nat)
    requires i <= |text| && j <= |text|
    ensures Gte(PosAt(text, i), PosAt(text, j)) <==> i >= j
  {
    if i >= j {
      PosAtOrder(text, j, i);
    } else {
      PosAtOrder(text, i, j);
    }
  }

  // ----- what happens to one item

  const ORIGIN: Position := Position(0, 0)

  datatype Fate = Dropped | Waiting(location: Location) | Finished(location: Location)

  /** One edit at position `cur`, for one item that is still to be done. */
  function Step(edit: Edit, cur: Position, loc: Location): Fate {
    var offset := Offset(edit.text);
    match edit.change
    case Added =>
      if Gte(cur, loc.start) && Gte(loc.end, cur) then Dropped
      else Waiting(LocationAdd(loc, offset, cur.line == loc.start.line))
    case Removed =>
      if Gte(PositionMove(cur, offset), loc.start) then Dropped
      else Waiting(LocationAdd(loc, Negate(offset), cur.line == loc.start.line))
    case Equal =>
      if Gte(PositionMove(cur, offset), loc.end) then Finished(loc) else Waiting(loc)
  }

  function After(edit: Edit, cur: Position): Position {
    if edit.change.Removed? then cur else PositionMove(cur, Offset(edit.text))
  }

  /** The location of an item after the edits, starting at position `cur`; None when it is dropped. */
  function Track(edits: seq<Edit>, cur: Position, loc: Location): Option<Location> {
    if edits == [] then Some(loc)
    else
      match Step(edits[0], cur, loc)
      case Dropped => None
      case Finished(l) => Some(l)
      case Waiting(l) => Track(edits[1..], After(edits[0], cur), l)
  }

  function Tracked(edits: seq<Edit>, cur: Position, items: seq<Item>): seq<Item> {
    if items == [] then []
    else
      var loc := Track(edits, cur, items[0].location);
      (if loc.Some? then [items[0].(location := loc.value)] else []) + Tracked(edits, cur, items[1..])
  }

  lemma {:induction false} TrackedAppend(edits: seq<Edit>, cur: Position, xs: seq<Item>, ys: seq<Item>)
    ensures Tracked(edits, cur, xs + ys) == Tracked(edits, cur, xs) + Tracked(edits, cur, ys)
    decreases |xs|
  {
    if xs == [] {
      assert xs + ys == ys;
    } else {
      assert (xs + ys)[1..] == xs[1..] + ys;
      TrackedAppend(edits, cur, xs[1..], ys);
    }
  }

  lemma {:induction false} NothingLeft(cur: Position, items: seq<Item>)
    ensures Tracked([], cur, items) == items
    decreases |items|
  {
    if items != [] {
      NothingLeft(cur, items[1..]);
    }
  }

  /** What the walk has yet to produce, with the items before the j-th already handled by edit i. */
  ghost function Outstanding(edits: seq<Edit>, i: nat, cur: Position, waiting: seq<Item>,
                             toDo: seq<Item>): multiset<Item>
    requires i < |edits|
  {
    multiset(Tracked(edits[i + 1..], After(edits[i], cur), waiting)) + multiset(Tracked(edits[i..], cur, toDo))
  }

  lemma OutstandingStep(edits: seq<Edit>, i: nat, cur: Position, waiting: seq<Item>, toDo: seq<Item>)
    requires i < |edits| && toDo != []
    ensures Outstanding(edits, i, cur, waiting, toDo) ==
            match Step(edits[i], cur, toDo[0].location)
            case Dropped => Outstanding(edits, i, cur, waiting, toDo[1..])
            case Finished(l) => multiset{toDo[0].(location := l)} + Outstanding(edits, i, cur, waiting, toDo[1..])
            case Waiting(l) => Outstanding(edits, i, cur, waiting + [toDo[0].(location := l)], toDo[1..])
  {
    var rest := edits[i + 1..];
    assert edits[i..][0] == edits[i] && edits[i..][1..] == rest;
    match Step(edits[i], cur, toDo[0].location)
    case Waiting(l) =>
      var moved := toDo[0].(location := l);
      TrackedAppend(rest, After(edits[i], cur), waiting, [moved]);
      assert [moved][1..] == [];
    case _ =>
  }

  lemma {:induction false} OutstandingStart(edits: seq<Edit>, i: nat, cur: Position, toDo: seq<Item>)
    requires i < |edits|
    ensures Outstanding(edits, i, cur, [], toDo) == multiset(Tracked(edits[i..], cur, toDo))
  {
  }

  lemma {:induction false} OutstandingEnd(edits: seq<Edit>, i: nat, cur: Position, waiting: seq<Item>)
    requires i < |edits|
    ensures Outstanding(edits, i, cur, waiting, []) == multiset(Tracked(edits[i + 1..], After(edits[i], cur), waiting))
  {
  }

  /** The walk: every edit is applied to every item that is still to be done. */
  method PerformFileDiff(edits: seq<Edit>, items: seq<Item>) returns (results: seq<Item>, removeCount: nat)
    ensures multiset(results) == multiset(Tracked(edits, ORIGIN, items))
    ensures |results| + removeCount == |items|
  {
    hide Tracked, Track, Step, Outstanding, Offset;
    var toDo := items;
    results, removeCount := [], 0;
    var currentPosition := ORIGIN;
    var i := 0;
    assert edits[0..] == edits;
    while i < |edits| && |toDo| > 0
      invariant i <= |edits|
      invariant multiset(results) + multiset(Tracked(edits[i..], currentPosition, toDo)) == multiset(Tracked(edits, ORIGIN, items))
      invariant |results| + |toDo| + removeCount == |items|
    {
      var waiting: seq<Item> := [];
      OutstandingStart(edits, i, currentPosition, toDo);
      for j := 0 to |toDo|
        invariant multiset(results) + Outstanding(edits, i, currentPosition, waiting, toDo[j..]) == multiset(Tracked(edits, ORIGIN, items))
        invariant |results| + |waiting| + |toDo[j..]| + removeCount == |items|
      {
        OutstandingStep(edits, i, currentPosition, waiting, toDo[j..]);
        assert toDo[j..][1..] == toDo[j + 1..];
        var fate := VisitItem(edits[i], currentPosition, toDo[j].location);
        match fate
        case Dropped => removeCount := removeCount + 1;
        case Finished(l) => results := results + [toDo[j].(location := l)];
        case Waiting(l) => waiting := waiting + [toDo[j].(location := l)];
      }
      OutstandingEnd(edits, i, currentPosition, waiting);
      assert toDo[|toDo|..] == [];
      currentPosition := After(edits[i], currentPosition);
      toDo := waiting;
      i := i + 1;
    }
    if i == |edits| {
      assert edits[i..] == [];
      NothingLeft(currentPosition, toDo);
    } else {
      NoneTracked(edits[i..], currentPosition);
    }
    results := results + toDo;
  }

  lemma {:induction false} NoneTracked(edits: seq<Edit>, cur: Position)
    ensures Tracked(edits, cur, []) == []
  {
  }

  method VisitItem(edit: Edit, currentPosition: Position, location: Location) returns (fate: Fate)
    ensures fate == Step(edit, currentPosition, location)
  {
    var offset := CalculateOffset(edit.text);
    match edit.change
    case Added =>
      if Gte(currentPosition, location.start) && Gte(location.end, currentPosition) {
        fate := Dropped;
      } else {
        fate := Waiting(LocationAdd(location, offset, currentPosition.line == location.start.line));
      }
    case Removed =>
      var endOffset := PositionMove(currentPosition, offset);
      if Gte(endOffset, location.start) {
        fate := Dropped;
      } else {
        fate := Waiting(LocationAdd(location, Negate(offset), currentPosition.line == location.start.line));
      }
    case Equal =>
      fate := if Gte(PositionMove(currentPosition, offset), location.end) then Finished(location) else Waiting(location);
  }

  // ----- when a shift is exact

  /** The location of the piece of text from offset i up to offset j. */
  function Span(text: string, i: nat, j: nat): Location
    requires i <= j <= |text|
  {
    Location(PosAt(text, i), PosAt(text, j))
  }

  /** Shifting an item behind added text is exact if and only if the item starts on another line, or
      the text stays on one line and so does the item, or the text starts at column 0 and either ends
      at column 0 or the item does not end on the line. */
  predicate AddShiftExact(cur: Position, offset: Position, loc: Location) {
    cur.line == loc.start.line ==>
      if offset.line == 0 then loc.start.line == loc.end.line || offset.column == 0
      else cur.column == 0 && (loc.start.line < loc.end.line || offset.column == 0)
  }

  predicate RemoveShiftExact(cur: Position, offset: Position, loc: Location) {
    if offset.line == 0 then
      cur.line == loc.start.line ==> loc.start.line == loc.end.line || offset.column == 0
    else
      loc.start.line == cur.line + offset.line ==> offset.column == cur.column
  }

  /** The positions of the ends of an item, relative to a point that lies before it. */
  ghost predicate Behind(pa: Position, pb: Position) {
    && 0 <= pa.line <= pb.line && 0 <= pa.column && 0 <= pb.column
    && (pa.line == 0 ==> pa.column > 0)
    && (pa.line == pb.line ==> pa.column < pb.column)
  }

  lemma SpanBehind(rest: string, a: nat, b: nat)
    requires 0 < a < b <= |rest|
    ensures Behind(PosAt(rest, a), PosAt(rest, b))
  {
    OffsetBounds(rest[..a]);
    OffsetBounds(rest[..b]);
    PosAtOrder(rest, a, b);
  }

  lemma AddArithmetic(p: Position, t: Position, pa: Position, pb: Position)
    requires p.line >= 0 && p.column >= 0 && t.line >= 0 && t.column >= 0 && Behind(pa, pb)
    ensures var loc := Location(PositionMove(p, pa), PositionMove(p, pb));
            var end := PositionMove(p, t);
            LocationAdd(loc, t, p.line == loc.start.line) == Location(PositionMove(end, pa), PositionMove(end, pb))
            <==> AddShiftExact(p, t, loc)
  {
  }

  lemma RemoveArithmetic(p: Position, t: Position, pa: Position, pb: Position)
    requires p.line >= 0 && p.column >= 0 && t.line >= 0 && t.column >= 0 && Behind(pa, pb)
    ensures var end := PositionMove(p, t);
            var loc := Location(PositionMove(end, pa), PositionMove(end, pb));
            LocationAdd(loc, Negate(t), p.line == loc.start.line) == Location(PositionMove(p, pa), PositionMove(p, pb))
            <==> RemoveShiftExact(p, t, loc)
  {
  }

  lemma {:induction false} SpanFrom(pre: string, rest: string, a: nat, b: nat)
    requires a <= b <= |rest|
    ensures Span(pre + rest, |pre| + a, |pre| + b) ==
            Location(PositionMove(Offset(pre), PosAt(rest, a)), PositionMove(Offset(pre), PosAt(rest, b)))
  {
    PosAtAppend(pre, rest, a);
    PosAtAppend(pre, rest, b);
  }

  /** `pre` is the new text so far, `t` is added to it, and the item lies behind it, a to b characters
      into the rest. */
  lemma {:induction false} AddIsExactIff(pre: string, t: string, rest: string, a: nat, b: nat)
    requires 0 < a < b <= |rest|
    ensures var cur, offset := Offset(pre), Offset(t);
            var loc := Span(pre + rest, |pre| + a, |pre| + b);
            LocationAdd(loc, offset, cur.line == loc.start.line)
            == Span(pre + t + rest, |pre + t| + a, |pre + t| + b)
            <==> AddShiftExact(cur, offset, loc)
  {
    hide Offset, PosAt, PositionMove, AddShiftExact, RemoveShiftExact, LocationAdd, Behind;
    SpanFrom(pre, rest, a, b);
    SpanFrom(pre + t, rest, a, b);
    OffsetAppend(pre, t);
    OffsetBounds(pre);
    OffsetBounds(t);
    SpanBehind(rest, a, b);
    AddArithmetic(Offset(pre), Offset(t), PosAt(rest, a), PosAt(rest, b));
  }

  /** The text `t` behind `pre` is removed, and the item lies a to b characters behind it. */
  lemma {:induction false} RemoveIsExactIff(pre: string, t: string, rest: string, a: nat, b: nat)
    requires 0 < a < b <= |rest|
    ensures var cur, offset := Offset(pre), Offset(t);
            var loc := Span(pre + t + rest, |pre + t| + a, |pre + t| + b);
            LocationAdd(loc, Negate(offset), cur.line == loc.start.line)
            == Span(pre + rest, |pre| + a, |pre| + b)
            <==> RemoveShiftExact(cur, offset, loc)
  {
    hide Offset, PosAt, PositionMove, AddShiftExact, RemoveShiftExact, LocationAdd, Behind;
    SpanFrom(pre, rest, a, b);
    SpanFrom(pre + t, rest, a, b);
    OffsetAppend(pre, t);
    OffsetBounds(pre);
    OffsetBounds(t);
    SpanBehind(rest, a, b);
    RemoveArithmetic(Offset(pre), Offset(t), PosAt(rest, a), PosAt(rest, b));
  }

  // ----- whole diffs

  /** Every shift of the item on its way through the diff is exact. */
  predicate ExactRun(edits: seq<Edit>, cur: Position, loc: Location) {
    edits == [] ||
    match Step(edits[0], cur, loc)
    case Dropped => true
    case Finished(_) => true
    case Waiting(l) =>
      && (edits[0].change.Added? ==> AddShiftExact(cur, Offset(edits[0].text), loc))
      && (edits[0].change.Removed? ==> RemoveShiftExact(cur, Offset(edits[0].text), loc))
      && ExactRun(edits[1..], After(edits[0], cur), l)
  }

  /** Edit k touches the old text from offset a up to offset b: it adds text inside it or right before
      it, or removes text that overlaps it or ends right before it. */
  predicate Touches(edits: seq<Edit>, k: nat, a: int, b: int)
    requires k < |edits|
  {
    var p := |OldText(edits[..k])|;
    match edits[k].change
    case Equal => false
    case Added => a <= p < b
    case Removed => p < b && a <= p + |edits[k].text|
  }

  predicate Touched(edits: seq<Edit>, a: int, b: int) {
    if edits == [] then false
    else
      var n := |edits[0].text|;
      match edits[0].change
      case Added => a <= 0 || Touched(edits[1..], a, b)
      case Removed => a <= n || Touched(edits[1..], a - n, b - n)
      case Equal => b > n && Touched(edits[1..], a - n, b - n)
  }

  /** Where an untouched piece of the old text that starts at offset a lies in the new text. */
  function Landing(edits: seq<Edit>, a: int, b: int): int {
    if edits == [] then a
    else
      var n := |edits[0].text|;
      match edits[0].change
      case Added => n + Landing(edits[1..], a, b)
      case Removed => Landing(edits[1..], a - n, b - n)
      case Equal => if b <= n then a else n + Landing(edits[1..], a - n, b - n)
  }

  lemma OldPrefix(edits: seq<Edit>, k: nat)
    requires 0 < k <= |edits|
    ensures |OldText(edits[..k])| == (if edits[0].change.Added? then 0 else |edits[0].text|) + |OldText(edits[1..][..k - 1])|
  {
    assert edits[..k][0] == edits[0] && edits[..k][1..] == edits[1..][..k - 1];
  }

  lemma TouchesRest(edits: seq<Edit>, k: nat, a: int, b: int)
    requires k + 1 < |edits|
    ensures var n := if edits[0].change.Added? then 0 else |edits[0].text|;
            Touches(edits, k + 1, a, b) <==> Touches(edits[1..], k, a - n, b - n)
  {
    OldPrefix(edits, k + 1);
  }

  lemma TouchesFirst(edits: seq<Edit>, a: int, b: int)
    requires edits != [] && b > 0
    ensures Touches(edits, 0, a, b) <==>
              match edits[0].change
              case Equal => false
              case Added => a <= 0
              case Removed => a <= |edits[0].text|
  {
    assert edits[..0] == [];
  }

  lemma {:induction false} TouchedThen(edits: seq<Edit>, a: int, b: int)
    requires b > 0 && a < b && Touched(edits, a, b)
    ensures exists k: nat | k < |edits| :: Touches(edits, k, a, b)
    decreases |edits|
  {
    var n := if edits[0].change.Added? then 0 else |edits[0].text|;
    TouchesFirst(edits, a, b);
    if !Touches(edits, 0, a, b) {
      TouchedThen(edits[1..], a - n, b - n);
      var k: nat :| k < |edits[1..]| && Touches(edits[1..], k, a - n, b - n);
      TouchesRest(edits, k, a, b);
      assert Touches(edits, k + 1, a, b);
    }
  }

  lemma {:induction false} TouchesThen(edits: seq<Edit>, k: nat, a: int, b: int)
    requires b > 0 && a < b && k < |edits| && Touches(edits, k, a, b)
    ensures Touched(edits, a, b)
    decreases |edits|
  {
    TouchesFirst(edits, a, b);
    if k > 0 {
      var n := if edits[0].change.Added? then 0 else |edits[0].text|;
      TouchesRest(edits, k - 1, a, b);
      if b > n {
        TouchesThen(edits[1..], k - 1, a - n, b - n);
      }
    }
  }

  /** The recursive and the explicit description of being touched agree. */
  lemma {:induction false} TouchedIff(edits: seq<Edit>, a: int, b: int)
    requires b > 0 && a < b
    ensures Touched(edits, a, b) <==> exists k: nat | k < |edits| :: Touches(edits, k, a, b)
  {
    if Touched(edits, a, b) {
      TouchedThen(edits, a, b);
    }
    if k: nat :| k < |edits| && Touches(edits, k, a, b) {
      TouchesThen(edits, k, a, b);
    }
  }

  /** One step of the recursive definitions, for proofs that hide them. */
  lemma Unfold(edits: seq<Edit>, cur: Position, loc: Location, a: int, b: int)
    requires edits != []
    ensures var (n, rest) := (|edits[0].text|, edits[1..]);
            match edits[0].change
            case Added =>
              && OldText(edits) == OldText(rest) && NewText(edits) == edits[0].text + NewText(rest)
              && (Touched(edits, a, b) <==> a <= 0 || Touched(rest, a, b))
              && Landing(edits, a, b) == n + Landing(rest, a, b)
            case Removed =>
              && OldText(edits) == edits[0].text + OldText(rest) && NewText(edits) == NewText(rest)
              && (Touched(edits, a, b) <==> a <= n || Touched(rest, a - n, b - n))
              && Landing(edits, a, b) == Landing(rest, a - n, b - n)
            case Equal =>
              && OldText(edits) == edits[0].text + OldText(rest) && NewText(edits) == edits[0].text + NewText(rest)
              && (Touched(edits, a, b) <==> b > n && Touched(rest, a - n, b - n))
              && Landing(edits, a, b) == if b <= n then a else n + Landing(rest, a - n, b - n)
    ensures match Step(edits[0], cur, loc)
            case Dropped => Track(edits, cur, loc) == None
            case Finished(l) => Track(edits, cur, loc) == Some(l)
            case Waiting(l) =>
              && Track(edits, cur, loc) == Track(edits[1..], After(edits[0], cur), l)
              && (ExactRun(edits, cur, loc) <==>
                    && (edits[0].change.Added? ==> AddShiftExact(cur, Offset(edits[0].text), loc))
                    && (edits[0].change.Removed? ==> RemoveShiftExact(cur, Offset(edits[0].text), loc))
                    && ExactRun(edits[1..], After(edits[0], cur), l))
  {
    assert "" + OldText(edits[1..]) == OldText(edits[1..]) && "" + NewText(edits[1..]) == NewText(edits[1..]);
  }

  /** What the walk should make of an item: nothing when it is touched, otherwise the place of the
      same characters in the new text. */
  ghost predicate Relocated(edits: seq<Edit>, pre: string, a: int, b: int, result: Option<Location>)
    requires 0 <= |pre| + a && a < b && 0 < b <= |OldText(edits)|
  {
    var before, after := pre + OldText(edits), pre + NewText(edits);
    var k := |pre| + Landing(edits, a, b);
    if Touched(edits, a, b) then result == None
    else
      && 0 <= k && k + (b - a) <= |after|
      && result == Some(Span(after, k, k + (b - a)))
      && after[k..k + (b - a)] == before[|pre| + a..|pre| + b]
  }

  lemma {:induction false} TrackIsExact(edits: seq<Edit>, pre: string, a: int, b: int)
    requires 0 <= |pre| + a && a < b && 0 < b <= |OldText(edits)|
    requires ExactRun(edits, Offset(pre), Span(pre + OldText(edits), |pre| + a, |pre| + b))
    ensures Relocated(edits, pre, a, b, Track(edits, Offset(pre), Span(pre + OldText(edits), |pre| + a, |pre| + b)))
    decreases |edits|, 2
  {
    hide Relocated, ExactRun, Track, PosAt;
    match edits[0].change
    case Added => AddedIsExact(edits, pre, a, b);
    case Removed => RemovedIsExact(edits, pre, a, b);
    case Equal => EqualIsExact(edits, pre, a, b);
  }

  /** The position right behind the first k characters of a text. */
  lemma {:induction false} PosAtLength(pre: string, rest: string)
    ensures PosAt(pre + rest, |pre|) == Offset(pre)
  {
    assert (pre + rest)[..|pre|] == pre;
  }

  lemma {:induction false} AddedIsExact(edits: seq<Edit>, pre: string, a: int, b: int)
    requires edits != [] && edits[0].change.Added?
    requires 0 <= |pre| + a && a < b && 0 < b <= |OldText(edits)|
    requires ExactRun(edits, Offset(pre), Span(pre + OldText(edits), |pre| + a, |pre| + b))
    ensures Relocated(edits, pre, a, b, Track(edits, Offset(pre), Span(pre + OldText(edits), |pre| + a, |pre| + b)))
    decreases |edits|, 1
  {
    hide Offset, AddShiftExact, RemoveShiftExact, LocationAdd, Gte, PositionMove, Negate, PosAt, Track, ExactRun,
         Touched, Landing, OldText, NewText;
    Unfold(edits, Offset(pre), Span(pre + OldText(edits), |pre| + a, |pre| + b), a, b);
    var t, rest := edits[0].text, edits[1..];
    var later := OldText(rest);
    var text := pre + later;
    PosAtLength(pre, later);
    GteIsOrder(text, |pre|, |pre| + a);
    GteIsOrder(text, |pre| + b, |pre|);
    if a > 0 {
      AddedBefore(edits, pre, a, b);
    }
  }

  /** Text is added before the item. */
  lemma {:induction false} AddedBefore(edits: seq<Edit>, pre: string, a: nat, b: nat)
    requires edits != [] && edits[0].change.Added? && 0 < a < b <= |OldText(edits)|
    requires ExactRun(edits, Offset(pre), Span(pre + OldText(edits), |pre| + a, |pre| + b))
    requires Step(edits[0], Offset(pre), Span(pre + OldText(edits), |pre| + a, |pre| + b)).Waiting?
    ensures Relocated(edits, pre, a, b, Track(edits, Offset(pre), Span(pre + OldText(edits), |pre| + a, |pre| + b)))
    decreases |edits|, 0
  {
    hide Offset, AddShiftExact, RemoveShiftExact, LocationAdd, Gte, PositionMove, PosAt, Track, ExactRun, Touched,
         Landing, OldText, NewText;
    Unfold(edits, Offset(pre), Span(pre + OldText(edits), |pre| + a, |pre| + b), a, b);
    var t, rest := edits[0].text, edits[1..];
    AddIsExactIff(pre, t, OldText(rest), a, b);
    OffsetAppend(pre, t);
    TrackIsExact(rest, pre + t, a, b);
    assert pre + t + NewText(rest) == pre + NewText(edits);
    SameSlice(pre + t, pre, OldText(rest), a, b);
  }

  lemma SameSlice(p: string, q: string, rest: string, a: nat, b: nat)
    requires a <= b <= |rest|
    ensures (p + rest)[|p| + a..|p| + b] == (q + rest)[|q| + a..|q| + b]
  {
  }

  lemma {:induction false} RemovedIsExact(edits: seq<Edit>, pre: string, a: int, b: int)
    requires edits != [] && edits[0].change.Removed?
    requires 0 <= |pre| + a && a < b && 0 < b <= |OldText(edits)|
    requires ExactRun(edits, Offset(pre), Span(pre + OldText(edits), |pre| + a, |pre| + b))
    ensures Relocated(edits, pre, a, b, Track(edits, Offset(pre), Span(pre + OldText(edits), |pre| + a, |pre| + b)))
    decreases |edits|, 1
  {
    hide Offset, AddShiftExact, RemoveShiftExact, LocationAdd, Gte, PositionMove, Negate, PosAt, Track, ExactRun,
         Touched, Landing, OldText, NewText;
    Unfold(edits, Offset(pre), Span(pre + OldText(edits), |pre| + a, |pre| + b), a, b);
    var t, rest := edits[0].text, edits[1..];
    var later := OldText(rest);
    var text := pre + OldText(edits);
    assert text == pre + t + later;
    PosAtLength(pre + t, later);
    OffsetAppend(pre, t);
    GteIsOrder(text, |pre + t|, |pre| + a);
    if a > |t| {
      RemovedBefore(edits, pre, a - |t|, b - |t|);
    }
  }

  /** Text is removed before the item, which starts more than a characters behind that text. */
  lemma {:induction false} RemovedBefore(edits: seq<Edit>, pre: string, a: nat, b: nat)
    requires edits != [] && edits[0].change.Removed? && 0 < a < b && b + |edits[0].text| <= |OldText(edits)|
    requires var n := |edits[0].text|;
             var loc := Span(pre + OldText(edits), |pre| + n + a, |pre| + n + b);
             ExactRun(edits, Offset(pre), loc) && Step(edits[0], Offset(pre), loc).Waiting?
    ensures var n := |edits[0].text|;
            var loc := Span(pre + OldText(edits), |pre| + n + a, |pre| + n + b);
            Relocated(edits, pre, a + n, b + n, Track(edits, Offset(pre), loc))
    decreases |edits|, 0
  {
    hide Offset, AddShiftExact, RemoveShiftExact, LocationAdd, Gte, PositionMove, Negate, PosAt, Track, ExactRun,
         Touched, Landing, OldText, NewText;
    var t, rest := edits[0].text, edits[1..];
    Unfold(edits, Offset(pre), Span(pre + OldText(edits), |pre| + |t| + a, |pre| + |t| + b), a + |t|, b + |t|);
    assert pre + OldText(edits) == pre + t + OldText(rest);
    RemoveIsExactIff(pre, t, OldText(rest), a, b);
    TrackIsExact(rest, pre, a, b);
    SameSlice(pre + t, pre, OldText(rest), a, b);
  }

  lemma {:induction false} EqualIsExact(edits: seq<Edit>, pre: string, a: int, b: int)
    requires edits != [] && edits[0].change.Equal?
    requires 0 <= |pre| + a && a < b && 0 < b <= |OldText(edits)|
    requires ExactRun(edits, Offset(pre), Span(pre + OldText(edits), |pre| + a, |pre| + b))
    ensures Relocated(edits, pre, a, b, Track(edits, Offset(pre), Span(pre + OldText(edits), |pre| + a, |pre| + b)))
    decreases |edits|, 1
  {
    hide Offset, AddShiftExact, RemoveShiftExact, LocationAdd, Gte, PositionMove, Negate, PosAt, Track, ExactRun,
         Touched, Landing, OldText, NewText;
    Unfold(edits, Offset(pre), Span(pre + OldText(edits), |pre| + a, |pre| + b), a, b);
    var t, rest := edits[0].text, edits[1..];
    var later := OldText(rest);
    var text := pre + OldText(edits);
    assert text == pre + t + later;
    PosAtLength(pre + t, later);
    OffsetAppend(pre, t);
    GteIsOrder(text, |pre + t|, |pre| + b);
    if b <= |t| {
      EqualBefore(edits, pre, a, b);
    } else {
      EqualBeyond(edits, pre, a, b);
    }
  }

  /** The item ends in the unchanged text. */
  lemma {:induction false} EqualBefore(edits: seq<Edit>, pre: string, a: int, b: int)
    requires edits != [] && edits[0].change.Equal? && b <= |edits[0].text|
    requires 0 <= |pre| + a && a < b && 0 < b <= |OldText(edits)|
    requires var loc := Span(pre + OldText(edits), |pre| + a, |pre| + b);
             Track(edits, Offset(pre), loc) == Some(loc)
    ensures Relocated(edits, pre, a, b, Track(edits, Offset(pre), Span(pre + OldText(edits), |pre| + a, |pre| + b)))
  {
    hide Offset, AddShiftExact, RemoveShiftExact, LocationAdd, Gte, PositionMove, Negate, PosAt, Track, ExactRun,
         Touched, Landing, OldText, NewText;
    Unfold(edits, Offset(pre), Span(pre + OldText(edits), |pre| + a, |pre| + b), a, b);
    var t, rest := edits[0].text, edits[1..];
    assert pre + OldText(edits) == pre + t + OldText(rest);
    assert pre + t + NewText(rest) == pre + NewText(edits);
    SpanInPrefix(pre + t, OldText(rest), NewText(rest), |pre| + a, |pre| + b);
  }

  /** The item ends behind it. */
  lemma {:induction false} EqualBeyond(edits: seq<Edit>, pre: string, a: int, b: int)
    requires edits != [] && edits[0].change.Equal? && b > |edits[0].text|
    requires 0 <= |pre| + a && a < b && 0 < b <= |OldText(edits)|
    requires var loc, cur := Span(pre + OldText(edits), |pre| + a, |pre| + b), Offset(pre + edits[0].text);
             && ExactRun(edits[1..], cur, loc)
             && Track(edits, Offset(pre), loc) == Track(edits[1..], cur, loc)
    ensures Relocated(edits, pre, a, b, Track(edits, Offset(pre), Span(pre + OldText(edits), |pre| + a, |pre| + b)))
    decreases |edits|, 0
  {
    hide Offset, AddShiftExact, RemoveShiftExact, LocationAdd, Gte, PositionMove, Negate, PosAt, Track, ExactRun,
         Touched, Landing, OldText, NewText;
    Unfold(edits, Offset(pre), Span(pre + OldText(edits), |pre| + a, |pre| + b), a, b);
    var t, rest := edits[0].text, edits[1..];
    assert pre + OldText(edits) == pre + t + OldText(rest);
    assert pre + t + NewText(rest) == pre + NewText(edits);
    TrackIsExact(rest, pre + t, a - |t|, b - |t|);
  }

  lemma SpanInPrefix(p: string, x: string, y: string, i: nat, j: nat)
    requires i <= j <= |p|
    ensures Span(p + x, i, j) == Span(p + y, i, j) && (p + x)[i..j] == (p + y)[i..j]
  {
    PosAtPrefix(p, x, i);
    PosAtPrefix(p, x, j);
    PosAtPrefix(p, y, i);
    PosAtPrefix(p, y, j);
  }

  /** The edits for which relocation is exact: those that add or remove whole lines, and, for items on
      one line, those that contain no line break. */
  predicate ShapedFor(edits: seq<Edit>, cur: Position, singleLine: bool) {
    edits == [] ||
    (&& (edits[0].change.Equal? || WholeLines(edits[0].text, cur) || (singleLine && '\n' !in edits[0].text))
     && ShapedFor(edits[1..], After(edits[0], cur), singleLine))
  }

  predicate WholeLines(text: string, cur: Position) {
    cur.column == 0 && text != "" && text[|text| - 1] == '\n'
  }

  lemma {:induction false} NewlineFree(text: string)
    requires '\n' !in text
    ensures Offset(text).line == 0
    decreases |text|
  {
    if text != "" {
      NewlineFree(text[..|text| - 1]);
    }
  }

  lemma {:induction false} ShapedIsExact(edits: seq<Edit>, cur: Position, loc: Location)
    requires ShapedFor(edits, cur, loc.start.line == loc.end.line)
    ensures ExactRun(edits, cur, loc)
    decreases |edits|
  {
    if edits != [] {
      var text := edits[0].text;
      OffsetBounds(text);
      if '\n' !in text {
        NewlineFree(text);
      }
      if text != "" {
        OffsetBounds(text[..|text| - 1]);
      }
      match Step(edits[0], cur, loc)
      case Waiting(l) => ShapedIsExact(edits[1..], After(edits[0], cur), l);
      case _ =>
    }
  }

  /** Relocation is exact.  For every diff of the shape above and every item that covers old text from
      s up to e: the item is dropped if and only if some edit touches it, and otherwise its new
      location is that of a piece of the new text that reads the same. */
  lemma {:induction false} RelocationIsExact(edits: seq<Edit>, s: nat, e: nat)
    requires s < e <= |OldText(edits)|
    requires var loc := Span(OldText(edits), s, e); ShapedFor(edits, ORIGIN, loc.start.line == loc.end.line)
    ensures var r := Track(edits, ORIGIN, Span(OldText(edits), s, e));
            && (r.None? <==> exists k: nat | k < |edits| :: Touches(edits, k, s, e))
            && (r.Some? ==>
                  var k := Landing(edits, s, e);
                  && 0 <= k && k + (e - s) <= |NewText(edits)|
                  && r.value == Span(NewText(edits), k, k + (e - s))
                  && NewText(edits)[k..k + (e - s)] == OldText(edits)[s..e])
  {
    hide ExactRun, Track, PosAt, Touched, Touches, Landing, OldText, NewText, ShapedFor, Offset;
    OffsetNone();
    ShapedIsExact(edits, ORIGIN, Span(OldText(edits), s, e));
    assert "" + OldText(edits) == OldText(edits) && "" + NewText(edits) == NewText(edits);
    TrackIsExact(edits, "", s, e);
    TouchedIff(edits, s, e);
  }

  /** The items of a report: item i covers the old text from offset spans[i].0 up to spans[i].1. */
  ghost predicate Cover(edits: seq<Edit>, items: seq<Item>, spans: seq<(nat, nat)>) {
    && |spans| == |items|
    && forall i :: 0 <= i < |items| ==>
         var (s, e) := spans[i];
         && s < e <= |OldText(edits)| && items[i].location == Span(OldText(edits), s, e)
         && ShapedFor(edits, ORIGIN, items[i].location.start.line == items[i].location.end.line)
  }

  ghost predicate IsTouched(edits: seq<Edit>, span: (nat, nat)) {
    exists k: nat | k < |edits| :: Touches(edits, k, span.0, span.1)
  }

  ghost function TouchedCount(edits: seq<Edit>, spans: seq<(nat, nat)>): nat {
    if spans == [] then 0 else (if IsTouched(edits, spans[0]) then 1 else 0) + TouchedCount(edits, spans[1..])
  }

  /** A kept item is one of the given items, untouched, and covers the same characters in the new text. */
  ghost predicate KeptFrom(edits: seq<Edit>, r: Item, item: Item, span: (nat, nat)) {
    var k := Landing(edits, span.0, span.1);
    && r.id == item.id && !IsTouched(edits, span)
    && span.0 < span.1 <= |OldText(edits)|
    && 0 <= k && k + (span.1 - span.0) <= |NewText(edits)|
    && r.location == Span(NewText(edits), k, k + (span.1 - span.0))
    && NewText(edits)[k..k + (span.1 - span.0)] == OldText(edits)[span.0..span.1]
  }

  /** For a whole report: the kept items are the untouched ones, every one of them, relocated exactly, and
      as many are dropped as are touched. */
  lemma {:induction false} ReportIsRelocated(edits: seq<Edit>, items: seq<Item>, spans: seq<(nat, nat)>)
    requires Cover(edits, items, spans)
    ensures |items| - |Tracked(edits, ORIGIN, items)| == TouchedCount(edits, spans)
    ensures forall r <- Tracked(edits, ORIGIN, items) ::
              exists i :: 0 <= i < |items| && KeptFrom(edits, r, items[i], spans[i])
    ensures forall i :: 0 <= i < |items| && !IsTouched(edits, spans[i]) ==>
              exists r <- Tracked(edits, ORIGIN, items) :: KeptFrom(edits, r, items[i], spans[i])
    decreases |items|
  {
    hide Track, Touches, ShapedFor, Span, Landing, KeptFrom, IsTouched, OldText;
    if items != [] {
      var all, rest := Tracked(edits, ORIGIN, items), Tracked(edits, ORIGIN, items[1..]);
      assert Cover(edits, items[1..], spans[1..]) by {
        assert forall i :: 0 <= i < |items[1..]| ==> items[1..][i] == items[i + 1] && spans[1..][i] == spans[i + 1];
      }
      ReportIsRelocated(edits, items[1..], spans[1..]);
      FirstIsRelocated(edits, items, spans);
      forall r | r in all
        ensures exists i :: 0 <= i < |items| && KeptFrom(edits, r, items[i], spans[i])
      {
        if r in rest {
          var i :| 0 <= i < |items[1..]| && KeptFrom(edits, r, items[1..][i], spans[1..][i]);
          assert KeptFrom(edits, r, items[i + 1], spans[i + 1]);
        } else {
          assert KeptFrom(edits, r, items[0], spans[0]);
        }
      }
      forall i | 0 <= i < |items| && !IsTouched(edits, spans[i])
        ensures exists r <- all :: KeptFrom(edits, r, items[i], spans[i])
      {
        if i > 0 {
          assert items[i] == items[1..][i - 1] && spans[i] == spans[1..][i - 1];
          var r :| r in rest && KeptFrom(edits, r, items[1..][i - 1], spans[1..][i - 1]);
          assert r in all;
        } else {
          assert KeptFrom(edits, all[0], items[0], spans[0]);
        }
      }
    }
  }

  lemma {:induction false} FirstIsRelocated(edits: seq<Edit>, items: seq<Item>, spans: seq<(nat, nat)>)
    requires Cover(edits, items, spans) && items != []
    ensures var loc := Track(edits, ORIGIN, items[0].location);
            && (loc.None? <==> IsTouched(edits, spans[0]))
            && (loc.Some? ==> KeptFrom(edits, items[0].(location := loc.value), items[0], spans[0]))
  {
    hide Track, Touches, ShapedFor, Span, Landing, OldText, NewText;
    RelocationIsExact(edits, spans[0].0, spans[0].1);
  }

  // ----- the exact condition for one edit, and an item that is misplaced

  /** For a diff that adds one piece of text, an item behind it is relocated exactly if and only if the
      shift is exact. */
  lemma {:induction false} OneAdditionExactIff(p: string, t: string, q: string, a: nat, b: nat)
    requires 0 < a < b <= |q|
    ensures var loc := Span(p + q, |p| + a, |p| + b);
            Track([Edit(Equal, p), Edit(Added, t), Edit(Equal, q)], ORIGIN, loc)
            == Some(Span(p + t + q, |p + t| + a, |p + t| + b))
            <==> AddShiftExact(Offset(p), Offset(t), loc)
  {
    hide Offset, AddShiftExact, LocationAdd, Gte, Track, PosAt, PositionMove;
    var loc := Span(p + q, |p| + a, |p| + b);
    FromOrigin(p);
    PosAtLength(p, q);
    GteIsOrder(p + q, |p|, |p| + b);
    GteIsOrder(p + q, |p|, |p| + a);
    LastEdit(Edit(Equal, q), PositionMove(Offset(p), Offset(t)), LocationAdd(loc, Offset(t), Offset(p).line == loc.start.line));
    TwoEdits(p, t, q, loc);
    AddIsExactIff(p, t, q, a, b);
  }

  lemma {:induction false} FromOrigin(p: string)
    ensures PositionMove(ORIGIN, Offset(p)) == Offset(p)
  {
    hide Offset;
  }

  lemma {:induction false} LastEdit(edit: Edit, cur: Position, loc: Location)
    requires edit.change.Equal?
    ensures Track([edit], cur, loc) == Some(loc)
  {
    assert [edit][1..] == [];
  }

  lemma {:induction false} TwoEdits(p: string, t: string, q: string, loc: Location)
    requires !Gte(Offset(p), loc.end) && !Gte(Offset(p), loc.start) && PositionMove(ORIGIN, Offset(p)) == Offset(p)
    ensures Track([Edit(Equal, p), Edit(Added, t), Edit(Equal, q)], ORIGIN, loc)
         == Track([Edit(Equal, q)], PositionMove(Offset(p), Offset(t)),
                  LocationAdd(loc, Offset(t), Offset(p).line == loc.start.line))
  {
    hide Offset, LocationAdd;
    var edits := [Edit(Equal, p), Edit(Added, t), Edit(Equal, q)];
    assert edits[1..] == [Edit(Added, t), Edit(Equal, q)];
    assert edits[1..][1..] == [Edit(Equal, q)];
    assert Step(edits[0], ORIGIN, loc) == Waiting(loc);
  }

  /** The same for a diff that removes one piece of text. */
  lemma {:induction false} OneRemovalExactIff(p: string, t: string, q: string, a: nat, b: nat)
    requires 0 < a < b <= |q|
    ensures var loc := Span(p + t + q, |p + t| + a, |p + t| + b);
            Track([Edit(Equal, p), Edit(Removed, t), Edit(Equal, q)], ORIGIN, loc)
            == Some(Span(p + q, |p| + a, |p| + b))
            <==> RemoveShiftExact(Offset(p), Offset(t), loc)
  {
    hide Offset, RemoveShiftExact, LocationAdd, Gte, Track, PosAt, PositionMove, Negate;
    var loc := Span(p + t + q, |p + t| + a, |p + t| + b);
    FromOrigin(p);
    OffsetAppend(p, t);
    PosAtLength(p + t, q);
    PosAtLength(p, t + q);
    assert p + (t + q) == p + t + q;
    GteIsOrder(p + t + q, |p|, |p + t| + b);
    GteIsOrder(p + t + q, |p + t|, |p + t| + a);
    TwoEditsRemoved(p, t, q, loc);
    LastEdit(Edit(Equal, q), Offset(p), LocationAdd(loc, Negate(Offset(t)), Offset(p).line == loc.start.line));
    RemoveIsExactIff(p, t, q, a, b);
  }

  lemma {:induction false} TwoEditsRemoved(p: string, t: string, q: string, loc: Location)
    requires !Gte(Offset(p), loc.end) && PositionMove(ORIGIN, Offset(p)) == Offset(p)
    requires !Gte(PositionMove(Offset(p), Offset(t)), loc.start)
    ensures Track([Edit(Equal, p), Edit(Removed, t), Edit(Equal, q)], ORIGIN, loc)
         == Track([Edit(Equal, q)], Offset(p), LocationAdd(loc, Negate(Offset(t)), Offset(p).line == loc.start.line))
  {
    hide Offset, LocationAdd, Negate;
    var edits := [Edit(Equal, p), Edit(Removed, t), Edit(Equal, q)];
    assert edits[1..] == [Edit(Removed, t), Edit(Equal, q)];
    assert edits[1..][1..] == [Edit(Equal, q)];
    assert Step(edits[0], ORIGIN, loc) == Waiting(loc);
  }

  /** The item that covers q from a up to b in the text p + q gets another location than that of the same
      characters in p + t + q. */
  ghost predicate Misplaced(p: string, t: string, q: string, a: nat, b: nat) {
    && a < b <= |q|
    && Track([Edit(Equal, p), Edit(Added, t), Edit(Equal, q)], ORIGIN, Span(p + q, |p| + a, |p| + b))
       != Some(Span(p + t + q, |p + t| + a, |p + t| + b))
  }

  /** An item over several lines is misplaced when text without a line break is added before it on its
      first line: the column of its end is shifted although its last line did not change. */
  lemma MultiLineItemIsMisplaced(p: string, t: string, q: string, a: nat, b: nat)
    requires 0 < a < b <= |q| && t != "" && '\n' !in t && '\n' !in q[..a] && '\n' in q[..b]
    ensures Misplaced(p, t, q, a, b)
  {
    OneAdditionExactIff(p, t, q, a, b);
    SpanFrom(p, q, a, b);
    NewlineFree(t);
    NewlineFree(q[..a]);
    NewlineHeld(q[..b]);
    OffsetBounds(t);
  }

  lemma {:induction false} NewlineHeld(text: string)
    requires '\n' in text
    ensures Offset(text).line > 0
    decreases |text|
  {
    var init := text[..|text| - 1];
    OffsetBounds(init);
    if text[|text| - 1] != '\n' {
      assert text == init + [text[|text| - 1]];
      NewlineHeld(init);
    }
  }

  /** Such items exist: adding "x" before an item that starts with a line break. */
  lemma SomeItemIsMisplaced()
    ensures exists p: string, t: string, q: string, a: nat, b: nat :: Misplaced(p, t, q, a, b)
  {
    hide Misplaced;
    var q := " \n";
    assert q[..1] == " " && q[..2] == q && q[1] == '\n';
    MultiLineItemIsMisplaced("", "x", q, 1, 2);
  }
}
