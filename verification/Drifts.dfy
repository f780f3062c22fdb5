/** Relocation by any edit script.  A shift never gets the lines of an item wrong, only the columns of its
    ends, by an amount that does not depend on earlier errors.  An untouched item is therefore relocated
    exactly if and only if it is neither dropped nor finished too early, and its errors add up to nothing. */
module Drifts {
  import opened Locations
  import opened Options
  import opened FileDiff

  /** By how much the columns of the ends of an item are too large. */
  datatype Drift = Drift(start: int, end: int)

  const NO_DRIFT := Drift(0, 0)

  function Drifted(loc: Location, d: Drift): Location {
    Location(Position(loc.start.line, loc.start.column + d.start), Position(loc.end.line, loc.end.column + d.end))
  }

  function Sum(d: Drift, e: Drift): Drift {
    Drift(d.start + e.start, d.end + e.end)
  }

  /** The errors that shifting an item behind an edit makes, from the lines of the item only. */
  function StepDrift(edit: Edit, cur: Position, loc: Location): Drift {
    var offset := Offset(edit.text);
    match edit.change
    case Equal => NO_DRIFT
    case Added =>
      if cur.line != loc.start.line then NO_DRIFT
      else
        Drift(if offset.line > 0 then cur.column else 0,
              if loc.end.line > cur.line then (if offset.line == 0 then offset.column else 0)
              else if offset.line > 0 then cur.column - offset.column else 0)
    case Removed =>
      var last := cur.line + offset.line;
      if last != loc.start.line then NO_DRIFT
      else
        Drift(if offset.line > 0 then offset.column - cur.column else 0,
              if loc.end.line > last then (if offset.line == 0 then -offset.column else 0)
              else if offset.line > 0 then offset.column - cur.column else 0)
  }

  /** The item, of which `d` is the drift so far, is not dropped, not finished before the walk has reached its
      end, and without drift by then. */
  predicate ErrorsCancel(edits: seq<Edit>, cur: Position, loc: Location, d: Drift) {
    if edits == [] then d == NO_DRIFT
    else if edits[0].change.Equal? && Gte(After(edits[0], cur), loc.end.(column := loc.end.column - d.end)) then
      d == NO_DRIFT
    else
      match Step(edits[0], cur, loc)
      case Dropped => false
      case Finished(_) => false
      case Waiting(l) => ErrorsCancel(edits[1..], After(edits[0], cur), l, Sum(d, StepDrift(edits[0], cur, loc)))
  }

  // ----- one shift

  lemma AddDrifts(p: Position, t: Position, pa: Position, pb: Position, d: Drift, edit: Edit)
    requires p.line >= 0 && p.column >= 0 && t.line >= 0 && t.column >= 0 && Behind(pa, pb)
    requires edit.change.Added? && Offset(edit.text) == t
    ensures var ideal := Location(PositionMove(p, pa), PositionMove(p, pb));
            var loc, end := Drifted(ideal, d), PositionMove(p, t);
            LocationAdd(loc, t, p.line == loc.start.line) ==
            Drifted(Location(PositionMove(end, pa), PositionMove(end, pb)), Sum(d, StepDrift(edit, p, loc)))
  {
    hide Offset;
  }

  lemma RemoveDrifts(p: Position, t: Position, pa: Position, pb: Position, d: Drift, edit: Edit)
    requires p.line >= 0 && p.column >= 0 && t.line >= 0 && t.column >= 0 && Behind(pa, pb)
    requires edit.change.Removed? && Offset(edit.text) == t
    ensures var end := PositionMove(p, t);
            var loc := Drifted(Location(PositionMove(end, pa), PositionMove(end, pb)), d);
            LocationAdd(loc, Negate(t), p.line == loc.start.line) ==
            Drifted(Location(PositionMove(p, pa), PositionMove(p, pb)), Sum(d, StepDrift(edit, p, loc)))
  {
    hide Offset;
  }

  /** Behind added text, the place of the item shifts with it, and the drift grows by that of the step. */
  lemma {:induction false} AddedDrifts(pre: string, edit: Edit, rest: string, a: nat, b: nat, d: Drift)
    requires edit.change.Added? && 0 < a < b <= |rest|
    ensures var loc := Drifted(Span(pre + rest, |pre| + a, |pre| + b), d);
            var t := edit.text;
            LocationAdd(loc, Offset(t), Offset(pre).line == loc.start.line) ==
            Drifted(Span(pre + t + rest, |pre + t| + a, |pre + t| + b), Sum(d, StepDrift(edit, Offset(pre), loc)))
  {
    hide Offset, PosAt, PositionMove, LocationAdd, Behind, StepDrift, Drifted;
    SpanFrom(pre, rest, a, b);
    SpanFrom(pre + edit.text, rest, a, b);
    OffsetAppend(pre, edit.text);
    OffsetBounds(pre);
    OffsetBounds(edit.text);
    SpanBehind(rest, a, b);
    AddDrifts(Offset(pre), Offset(edit.text), PosAt(rest, a), PosAt(rest, b), d, edit);
  }

  lemma {:induction false} RemovedDrifts(pre: string, edit: Edit, rest: string, a: nat, b: nat, d: Drift)
    requires edit.change.Removed? && 0 < a < b <= |rest|
    ensures var t := edit.text;
            var loc := Drifted(Span(pre + t + rest, |pre + t| + a, |pre + t| + b), d);
            LocationAdd(loc, Negate(Offset(t)), Offset(pre).line == loc.start.line) ==
            Drifted(Span(pre + rest, |pre| + a, |pre| + b), Sum(d, StepDrift(edit, Offset(pre), loc)))
  {
    hide Offset, PosAt, PositionMove, LocationAdd, Behind, StepDrift, Drifted, Negate;
    SpanFrom(pre, rest, a, b);
    SpanFrom(pre + edit.text, rest, a, b);
    OffsetAppend(pre, edit.text);
    OffsetBounds(pre);
    OffsetBounds(edit.text);
    SpanBehind(rest, a, b);
    RemoveDrifts(Offset(pre), Offset(edit.text), PosAt(rest, a), PosAt(rest, b), d, edit);
  }

  // ----- an item that is finished at the wrong time is not exact

  predicate Before(p: Position, q: Position) {
    !Gte(p, q)
  }

  /** The walk has passed the place of the item, and the item lies too far back: `lines` lines have been
      added since. */
  ghost predicate Late(cur: Position, loc: Location, ideal: Location, lines: nat) {
    && Before(ideal.start, ideal.end) && Gte(cur, ideal.end)
    && loc.start.line == ideal.start.line + lines && loc.end.line == ideal.end.line + lines
    && cur.line >= ideal.end.line + lines
    && (Before(ideal.end, loc.end) || Before(ideal.start, loc.start))
  }

  lemma {:induction false} LateStep(edit: Edit, cur: Position, loc: Location, ideal: Location, lines: nat)
    requires Late(cur, loc, ideal, lines) && Step(edit, cur, loc).Waiting?
    ensures exists more: nat :: Late(After(edit, cur), Step(edit, cur, loc).location, ideal, more)
  {
    hide Offset;
    OffsetBounds(edit.text);
    var offset := Offset(edit.text);
    var l := Step(edit, cur, loc).location;
    match edit.change
    case Equal => assert Late(After(edit, cur), l, ideal, lines);
    case Added => assert Late(After(edit, cur), l, ideal, lines + offset.line);
    case Removed => assert Late(After(edit, cur), l, ideal, lines);
  }

  lemma {:induction false} LateIsNeverExact(edits: seq<Edit>, cur: Position, loc: Location, ideal: Location, lines: nat)
    requires Late(cur, loc, ideal, lines)
    ensures Track(edits, cur, loc) != Some(ideal)
    decreases |edits|
  {
    hide Step, Late;
    assert loc != ideal by {
      LateDiffers(cur, loc, ideal, lines);
    }
    if edits != [] && Step(edits[0], cur, loc).Waiting? {
      LateStep(edits[0], cur, loc, ideal, lines);
      var l := Step(edits[0], cur, loc).location;
      var more: nat :| Late(After(edits[0], cur), l, ideal, more);
      LateIsNeverExact(edits[1..], After(edits[0], cur), l, ideal, more);
    } else if edits != [] && Step(edits[0], cur, loc).Finished? {
      FinishedAsIs(edits[0], cur, loc);
    }
  }

  lemma LateDiffers(cur: Position, loc: Location, ideal: Location, lines: nat)
    requires Late(cur, loc, ideal, lines)
    ensures loc != ideal
  {
  }

  lemma FinishedAsIs(edit: Edit, cur: Position, loc: Location)
    requires Step(edit, cur, loc).Finished?
    ensures Step(edit, cur, loc).location == loc
  {
  }

  // ----- whole scripts

  /** An untouched item ends behind the beginning of the new text, and within it. */
  lemma {:induction false} LandingFits(edits: seq<Edit>, a: int, b: int)
    requires a < b && 0 < b <= |OldText(edits)| && !Touched(edits, a, b)
    ensures var k := Landing(edits, a, b);
            0 < k + (b - a) <= |NewText(edits)| && if a >= 0 then k >= 0 else k == a
    decreases |edits|
  {
    assert edits != [];
    hide OldText, NewText, Touched, Landing;
    FirstEdit(edits, a, b);
    var n := |edits[0].text|;
    match edits[0].change
    case Added => LandingFits(edits[1..], a, b);
    case Removed => LandingFits(edits[1..], a - n, b - n);
    case Equal =>
      if b > n {
        LandingFits(edits[1..], a - n, b - n);
      }
  }

  /** The place at which an untouched item should end up. */
  function Destination(edits: seq<Edit>, pre: string, a: int, b: int): Location
    requires 0 <= |pre| + a && a < b && 0 < b <= |OldText(edits)| && !Touched(edits, a, b)
  {
    LandingFits(edits, a, b);
    var k := |pre| + Landing(edits, a, b);
    Span(pre + NewText(edits), k, k + (b - a))
  }

  /** `pre` is the new text so far, the item lies a to b characters behind it, and `d` is its drift. */
  lemma {:induction false} TrackIsExactIff(edits: seq<Edit>, pre: string, a: int, b: int, d: Drift)
    requires 0 <= |pre| + a && a < b && 0 < b <= |OldText(edits)| && !Touched(edits, a, b)
    ensures var loc := Drifted(Span(pre + OldText(edits), |pre| + a, |pre| + b), d);
            Track(edits, Offset(pre), loc) == Some(Destination(edits, pre, a, b)) <==>
            ErrorsCancel(edits, Offset(pre), loc, d)
    decreases |edits|, 1
  {
    assert edits != [];
    match edits[0].change
    case Added => AddedIff(edits, pre, a, b, d);
    case Removed => RemovedIff(edits, pre, a, b, d);
    case Equal => EqualIff(edits, pre, a, b, d);
  }

  lemma {:induction false} CancelUnfolded(edits: seq<Edit>, cur: Position, loc: Location, d: Drift)
    requires edits != []
    ensures ErrorsCancel(edits, cur, loc, d) <==>
            if edits[0].change.Equal? && Gte(After(edits[0], cur), loc.end.(column := loc.end.column - d.end)) then
              d == NO_DRIFT
            else
              match Step(edits[0], cur, loc)
              case Dropped => false
              case Finished(_) => false
              case Waiting(l) => ErrorsCancel(edits[1..], After(edits[0], cur), l, Sum(d, StepDrift(edits[0], cur, loc)))
  {
  }

  lemma {:induction false} AddedIff(edits: seq<Edit>, pre: string, a: int, b: int, d: Drift)
    requires 0 <= |pre| + a && a < b && 0 < b <= |OldText(edits)| && !Touched(edits, a, b)
    requires edits != [] && edits[0].change.Added?
    ensures var loc := Drifted(Span(pre + OldText(edits), |pre| + a, |pre| + b), d);
            Track(edits, Offset(pre), loc) == Some(Destination(edits, pre, a, b)) <==>
            ErrorsCancel(edits, Offset(pre), loc, d)
    decreases |edits|, 0
  {
    hide Offset, LocationAdd, Gte, PosAt, Track, Touched, Landing, OldText, NewText, ErrorsCancel, StepDrift, Drifted,
         ExactRun, Touches, PositionMove;
    var t, rest := edits[0].text, edits[1..];
    var loc := Drifted(Span(pre + OldText(edits), |pre| + a, |pre| + b), d);
    Unfold(edits, Offset(pre), loc, a, b);
    CancelUnfolded(edits, Offset(pre), loc, d);
    OffsetAppend(pre, t);
    AddedDrifts(pre, edits[0], OldText(rest), a, b, d);
    assert pre + t + NewText(rest) == pre + NewText(edits);
    LandingFits(rest, a, b);
    assert Destination(edits, pre, a, b) == Destination(rest, pre + t, a, b);
    TrackIsExactIff(rest, pre + t, a, b, Sum(d, StepDrift(edits[0], Offset(pre), loc)));
  }

  lemma {:induction false} RemovedIff(edits: seq<Edit>, pre: string, a: int, b: int, d: Drift)
    requires 0 <= |pre| + a && a < b && 0 < b <= |OldText(edits)| && !Touched(edits, a, b)
    requires edits != [] && edits[0].change.Removed?
    ensures var loc := Drifted(Span(pre + OldText(edits), |pre| + a, |pre| + b), d);
            Track(edits, Offset(pre), loc) == Some(Destination(edits, pre, a, b)) <==>
            ErrorsCancel(edits, Offset(pre), loc, d)
    decreases |edits|, 0
  {
    hide Offset, LocationAdd, Gte, PosAt, Track, Touched, Landing, OldText, NewText, ErrorsCancel, StepDrift, Drifted,
         ExactRun, Touches, PositionMove, Negate;
    var t, rest := edits[0].text, edits[1..];
    var loc := Drifted(Span(pre + OldText(edits), |pre| + a, |pre| + b), d);
    Unfold(edits, Offset(pre), loc, a, b);
    CancelUnfolded(edits, Offset(pre), loc, d);
    assert pre + OldText(edits) == pre + t + OldText(rest);
    RemovedDrifts(pre, edits[0], OldText(rest), a - |t|, b - |t|, d);
    LandingFits(rest, a - |t|, b - |t|);
    assert Destination(edits, pre, a, b) == Destination(rest, pre, a - |t|, b - |t|);
    TrackIsExactIff(rest, pre, a - |t|, b - |t|, Sum(d, StepDrift(edits[0], Offset(pre), loc)));
  }

  lemma {:induction false} EqualIff(edits: seq<Edit>, pre: string, a: int, b: int, d: Drift)
    requires 0 <= |pre| + a && a < b && 0 < b <= |OldText(edits)| && !Touched(edits, a, b)
    requires edits != [] && edits[0].change.Equal?
    ensures var loc := Drifted(Span(pre + OldText(edits), |pre| + a, |pre| + b), d);
            Track(edits, Offset(pre), loc) == Some(Destination(edits, pre, a, b)) <==>
            ErrorsCancel(edits, Offset(pre), loc, d)
    decreases |edits|, 0
  {
    hide Offset, LocationAdd, PosAt, Track, Touched, Landing, OldText, NewText, ErrorsCancel, StepDrift,
         ExactRun, Touches, PositionMove, Gte;
    var t, rest := edits[0].text, edits[1..];
    var ideal := Span(pre + OldText(edits), |pre| + a, |pre| + b);
    var loc := Drifted(ideal, d);
    Unfold(edits, Offset(pre), loc, a, b);
    CancelUnfolded(edits, Offset(pre), loc, d);
    OffsetAppend(pre, t);
    assert pre + OldText(edits) == pre + t + OldText(rest);
    assert pre + t + NewText(rest) == pre + NewText(edits);
    PosAtLength(pre + t, OldText(rest));
    GteIsOrder(pre + OldText(edits), |pre + t|, |pre| + b);
    if b <= |t| {
      SpanInPrefix(pre + t, OldText(rest), NewText(rest), |pre| + a, |pre| + b);
      assert Destination(edits, pre, a, b) == ideal;
      if !Gte(Offset(pre + t), loc.end) {
        GteIsOrder(pre + OldText(edits), |pre| + a, |pre| + b);
        assert Late(Offset(pre + t), loc, ideal, 0) by {
          LateNow(Offset(pre + t), loc, ideal, d);
        }
        LateIsNeverExact(rest, Offset(pre + t), loc, ideal, 0);
      }
    } else {
      LandingFits(rest, a - |t|, b - |t|);
      assert Destination(edits, pre, a, b) == Destination(rest, pre + t, a - |t|, b - |t|);
      if Gte(Offset(pre + t), loc.end) {
        var end := |pre + t| + Landing(rest, a - |t|, b - |t|) + (b - a);
        PosAtLength(pre + t, NewText(rest));
        GteIsOrder(pre + NewText(edits), |pre + t|, end);
        assert Destination(edits, pre, a, b).end == PosAt(pre + NewText(edits), end);
      } else {
        EqualDrifts(edits[0], Offset(pre), loc, d);
        TrackIsExactIff(rest, pre + t, a - |t|, b - |t|, d);
      }
    }
  }

  lemma EqualDrifts(edit: Edit, cur: Position, loc: Location, d: Drift)
    requires edit.change.Equal?
    ensures Sum(d, StepDrift(edit, cur, loc)) == d
  {
  }

  lemma LateNow(cur: Position, loc: Location, ideal: Location, d: Drift)
    requires loc == Drifted(ideal, d) && !Gte(ideal.start, ideal.end) && Gte(cur, ideal.end) && !Gte(cur, loc.end)
    ensures Late(cur, loc, ideal, 0)
  {
  }

  /** For every script and every item that covers old text from s up to e and that no edit touches: it ends up
      at its place in the new text if and only if its errors cancel. */
  lemma {:induction false} RelocationIsExactIff(edits: seq<Edit>, s: nat, e: nat)
    requires s < e <= |OldText(edits)| && forall k: nat | k < |edits| :: !Touches(edits, k, s, e)
    ensures var k := Landing(edits, s, e);
            && 0 <= k && k + (e - s) <= |NewText(edits)|
            && NewText(edits)[k..k + (e - s)] == OldText(edits)[s..e]
            && (Track(edits, ORIGIN, Span(OldText(edits), s, e)) == Some(Span(NewText(edits), k, k + (e - s))) <==>
                ErrorsCancel(edits, ORIGIN, Span(OldText(edits), s, e), NO_DRIFT))
  {
    hide Track, PosAt, Touched, Touches, Landing, OldText, NewText, Offset, ErrorsCancel;
    TouchedIff(edits, s, e);
    LandingFits(edits, s, e);
    SameCharacters(edits, s, e);
    OffsetNone();
    assert "" + OldText(edits) == OldText(edits) && "" + NewText(edits) == NewText(edits);
    var loc := Span(OldText(edits), s, e);
    assert Drifted(loc, NO_DRIFT) == loc;
    TrackIsExactIff(edits, "", s, e, NO_DRIFT);
  }

  lemma FirstEdit(edits: seq<Edit>, a: int, b: int)
    requires edits != []
    ensures var (t, rest) := (edits[0].text, edits[1..]);
            match edits[0].change
            case Added =>
              && OldText(edits) == OldText(rest) && NewText(edits) == t + NewText(rest)
              && (Touched(edits, a, b) <==> a <= 0 || Touched(rest, a, b))
              && Landing(edits, a, b) == |t| + Landing(rest, a, b)
            case Removed =>
              && OldText(edits) == t + OldText(rest) && NewText(edits) == NewText(rest)
              && (Touched(edits, a, b) <==> a <= |t| || Touched(rest, a - |t|, b - |t|))
              && Landing(edits, a, b) == Landing(rest, a - |t|, b - |t|)
            case Equal =>
              && OldText(edits) == t + OldText(rest) && NewText(edits) == t + NewText(rest)
              && (Touched(edits, a, b) <==> b > |t| && Touched(rest, a - |t|, b - |t|))
              && Landing(edits, a, b) == if b <= |t| then a else |t| + Landing(rest, a - |t|, b - |t|)
  {
    Unfold(edits, ORIGIN, Location(ORIGIN, ORIGIN), a, b);
  }

  /** Character i of the old text reads the same as the one at its place. */
  ghost predicate Kept(edits: seq<Edit>, a: int, b: int, i: nat) {
    var j := i + Landing(edits, a, b) - a;
    i < |OldText(edits)| && 0 <= j < |NewText(edits)| && NewText(edits)[j] == OldText(edits)[i]
  }

  lemma {:induction false} KeptBehind(edits: seq<Edit>, a: int, b: int, i: nat)
    requires edits != [] && !Touched(edits, a, b)
    requires var n := if edits[0].change.Added? then 0 else |edits[0].text|;
             && (edits[0].change.Equal? ==> n < b)
             && n <= i && Kept(edits[1..], a - n, b - n, i - n)
    ensures Kept(edits, a, b, i)
  {
    hide OldText, NewText, Touched, Landing;
    FirstEdit(edits, a, b);
  }

  lemma RestUntouched(edits: seq<Edit>, a: int, b: int, i: nat)
    requires edits != [] && a < b <= |OldText(edits)| && !Touched(edits, a, b) && a <= i < b
    requires edits[0].change.Equal? ==> |edits[0].text| <= i
    ensures var n := if edits[0].change.Added? then 0 else |edits[0].text|;
            n <= i && b - n <= |OldText(edits[1..])| && !Touched(edits[1..], a - n, b - n)
  {
    hide OldText, NewText, Touched, Landing;
    FirstEdit(edits, a, b);
  }

  /** An untouched item reads the same at its place in the new text. */
  lemma {:induction false} SameCharacter(edits: seq<Edit>, a: int, b: int, i: nat)
    requires a < b <= |OldText(edits)| && !Touched(edits, a, b) && a <= i < b
    ensures Kept(edits, a, b, i)
    decreases |edits|
  {
    assert edits != [];
    hide OldText, NewText, Touched, Landing, Kept;
    var n := if edits[0].change.Added? then 0 else |edits[0].text|;
    if edits[0].change.Equal? && i < n {
      KeptInside(edits, a, b, i);
    } else {
      RestUntouched(edits, a, b, i);
      SameCharacter(edits[1..], a - n, b - n, i - n);
      KeptBehind(edits, a, b, i);
    }
  }

  lemma {:induction false} KeptInside(edits: seq<Edit>, a: int, b: int, i: nat)
    requires edits != [] && a < b <= |OldText(edits)| && !Touched(edits, a, b) && a <= i < b
    requires edits[0].change.Equal? && i < |edits[0].text|
    ensures Kept(edits, a, b, i)
  {
    hide OldText, NewText, Touched, Landing;
    FirstEdit(edits, a, b);
    var n := |edits[0].text|;
    if n < b {
      LandingFits(edits[1..], a - n, b - n);
    }
  }

  lemma {:induction false} SameCharacters(edits: seq<Edit>, a: nat, b: nat)
    requires a < b <= |OldText(edits)| && !Touched(edits, a, b)
    ensures var k := Landing(edits, a, b);
            0 <= k && k + (b - a) <= |NewText(edits)| && NewText(edits)[k..k + (b - a)] == OldText(edits)[a..b]
  {
    hide OldText, NewText, Touched, Landing;
    LandingFits(edits, a, b);
    var k := Landing(edits, a, b);
    forall i | a <= i < b
      ensures NewText(edits)[k + (i - a)] == OldText(edits)[i]
    {
      SameCharacter(edits, a, b, i);
    }
    SlicesAgree(NewText(edits), OldText(edits), k, a, b);
  }

  lemma SlicesAgree(x: string, y: string, k: nat, a: nat, b: nat)
    requires a <= b <= |y| && k + (b - a) <= |x|
    requires forall i | a <= i < b :: x[k + (i - a)] == y[i]
    ensures x[k..k + (b - a)] == y[a..b]
  {
    forall m | 0 <= m < b - a
      ensures x[k..k + (b - a)][m] == y[a..b][m]
    {
      assert y[a..b][m] == y[a + m];
    }
  }

  // ----- a replaced piece of text

  /** Errors do cancel: where text without a line break is replaced by such text, an item behind it is relocated
      exactly if and only if it starts on another line, or lies on one line, or the texts are of the same
      length. */
  lemma {:induction false} OneReplacementExactIff(p: string, t: string, u: string, q: string, a: nat, b: nat)
    requires 0 < a < b <= |q| && '\n' !in t && '\n' !in u
    ensures var loc := Span(p + t + q, |p + t| + a, |p + t| + b);
            Track([Edit(Equal, p), Edit(Removed, t), Edit(Added, u), Edit(Equal, q)], ORIGIN, loc)
            == Some(Span(p + u + q, |p + u| + a, |p + u| + b))
            <==> loc.start.line != Offset(p).line || loc.start.line == loc.end.line || |t| == |u|
  {
    hide Offset, LocationAdd, Gte, Track, PosAt, PositionMove, Negate, StepDrift, Drifted, Span, WordDrift;
    var loc := Span(p + t + q, |p + t| + a, |p + t| + b);
    var ideal := Span(p + u + q, |p + u| + a, |p + u| + b);
    var d := WordDrift(Offset(p), loc, |t|);
    var e := WordDrift(Offset(p), loc, |u|);
    RemovedWord(p, t, q, a, b);
    AddedWord(p, t, u, q, a, b, -d);
    var between := Drifted(Span(p + q, |p| + a, |p| + b), Drift(0, -d));
    ReplacementWaits(p, t, q, a, b, between, Drift(0, -d));
    FourEdits(p, t, u, q, loc, between);
    LastEdit(Edit(Equal, q), PositionMove(Offset(p), Offset(u)), Drifted(ideal, Drift(0, e - d)));
    DriftedIff(ideal, Drift(0, e - d));
    assert e == d <==> loc.start.line != Offset(p).line || loc.start.line == loc.end.line || |t| == |u| by {
      WordsDriftAlike(p, t, u, q, a, b);
    }
  }

  /** How much n characters without a line break move the end of an item that should not move. */
  function WordDrift(cur: Position, loc: Location, n: nat): int {
    if cur.line == loc.start.line < loc.end.line then n else 0
  }

  lemma {:induction false} WordsDriftAlike(p: string, t: string, u: string, q: string, a: nat, b: nat)
    requires 0 < a < b <= |q| && '\n' !in t
    ensures var loc := Span(p + t + q, |p + t| + a, |p + t| + b);
            WordDrift(Offset(p), loc, |u|) == WordDrift(Offset(p), loc, |t|) <==>
            loc.start.line != Offset(p).line || loc.start.line == loc.end.line || |t| == |u|
  {
    hide Offset, PosAt, Span;
    NewlineFree(t);
    SameLines(p, t, q, a, b);
  }

  lemma {:induction false} RemovedWord(p: string, t: string, q: string, a: nat, b: nat)
    requires 0 < a < b <= |q| && '\n' !in t
    ensures var loc := Span(p + t + q, |p + t| + a, |p + t| + b);
            LocationAdd(loc, Negate(Offset(t)), Offset(p).line == loc.start.line) ==
            Drifted(Span(p + q, |p| + a, |p| + b), Drift(0, -WordDrift(Offset(p), loc, |t|)))
  {
    hide Offset, LocationAdd, PosAt, PositionMove, Negate, StepDrift, Drifted, Span, WordDrift;
    var loc := Span(p + t + q, |p + t| + a, |p + t| + b);
    NewlineFree(t);
    OffsetBounds(t);
    SameLines(p, t, q, a, b);
    Undrifted(p, Edit(Removed, t), q, a, b);
    LineDrift(Edit(Removed, t), |t|, Offset(p), loc);
  }

  lemma {:induction false} Undrifted(p: string, edit: Edit, q: string, a: nat, b: nat)
    requires edit.change.Removed? && 0 < a < b <= |q|
    ensures var loc := Span(p + edit.text + q, |p + edit.text| + a, |p + edit.text| + b);
            LocationAdd(loc, Negate(Offset(edit.text)), Offset(p).line == loc.start.line) ==
            Drifted(Span(p + q, |p| + a, |p| + b), StepDrift(edit, Offset(p), loc))
  {
    hide Offset, LocationAdd, PosAt, PositionMove, Negate, StepDrift, Span;
    var loc := Span(p + edit.text + q, |p + edit.text| + a, |p + edit.text| + b);
    RemovedDrifts(p, edit, q, a, b, NO_DRIFT);
    assert Drifted(loc, NO_DRIFT) == loc;
  }

  lemma {:induction false} AddedWord(p: string, t: string, u: string, q: string, a: nat, b: nat, d: int)
    requires 0 < a < b <= |q| && '\n' !in t && '\n' !in u
    ensures var loc := Span(p + t + q, |p + t| + a, |p + t| + b);
            var between := Drifted(Span(p + q, |p| + a, |p| + b), Drift(0, d));
            LocationAdd(between, Offset(u), Offset(p).line == between.start.line) ==
            Drifted(Span(p + u + q, |p + u| + a, |p + u| + b), Drift(0, d + WordDrift(Offset(p), loc, |u|)))
  {
    hide Offset, LocationAdd, PosAt, PositionMove, StepDrift, Drifted, Span;
    var loc := Span(p + t + q, |p + t| + a, |p + t| + b);
    var ideal := Span(p + q, |p| + a, |p| + b);
    NewlineFree(t);
    NewlineFree(u);
    OffsetBounds(u);
    SameLines(p, t, q, a, b);
    DriftKeepsLines(ideal, Drift(0, d));
    AddedDrifts(p, Edit(Added, u), q, a, b, Drift(0, d));
    LineDrift(Edit(Added, u), |u|, Offset(p), Drifted(ideal, Drift(0, d)));
    SumOfEnds(d, WordDrift(Offset(p), loc, |u|));
  }

  lemma DriftedIff(loc: Location, d: Drift)
    ensures Drifted(loc, d) == loc <==> d == NO_DRIFT
  {
  }

  lemma SumOfEnds(x: int, y: int)
    ensures Sum(Drift(0, x), Drift(0, y)) == Drift(0, x + y) && Drift(0, 0) == NO_DRIFT
  {
  }

  lemma DriftKeepsLines(loc: Location, d: Drift)
    ensures Drifted(loc, d).start.line == loc.start.line && Drifted(loc, d).end.line == loc.end.line
  {
  }

  /** Removing text without a line break leaves the item on its lines. */
  lemma {:induction false} SameLines(p: string, t: string, q: string, a: nat, b: nat)
    requires 0 < a < b <= |q| && Offset(t).line == 0
    ensures var loc, ideal := Span(p + t + q, |p + t| + a, |p + t| + b), Span(p + q, |p| + a, |p| + b);
            && ideal.start.line == loc.start.line && ideal.end.line == loc.end.line
            && Offset(p).line <= loc.start.line <= loc.end.line
  {
    hide Offset, PosAt;
    SpanFrom(p + t, q, a, b);
    SpanFrom(p, q, a, b);
    OffsetAppend(p, t);
    SpanBehind(q, a, b);
  }

  /** An edit without a line break moves the end only, of an item over several lines that starts on its line. */
  lemma LineDrift(edit: Edit, n: nat, cur: Position, loc: Location)
    requires Offset(edit.text) == Position(0, n) && loc.start.line <= loc.end.line
    ensures edit.change.Added? ==> StepDrift(edit, cur, loc) == Drift(0, WordDrift(cur, loc, n))
    ensures edit.change.Removed? ==> StepDrift(edit, cur, loc) == Drift(0, -WordDrift(cur, loc, n))
  {
    hide Offset;
  }

  /** Neither the removal nor the addition drops the item, and the unchanged text before it does not finish it. */
  lemma {:induction false} ReplacementWaits(p: string, t: string, q: string, a: nat, b: nat, between: Location, d: Drift)
    requires 0 < a < b <= |q| && between == Drifted(Span(p + q, |p| + a, |p| + b), d) && d.start == 0
    ensures var loc := Span(p + t + q, |p + t| + a, |p + t| + b);
            && PositionMove(ORIGIN, Offset(p)) == Offset(p)
            && !Gte(Offset(p), loc.end) && !Gte(PositionMove(Offset(p), Offset(t)), loc.start)
            && !Gte(Offset(p), between.start)
  {
    hide Offset, PosAt, PositionMove;
    FromOrigin(p);
    OffsetAppend(p, t);
    PosAtLength(p + t, q);
    PosAtLength(p, t + q);
    PosAtLength(p, q);
    assert p + (t + q) == p + t + q;
    GteIsOrder(p + t + q, |p|, |p + t| + b);
    GteIsOrder(p + t + q, |p + t|, |p + t| + a);
    GteIsOrder(p + q, |p|, |p| + a);
    assert between.start == PosAt(p + q, |p| + a);
  }

  lemma {:induction false} FourEdits(p: string, t: string, u: string, q: string, loc: Location, between: Location)
    requires PositionMove(ORIGIN, Offset(p)) == Offset(p) && !Gte(Offset(p), loc.end)
    requires !Gte(PositionMove(Offset(p), Offset(t)), loc.start) && !Gte(Offset(p), between.start)
    requires between == LocationAdd(loc, Negate(Offset(t)), Offset(p).line == loc.start.line)
    ensures Track([Edit(Equal, p), Edit(Removed, t), Edit(Added, u), Edit(Equal, q)], ORIGIN, loc)
         == Track([Edit(Equal, q)], PositionMove(Offset(p), Offset(u)),
                  LocationAdd(between, Offset(u), Offset(p).line == between.start.line))
  {
    hide Offset, LocationAdd, Negate, Gte, PositionMove;
    var edits := [Edit(Equal, p), Edit(Removed, t), Edit(Added, u), Edit(Equal, q)];
    assert edits[1..][1..][1..] == [Edit(Equal, q)];
    assert edits[1..][0] == Edit(Removed, t) && edits[1..][1..][0] == Edit(Added, u);
    assert Step(edits[0], ORIGIN, loc) == Waiting(loc);
    assert Step(edits[1], Offset(p), loc) == Waiting(between);
    assert Track(edits, ORIGIN, loc) == Track(edits[1..], Offset(p), loc);
    assert Track(edits[1..], Offset(p), loc) == Track(edits[1..][1..], Offset(p), between);
  }
}
