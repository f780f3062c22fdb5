/** Zero-based line and column positions, and ranges between two of them. */
module Locations {

  datatype Position = Position(line: int, column: int)

  datatype Location = Location(start: Position, end: Position)

  predicate Gte(a: Position, b: Position) {
    a.line > b.line || (a.line == b.line && a.column >= b.column)
  }

  predicate LocationIncluded(haystack: Location, needle: Location) {
    Gte(needle.start, haystack.start) && Gte(haystack.end, needle.end)
  }

  predicate LocationOverlaps(a: Location, b: Location) {
    Gte(b.end, a.start) && Gte(a.end, b.start)
  }

  predicate Contains(loc: Location, p: Position) {
    Gte(p, loc.start) && Gte(loc.end, p)
  }

  /** A location is included in another one if and only if all of its positions are. */
  lemma IncludedIff(haystack: Location, needle: Location)
    requires Gte(needle.end, needle.start)
    ensures LocationIncluded(haystack, needle) <==> forall p :: Contains(needle, p) ==> Contains(haystack, p)
  {
    if forall p :: Contains(needle, p) ==> Contains(haystack, p) {
      assert Contains(needle, needle.start) && Contains(needle, needle.end);
    }
  }

  /** Two locations overlap if and only if they share a position. */
  lemma OverlapsIff(a: Location, b: Location)
    requires Gte(a.end, a.start) && Gte(b.end, b.start)
    ensures LocationOverlaps(a, b) <==> exists p :: Contains(a, p) && Contains(b, p)
  {
    if LocationOverlaps(a, b) {
      var later := if Gte(a.start, b.start) then a.start else b.start;
      assert Contains(a, later) && Contains(b, later);
    }
  }
}
