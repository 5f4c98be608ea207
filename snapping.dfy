/** Snapping of the pointer onto previously drawn segments: the list of
    candidate segments, the measurement of each against the raw pointer
    position, the filter by the snap distance and the choice of the
    winning candidate. */
module Snapping {
  import opened Geometry

  datatype Option<T> = None | Some(value: T)

  /** The pointer position; None stands for the empty object `{}` that the
      session holds before the first mouse move. */
  type Pointer = Option<Point>

  /** A segment as the session stores it: an array of pointer values, the
      anchor followed by the end point. */
  type Line = seq<Pointer>

  /** Distance (in canvas units) under which the pointer snaps to a segment. */
  const SnapDistance: real := 30.0

  /** The i-th point of a line, None when the line has no such element. */
  function Endpoint(line: Line, i: nat): Pointer
  {
    if i < |line| then line[i] else None
  }

  /** What measuring a line against the pointer yields. When an endpoint is
      missing, every coordinate computed from it is NaN and no comparison
      on the result succeeds: that case is None. */
  function MeasureLine(position: Point, line: Line): Option<Measure>
  {
    var v, w := Endpoint(line, 0), Endpoint(line, 1);
    if v.Some? && w.Some? then Some(DistToSegment(position, v.value, w.value)) else None
  }

  /** One entry of the candidate list: the line together with the fields
      spread from its measurement. */
  datatype Candidate = Candidate(line: Line, measured: Option<Measure>)

  function Measured(position: Point, line: Line): Candidate
  {
    Candidate(line, MeasureLine(position, line))
  }

  /** A candidate passes the snap filter when it has a distance field and
      that distance is below SnapDistance (compared on squares). A bare
      number from a zero-length segment spreads no field and never passes. */
  predicate Qualifies(c: Candidate)
  {
    c.measured.Some? && c.measured.value.Projection? &&
    c.measured.value.distance2 < SnapDistance * SnapDistance
  }

  function Distance2(c: Candidate): real
    requires Qualifies(c)
  {
    c.measured.value.distance2
  }

  function SnapPoint(c: Candidate): Point
    requires Qualifies(c)
  {
    c.measured.value.At()
  }

  /** Only a line with two present, distinct endpoints can attract the
      pointer, and then it attracts it to a point of that segment that is
      within SnapDistance of the raw position. */
  lemma QualifyingLine(position: Point, line: Line)
    requires Qualifies(Measured(position, line))
    ensures Endpoint(line, 0).Some? && Endpoint(line, 1).Some?
    ensures Endpoint(line, 0) != Endpoint(line, 1)
    ensures OnSegment(SnapPoint(Measured(position, line)), Endpoint(line, 0).value, Endpoint(line, 1).value)
    ensures Dist2(position, SnapPoint(Measured(position, line))) < SnapDistance * SnapDistance
  {
  }

  /** A segment whose two endpoint values are equal never passes the snap
      filter: with both present it is a zero-length segment and yields a
      bare number; with both absent its measurement is NaN. */
  lemma DegenerateNeverQualifies(position: Point, line: Line)
    requires |line| >= 2 && line[0] == line[1]
    ensures !Qualifies(Measured(position, line))
  {
  }

  /** One-level flattening of the committed polylines into their segments.
      The body concatenates them in order; the contract states membership. */
  function Flatten(polylines: seq<seq<Line>>): (r: seq<Line>)
    ensures forall line :: line in r <==>
              exists i :: 0 <= i < |polylines| && line in polylines[i]
  {
    if polylines == [] then []
    else
      var rest := Flatten(polylines[1..]);
      assert forall line :: (exists i :: 1 <= i < |polylines| && line in polylines[i]) ==>
                            line in rest by {
        forall line | exists i :: 1 <= i < |polylines| && line in polylines[i]
          ensures line in rest
        {
          var i :| 1 <= i < |polylines| && line in polylines[i];
          assert line in polylines[1..][i - 1];
        }
      }
      polylines[0] + rest
  }

  /** Every open segment but the most recent one. */
  function DropLast(lines: seq<Line>): seq<Line>
  {
    if |lines| == 0 then [] else lines[..|lines| - 1]
  }

  /** The segments a mouse move may snap to: all segments of the committed
      polylines, then the open segments without the last one. */
  function PastPositions(polylines: seq<seq<Line>>, positions: seq<Line>): seq<Line>
  {
    Flatten(polylines) + DropLast(positions)
  }

  /** A line is a snap candidate exactly when it belongs to a committed
      polyline or is an open segment other than the most recent one. */
  lemma PastPositionsMembers(polylines: seq<seq<Line>>, positions: seq<Line>, line: Line)
    ensures line in PastPositions(polylines, positions) <==>
              (exists i :: 0 <= i < |polylines| && line in polylines[i]) ||
              (exists j :: 0 <= j < |positions| - 1 && positions[j] == line)
  {
    if exists j :: 0 <= j < |positions| - 1 && positions[j] == line {
      var j :| 0 <= j < |positions| - 1 && positions[j] == line;
      assert DropLast(positions)[j] == line;
    }
  }

  /** The candidate list: each line with its measurement, in order. */
  function Candidates(position: Point, lines: seq<Line>): seq<Candidate>
  {
    seq(|lines|, i requires 0 <= i < |lines| => Measured(position, lines[i]))
  }

  /** The candidates that pass the snap filter. The body keeps them in the
      order of `cs`; the contract states membership and length only. */
  function ShortDistances(cs: seq<Candidate>): (r: seq<Candidate>)
    ensures |r| <= |cs|
    ensures forall c :: c in r <==> c in cs && Qualifies(c)
  {
    if cs == [] then []
    else
      var rest := ShortDistances(cs[1..]);
      assert forall c :: c in cs <==> c == cs[0] || c in cs[1..];
      (if Qualifies(cs[0]) then [cs[0]] else []) + rest
  }

  /** When no candidate qualifies the filter keeps nothing. */
  lemma {:induction false} NothingShort(cs: seq<Candidate>)
    requires forall i :: 0 <= i < |cs| ==> !Qualifies(cs[i])
    ensures ShortDistances(cs) == []
  {
    if cs != [] {
      NothingShort(cs[1..]);
    }
  }

  /** The candidate that comes first after sorting by distance, largest
      first: a candidate of maximal distance, the earliest one among ties
      (the order a stable sort keeps). */
  function FarthestIndex(cs: seq<Candidate>): (k: nat)
    requires |cs| > 0
    requires forall i :: 0 <= i < |cs| ==> Qualifies(cs[i])
    ensures k < |cs|
    ensures forall j :: 0 <= j < |cs| ==> Distance2(cs[j]) <= Distance2(cs[k])
    ensures forall j :: 0 <= j < k ==> Distance2(cs[j]) < Distance2(cs[k])
  {
    if |cs| == 1 then 0
    else
      var k := FarthestIndex(cs[1..]);
      assert forall j :: 1 <= j < |cs| ==> cs[j] == cs[1..][j - 1];
      if Distance2(cs[0]) >= Distance2(cs[1 + k]) then 0 else 1 + k
  }

  /** Where a mouse move at `position` puts the pointer: the projection of
      the first qualifying candidate after the descending sort, or the raw
      position when no candidate qualifies. */
  function SnapTarget(position: Point, polylines: seq<seq<Line>>, positions: seq<Line>): Point
  {
    var short := ShortDistances(Candidates(position, PastPositions(polylines, positions)));
    if |short| == 0 then position
    else
      assert forall i :: 0 <= i < |short| ==> Qualifies(short[i]) by {
        forall i | 0 <= i < |short| ensures Qualifies(short[i]) {
          assert short[i] in short;
        }
      }
      SnapPoint(short[FarthestIndex(short)])
  }

  /** Without a qualifying candidate the pointer takes the raw position. */
  lemma SnapUnqualified(position: Point, polylines: seq<seq<Line>>, positions: seq<Line>)
    requires forall line :: line in PastPositions(polylines, positions) ==>
               !Qualifies(Measured(position, line))
    ensures SnapTarget(position, polylines, positions) == position
  {
    var cs := Candidates(position, PastPositions(polylines, positions));
    NothingShort(cs);
  }

  /** With a qualifying candidate, the pointer moves to the projection of a
      qualifying candidate whose distance is the largest among all the
      qualifying ones: the farthest, not the nearest. */
  lemma SnapFarthest(position: Point, polylines: seq<seq<Line>>, positions: seq<Line>, line: Line)
    requires line in PastPositions(polylines, positions)
    requires Qualifies(Measured(position, line))
    ensures exists best :: best in PastPositions(polylines, positions) &&
              Qualifies(Measured(position, best)) &&
              SnapTarget(position, polylines, positions) == SnapPoint(Measured(position, best)) &&
              forall other :: other in PastPositions(polylines, positions) && Qualifies(Measured(position, other)) ==>
                Distance2(Measured(position, other)) <= Distance2(Measured(position, best))
  {
    var past := PastPositions(polylines, positions);
    var cs := Candidates(position, past);
    var short := ShortDistances(cs);
    assert Measured(position, line) in cs by {
      var i :| 0 <= i < |past| && past[i] == line;
      assert cs[i] == Measured(position, line);
    }
    assert Measured(position, line) in short;
    assert forall i :: 0 <= i < |short| ==> Qualifies(short[i]) by {
      forall i | 0 <= i < |short| ensures Qualifies(short[i]) {
        assert short[i] in short;
      }
    }
    var k := FarthestIndex(short);
    var winner := short[k];
    assert winner in cs;
    var w :| 0 <= w < |cs| && cs[w] == winner;
    var best := past[w];
    assert Measured(position, best) == winner;
    forall other | other in past && Qualifies(Measured(position, other))
      ensures Distance2(Measured(position, other)) <= Distance2(winner)
    {
      var o :| 0 <= o < |past| && past[o] == other;
      assert cs[o] == Measured(position, other);
      assert Measured(position, other) in short;
      var s :| 0 <= s < |short| && short[s] == Measured(position, other);
    }
  }

  /** Wherever the pointer snaps, it lands within SnapDistance of the raw
      position. */
  lemma SnapWithinReach(position: Point, polylines: seq<seq<Line>>, positions: seq<Line>)
    ensures Dist2(position, SnapTarget(position, polylines, positions)) < SnapDistance * SnapDistance
  {
    var past := PastPositions(polylines, positions);
    var cs := Candidates(position, past);
    var short := ShortDistances(cs);
    if |short| > 0 {
      assert short[0] in cs;
      var i :| 0 <= i < |cs| && cs[i] == short[0];
      SnapFarthest(position, polylines, positions, past[i]);
      var best :| best in past && Qualifies(Measured(position, best)) &&
                  SnapTarget(position, polylines, positions) == SnapPoint(Measured(position, best));
      QualifyingLine(position, best);
    }
  }

  /** The most recent open segment is never a candidate: replacing it does
      not change where the pointer snaps. */
  lemma SnapIgnoresLastOpen(position: Point, polylines: seq<seq<Line>>, positions: seq<Line>, last1: Line, last2: Line)
    ensures SnapTarget(position, polylines, positions + [last1]) ==
            SnapTarget(position, polylines, positions + [last2])
  {
    assert DropLast(positions + [last1]) == positions == DropLast(positions + [last2]);
  }
}
