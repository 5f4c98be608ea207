/** The drawing session: the pointer, the anchor of the segment being
    drawn, the open segments and the committed polylines, and the three
    event handlers that replace them (click, mouse move, key down). */
module Session {
  import opened Geometry
  import opened Snapping

  /** Key code of the Escape key, which commits the open segments. */
  const EscKeyCode: int := 27

  /** Every line has exactly two points. */
  ghost predicate AllSegments(lines: seq<Line>)
  {
    forall i :: 0 <= i < |lines| ==> |lines[i]| == 2
  }

  /** Each segment starts at the point where the previous one ends. */
  ghost predicate Chained(lines: seq<Line>)
    requires AllSegments(lines)
  {
    forall i :: 0 <= i < |lines| - 1 ==> lines[i][1] == lines[i + 1][0]
  }

  class DrawingSession {
    /** The pointer, possibly snapped; None before the first mouse move. */
    var currentMousePosition: Pointer
    /** The anchor of the segment under construction: 0 or 1 points. */
    var linePoints: seq<Pointer>
    /** The open segments, not yet committed by Escape. */
    var positions: seq<Line>
    /** The committed polylines, each a list of segments. */
    var polylines: seq<seq<Line>>

    /** The session invariant: at most one anchor; every stored segment,
        open or committed, has exactly two points; the open segments and the
        segments of each polyline chain, each starting where the previous one
        ends; and while there are open segments, the anchor is the end of
        the most recent one. */
    ghost predicate Valid()
      reads this
    {
      |linePoints| <= 1 &&
      AllSegments(positions) &&
      (forall i :: 0 <= i < |polylines| ==> AllSegments(polylines[i]) && Chained(polylines[i])) &&
      Chained(positions) &&
      (positions != [] ==> linePoints == [positions[|positions| - 1][1]])
    }

    /** A fresh session: no pointer yet, nothing drawn. */
    constructor ()
      ensures Valid()
      ensures currentMousePosition == None
      ensures linePoints == [] && positions == [] && polylines == []
    {
      currentMousePosition := None;
      linePoints := [];
      positions := [];
      polylines := [];
    }

    /** A click appends the pointer to the anchor. With an anchor already
        present this completes the segment [anchor, pointer], which is
        appended to the open segments, and the pointer becomes the new
        anchor, so consecutive segments chain. Otherwise the pointer (even
        the empty one) becomes the anchor. */
    method HandleClick()
      modifies this
      ensures currentMousePosition == old(currentMousePosition)
      ensures polylines == old(polylines)
      ensures |old(linePoints)| == 1 ==>
                positions == old(positions) + [[old(linePoints)[0], currentMousePosition]] &&
                linePoints == [currentMousePosition]
      ensures |old(linePoints)| != 1 ==>
                positions == old(positions) &&
                linePoints == old(linePoints) + [currentMousePosition]
      ensures old(Valid()) ==> Valid()
    {
      var points := linePoints + [currentMousePosition];
      if |points| == 2 {
        assert points == [linePoints[0], currentMousePosition];
        positions := positions + [points];
        linePoints := [currentMousePosition];
      } else {
        linePoints := points;
      }
    }

    /** The Escape key commits the open segments, even none, as one new
        trailing polyline and clears the open segments and the anchor
        together. Any other key changes nothing. */
    method HandleKeyDown(keyCode: int)
      modifies this
      ensures currentMousePosition == old(currentMousePosition)
      ensures keyCode == EscKeyCode ==>
                polylines == old(polylines) + [old(positions)] &&
                positions == [] && linePoints == []
      ensures keyCode != EscKeyCode ==>
                polylines == old(polylines) && positions == old(positions) &&
                linePoints == old(linePoints)
      ensures old(Valid()) ==> Valid()
    {
      if keyCode == EscKeyCode {
        polylines := polylines + [positions];
        positions := [];
        linePoints := [];
      }
    }

    /** A mouse move at (clientX, clientY) measures every segment of every
        committed polyline and every open segment except the most recent
        one, keeps those closer than SnapDistance, and moves the pointer
        to the projection that comes first after sorting them by distance,
        largest first; with none, to the raw position. Nothing else changes. */
    method HandleMouseMove(clientX: real, clientY: real)
      modifies this
      ensures currentMousePosition == Some(SnapTarget(Point(clientX, clientY), polylines, positions))
      ensures linePoints == old(linePoints)
      ensures positions == old(positions)
      ensures polylines == old(polylines)
      ensures old(Valid()) ==> Valid()
    {
      var position := Point(clientX, clientY);
      var pastPositions := Flatten(polylines) + DropLast(positions);
      var shortDistances: seq<Candidate> := [];
      if |pastPositions| > 0 {
        var distances: seq<Candidate> := [];
        var i := 0;
        while i < |pastPositions|
          invariant 0 <= i <= |pastPositions|
          invariant |distances| == i
          invariant forall j :: 0 <= j < i ==> distances[j] == Measured(position, pastPositions[j])
        {
          var pos := pastPositions[i];
          distances := distances + [Candidate(pos, MeasureLine(position, pos))];
          i := i + 1;
        }
        assert distances == Candidates(position, pastPositions);
        shortDistances := ShortDistances(distances);
      } else {
        assert Candidates(position, pastPositions) == [];
      }
      if |shortDistances| > 0 {
        assert forall k :: 0 <= k < |shortDistances| ==> Qualifies(shortDistances[k]) by {
          forall k | 0 <= k < |shortDistances| ensures Qualifies(shortDistances[k]) {
            assert shortDistances[k] in shortDistances;
          }
        }
        var first := FarthestIndex(shortDistances);
        currentMousePosition := Some(SnapPoint(shortDistances[first]));
      } else {
        currentMousePosition := Some(position);
      }
    }
  }

  /** Three clicks draw two chained segments; Escape then commits both as
      one polyline, and a second Escape commits an empty one. */
  method ChainedDrawing()
  {
    var session := new DrawingSession();
    assert session.Valid();
    var a, b, c := Point(0.0, 0.0), Point(10.0, 0.0), Point(10.0, 10.0);
    session.HandleMouseMove(a.x, a.y);
    assert session.currentMousePosition == Some(a);
    session.HandleClick();
    session.HandleMouseMove(b.x, b.y);
    assert session.currentMousePosition == Some(b);
    session.HandleClick();
    assert session.positions == [[Some(a), Some(b)]];
    assert session.linePoints == [Some(b)];
    session.HandleMouseMove(c.x, c.y);
    SnapIgnoresLastOpen(c, [], [], [Some(a), Some(b)], []);
    assert session.currentMousePosition == Some(c);
    session.HandleClick();
    assert session.positions == [[Some(a), Some(b)], [Some(b), Some(c)]];
    session.HandleKeyDown(EscKeyCode);
    assert session.polylines == [[[Some(a), Some(b)], [Some(b), Some(c)]]];
    assert session.positions == [] && session.linePoints == [];
    session.HandleKeyDown(EscKeyCode);
    assert session.polylines == [[[Some(a), Some(b)], [Some(b), Some(c)]], []];
    assert session.Valid();
  }
}
