/** Values shared by the server's operation log, the event dispatcher and the client mirror. */
module Stroke {

  datatype Option<T> = None | Some(value: T)

  /** Operation and user identities are strings; the empty string stands for a missing (falsy) id. */
  type OpId = string
  type UserId = string

  /** A point as it arrives in a payload: numeric coordinates with a timestamp (0 when absent or
      falsy), or `Malformed` for anything whose x or y is not a number (including a missing point). */
  datatype Point = Pt(x: int, y: int, t: int) | Malformed

  datatype Tool = Brush | Eraser

  /** A stroke operation as the server stores it. `endedAt` is `None` while the stroke is pending. */
  datatype Op = Op(
    opId: OpId,
    userId: UserId,
    tool: Tool,
    color: string,
    width: int,
    points: seq<Point>,
    active: bool,
    startedAt: int,
    endedAt: Option<int>)

  /** The point the log stores for an accepted input point: its own timestamp when truthy, else the clock. */
  function Stamp(p: Point, now: int): (q: Point)
    requires p.Pt?
    ensures q.Pt? && q.x == p.x && q.y == p.y
    ensures q.t == (if p.t != 0 then p.t else now)
  {
    Pt(p.x, p.y, if p.t != 0 then p.t else now)
  }

  /** The points the log keeps out of an input batch, in order: those with numeric coordinates, stamped. */
  function Accepted(pts: seq<Point>, now: int): (r: seq<Point>)
    ensures |r| <= |pts|
  {
    if pts == [] then []
    else (if pts[0].Pt? then [Stamp(pts[0], now)] else []) + Accepted(pts[1..], now)
  }

  /** Only points with numeric coordinates survive; none is dropped unless it is malformed; a
      batch of well-formed points is kept whole, in order, each stamped; and in any batch each
      well-formed point is kept, stamped, between what is kept of the points before and after it. */
  lemma {:induction false} AcceptedKeepsWellFormed(pts: seq<Point>, now: int)
    ensures var r := Accepted(pts, now);
      && |r| <= |pts|
      && (forall i :: 0 <= i < |r| ==> r[i].Pt?)
      && (|r| == |pts| <==> forall i :: 0 <= i < |pts| ==> pts[i].Pt?)
      && ((forall i :: 0 <= i < |pts| ==> pts[i].Pt?) ==>
            forall i :: 0 <= i < |pts| ==> r[i] == Stamp(pts[i], now))
    ensures forall i :: 0 <= i < |pts| && pts[i].Pt? ==>
      Accepted(pts, now) == Accepted(pts[..i], now) + [Stamp(pts[i], now)] + Accepted(pts[i + 1..], now)
  {
    if pts != [] {
      AcceptedKeepsWellFormed(pts[1..], now);
      assert forall i :: 1 <= i < |pts| ==> pts[i] == pts[1..][i - 1];
      var rest := Accepted(pts[1..], now);
      var r := Accepted(pts, now);
      if pts[0].Pt? {
        assert forall i :: 1 <= i < |r| ==> r[i] == rest[i - 1];
      } else {
        assert r == rest;
      }
    }
    forall i | 0 <= i < |pts| && pts[i].Pt?
      ensures Accepted(pts, now) == Accepted(pts[..i], now) + [Stamp(pts[i], now)] + Accepted(pts[i + 1..], now)
    {
      AcceptedAround(pts, i, now);
    }
  }

  /** A single point is kept, stamped, exactly when it has numeric coordinates. */
  lemma AcceptedOne(p: Point, now: int)
    ensures Accepted([p], now) == if p.Pt? then [Stamp(p, now)] else []
  {
    assert [p][1..] == [];
  }

  /** The point at position i, when well formed, is kept between the points kept before and after it. */
  lemma AcceptedAround(pts: seq<Point>, i: nat, now: int)
    requires i < |pts| && pts[i].Pt?
    ensures Accepted(pts, now) == Accepted(pts[..i], now) + [Stamp(pts[i], now)] + Accepted(pts[i + 1..], now)
  {
    assert pts == pts[..i] + ([pts[i]] + pts[i + 1..]);
    AcceptedAppend(pts[..i], [pts[i]] + pts[i + 1..], now);
    AcceptedAppend([pts[i]], pts[i + 1..], now);
    AcceptedOne(pts[i], now);
  }

  /** Filtering a concatenation is concatenating the filtered parts. */
  lemma {:induction false} AcceptedAppend(a: seq<Point>, b: seq<Point>, now: int)
    ensures Accepted(a + b, now) == Accepted(a, now) + Accepted(b, now)
  {
    if a == [] {
      assert a + b == b;
    } else {
      var head := if a[0].Pt? then [Stamp(a[0], now)] else [];
      assert (a + b)[0] == a[0];
      assert (a + b)[1..] == a[1..] + b;
      AcceptedAppend(a[1..], b, now);
      calc {
        Accepted(a + b, now);
        head + Accepted(a[1..] + b, now);
        head + (Accepted(a[1..], now) + Accepted(b, now));
        (head + Accepted(a[1..], now)) + Accepted(b, now);
      }
    }
  }
}
