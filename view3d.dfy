/** The message the capture side sends to the 3D viewport: line and point vertices. */
module View3d {
  import opened Primitives

  class RenderMsg {
    /** Vertices drawn as line segments, two per segment. */
    var lines: seq<Vertex>
    /** Vertices drawn as points. */
    var points: seq<Vertex>

    /** `RenderMsg::new()`, the derived default: both lists empty. */
    constructor()
      ensures lines == [] && points == []
    {
      lines := [];
      points := [];
    }

    /**
     * `append(&mut self, other: &RenderMsg)`: extends both lists with copies of
     * `other`'s. The borrow rules forbid `other` to be `self`.
     */
    method Append(other: RenderMsg)
      requires other != this
      modifies this
      ensures lines == old(lines) + other.lines
      ensures points == old(points) + other.points
      ensures unchanged(other)
      ensures |lines| == |old(lines)| + |other.lines| && |points| == |old(points)| + |other.points|
      ensures lines[..|old(lines)|] == old(lines) && points[..|old(points)|] == old(points)
      ensures lines[|old(lines)|..] == other.lines && points[|old(points)|..] == other.points
    {
      lines := lines + other.lines;
      points := points + other.points;
    }
  }
}
