/**
 * The grid of the root crate's `src/shapes.rs`: the same nested loops as the
 * viewer's grid, with the two colours fixed to a light and a dark grey.
 */
module AppShapes {
  import opened Primitives
  import opened UiShapes

  /** `LIGHT_GRAY`, the colour of every `div`-th line. */
  const LightGray: Vec3 := Gray(0.1)

  /** `DARK_GRAY`, the colour of the other lines. */
  const DarkGray: Vec3 := Gray(0.02)

  /** The viewer grid's arguments that this `grid` amounts to. */
  function Args(size: int, div: int, scale: real, map3d: (real, real) -> Vec3): GridArgs
  {
    GridArgs(size, div, scale, map3d, LightGray, DarkGray)
  }

  /**
   * `grid(size, div, scale, map_3d)`: `4 * max(0, 2 * size + 1) * max(0, 2 * (size / div))`
   * vertices, each light or dark grey. `-size` overflows for the least `i32`, which is excluded.
   */
  method Grid(size: i32, div: i32, scale: real, map3d: (real, real) -> Vec3) returns (vertices: seq<Vertex>)
    requires size != I32_MIN
    requires size >= 0 ==> div != 0
    ensures vertices == Args(size, div, scale, map3d).Vertices()
    ensures |vertices| == if size < 0 then 0 else 4 * (2 * size + 1) * Max(0, 2 * TruncDiv(size, div))
    ensures forall n :: 0 <= n < |vertices| ==> vertices[n].color == LightGray || vertices[n].color == DarkGray
  {
    vertices := UiShapes.Grid(size, div, scale, map3d, LightGray, DarkGray);
    GridLength(Args(size, div, scale, map3d));
    GridColors(Args(size, div, scale, map3d));
  }

  /**
   * Vertex `k` of group `(i, j)` sits at `4 * ((i + size) * 2 * sub + (j + sub)) + k`,
   * and it is light grey exactly when `|i| % div == 0`, dark grey otherwise.
   */
  lemma GridColorAt(size: int, div: int, scale: real, map3d: (real, real) -> Vec3, i: int, j: int, k: nat)
    requires div != 0
    requires -size <= i <= size && -TruncDiv(size, div) <= j < TruncDiv(size, div) && k < 4
    ensures var g, sub := Args(size, div, scale, map3d), TruncDiv(size, div);
      var n := 4 * ((i + size) * 2 * sub + (j + sub)) + k;
      && n < |g.Vertices()|
      && g.Vertices()[n] == g.Quad(i, j)[k]
      && (g.Vertices()[n].color == LightGray <==> TruncRem(Abs(i), div) == 0)
      && (g.Vertices()[n].color == DarkGray <==> TruncRem(Abs(i), div) != 0)
  {
    var g := Args(size, div, scale, map3d);
    GridAt(g, i, j, k);
    assert LightGray != DarkGray by {
      assert LightGray.x != DarkGray.x;
    }
  }

  /**
   * Any call with size `50 * 12`, divisor `12` and a map into the plane `y = 0`:
   * 480400 vertices, all in that plane, all light or dark grey.
   */
  lemma DefaultGridShape(size: int, div: int, scale: real, map3d: (real, real) -> Vec3)
    requires size == 50 * 12 && div == 12
    requires forall a: real, b: real :: map3d(a, b).y == 0.0
    ensures |Args(size, div, scale, map3d).Vertices()| == 480400
    ensures forall n :: 0 <= n < |Args(size, div, scale, map3d).Vertices()| ==>
      Args(size, div, scale, map3d).Vertices()[n].pos.y == 0.0
  {
    UiShapes.DefaultGridShape(Args(size, div, scale, map3d));
  }

  /** `default_grid()`. */
  method DefaultGrid() returns (vertices: seq<Vertex>)
    ensures vertices == Args(50 * 12, 12, 1.0, XzPlane).Vertices()
    ensures |vertices| == 480400
    ensures forall n :: 0 <= n < |vertices| ==> vertices[n].pos.y == 0.0
    ensures forall n :: 0 <= n < |vertices| ==> vertices[n].color == LightGray || vertices[n].color == DarkGray
  {
    var size: i32, div: i32 := 50 * 12, 12;
    vertices := Grid(size, div, 1.0, XzPlane);
    DefaultGridShape(size, div, 1.0, XzPlane);
  }
}
