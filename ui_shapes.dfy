/**
 * The floor grid of the viewer: line segments, two vertices each, laid out
 * along both axes of a plane given by `map3d`, with every `div`-th line in the
 * primary colour and the rest in the secondary colour.
 */
module UiShapes {
  import opened Primitives

  /** `n as f32 * unit`, without the f32 rounding. */
  function Scaled(n: int, unit: real): real
  {
    n as real * unit
  }

  /** The arguments of `grid`. */
  datatype GridArgs = GridArgs(
    size: int,
    div: int,
    scale: real,
    map3d: (real, real) -> Vec3,
    primary: Vec3,
    secondary: Vec3)
  {
    /** What `grid` needs to finish: `size / div` and `% div` run only when the outer range is non-empty. */
    predicate Defined()
    {
      size >= 0 ==> div != 0
    }

    /** `size / div`: the inner loop runs `j` over `-Subgrid() .. Subgrid()`. */
    function Subgrid(): int
      requires div != 0
    {
      TruncDiv(size, div)
    }

    /** The colour of every vertex emitted for outer value `i`. */
    function LineColor(i: int): Vec3
      requires div != 0
    {
      if TruncRem(Abs(i), div) == 0 then primary else secondary
    }

    /** The four vertices pushed for outer value `i` and inner value `j`. */
    function Quad(i: int, j: int): seq<Vertex>
      requires div != 0
    {
      var length := Scaled(div, scale);
      var offset := Scaled(i, scale);
      var color := LineColor(i);
      [ Vertex(map3d(Scaled(j + 1, length), offset), color),
        Vertex(map3d(Scaled(j, length), offset), color),
        Vertex(map3d(offset, Scaled(j + 1, length)), color),
        Vertex(map3d(offset, Scaled(j, length)), color) ]
    }

    lemma QuadColor(i: int, j: int, k: nat)
      requires div != 0 && k < 4
      ensures Quad(i, j)[k].color == if TruncRem(Abs(i), div) == 0 then primary else secondary
    {
    }

    /**
     * Group `(i, j)` is two segments of length `div * scale`, one along each
     * coordinate of `map3d`, both at offset `i * scale`, in one colour.
     */
    lemma QuadSegments(i: int, j: int)
      requires div != 0
      ensures var length, offset := Scaled(div, scale), Scaled(i, scale);
        var start := Scaled(j, length);
        && |Quad(i, j)| == 4
        && Quad(i, j)[0].pos == map3d(start + length, offset)
        && Quad(i, j)[1].pos == map3d(start, offset)
        && Quad(i, j)[2].pos == map3d(offset, start + length)
        && Quad(i, j)[3].pos == map3d(offset, start)
        && forall k :: 0 <= k < 4 ==> Quad(i, j)[k].color == LineColor(i)
    {
      var length := Scaled(div, scale);
      assert Scaled(j + 1, length) == Scaled(j, length) + length by {
        assert (j + 1) as real * length == j as real * length + length;
      }
    }

    /** The vertices pushed for outer value `i` while `j` runs over `lo .. hi`. */
    function Cells(i: int, lo: int, hi: int): (r: seq<Vertex>)
      requires div != 0
      ensures |r| == 4 * Max(0, hi - lo)
      decreases hi - lo
    {
      if hi <= lo then [] else Cells(i, lo, hi - 1) + Quad(i, hi - 1)
    }

    /** Pushing group `j` onto output `prefix + Cells(i, lo, j)` extends the cells to `j + 1`. */
    lemma CellsPush(prefix: seq<Vertex>, i: int, lo: int, j: int, quad: seq<Vertex>)
      requires div != 0 && lo <= j && quad == Quad(i, j)
      ensures (prefix + Cells(i, lo, j)) + quad == prefix + Cells(i, lo, j + 1)
    {
      assert Cells(i, lo, j + 1) == Cells(i, lo, j) + Quad(i, j);
      AppendAssoc(prefix, Cells(i, lo, j), Quad(i, j));
    }

    lemma RowsStep(lo: int, i: int)
      requires div != 0 && lo <= i
      ensures Rows(lo, i + 1) == Rows(lo, i) + Cells(i, -Subgrid(), Subgrid())
    {
    }

    lemma CellsEmpty(i: int, lo: int, hi: int)
      requires div != 0 && hi <= lo
      ensures Cells(i, lo, hi) == []
    {
    }

    /** The vertices pushed while `i` runs over `lo .. hi`. */
    function Rows(lo: int, hi: int): seq<Vertex>
      requires div != 0
      decreases hi - lo
    {
      if hi <= lo then [] else Rows(lo, hi - 1) + Cells(hi - 1, -Subgrid(), Subgrid())
    }

    /** The whole output of `grid`: `i` over `-size ..= size`. */
    function Vertices(): seq<Vertex>
      requires Defined()
    {
      if size < 0 then [] else Rows(-size, size + 1)
    }

    lemma {:induction false} RowsLength(lo: int, hi: int)
      requires div != 0 && lo <= hi
      ensures |Rows(lo, hi)| == (hi - lo) * (4 * Max(0, 2 * Subgrid()))
      decreases hi - lo
    {
      if lo < hi {
        var w := 4 * Max(0, 2 * Subgrid());
        RowsLength(lo, hi - 1);
        assert |Cells(hi - 1, -Subgrid(), Subgrid())| == w;
        MulSucc(hi - 1 - lo, w);
      }
    }

    lemma {:induction false} CellsAt(i: int, lo: int, hi: int, j: int, k: nat)
      requires div != 0 && lo <= j < hi && k < 4
      ensures 4 * (j - lo) + k < |Cells(i, lo, hi)|
      ensures Cells(i, lo, hi)[4 * (j - lo) + k] == Quad(i, j)[k]
      decreases hi - lo
    {
      if j < hi - 1 {
        CellsAt(i, lo, hi - 1, j, k);
      }
    }

    /** Group `i` of the rows `lo .. hi` starts right after the rows `lo .. i`. */
    lemma {:induction false} RowsAt(lo: int, hi: int, i: int, m: nat)
      requires div != 0 && lo <= i < hi
      requires m < |Cells(i, -Subgrid(), Subgrid())|
      ensures |Rows(lo, i)| + m < |Rows(lo, hi)|
      ensures Rows(lo, hi)[|Rows(lo, i)| + m] == Cells(i, -Subgrid(), Subgrid())[m]
      decreases hi - lo
    {
      if i < hi - 1 {
        RowsAt(lo, hi - 1, i, m);
      }
    }

    /** Group `i` of the whole output starts right after the rows `-size .. i`. */
    lemma VerticesAt(i: int, m: nat)
      requires div != 0 && -size <= i <= size
      requires m < |Cells(i, -Subgrid(), Subgrid())|
      ensures |Rows(-size, i)| + m < |Vertices()|
      ensures Vertices()[|Rows(-size, i)| + m] == Cells(i, -Subgrid(), Subgrid())[m]
    {
      RowsAt(-size, size + 1, i, m);
    }

    /** Vertex `k` of group `(i, j)` sits `4 * (j + Subgrid()) + k` places into group `i`. */
    lemma VertexAt(i: int, j: int, k: nat)
      requires div != 0 && -size <= i <= size && -Subgrid() <= j < Subgrid() && k < 4
      ensures |Rows(-size, i)| + 4 * (j + Subgrid()) + k < |Vertices()|
      ensures Vertices()[|Rows(-size, i)| + 4 * (j + Subgrid()) + k] == Quad(i, j)[k]
    {
      CellsAt(i, -Subgrid(), Subgrid(), j, k);
      VerticesAt(i, 4 * (j + Subgrid()) + k);
    }

    /** Every vertex carries one of the two colours. */
    lemma {:induction false} CellsColors(i: int, lo: int, hi: int)
      requires div != 0
      ensures forall n :: 0 <= n < |Cells(i, lo, hi)| ==> Cells(i, lo, hi)[n].color == LineColor(i)
      decreases hi - lo
    {
      if lo < hi {
        CellsColors(i, lo, hi - 1);
      }
    }

    lemma {:induction false} RowsColors(lo: int, hi: int)
      requires div != 0
      ensures forall n :: 0 <= n < |Rows(lo, hi)| ==>
        Rows(lo, hi)[n].color == primary || Rows(lo, hi)[n].color == secondary
      decreases hi - lo
    {
      if lo < hi {
        RowsColors(lo, hi - 1);
        CellsColors(hi - 1, -Subgrid(), Subgrid());
      }
    }

    /** When `map3d` maps into the plane `y = 0`, every vertex lies in that plane. */
    lemma {:induction false} CellsFlat(i: int, lo: int, hi: int)
      requires div != 0
      requires forall a: real, b: real :: map3d(a, b).y == 0.0
      ensures forall n :: 0 <= n < |Cells(i, lo, hi)| ==> Cells(i, lo, hi)[n].pos.y == 0.0
      decreases hi - lo
    {
      if lo < hi {
        CellsFlat(i, lo, hi - 1);
      }
    }

    lemma {:induction false} RowsFlat(lo: int, hi: int)
      requires div != 0
      requires forall a: real, b: real :: map3d(a, b).y == 0.0
      ensures forall n :: 0 <= n < |Rows(lo, hi)| ==> Rows(lo, hi)[n].pos.y == 0.0
      decreases hi - lo
    {
      if lo < hi {
        RowsFlat(lo, hi - 1);
        CellsFlat(hi - 1, -Subgrid(), Subgrid());
      }
    }
  }

  /** The output holds `4 * max(0, 2 * size + 1) * max(0, 2 * (size / div))` vertices. */
  lemma GridLength(g: GridArgs)
    requires g.Defined()
    ensures |g.Vertices()| == if g.size < 0 then 0 else 4 * (2 * g.size + 1) * Max(0, 2 * g.Subgrid())
  {
    if g.size >= 0 {
      g.RowsLength(-g.size, g.size + 1);
      MulRegroup(g.size, g.Subgrid());
    }
  }

  /**
   * The vertex at `4 * ((i + size) * 2 * sub + (j + sub)) + k` is vertex `k` of the
   * group for outer value `i` and inner value `j` (both ascending); its colour is
   * the primary one exactly when `|i| % div == 0`.
   */
  lemma GridAt(g: GridArgs, i: int, j: int, k: nat)
    requires g.div != 0
    requires -g.size <= i <= g.size && -g.Subgrid() <= j < g.Subgrid() && k < 4
    ensures var sub := g.Subgrid();
      var n := 4 * ((i + g.size) * 2 * sub + (j + sub)) + k;
      && n < |g.Vertices()|
      && g.Vertices()[n] == g.Quad(i, j)[k]
      && g.Vertices()[n].color == if TruncRem(Abs(i), g.div) == 0 then g.primary else g.secondary
  {
    var sub := g.Subgrid();
    var n := 4 * ((i + g.size) * 2 * sub + (j + sub)) + k;
    assert n == |g.Rows(-g.size, i)| + 4 * (j + sub) + k by {
      g.RowsLength(-g.size, i);
      GroupIndex(g.size, sub, i, j, k);
    }
    g.VertexAt(i, j, k);
    g.QuadColor(i, j, k);
  }

  /** Index arithmetic of `GridAt`: group `(i, j)` starts after `i + size` whole rows. */
  lemma GroupIndex(size: int, sub: int, i: int, j: int, k: int)
    requires -sub <= j < sub
    ensures 4 * ((i + size) * 2 * sub + (j + sub)) + k
            == (i - -size) * (4 * Max(0, 2 * sub)) + (4 * (j + sub) + k)
  {
    assert Max(0, 2 * sub) == 2 * sub;
    MulRegroup(i + size, sub);
  }

  lemma MulSucc(a: int, w: int)
    ensures (a + 1) * w == a * w + w
  {
  }

  lemma MulRegroup(a: int, b: int)
    ensures a * (4 * (2 * b)) == 4 * (a * 2 * b)
    ensures (2 * a + 1) * (4 * Max(0, 2 * b)) == 4 * (2 * a + 1) * Max(0, 2 * b)
  {
  }

  /** Every vertex is coloured with the primary or the secondary colour. */
  lemma GridColors(g: GridArgs)
    requires g.Defined()
    ensures forall n :: 0 <= n < |g.Vertices()| ==>
      g.Vertices()[n].color == g.primary || g.Vertices()[n].color == g.secondary
  {
    if g.size >= 0 {
      g.RowsColors(-g.size, g.size + 1);
    }
  }

  /**
   * `grid(size, div, scale, map_3d, primary_color, secondary_color)`.
   * `-size` overflows for the least `i32`, which is excluded.
   */
  method Grid(size: i32, div: i32, scale: real, map3d: (real, real) -> Vec3, primary: Vec3, secondary: Vec3)
    returns (vertices: seq<Vertex>)
    requires size != I32_MIN
    requires size >= 0 ==> div != 0
    ensures vertices == GridArgs(size, div, scale, map3d, primary, secondary).Vertices()
  {
    ghost var g := GridArgs(size, div, scale, map3d, primary, secondary);
    var n: int := size;
    vertices := [];
    var i: int := -n;
    while i <= n
      invariant -n <= i && (n >= 0 ==> i <= n + 1)
      invariant n >= 0 ==> vertices == g.Rows(-n, i)
      invariant n < 0 ==> vertices == []
    {
      var color := if TruncRem(Abs(i), div) == 0 then primary else secondary;
      var offset := Scaled(i, scale);
      var length := Scaled(div, scale);
      var subgrid := TruncDiv(n, div);
      vertices := PushRow(g, map3d, i, subgrid, offset, length, color, vertices);
      g.RowsStep(-n, i);
      i := i + 1;
    }
  }

  /** The inner loop of `grid`: `j` over `-subgrid .. subgrid`, four pushes each. */
  method PushRow(ghost g: GridArgs, map3d: (real, real) -> Vec3, i: int, subgrid: int, offset: real, length: real, color: Vec3, prefix: seq<Vertex>)
    returns (vertices: seq<Vertex>)
    requires g.div != 0 && subgrid == g.Subgrid() && map3d == g.map3d
    requires offset == Scaled(i, g.scale) && length == Scaled(g.div, g.scale) && color == g.LineColor(i)
    ensures vertices == prefix + g.Cells(i, -g.Subgrid(), g.Subgrid())
  {
    vertices := prefix;
    var j := -subgrid;
    while j < subgrid
      invariant j == -subgrid || -subgrid <= j <= subgrid
      invariant vertices == prefix + g.Cells(i, -subgrid, j)
    {
      var v0 := Vertex(map3d(Scaled(j + 1, length), offset), color);
      var v1 := Vertex(map3d(Scaled(j, length), offset), color);
      var v2 := Vertex(map3d(offset, Scaled(j + 1, length)), color);
      var v3 := Vertex(map3d(offset, Scaled(j, length)), color);
      g.CellsPush(prefix, i, -subgrid, j, [v0, v1, v2, v3]);
      vertices := vertices + [v0, v1, v2, v3];  // the four `push`es
      j := j + 1;
    }
    if subgrid < 0 {
      g.CellsEmpty(i, -subgrid, j);
      g.CellsEmpty(i, -subgrid, subgrid);
    }
  }

  /** `|x, y| [x, 0., y]`: the grid plane is the horizontal plane. */
  function XzPlane(a: real, b: real): Vec3
  {
    Vec3(a, 0.0, b)
  }

  function Gray(v: real): Vec3
  {
    Vec3(v, v, v)
  }

  /**
   * Any grid of size `50 * 12` and divisor `12` on a map into the plane `y = 0`:
   * 1201 lines of 100 cells, four vertices each, all flat, all in the two colours.
   */
  lemma DefaultGridShape(g: GridArgs)
    requires g.size == 50 * 12 && g.div == 12
    requires forall a: real, b: real :: g.map3d(a, b).y == 0.0
    ensures g.Defined()
    ensures |g.Vertices()| == 480400
    ensures forall n :: 0 <= n < |g.Vertices()| ==> g.Vertices()[n].pos.y == 0.0
    ensures forall n :: 0 <= n < |g.Vertices()| ==>
      g.Vertices()[n].color == g.primary || g.Vertices()[n].color == g.secondary
  {
    assert g.Subgrid() == 50;
    GridLength(g);
    GridColors(g);
    g.RowsFlat(-g.size, g.size + 1);
  }

  /** `default_grid()`. */
  method DefaultGrid() returns (vertices: seq<Vertex>)
    ensures vertices == GridArgs(50 * 12, 12, 1.0, XzPlane, Gray(0.2), Gray(0.1)).Vertices()
    ensures |vertices| == 480400
    ensures forall n :: 0 <= n < |vertices| ==> vertices[n].pos.y == 0.0
    ensures forall n :: 0 <= n < |vertices| ==> vertices[n].color == Gray(0.2) || vertices[n].color == Gray(0.1)
  {
    var size: i32, div: i32 := 50 * 12, 12;
    vertices := Grid(size, div, 1.0, XzPlane, Gray(0.2), Gray(0.1));
    DefaultGridShape(GridArgs(size, div, 1.0, XzPlane, Gray(0.2), Gray(0.1)));
  }
}
