/** Value types shared by the capture side and the viewer side of the model. */
module Primitives {

  /** An unsigned byte (`u8`). */
  type u8 = x: int | 0 <= x < 0x100

  /** An unsigned 16-bit depth sample (`u16`). */
  type u16 = x: int | 0 <= x < 0x1_0000

  const I32_MIN: int := -0x8000_0000
  const I32_MAX: int := 0x7FFF_FFFF

  /** A signed 32-bit integer (`i32`). */
  type i32 = x: int | I32_MIN <= x <= I32_MAX

  /** An 8-bit colour sample stored as the array `[r, g, b]`. */
  type Rgb = c: seq<u8> | |c| == 3 witness [0, 0, 0]

  /** Three floats: a 3D point (`Vec3`, `[f32; 3]`) or a floating colour. f32 rounding is not modelled. */
  datatype Vec3 = Vec3(x: real, y: real, z: real)

  /** A render vertex: a position and a colour. */
  datatype Vertex = Vertex(pos: Vec3, color: Vec3)

  datatype Option<+T> = None | Some(value: T)

  datatype Result<+T, +E> = Ok(value: T) | Err(error: E)

  function Abs(x: int): (r: nat)
    ensures r == x || r == -x
  {
    if x < 0 then -x else x
  }

  function Max(a: int, b: int): (r: int)
    ensures r >= a && r >= b && (r == a || r == b)
  {
    if a < b then b else a
  }

  /** Integer division rounding toward zero, as Rust's `/` on integers. */
  function TruncDiv(a: int, d: int): (q: int)
    requires d != 0
  {
    if a >= 0 then a / d else -((-a) / d)
  }

  /** Remainder of `TruncDiv`, as Rust's `%` on integers: it takes the sign of `a`. */
  function TruncRem(a: int, d: int): (r: int)
    requires d != 0
    ensures a >= 0 ==> r == a % d
  {
    a - TruncDiv(a, d) * d
  }

  /** `n` written as `q * w + r` with `0 <= r < w` fixes `q` and `r`. */
  lemma DivModUnique(n: int, w: int, q: int, r: int)
    requires w > 0 && 0 <= r < w && n == q * w + r
    ensures n / w == q && n % w == r
  {
    var q', r' := n / w, n % w;
    assert n == q' * w + r';
    if q' > q {
      MulMonotone(q + 1, q', w);
      assert false;
    } else if q' < q {
      MulMonotone(q' + 1, q, w);
      assert false;
    }
  }

  lemma AppendAssoc<T>(a: seq<T>, b: seq<T>, c: seq<T>)
    ensures (a + b) + c == a + (b + c)
  {
  }

  lemma MulMonotone(a: int, b: int, w: int)
    requires a <= b && w >= 0
    ensures a * w <= b * w
  {
    assert b * w - a * w == (b - a) * w;
  }
}
