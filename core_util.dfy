/** Grid distance. */
module Util {
  import opened Base
  import opened Schema

  /** `manhattan`: the L1 distance between two grid points. */
  function Manhattan(a: IVec2, b: IVec2): (d: nat)
    ensures d == 0 <==> a == b
    ensures d >= Abs(a.x - b.x) && d >= Abs(a.y - b.y)
  {
    Abs(a.x - b.x) + Abs(a.y - b.y)
  }

  lemma ManhattanSymmetric(a: IVec2, b: IVec2)
    ensures Manhattan(a, b) == Manhattan(b, a)
  {
  }

  lemma ManhattanTriangle(a: IVec2, b: IVec2, c: IVec2)
    ensures Manhattan(a, c) <= Manhattan(a, b) + Manhattan(b, c)
  {
  }

  /** The midpoint of two points, each coordinate halved toward zero as
      `i32` division does; the planners and directors aim at it. */
  function Midpoint(a: IVec2, b: IVec2): (m: IVec2)
    ensures Min(a.x, b.x) <= m.x <= Max(a.x, b.x)
    ensures Min(a.y, b.y) <= m.y <= Max(a.y, b.y)
  {
    IVec2(Half(a.x + b.x), Half(a.y + b.y))
  }
}
