/**
 * Two-dimensional points and vectors (libavg's `Point2D`), with the
 * floating-point coordinates taken as exact reals.
 */
module Geometry {

  datatype Vec = Vec(x: real, y: real)
  {
    function Plus(o: Vec): Vec { Vec(x + o.x, y + o.y) }

    function Minus(o: Vec): Vec { Vec(x - o.x, y - o.y) }

    function Scale(k: real): Vec { Vec(k * x, k * y) }

    function Half(): Vec { Vec(x / 2.0, y / 2.0) }
  }

  const Zero := Vec(0.0, 0.0)
}
