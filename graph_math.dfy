/** The `gmath::Vector3<T>` template of GraphMath/Vector3.hpp.

    `Vector3i` is the integer instantiation used for pixel buffers and carries
    the whole algebra; `Vector3d` is the double instantiation, of which only the
    operations the radiance recursion composes (zero, sum, scaling and the
    component-wise product) are kept, over Dafny's exact `real`. */
module GraphMath {

  /** `Vector3<int>`: the three entries of `m_array`; `r`, `g`, `b` alias `x`, `y`, `z`. */
  datatype Vector3i = Vector3i(x: int, y: int, z: int)
  {
    function R(): int { x }
    function G(): int { y }
    function B(): int { z }
  }

  /** The default constructor and the static `zero()` both give (0, 0, 0). */
  function Zero(): Vector3i { Vector3i(0, 0, 0) }

  function Neg(v: Vector3i): Vector3i { Vector3i(-v.x, -v.y, -v.z) }

  function Add(u: Vector3i, v: Vector3i): Vector3i { Vector3i(u.x + v.x, u.y + v.y, u.z + v.z) }

  function Sub(u: Vector3i, v: Vector3i): Vector3i { Vector3i(u.x - v.x, u.y - v.y, u.z - v.z) }

  /** `u * v`: the component-wise (Hadamard) product. */
  function Mul(u: Vector3i, v: Vector3i): Vector3i { Vector3i(u.x * v.x, u.y * v.y, u.z * v.z) }

  /** `t * v`. */
  function Scale(t: int, v: Vector3i): Vector3i { Vector3i(t * v.x, t * v.y, t * v.z) }

  /** `v * t`, which the source defines as `t * v`. */
  function ScaleRight(v: Vector3i, t: int): Vector3i { Scale(t, v) }

  function Length2(v: Vector3i): int { v.x * v.x + v.y * v.y + v.z * v.z }

  function Dot(u: Vector3i, v: Vector3i): int { u.x * v.x + u.y * v.y + u.z * v.z }

  function Cross(u: Vector3i, v: Vector3i): Vector3i
  {
    Vector3i(u.y * v.z - u.z * v.y,
             u.z * v.x - u.x * v.z,
             u.x * v.y - u.y * v.x)
  }

  /** `v - 2 * dot(v, n) * n`. */
  function Reflect(v: Vector3i, n: Vector3i): Vector3i { Sub(v, Scale(2 * Dot(v, n), n)) }

  // ---------------------------------------------------------------------------
  // Algebraic identities of the integer instantiation.

  lemma AddComponentwise(u: Vector3i, v: Vector3i)
    ensures Add(u, v).x == u.x + v.x && Add(u, v).y == u.y + v.y && Add(u, v).z == u.z + v.z
    ensures Sub(u, v).x == u.x - v.x && Sub(u, v).y == u.y - v.y && Sub(u, v).z == u.z - v.z
  {
  }

  lemma AddZeroIdentity(v: Vector3i)
    ensures Add(v, Zero()) == v && Add(Zero(), v) == v
  {
  }

  lemma AddCommutes(u: Vector3i, v: Vector3i)
    ensures Add(u, v) == Add(v, u)
  {
  }

  lemma NegInvolution(v: Vector3i)
    ensures Neg(Neg(v)) == v
  {
  }

  lemma SubIsAddNeg(u: Vector3i, v: Vector3i)
    ensures Sub(u, v) == Add(u, Neg(v))
  {
  }

  lemma DotCommutes(u: Vector3i, v: Vector3i)
    ensures Dot(u, v) == Dot(v, u)
  {
  }

  /** A sum of three squares is never negative, and it is the self dot product. */
  lemma Length2IsSelfDot(v: Vector3i)
    ensures Length2(v) == Dot(v, v)
    ensures Length2(v) >= 0
    ensures Length2(v) == 0 <==> v == Zero()
  {
    SquareNonNegative(v.x);
    SquareNonNegative(v.y);
    SquareNonNegative(v.z);
    if v.x != 0 { SquarePositive(v.x); }
    if v.y != 0 { SquarePositive(v.y); }
    if v.z != 0 { SquarePositive(v.z); }
  }

  lemma SquareNonNegative(a: int)
    ensures a * a >= 0
  {
    if a < 0 {
      assert a * a == (-a) * (-a);
    }
  }

  lemma SquarePositive(a: int)
    requires a != 0
    ensures a * a > 0
  {
    if a < 0 {
      assert a * a == (-a) * (-a);
    }
  }

  lemma CrossOrthogonal(u: Vector3i, v: Vector3i)
    ensures Dot(Cross(u, v), u) == 0
    ensures Dot(Cross(u, v), v) == 0
  {
  }

  lemma CrossSelfIsZero(u: Vector3i)
    ensures Cross(u, u) == Zero()
  {
  }

  lemma CrossAntiCommutes(u: Vector3i, v: Vector3i)
    ensures Cross(u, v) == Neg(Cross(v, u))
  {
  }

  lemma ScaleCommutes(v: Vector3i, t: int)
    ensures ScaleRight(v, t) == Scale(t, v)
    ensures Scale(t, v).x == t * v.x && Scale(t, v).y == t * v.y && Scale(t, v).z == t * v.z
  {
  }

  lemma MulCommutes(u: Vector3i, v: Vector3i)
    ensures Mul(u, v) == Mul(v, u)
  {
  }

  /** Reflecting about a unit normal negates the normal component. */
  lemma ReflectFlipsNormalComponent(v: Vector3i, n: Vector3i)
    requires Dot(n, n) == 1
    ensures Dot(Reflect(v, n), n) == -Dot(v, n)
  {
    var d := Dot(v, n);
    calc {
      Dot(Reflect(v, n), n);
    ==  { DotSubScale(v, n, 2 * d); }
      d - 2 * d * Dot(n, n);
    ==
      -d;
    }
  }

  lemma DotSubScale(v: Vector3i, n: Vector3i, k: int)
    ensures Dot(Sub(v, Scale(k, n)), n) == Dot(v, n) - k * Dot(n, n)
  {
    calc {
      Dot(Sub(v, Scale(k, n)), n);
    ==
      (v.x - k * n.x) * n.x + (v.y - k * n.y) * n.y + (v.z - k * n.z) * n.z;
    ==  { assert (v.x - k * n.x) * n.x == v.x * n.x - k * (n.x * n.x);
          assert (v.y - k * n.y) * n.y == v.y * n.y - k * (n.y * n.y);
          assert (v.z - k * n.z) * n.z == v.z * n.z - k * (n.z * n.z); }
      Dot(v, n) - k * (n.x * n.x + n.y * n.y + n.z * n.z);
    }
  }

  // ---------------------------------------------------------------------------
  // The in-place operators `+=` and `*=`, which update `m_array`.

  /** A `Vector3<int>` object whose `m_array` is updated in place. */
  class MutableVector3i {
    const data: array<int>

    ghost predicate Valid()
      reads this
    {
      data.Length == 3
    }

    function Value(): Vector3i
      reads this, data
      requires Valid()
    {
      Vector3i(data[0], data[1], data[2])
    }

    /** `Vector3(c0, c1, c2)`. */
    constructor (c0: int, c1: int, c2: int)
      ensures Valid() && fresh(data)
      ensures Value() == Vector3i(c0, c1, c2)
    {
      var a := new int[3];
      a[0], a[1], a[2] := c0, c1, c2;
      data := a;
    }

    /** `Vector3()`: the default constructor value-initialises to zero. */
    constructor Default()
      ensures Valid() && fresh(data)
      ensures Value() == Zero()
    {
      var a := new int[3];
      a[0], a[1], a[2] := 0, 0, 0;
      data := a;
    }

    /** `a += b`. */
    method AddAssign(v: Vector3i)
      requires Valid()
      modifies data
      ensures Valid()
      ensures Value() == Add(old(Value()), v)
    {
      data[0] := data[0] + v.x;
      data[1] := data[1] + v.y;
      data[2] := data[2] + v.z;
    }

    /** `a *= t`. */
    method MulAssign(t: int)
      requires Valid()
      modifies data
      ensures Valid()
      ensures Value() == Scale(t, old(Value()))
    {
      data[0] := data[0] * t;
      data[1] := data[1] * t;
      data[2] := data[2] * t;
    }
  }

  // ---------------------------------------------------------------------------
  // The double instantiation, over `real`, as far as the radiance recursion uses it.

  datatype Vector3d = Vector3d(x: real, y: real, z: real)

  function ZeroD(): Vector3d { Vector3d(0.0, 0.0, 0.0) }

  function AddD(u: Vector3d, v: Vector3d): Vector3d { Vector3d(u.x + v.x, u.y + v.y, u.z + v.z) }

  function ScaleD(t: real, v: Vector3d): Vector3d { Vector3d(t * v.x, t * v.y, t * v.z) }

  /** The component-wise product, used to apply an attenuation to a colour. */
  function MulD(u: Vector3d, v: Vector3d): Vector3d { Vector3d(u.x * v.x, u.y * v.y, u.z * v.z) }

  lemma MulDZero(u: Vector3d)
    ensures MulD(u, ZeroD()) == ZeroD() && MulD(ZeroD(), u) == ZeroD()
  {
  }
}
