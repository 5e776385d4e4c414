/** Three-component vectors over exact reals, the scalar oracles the
    sampling and closure code relies on, and the wall-tangential projection
    used by the sampler and by every projected sampled field. */
module Geometry {

  datatype Vec3 = Vec3(x: real, y: real, z: real)

  const Zero: Vec3 := Vec3(0.0, 0.0, 0.0)

  function Add(a: Vec3, b: Vec3): Vec3 { Vec3(a.x + b.x, a.y + b.y, a.z + b.z) }

  function Sub(a: Vec3, b: Vec3): Vec3 { Vec3(a.x - b.x, a.y - b.y, a.z - b.z) }

  function Neg(a: Vec3): Vec3 { Vec3(-a.x, -a.y, -a.z) }

  /** Scalar times vector, written `v*s` or `s*v` in the source. */
  function Scale(a: Vec3, s: real): Vec3 { Vec3(a.x * s, a.y * s, a.z * s) }

  /** The inner product, the operator `&` of the source. */
  function Dot(a: Vec3, b: Vec3): real { a.x * b.x + a.y * b.y + a.z * b.z }

  /** Component `j` of a vector, as `v[j]` in the source. */
  function Component(v: Vec3, j: nat): real
    requires j < 3
  {
    if j == 0 then v.x else if j == 1 then v.y else v.z
  }

  /** The vector `v` with component `j` replaced by `r`, as `v[j] = r`. */
  function WithComponent(v: Vec3, j: nat, r: real): (w: Vec3)
    requires j < 3
    ensures Component(w, j) == r
    ensures forall k :: 0 <= k < 3 && k != j ==> Component(w, k) == Component(v, k)
  {
    if j == 0 then v.(x := r) else if j == 1 then v.(y := r) else v.(z := r)
  }

  /** The components of a vector as a list of three scalars. */
  function Components(v: Vec3): (l: seq<real>)
    ensures |l| == 3
    ensures forall j :: 0 <= j < 3 ==> l[j] == Component(v, j)
  {
    [v.x, v.y, v.z]
  }

  /** Scalar functions the code calls but whose values the model leaves
      open: the Euclidean length `mag`, `exp`, and `pow(., 1/3)`. The one
      fact assumed about them is that a length is never negative. */
  datatype Math = Math(mag: Vec3 -> real, exp: real -> real, cbrt: real -> real)
  {
    ghost predicate Valid() {
      forall v :: mag(v) >= 0.0
    }
  }

  /** Removal of the wall-normal part of `v`, exactly as the sampler writes
      it: the normal part is `-n * (v & -n)` with `n` the outward normal.
      What is removed is the multiple `(v & n) n` of the normal, so it is
      parallel to `n`. */
  function Project(v: Vec3, n: Vec3): (p: Vec3)
    ensures Sub(v, p) == Scale(n, Dot(v, n))
  {
    var d := Dot(v, n);
    assert Dot(v, Neg(n)) == -d;
    assert Scale(Neg(n), -d) == Scale(n, d);
    Sub(v, Scale(Neg(n), Dot(v, Neg(n))))
  }

  /** For a unit normal the projected vector has no component along it. */
  lemma ProjectIsTangential(v: Vec3, n: Vec3)
    requires Dot(n, n) == 1.0
    ensures Dot(Project(v, n), n) == 0.0
  {
    var d := Dot(v, n);
    assert Project(v, n) == Sub(v, Scale(n, d));
    calc {
      Dot(Sub(v, Scale(n, d)), n);
      == { DotSubScale(v, n, d); }
      d - d * Dot(n, n);
      ==
      0.0;
    }
  }

  lemma DotSubScale(v: Vec3, n: Vec3, d: real)
    ensures Dot(Sub(v, Scale(n, d)), n) == Dot(v, n) - d * Dot(n, n)
  {
  }

  /** A vector already tangential to the wall is left as it is. */
  lemma ProjectKeepsTangential(v: Vec3, n: Vec3)
    requires Dot(v, n) == 0.0
    ensures Project(v, n) == v
  {
    assert Scale(n, 0.0) == Zero;
  }

  /** Projecting twice onto the same unit normal gives what projecting once does. */
  lemma ProjectIdempotent(v: Vec3, n: Vec3)
    requires Dot(n, n) == 1.0
    ensures Project(Project(v, n), n) == Project(v, n)
  {
    ProjectIsTangential(v, n);
    ProjectKeepsTangential(Project(v, n), n);
  }
}
