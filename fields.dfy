/** Registry-held volume fields (one value per cell plus one list per
    boundary patch) and the cell-indexed write that both the sampler and the
    wall model perform on them. */
module Fields {
  import opened Geometry

  /** A volume field: scalar (`volScalarField`) or vector (`volVectorField`).
      `boundary[k]` holds the values on patch `k`. */
  datatype Field =
    | ScalarField(internal: seq<real>, boundary: seq<seq<real>>)
    | VectorField(vinternal: seq<Vec3>, vboundary: seq<seq<Vec3>>)

  /** The layout of a field: how many cells, and how many faces per patch. */
  datatype Shape = Shape(nCells: nat, patchSizes: seq<nat>)

  function ShapeOf(f: Field): (s: Shape)
    ensures f.ScalarField? ==> s.nCells == |f.internal| && |s.patchSizes| == |f.boundary|
    ensures f.ScalarField? ==> forall k :: 0 <= k < |f.boundary| ==> s.patchSizes[k] == |f.boundary[k]|
    ensures f.VectorField? ==> s.nCells == |f.vinternal| && |s.patchSizes| == |f.vboundary|
    ensures f.VectorField? ==> forall k :: 0 <= k < |f.vboundary| ==> s.patchSizes[k] == |f.vboundary[k]|
  {
    match f
    case ScalarField(i, b) => Shape(|i|, seq(|b|, k requires 0 <= k < |b| => |b[k]|))
    case VectorField(i, b) => Shape(|i|, seq(|b|, k requires 0 <= k < |b| => |b[k]|))
  }

  /** Every cell and every face value is zero. */
  predicate IsZero(f: Field) {
    match f
    case ScalarField(i, b) =>
      (forall c :: 0 <= c < |i| ==> i[c] == 0.0) &&
      (forall k, j :: 0 <= k < |b| && 0 <= j < |b[k]| ==> b[k][j] == 0.0)
    case VectorField(i, b) =>
      (forall c :: 0 <= c < |i| ==> i[c] == Zero) &&
      (forall k, j :: 0 <= k < |b| && 0 <= j < |b[k]| ==> b[k][j] == Zero)
  }

  /** A zero scalar field laid out as `s`, `dimensionedScalar(.., 0)`. */
  function ZeroScalarField(s: Shape): (f: Field)
    ensures f.ScalarField? && ShapeOf(f) == s && IsZero(f)
  {
    ScalarField(seq(s.nCells, _ => 0.0),
                seq(|s.patchSizes|, k requires 0 <= k < |s.patchSizes| => seq(s.patchSizes[k], _ => 0.0)))
  }

  /** A zero vector field laid out as `s`, `dimensionedVector(.., vector(0, 0, 0))`. */
  function ZeroVectorField(s: Shape): (f: Field)
    ensures f.VectorField? && ShapeOf(f) == s && IsZero(f)
  {
    VectorField(seq(s.nCells, _ => Zero),
                seq(|s.patchSizes|, k requires 0 <= k < |s.patchSizes| => seq(s.patchSizes[k], _ => Zero)))
  }

  /** A scalar field over `nCells` cells whose patch `pI` has `nFaces` faces. */
  predicate FitsScalar(f: Field, nCells: nat, pI: nat, nFaces: nat) {
    f.ScalarField? && |f.internal| == nCells && pI < |f.boundary| && |f.boundary[pI]| == nFaces
  }

  /** A vector field over `nCells` cells whose patch `pI` has `nFaces` faces. */
  predicate FitsVector(f: Field, nCells: nat, pI: nat, nFaces: nat) {
    f.VectorField? && |f.vinternal| == nCells && pI < |f.vboundary| && |f.vboundary[pI]| == nFaces
  }

  predicate Distinct<T(==)>(s: seq<T>) {
    forall i, j :: 0 <= i < j < |s| ==> s[i] != s[j]
  }

  /** The writes `cells[idx[i]] = vals[i]` for `i = 0, 1, ...` in turn: a
      cell named by no index keeps its value. */
  function Scatter<T>(cells: seq<T>, idx: seq<nat>, vals: seq<T>): (r: seq<T>)
    requires |vals| == |idx|
    requires forall i :: 0 <= i < |idx| ==> idx[i] < |cells|
    ensures |r| == |cells|
    ensures forall k :: 0 <= k < |cells| && k !in idx ==> r[k] == cells[k]
    decreases |idx|
  {
    if |idx| == 0 then cells
    else Scatter(cells[idx[0] := vals[0]], idx[1..], vals[1..])
  }

  /** When no cell is named twice, every named cell holds its value. */
  lemma {:induction false} ScatterDistinct<T>(cells: seq<T>, idx: seq<nat>, vals: seq<T>, i: nat)
    requires |vals| == |idx|
    requires forall j :: 0 <= j < |idx| ==> idx[j] < |cells|
    requires Distinct(idx)
    requires i < |idx|
    ensures Scatter(cells, idx, vals)[idx[i]] == vals[i]
    decreases |idx|
  {
    var next := cells[idx[0] := vals[0]];
    if i == 0 {
      assert idx[0] !in idx[1..] by {
        forall j | 0 <= j < |idx[1..]| ensures idx[1..][j] != idx[0] {
          assert idx[1..][j] == idx[j + 1];
        }
      }
    } else {
      assert Distinct(idx[1..]) by {
        forall a, b | 0 <= a < b < |idx[1..]| ensures idx[1..][a] != idx[1..][b] {
          assert idx[1..][a] == idx[a + 1] && idx[1..][b] == idx[b + 1];
        }
      }
      assert idx[i] == idx[1..][i - 1] && vals[i] == vals[1..][i - 1];
      ScatterDistinct(next, idx[1..], vals[1..], i - 1);
    }
  }

  /** When every write stores the same value, every named cell holds it,
      whether or not cells repeat. */
  lemma {:induction false} ScatterConst<T>(cells: seq<T>, idx: seq<nat>, vals: seq<T>, v: T, i: nat)
    requires |vals| == |idx|
    requires forall j :: 0 <= j < |idx| ==> idx[j] < |cells|
    requires forall j :: 0 <= j < |vals| ==> vals[j] == v
    requires i < |idx|
    ensures Scatter(cells, idx, vals)[idx[i]] == v
    decreases |idx|
  {
    var next := cells[idx[0] := vals[0]];
    if i > 0 {
      assert idx[i] == idx[1..][i - 1];
      ScatterConst(next, idx[1..], vals[1..], v, i - 1);
    } else if idx[0] in idx[1..] {
      var j :| 0 <= j < |idx[1..]| && idx[1..][j] == idx[0];
      ScatterConst(next, idx[1..], vals[1..], v, j);
    }
  }

  /** The result depends on the original cells only where no write lands. */
  lemma {:induction false} ScatterOverwrites<T>(a: seq<T>, b: seq<T>, idx: seq<nat>, vals: seq<T>)
    requires |vals| == |idx| && |a| == |b|
    requires forall j :: 0 <= j < |idx| ==> idx[j] < |a|
    requires forall k :: 0 <= k < |a| && k !in idx ==> a[k] == b[k]
    ensures Scatter(a, idx, vals) == Scatter(b, idx, vals)
    decreases |idx|
  {
    if |idx| > 0 {
      var a', b' := a[idx[0] := vals[0]], b[idx[0] := vals[0]];
      forall k | 0 <= k < |a'| && k !in idx[1..] ensures a'[k] == b'[k] {
        if k != idx[0] {
          assert k !in idx;
        }
      }
      ScatterOverwrites(a', b', idx[1..], vals[1..]);
    }
  }

  /** Doing the same writes a second time changes nothing. */
  lemma ScatterIdempotent<T>(cells: seq<T>, idx: seq<nat>, vals: seq<T>)
    requires |vals| == |idx|
    requires forall j :: 0 <= j < |idx| ==> idx[j] < |cells|
    ensures Scatter(Scatter(cells, idx, vals), idx, vals) == Scatter(cells, idx, vals)
  {
    ScatterOverwrites(Scatter(cells, idx, vals), cells, idx, vals);
  }
}
