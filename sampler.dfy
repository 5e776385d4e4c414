/** The single-cell sampler of one wall patch: for every face it chooses the
    cell whose data represents the flow at the wall-normal distance `h`,
    marks those cells in the shared `samplingCells` field, derives the cube-
    root length scales, and time-averages the sampled fields it tracks into
    the patch's sampling sub-registry. */
module Samplers {
  import opened Geometry
  import opened MeshData
  import opened Fields
  import opened Registries
  import opened SampledFields

  // ---------------------------------------------------------------------
  // Choosing the sampling cells

  /** The sampling cell of one face and its recorded distance from the face. */
  datatype Pick = Pick(cell: nat, h: real)

  /** The choice made for face `i` when the persisted distance is `h0`.
      A zero distance means "not yet known": use the adjacent cell and its
      centre's distance. Otherwise search from the point `h0` inside the wall
      along the normal, from the adjacent cell's centre when that point is
      outside this process's part of the mesh, and record the distance to
      the centre of the cell found. */
  function SamplingPoint(p: Patch, m: Mesh, math: Math, h0: real, i: nat): (r: Pick)
    requires m.Valid() && math.Valid() && p.WellFormed(m.NCells()) && i < p.Size()
    ensures r.cell < m.NCells()
    ensures r.h >= 0.0
  {
    if h0 == 0.0 then
      Pick(p.faceCells[i], math.mag(Sub(p.Cn[i], p.Cf[i])))
    else
      var target := Sub(p.Cf[i], Scale(p.nf[i], h0));
      var point := if m.isInside(target) then target else p.Cn[i];
      var c := m.findNearestCell(point);
      Pick(c, math.mag(Sub(m.C[c], p.Cf[i])))
  }

  /** With no persisted distance the adjacent cell is used, at the distance
      between its centre and the face centre. */
  lemma FallbackWhenDistanceUnknown(p: Patch, m: Mesh, math: Math, h0: real, i: nat)
    requires m.Valid() && math.Valid() && p.WellFormed(m.NCells()) && i < p.Size()
    requires h0 == 0.0
    ensures SamplingPoint(p, m, math, h0, i) == Pick(p.faceCells[i], math.mag(Sub(p.Cn[i], p.Cf[i])))
  {
  }

  /** With a persisted distance the search starts at `Cf - n h0`, or at the
      adjacent cell's centre when that point is outside the local mesh, and
      the recorded distance is the one to the centre of the cell found. */
  lemma SearchWhenDistanceKnown(p: Patch, m: Mesh, math: Math, h0: real, i: nat)
    requires m.Valid() && math.Valid() && p.WellFormed(m.NCells()) && i < p.Size()
    requires h0 != 0.0
    ensures var target := Sub(p.Cf[i], Scale(p.nf[i], h0));
            var r := SamplingPoint(p, m, math, h0, i);
            r.cell == m.findNearestCell(if m.isInside(target) then target else p.Cn[i]) &&
            r.h == math.mag(Sub(m.C[r.cell], p.Cf[i]))
  {
  }

  /** On a patch whose adjacent-cell centres are those of the mesh, the
      recorded distance is in both cases the distance from the face centre to
      the centre of the chosen cell. */
  lemma DistanceIsToChosenCell(p: Patch, m: Mesh, math: Math, h0: real, i: nat)
    requires m.Valid() && math.Valid() && p.WellFormed(m.NCells()) && i < p.Size()
    requires p.ConsistentWith(m)
    ensures var r := SamplingPoint(p, m, math, h0, i);
            r.h == math.mag(Sub(m.C[r.cell], p.Cf[i]))
  {
  }

  /** The choices for all faces, given the persisted distances `h0`. */
  function Picks(p: Patch, m: Mesh, math: Math, h0: seq<real>): (r: seq<Pick>)
    requires m.Valid() && math.Valid() && p.WellFormed(m.NCells()) && |h0| == p.Size()
    ensures |r| == p.Size()
    ensures forall i :: 0 <= i < |r| ==> r[i] == SamplingPoint(p, m, math, h0[i], i)
  {
    seq(p.Size(), i requires 0 <= i < p.Size() => SamplingPoint(p, m, math, h0[i], i))
  }

  /** The registry after `createIndexList`: the patch slice of the global
      `h` holds the recorded distances and every chosen cell of
      `samplingCells` holds the patch index. */
  function MarkedFields(fields: map<string, Field>, pI: nat, cells: seq<nat>, hs: seq<real>): (r: map<string, Field>)
    requires "h" in fields && fields["h"].ScalarField? && pI < |fields["h"].boundary|
    requires "samplingCells" in fields && fields["samplingCells"].ScalarField?
    requires |cells| == |hs|
    requires forall i :: 0 <= i < |cells| ==> cells[i] < |fields["samplingCells"].internal|
    ensures r.Keys == fields.Keys
  {
    var hf := fields["h"];
    var sc := fields["samplingCells"];
    fields["h" := hf.(boundary := hf.boundary[pI := hs])]
          ["samplingCells" := sc.(internal := Scatter(sc.internal, cells, seq(|cells|, _ => pI as real)))]
  }

  /** What `createIndexList` leaves in the registry: every sampling cell is
      marked with the patch index, every other cell keeps its mark, the `h`
      slice of the patch is the recorded distances, and nothing else
      changes. */
  lemma {:induction false} MarkedFieldsSpec(fields: map<string, Field>, pI: nat, cells: seq<nat>, hs: seq<real>)
    requires "h" in fields && fields["h"].ScalarField? && pI < |fields["h"].boundary|
    requires "samplingCells" in fields && fields["samplingCells"].ScalarField?
    requires |cells| == |hs|
    requires forall i :: 0 <= i < |cells| ==> cells[i] < |fields["samplingCells"].internal|
    ensures var r := MarkedFields(fields, pI, cells, hs);
            r.Keys == fields.Keys &&
            (forall k :: k in fields && k != "h" && k != "samplingCells" ==> r[k] == fields[k]) &&
            r["h"].ScalarField? && r["h"].internal == fields["h"].internal &&
            r["h"].boundary == fields["h"].boundary[pI := hs] &&
            r["samplingCells"].ScalarField? &&
            r["samplingCells"].boundary == fields["samplingCells"].boundary &&
            |r["samplingCells"].internal| == |fields["samplingCells"].internal| &&
            (forall i :: 0 <= i < |cells| ==> r["samplingCells"].internal[cells[i]] == pI as real) &&
            (forall c :: 0 <= c < |fields["samplingCells"].internal| && c !in cells ==>
               r["samplingCells"].internal[c] == fields["samplingCells"].internal[c])
  {
    var sc := fields["samplingCells"];
    var marks := seq(|cells|, _ => pI as real);
    var r := MarkedFields(fields, pI, cells, hs);
    assert r["samplingCells"].internal == Scatter(sc.internal, cells, marks);
    forall i | 0 <= i < |cells| ensures r["samplingCells"].internal[cells[i]] == pI as real {
      ScatterConst(sc.internal, cells, marks, pI as real, i);
    }
  }

  /** `createFields` of the sampler: `h` read from disk if absent, then a
      zero `samplingCells` field laid out like `h` if absent. */
  function SamplerFields(fields: map<string, Field>, hRead: Field): (r: map<string, Field>)
    ensures "h" in r && "samplingCells" in r
    ensures r.Keys == fields.Keys + {"h", "samplingCells"}
    ensures forall k :: k in fields ==> r[k] == fields[k]
    ensures r["h"] == WithH(fields, hRead)["h"]
    ensures "samplingCells" !in fields ==>
              r["samplingCells"] == ZeroScalarField(ShapeOf(r["h"])) && IsZero(r["samplingCells"])
  {
    var f1 := WithH(fields, hRead);
    assert "h" != "samplingCells" by { assert "h"[0] != "samplingCells"[0]; }
    StoreField(f1, "samplingCells", ZeroScalarField(ShapeOf(f1["h"])))
  }

  /** When `h` fits the patch and a `samplingCells` already present is a
      scalar field over the mesh, the fields `createIndexList` works on are
      in place after the sampler's `createFields`. */
  lemma SamplerFieldsFit(fields: map<string, Field>, hRead: Field, nCells: nat, pI: nat, nFaces: nat)
    requires FitsScalar(WithH(fields, hRead)["h"], nCells, pI, nFaces)
    requires "samplingCells" in fields ==>
               fields["samplingCells"].ScalarField? && |fields["samplingCells"].internal| == nCells
    ensures var r := SamplerFields(fields, hRead);
            FitsScalar(r["h"], nCells, pI, nFaces) &&
            r["samplingCells"].ScalarField? && |r["samplingCells"].internal| == nCells
  {
  }

  /** Creating the sampler's fields a second time changes nothing. */
  lemma SamplerFieldsIdempotent(fields: map<string, Field>, hRead: Field)
    ensures SamplerFields(SamplerFields(fields, hRead), hRead) == SamplerFields(fields, hRead)
  {
  }

  // ---------------------------------------------------------------------
  // Time averaging

  /** The averaging weight: 1 (no averaging) unless the averaging time
      exceeds the time step, `dt / averagingTime` otherwise. */
  function Eps(averagingTime: real, dt: real): (eps: real)
    requires dt >= 0.0
    ensures 0.0 <= eps <= 1.0
    ensures averagingTime <= dt ==> eps == 1.0
  {
    if averagingTime > dt then
      assert 0.0 <= dt / averagingTime < 1.0 by {
        if dt > 0.0 { DivBelowOne(dt, averagingTime); }
      }
      dt / averagingTime
    else 1.0
  }

  /** For a positive time step the weight lies in (0, 1]. */
  lemma EpsBounds(averagingTime: real, dt: real)
    requires dt > 0.0
    ensures 0.0 < Eps(averagingTime, dt) <= 1.0
  {
    if averagingTime > dt {
      DivBelowOne(dt, averagingTime);
    }
  }

  lemma DivBelowOne(a: real, b: real)
    requires 0.0 < a < b
    ensures 0.0 < a / b < 1.0
  {
    assert b / b == 1.0;
    assert a / b + (b - a) / b == b / b;
    assert (b - a) / b > 0.0;
  }

  /** For a positive averaging time the weight is `min(1, dt / averagingTime)`;
      an averaging time of zero (the default) means no averaging. */
  lemma EpsIsMinimum(averagingTime: real, dt: real)
    requires dt >= 0.0
    ensures averagingTime > 0.0 ==>
              Eps(averagingTime, dt) == if dt / averagingTime < 1.0 then dt / averagingTime else 1.0
    ensures averagingTime <= 0.0 ==> Eps(averagingTime, dt) == 1.0
  {
    if averagingTime > 0.0 {
      if averagingTime > dt {
        if dt > 0.0 { DivBelowOne(dt, averagingTime); }
      } else {
        assert dt / averagingTime >= 1.0 by {
          assert dt / averagingTime * averagingTime == dt;
        }
      }
    }
  }

  /** `eps*sampled + (1 - eps)*stored`, face by face. */
  function Blend(eps: real, sampled: seq<Vec3>, stored: seq<Vec3>): (r: seq<Vec3>)
    requires |sampled| == |stored|
    ensures |r| == |stored|
    ensures forall i :: 0 <= i < |r| ==> Sub(r[i], stored[i]) == Scale(Sub(sampled[i], stored[i]), eps)
  {
    seq(|stored|, i requires 0 <= i < |stored| => Add(Scale(sampled[i], eps), Scale(stored[i], 1.0 - eps)))
  }

  /** Without averaging the stored values become the samples. */
  lemma BlendWithoutAveraging(sampled: seq<Vec3>, stored: seq<Vec3>)
    requires |sampled| == |stored|
    ensures Blend(1.0, sampled, stored) == sampled
  {
  }

  lemma ScaleWithin(d: real, e: real)
    requires d >= 0.0 && 0.0 <= e <= 1.0
    ensures 0.0 <= d * e <= d
  {
    assert d * (1.0 - e) >= 0.0;
  }

  /** A value moved from `b` towards `a` by a fraction `e` in [0, 1] of
      the gap lies between the two. */
  lemma RelaxBetween(a: real, b: real, e: real, r: real)
    requires 0.0 <= e <= 1.0 && r - b == (a - b) * e
    ensures (if a <= b then a else b) <= r <= (if a <= b then b else a)
  {
    if a <= b {
      ScaleWithin(b - a, e);
      assert (a - b) * e == -((b - a) * e);
    } else {
      ScaleWithin(a - b, e);
    }
  }

  /** With a weight in [0, 1] every averaged component lies between the
      sampled and the previously stored component. */
  lemma BlendStaysBetween(eps: real, sampled: seq<Vec3>, stored: seq<Vec3>, i: nat, j: nat)
    requires |sampled| == |stored| && 0.0 <= eps <= 1.0 && i < |stored| && j < 3
    ensures var a, b, r := Component(sampled[i], j), Component(stored[i], j), Component(Blend(eps, sampled, stored)[i], j);
            (if a <= b then a else b) <= r <= (if a <= b then b else a)
  {
    var v := Blend(eps, sampled, stored)[i];
    assert Sub(v, stored[i]) == Scale(Sub(sampled[i], stored[i]), eps);
    assert Component(v, j) - Component(stored[i], j) == (Component(sampled[i], j) - Component(stored[i], j)) * eps;
    RelaxBetween(Component(sampled[i], j), Component(stored[i], j), eps, Component(v, j));
  }

  /** Averaging a signal into storage that already holds it changes nothing. */
  lemma BlendFixedPoint(eps: real, s: seq<Vec3>)
    ensures Blend(eps, s, s) == s
  {
    forall i | 0 <= i < |s| ensures Blend(eps, s, s)[i] == s[i] {
      var v := s[i];
      assert v.x * eps + v.x * (1.0 - eps) == v.x;
      assert v.y * eps + v.y * (1.0 - eps) == v.y;
      assert v.z * eps + v.z * (1.0 - eps) == v.z;
    }
  }

  /** A sampled list of three components per face as a vector field. */
  function ToField(list: seq<seq<real>>): (f: seq<Vec3>)
    requires forall i :: 0 <= i < |list| ==> |list[i]| == 3
    ensures |f| == |list|
    ensures forall i, j :: 0 <= i < |list| && 0 <= j < 3 ==> Component(f[i], j) == list[i][j]
  {
    seq(|list|, i requires 0 <= i < |list| => Vec3(list[i][0], list[i][1], list[i][2]))
  }

  /** `listListToField`: `field[i][j] = list[i][j]` for every face `i` of the
      list and every component `j` it gives; faces past the end of the list
      are not touched. A component the list does not give is zero here. */
  method ListListToField(list: seq<seq<real>>, field: array<Vec3>)
    requires |list| <= field.Length
    requires forall i :: 0 <= i < |list| ==> |list[i]| <= 3
    modifies field
    ensures forall i, j :: 0 <= i < |list| && 0 <= j < |list[i]| ==> Component(field[i], j) == list[i][j]
    ensures forall i :: |list| <= i < field.Length ==> field[i] == old(field[i])
  {
    for i := 0 to |list|
      invariant forall k, j :: 0 <= k < i && 0 <= j < |list[k]| ==> Component(field[k], j) == list[k][j]
      invariant forall k :: i <= k < field.Length ==> field[k] == old(field[k])
    {
      var element := Zero;
      for j := 0 to |list[i]|
        invariant forall c :: 0 <= c < j ==> Component(element, c) == list[i][c]
      {
        element := WithComponent(element, j, list[i][j]);
      }
      field[i] := element;
    }
  }

  lemma EqualByComponents(v: Vec3, w: Vec3)
    requires forall j :: 0 <= j < 3 ==> Component(v, j) == Component(w, j)
    ensures v == w
  {
    assert Component(v, 0) == Component(w, 0);
    assert Component(v, 1) == Component(w, 1);
    assert Component(v, 2) == Component(w, 2);
  }

  function Kinds(fs: seq<SampledField>): (ks: seq<Kind>)
    ensures |ks| == |fs| && forall i :: 0 <= i < |fs| ==> ks[i] == fs[i].kind
  {
    seq(|fs|, i requires 0 <= i < |fs| => fs[i].kind)
  }

  /** The sub-registry holds storage of `n` faces for every three-component
      kind, and each such kind's sample has three components for each of
      `n` faces. */
  predicate Ready(db: Store, ks: seq<Kind>, samples: seq<seq<seq<real>>>, n: nat) {
    |samples| == |ks| &&
    forall f :: 0 <= f < |ks| && NDims(ks[f]) == 3 ==>
      Name(ks[f]) in db && |db[Name(ks[f])]| == n && |samples[f]| == n &&
      (forall i :: 0 <= i < n ==> |samples[f][i]| == 3)
  }

  /** One field's turn in `sample()`: a three-component field is averaged
      into its storage, any other is sampled and dropped. */
  function SampleStep(db: Store, k: Kind, sample: seq<seq<real>>, eps: real): (r: Store)
    requires NDims(k) == 3 ==> Name(k) in db && |db[Name(k)]| == |sample| &&
                               forall i :: 0 <= i < |sample| ==> |sample[i]| == 3
    ensures r.Keys == db.Keys
    ensures forall n :: n in db ==> |r[n]| == |db[n]|
    ensures forall n :: n in db && n != Name(k) ==> r[n] == db[n]
    ensures NDims(k) == 3 ==> r[Name(k)] == Blend(eps, ToField(sample), db[Name(k)])
    ensures NDims(k) != 3 ==> r == db
  {
    if NDims(k) == 3 then db[Name(k) := Blend(eps, ToField(sample), db[Name(k)])] else db
  }

  /** The whole of `sample()` on the patch's sub-registry: the fields'
      turns in order. Storage of other names is never touched. */
  function SampleAll(db: Store, ks: seq<Kind>, samples: seq<seq<seq<real>>>, eps: real, n: nat): (r: Store)
    requires Ready(db, ks, samples, n)
    ensures r.Keys == db.Keys
    ensures forall m :: m in db ==> |r[m]| == |db[m]|
    ensures forall m :: m in db && (forall f :: 0 <= f < |ks| ==> Name(ks[f]) != m) ==> r[m] == db[m]
    decreases |ks|
  {
    if |ks| == 0 then db
    else
      var next := SampleStep(db, ks[0], samples[0], eps);
      assert Ready(next, ks[1..], samples[1..], n) by {
        forall f | 0 <= f < |ks[1..]| && NDims(ks[1..][f]) == 3
          ensures Name(ks[1..][f]) in next && |next[Name(ks[1..][f])]| == n
        {
          assert ks[1..][f] == ks[f + 1];
        }
      }
      var r := SampleAll(next, ks[1..], samples[1..], eps, n);
      assert forall m :: m in db && (forall f :: 0 <= f < |ks| ==> Name(ks[f]) != m) ==>
               (forall f :: 0 <= f < |ks[1..]| ==> Name(ks[1..][f]) != m) by {
        forall m, f | m in db && (forall g :: 0 <= g < |ks| ==> Name(ks[g]) != m) && 0 <= f < |ks[1..]|
          ensures Name(ks[1..][f]) != m
        {
          assert ks[1..][f] == ks[f + 1];
        }
      }
      r
  }

  /** When the tracked fields have different names, each three-component
      field's storage ends up as `eps*sampled + (1 - eps)*old`. */
  lemma {:induction false} SampleAllBlendsEachField(db: Store, ks: seq<Kind>, samples: seq<seq<seq<real>>>,
                                                    eps: real, n: nat, f: nat)
    requires Ready(db, ks, samples, n)
    requires Distinct(ks)
    requires f < |ks| && NDims(ks[f]) == 3
    ensures Name(ks[f]) in db
    ensures SampleAll(db, ks, samples, eps, n)[Name(ks[f])] ==
            Blend(eps, ToField(samples[f]), db[Name(ks[f])])
    decreases |ks|
  {
    var next := SampleStep(db, ks[0], samples[0], eps);
    assert Ready(next, ks[1..], samples[1..], n) by {
      forall g | 0 <= g < |ks[1..]| && NDims(ks[1..][g]) == 3
        ensures Name(ks[1..][g]) in next && |next[Name(ks[1..][g])]| == n
      {
        assert ks[1..][g] == ks[g + 1];
      }
    }
    assert SampleAll(db, ks, samples, eps, n) == SampleAll(next, ks[1..], samples[1..], eps, n);
    if f == 0 {
      forall g | 0 <= g < |ks[1..]| ensures Name(ks[1..][g]) != Name(ks[0]) {
        assert ks[1..][g] == ks[g + 1];
        KindsAreVectorsUnderDistinctNames(ks[g + 1], ks[0]);
      }
    } else {
      assert Distinct(ks[1..]) by {
        forall a, b | 0 <= a < b < |ks[1..]| ensures ks[1..][a] != ks[1..][b] {
          assert ks[1..][a] == ks[a + 1] && ks[1..][b] == ks[b + 1];
        }
      }
      assert ks[1..][f - 1] == ks[f] && samples[1..][f - 1] == samples[f];
      KindsAreVectorsUnderDistinctNames(ks[0], ks[f]);
      SampleAllBlendsEachField(next, ks[1..], samples[1..], eps, n, f - 1);
    }
  }

  /** Without averaging, sampling twice from unchanged flow data leaves the
      storage as the first sampling left it. */
  lemma SampleWithoutAveragingIsIdempotent(db: Store, ks: seq<Kind>, samples: seq<seq<seq<real>>>, n: nat)
    requires Ready(db, ks, samples, n)
    requires Distinct(ks)
    ensures Ready(SampleAll(db, ks, samples, 1.0, n), ks, samples, n)
    ensures SampleAll(SampleAll(db, ks, samples, 1.0, n), ks, samples, 1.0, n) == SampleAll(db, ks, samples, 1.0, n)
  {
    var once := SampleAll(db, ks, samples, 1.0, n);
    assert Ready(once, ks, samples, n);
    var twice := SampleAll(once, ks, samples, 1.0, n);
    forall m | m in db ensures twice[m] == once[m] {
      if f :| 0 <= f < |ks| && Name(ks[f]) == m {
        KindsAreVectorsUnderDistinctNames(ks[f], ks[f]);
        SampleAllBlendsEachField(db, ks, samples, 1.0, n, f);
        SampleAllBlendsEachField(once, ks, samples, 1.0, n, f);
        BlendWithoutAveraging(ToField(samples[f]), db[m]);
        BlendWithoutAveraging(ToField(samples[f]), once[m]);
      }
    }
  }

  /** A sample of three components per face as a vector field, built
      through `ListListToField` into a fresh array. */
  method AsVectorField(sample: seq<seq<real>>) returns (v: seq<Vec3>)
    requires forall i :: 0 <= i < |sample| ==> |sample[i]| == 3
    ensures v == ToField(sample)
  {
    var field := new Vec3[|sample|](_ => Zero);
    ListListToField(sample, field);
    forall i | 0 <= i < |sample| ensures field[i] == ToField(sample)[i] {
      EqualByComponents(field[i], ToField(sample)[i]);
    }
    v := field[..];
  }

  /** One turn of `SampleAll`, and the storage left ready for the rest. */
  lemma SampleAllUnfold(db: Store, ks: seq<Kind>, samples: seq<seq<seq<real>>>, eps: real, n: nat)
    requires Ready(db, ks, samples, n) && |ks| > 0
    ensures Ready(SampleStep(db, ks[0], samples[0], eps), ks[1..], samples[1..], n)
    ensures SampleAll(db, ks, samples, eps, n) ==
            SampleAll(SampleStep(db, ks[0], samples[0], eps), ks[1..], samples[1..], eps, n)
  {
    var next := SampleStep(db, ks[0], samples[0], eps);
    forall f | 0 <= f < |ks[1..]| && NDims(ks[1..][f]) == 3
      ensures Name(ks[1..][f]) in next && |next[Name(ks[1..][f])]| == n
    {
      assert ks[1..][f] == ks[f + 1];
    }
  }

  /** `recomputeFields()` over the state the hooks act on: every tracked
      field's `recompute()` in order. */
  function RecomputeAll<S>(ks: seq<Kind>, s: S, foreign: (Kind, S) -> S): (r: S)
    ensures (forall i :: 0 <= i < |ks| ==> ks[i] == Velocity) ==> r == s
    decreases |ks|
  {
    if |ks| == 0 then s
    else
      assert forall i :: 0 <= i < |ks[1..]| ==> ks[1..][i] == ks[i + 1];
      RecomputeAll(ks[1..], Recompute(ks[0], s, foreign), foreign)
  }

  /** Recomputing a list of fields is recomputing its first part and then
      its second part. */
  lemma {:induction false} RecomputeAllAppend<S>(a: seq<Kind>, b: seq<Kind>, s: S, foreign: (Kind, S) -> S)
    ensures RecomputeAll(a + b, s, foreign) == RecomputeAll(b, RecomputeAll(a, s, foreign), foreign)
    decreases |a|
  {
    if |a| > 0 {
      assert (a + b)[1..] == a[1..] + b;
      RecomputeAllAppend(a[1..], b, Recompute(a[0], s, foreign), foreign);
    } else {
      assert a + b == b;
    }
  }

  /** The wall-parallel part of each vector of a field, face by face. */
  function ProjectAll(vs: seq<Vec3>, ns: seq<Vec3>): (r: seq<Vec3>)
    requires |vs| <= |ns|
    ensures |r| == |vs|
  {
    seq(|vs|, i requires 0 <= i < |vs| => Project(vs[i], ns[i]))
  }

  /** After projection no vector has a component along its unit face normal,
      and what was removed is parallel to that normal. */
  lemma ProjectAllIsTangential(vs: seq<Vec3>, ns: seq<Vec3>, i: nat)
    requires |vs| <= |ns| && i < |vs| && Dot(ns[i], ns[i]) == 1.0
    ensures Dot(ProjectAll(vs, ns)[i], ns[i]) == 0.0
    ensures Sub(vs[i], ProjectAll(vs, ns)[i]) == Scale(ns[i], Dot(vs[i], ns[i]))
  {
    ProjectIsTangential(vs[i], ns[i]);
    assert ProjectAll(vs, ns)[i] == Project(vs[i], ns[i]);
  }

  // ---------------------------------------------------------------------
  // The sampler

  class SingleCellSampler {
    const patch: Patch
    const mesh: Mesh
    const math: Math
    const averagingTime: real
    const registry: Registry

    /** The cell each face samples from. */
    var indexList: seq<nat>
    /** The cube root of the volume of each sampling cell. */
    var lengthList: seq<real>
    /** The distance from each face to its sampling cell's centre. */
    var h: seq<real>
    var sampledFields: seq<SampledField>

    /** The inputs are consistent and the three lists have one entry per face. */
    ghost predicate WellSized()
      reads this`indexList, this`lengthList, this`h
    {
      mesh.Valid() && math.Valid() && patch.WellFormed(mesh.NCells()) &&
      |indexList| == patch.Size() && |lengthList| == patch.Size() && |h| == patch.Size()
    }

    /** Also, every sampling cell is a cell of the mesh and no distance is negative. */
    ghost predicate Valid()
      reads this`indexList, this`lengthList, this`h
    {
      WellSized() &&
      (forall i :: 0 <= i < |indexList| ==> indexList[i] < mesh.NCells()) &&
      (forall i :: 0 <= i < |h| ==> h[i] >= 0.0)
    }

    /** Construction from a patch and an averaging time: open the patch's
        sampling sub-registry, create the fields, choose the cells, compute
        the length scales, and start tracking the velocity and the wall-
        normal velocity gradient. `hRead` is what the host reads for `h`
        when it is not registered yet, and `onDisk` the sampled storage found
        in the patch's sampling directory on a restart. */
    constructor (p: Patch, m: Mesh, mt: Math, at: real, reg: Registry, hRead: Field,
                 onDisk: map<string, seq<Vec3>>)
      requires m.Valid() && mt.Valid() && p.WellFormed(m.NCells())
      requires FitsScalar(WithH(reg.fields, hRead)["h"], m.NCells(), p.index, p.Size())
      requires "samplingCells" in reg.fields ==>
                 reg.fields["samplingCells"].ScalarField? && |reg.fields["samplingCells"].internal| == m.NCells()
      modifies reg
      ensures Valid()
      ensures patch == p && mesh == m && math == mt && averagingTime == at && registry == reg
      ensures var picks := Picks(p, m, mt, WithH(old(reg.fields), hRead)["h"].boundary[p.index]);
              forall i :: 0 <= i < p.Size() ==> indexList[i] == picks[i].cell && h[i] == picks[i].h
      ensures forall i :: 0 <= i < p.Size() ==> lengthList[i] == mt.cbrt(m.V[indexList[i]])
      ensures reg.fields == MarkedFields(SamplerFields(old(reg.fields), hRead), p.index, indexList, h)
      ensures reg.sampling.Keys == old(reg.sampling).Keys + {p.name}
      ensures forall q :: q in old(reg.sampling) && q != p.name ==> reg.sampling[q] == old(reg.sampling)[q]
      ensures var db0 := if p.name in old(reg.sampling) then old(reg.sampling)[p.name] else map[];
              reg.sampling[p.name] ==
                Register(Register(db0, Velocity, p.Size(), onDisk), WallGradU, p.Size(), onDisk)
      ensures sampledFields == [FromPatch(Velocity, p), FromPatch(WallGradU, p)]
      ensures NSampledFields() == 2
    {
      patch, mesh, math, averagingTime, registry := p, m, mt, at, reg;
      indexList := seq(p.Size(), _ => 0);
      lengthList := seq(p.Size(), _ => 0.0);
      h := seq(p.Size(), _ => 0.0);
      sampledFields := [];
      new;
      reg.SubRegistry(p.name);
      CreateSamplingData(hRead);
      AddDefaultFields(onDisk);
    }

    /** The part of construction that reads the mesh: the sampler's
        `createFields`, `createIndexList` and `createLengthList` in turn. */
    method CreateSamplingData(hRead: Field)
      requires WellSized()
      requires FitsScalar(WithH(registry.fields, hRead)["h"], mesh.NCells(), patch.index, patch.Size())
      requires "samplingCells" in registry.fields ==>
                 registry.fields["samplingCells"].ScalarField? &&
                 |registry.fields["samplingCells"].internal| == mesh.NCells()
      modifies this`indexList, this`h, this`lengthList, registry
      ensures Valid()
      ensures sampledFields == old(sampledFields)
      ensures var picks := Picks(patch, mesh, math, WithH(old(registry.fields), hRead)["h"].boundary[patch.index]);
              forall i :: 0 <= i < patch.Size() ==> indexList[i] == picks[i].cell && h[i] == picks[i].h
      ensures forall i :: 0 <= i < patch.Size() ==> lengthList[i] == math.cbrt(mesh.V[indexList[i]])
      ensures registry.fields == MarkedFields(SamplerFields(old(registry.fields), hRead), patch.index, indexList, h)
      ensures registry.sampling == old(registry.sampling)
    {
      ghost var f0 := registry.fields;
      CreateFields(hRead);
      SamplerFieldsFit(f0, hRead, mesh.NCells(), patch.index, patch.Size());
      CreateIndexList();
      CreateLengthList();
    }

    /** The copy constructor: the same patch, lists and averaging time, and a
        clone of every tracked field. */
    constructor Copy(other: SingleCellSampler)
      requires other.Valid()
      ensures Valid()
      ensures patch == other.patch && mesh == other.mesh && math == other.math
      ensures averagingTime == other.averagingTime && registry == other.registry
      ensures indexList == other.indexList && lengthList == other.lengthList && h == other.h
      ensures |sampledFields| == |other.sampledFields|
      ensures forall i :: 0 <= i < |sampledFields| ==> sampledFields[i] == other.sampledFields[i].Clone()
    {
      patch, mesh, math := other.patch, other.mesh, other.math;
      averagingTime, registry := other.averagingTime, other.registry;
      indexList, lengthList, h := other.indexList, other.lengthList, other.h;
      var clones: seq<SampledField> := [];
      for i := 0 to |other.sampledFields|
        invariant |clones| == i
        invariant forall k :: 0 <= k < i ==> clones[k] == other.sampledFields[k].Clone()
      {
        clones := clones + [other.sampledFields[i].Clone()];
      }
      sampledFields := clones;
    }

    /** The sampler's `createFields`. */
    method CreateFields(hRead: Field)
      modifies registry
      ensures registry.fields == SamplerFields(old(registry.fields), hRead)
      ensures registry.sampling == old(registry.sampling)
    {
      registry.fields := SamplerFields(registry.fields, hRead);
    }

    /** `createIndexList`: choose every face's sampling cell and distance,
        starting from the patch slice of the global `h`; write the distances
        back to that slice and mark the chosen cells with the patch index. */
    method CreateIndexList()
      requires WellSized()
      requires "h" in registry.fields && FitsScalar(registry.fields["h"], mesh.NCells(), patch.index, patch.Size())
      requires "samplingCells" in registry.fields && registry.fields["samplingCells"].ScalarField?
      requires |registry.fields["samplingCells"].internal| == mesh.NCells()
      modifies this`indexList, this`h, registry
      ensures Valid()
      ensures lengthList == old(lengthList) && sampledFields == old(sampledFields)
      ensures var picks := Picks(patch, mesh, math, old(registry.fields)["h"].boundary[patch.index]);
              forall i :: 0 <= i < patch.Size() ==> indexList[i] == picks[i].cell && h[i] == picks[i].h
      ensures registry.fields == MarkedFields(old(registry.fields), patch.index, indexList, h)
      ensures registry.sampling == old(registry.sampling)
    {
      var n := patch.Size();
      var hField := registry.fields["h"];
      var sc := registry.fields["samplingCells"];
      ghost var h0 := hField.boundary[patch.index];
      var hs := hField.boundary[patch.index];
      var idx := indexList;
      for i := 0 to n
        invariant |hs| == n && |idx| == n
        invariant forall k :: 0 <= k < i ==>
                    idx[k] == SamplingPoint(patch, mesh, math, h0[k], k).cell &&
                    hs[k] == SamplingPoint(patch, mesh, math, h0[k], k).h
        invariant forall k :: i <= k < n ==> hs[k] == h0[k]
      {
        if hs[i] == 0.0 {
          hs := hs[i := math.mag(Sub(patch.Cn[i], patch.Cf[i]))];
          idx := idx[i := patch.faceCells[i]];
        } else {
          var point := Sub(patch.Cf[i], Scale(patch.nf[i], hs[i]));
          if !mesh.isInside(point) {
            point := patch.Cn[i];
          }
          idx := idx[i := mesh.findNearestCell(point)];
          hs := hs[i := math.mag(Sub(mesh.C[idx[i]], patch.Cf[i]))];
        }
      }
      assert forall k :: 0 <= k < n ==> idx[k] < mesh.NCells() && hs[k] >= 0.0;

      var marks := seq(n, _ => patch.index as real);
      var cells := sc.internal;
      for i := 0 to n
        invariant |cells| == |sc.internal|
        invariant Scatter(cells, idx[i..], marks[i..]) == Scatter(sc.internal, idx, marks)
      {
        assert idx[i..][1..] == idx[i + 1..] && marks[i..][1..] == marks[i + 1..];
        cells := cells[idx[i] := patch.index as real];
      }
      assert cells == Scatter(cells, idx[n..], marks[n..]);
      indexList, h := idx, hs;
      registry.fields := registry.fields["h" := hField.(boundary := hField.boundary[patch.index := hs])]
                                        ["samplingCells" := sc.(internal := cells)];
    }

    /** `createLengthList`: the cube root of each sampling cell's volume. */
    method CreateLengthList()
      requires Valid()
      modifies this`lengthList
      ensures Valid()
      ensures forall i :: 0 <= i < patch.Size() ==> lengthList[i] == math.cbrt(mesh.V[indexList[i]])
    {
      for i := 0 to |lengthList|
        invariant |lengthList| == patch.Size()
        invariant forall k :: 0 <= k < i ==> lengthList[k] == math.cbrt(mesh.V[indexList[k]])
      {
        lengthList := lengthList[i := math.cbrt(mesh.V[indexList[i]])];
      }
    }

    /** `project`: replace every vector of `field` by its wall-parallel part. */
    method Project(field: array<Vec3>)
      requires field.Length <= |patch.nf|
      modifies field
      ensures field[..] == ProjectAll(old(field[..]), patch.nf)
    {
      for i := 0 to field.Length
        invariant forall k :: 0 <= k < i ==> field[k] == Geometry.Project(old(field[k]), patch.nf[k])
        invariant forall k :: i <= k < field.Length ==> field[k] == old(field[k])
      {
        var normal := Scale(Neg(patch.nf[i]), Dot(field[i], Neg(patch.nf[i])));
        field[i] := Sub(field[i], normal);
      }
    }

    /** `sample()`: nothing on a patch without faces here; otherwise every
        tracked field's sample, `samples[f]` for field `f`, is averaged into
        its storage with the weight `Eps(averagingTime, dt)`. */
    method Sample(dt: real, samples: seq<seq<seq<real>>>)
      requires Valid() && dt >= 0.0 && |samples| == |sampledFields|
      requires patch.Size() > 0 ==>
                 patch.name in registry.sampling &&
                 Ready(registry.sampling[patch.name], Kinds(sampledFields), samples, patch.Size())
      modifies registry
      ensures registry.fields == old(registry.fields)
      ensures patch.Size() == 0 ==> registry.sampling == old(registry.sampling)
      ensures patch.Size() > 0 ==>
                registry.sampling == old(registry.sampling)[patch.name :=
                  SampleAll(old(registry.sampling)[patch.name], Kinds(sampledFields), samples,
                            Eps(averagingTime, dt), patch.Size())]
    {
      var n := patch.Size();
      if n == 0 {
        return;
      }
      var eps := 1.0;
      if averagingTime > dt {
        eps := dt / averagingTime;
      }
      ghost var ks := Kinds(sampledFields);
      var db0 := registry.sampling[patch.name];
      var db := db0;
      for fieldI := 0 to |sampledFields|
        invariant registry.fields == old(registry.fields) && registry.sampling == old(registry.sampling)
        invariant Ready(db, ks[fieldI..], samples[fieldI..], n)
        invariant SampleAll(db, ks[fieldI..], samples[fieldI..], eps, n) == SampleAll(db0, ks, samples, eps, n)
      {
        SampleAllUnfold(db, ks[fieldI..], samples[fieldI..], eps, n);
        assert ks[fieldI..][1..] == ks[fieldI + 1..] && samples[fieldI..][1..] == samples[fieldI + 1..];
        var k := sampledFields[fieldI].kind;
        if NDims(k) == 3 {
          var sampledField := AsVectorField(samples[fieldI]);
          var storedValues := db[Name(k)];
          db := db[Name(k) := Blend(eps, sampledField, storedValues)];
        }
      }
      registry.sampling := registry.sampling[patch.name := db];
    }

    /** The two fields every sampler tracks from the start: the velocity and
        the wall-normal gradient of the velocity. */
    method AddDefaultFields(onDisk: map<string, seq<Vec3>>)
      requires patch.name in registry.sampling
      modifies registry, this`sampledFields
      ensures registry.fields == old(registry.fields)
      ensures registry.sampling.Keys == old(registry.sampling).Keys
      ensures forall q :: q in old(registry.sampling) && q != patch.name ==> registry.sampling[q] == old(registry.sampling)[q]
      ensures registry.sampling[patch.name] ==
                Register(Register(old(registry.sampling)[patch.name], Velocity, patch.Size(), onDisk),
                         WallGradU, patch.Size(), onDisk)
      ensures sampledFields == old(sampledFields) + [FromPatch(Velocity, patch), FromPatch(WallGradU, patch)]
    {
      AddNewField(Velocity, onDisk);
      AddNewField(WallGradU, onDisk);
    }

    /** `addField(new Sampled<Kind>Field(patch))`: the new field registers
        its storage in the patch's sub-registry, then is tracked. */
    method AddNewField(k: Kind, onDisk: map<string, seq<Vec3>>)
      requires patch.name in registry.sampling
      modifies registry, this`sampledFields
      ensures registry.fields == old(registry.fields)
      ensures registry.sampling ==
                old(registry.sampling)[patch.name := Register(old(registry.sampling)[patch.name], k, patch.Size(), onDisk)]
      ensures sampledFields == old(sampledFields) + [FromPatch(k, patch)]
    {
      registry.sampling := registry.sampling[patch.name := Register(registry.sampling[patch.name], k, patch.Size(), onDisk)];
      AddField(FromPatch(k, patch));
    }

    /** `addField`: start tracking one more field. */
    method AddField(f: SampledField)
      modifies this`sampledFields
      ensures sampledFields == old(sampledFields) + [f]
      ensures NSampledFields() == old(NSampledFields()) + 1
    {
      sampledFields := sampledFields + [f];
    }

    /** `recomputeFields()`: every tracked field's `recompute()` in order,
        acting on the registry's fields. */
    method RecomputeFields(foreign: (Kind, map<string, Field>) -> map<string, Field>)
      modifies registry
      ensures registry.fields == RecomputeAll(Kinds(sampledFields), old(registry.fields), foreign)
      ensures registry.sampling == old(registry.sampling)
    {
      ghost var ks := Kinds(sampledFields);
      ghost var s0 := registry.fields;
      for i := 0 to |sampledFields|
        invariant registry.sampling == old(registry.sampling)
        invariant RecomputeAll(ks[i..], registry.fields, foreign) == RecomputeAll(ks, s0, foreign)
      {
        assert ks[i..][1..] == ks[i + 1..];
        registry.fields := Recompute(sampledFields[i].kind, registry.fields, foreign);
      }
    }

    /** `nSampledFields()`: how many fields are tracked. */
    function NSampledFields(): (n: nat)
      reads this
      ensures n == |sampledFields|
    {
      |sampledFields|
    }

    /** `indexList()`, `h()` and `lengthList()`: the stored lists, one entry
        per face of the patch. */
    function IndexList(): (l: seq<nat>)
      reads this
      ensures l == indexList
      ensures WellSized() ==> |l| == patch.Size()
    {
      indexList
    }

    function H(): (l: seq<real>)
      reads this
      ensures l == h
      ensures WellSized() ==> |l| == patch.Size()
    {
      h
    }

    function LengthList(): (l: seq<real>)
      reads this
      ensures l == lengthList
      ensures WellSized() ==> |l| == patch.Size()
    {
      lengthList
    }

    /** `averagingTime()`: the averaging time given at construction. */
    function AveragingTime(): (t: real)
      ensures t == averagingTime
    {
      averagingTime
    }

    /** `operator[]`: the sampling cell of face `i`. */
    function At(i: nat): (c: nat)
      reads this
      requires Valid() && i < patch.Size()
      ensures c == indexList[i] && c < mesh.NCells()
    {
      indexList[i]
    }

    /** `db()`: the sub-registry of this sampler's patch, the one its
        sampled fields are stored in. */
    function Db(): (path: seq<string>)
      ensures path == SamplingDbPath(patch.name)
      ensures forall k :: FromPatch(k, patch).Db() == path
    {
      SamplingDbPath(patch.name)
    }
  }
}
