/** The quantities a sampler can track. The kinds form a closed set with a
    fixed storage name and number of components each; a sampled field is a
    kind bound to the patch whose faces it is sampled for. */
module SampledFields {
  import opened Geometry
  import opened MeshData
  import opened Registries

  datatype Kind = Velocity | WallGradU | PGrad

  /** The storage key of each kind, `name()`: each key belongs to
      exactly one kind. */
  function Name(k: Kind): (s: string)
    ensures s == "U" <==> k == Velocity
    ensures s == "wallGradU" <==> k == WallGradU
    ensures s == "pGrad" <==> k == PGrad
  {
    assert "U" != "wallGradU" && "U" != "pGrad" && "wallGradU" != "pGrad" by {
      assert "U"[0] != "wallGradU"[0] && "U"[0] != "pGrad"[0] && "wallGradU"[0] != "pGrad"[0];
    }
    match k
    case Velocity => "U"
    case WallGradU => "wallGradU"
    case PGrad => "pGrad"
  }

  /** The number of components each kind samples per face, `nDims()`. */
  function NDims(k: Kind): (n: nat)
    ensures n == 3
  {
    match k
    case Velocity => 3
    case WallGradU => 3
    case PGrad => 3
  }

  /** The three kinds are stored under three different keys, and each of
      them is sampled as a three-component vector. */
  lemma KindsAreVectorsUnderDistinctNames(a: Kind, b: Kind)
    ensures NDims(a) == 3
    ensures Name(a) == Name(b) ==> a == b
  {
  }

  datatype SampledField = SampledField(kind: Kind, patch: Patch)
  {
    /** The sub-registry that holds this field's persisted values, `db()`. */
    function Db(): (path: seq<string>)
      ensures path == ["wallModelSampling", patch.name]
    {
      SamplingDbPath(patch.name)
    }

    /** `clone()`: a field of the same kind on the same patch. */
    function Clone(): (c: SampledField)
      ensures c.kind == kind && c.patch == patch
      ensures c.Db() == Db()
    {
      this
    }
  }

  /** The constructor from a patch. */
  function FromPatch(k: Kind, p: Patch): (f: SampledField)
    ensures f.kind == k && f.patch == p
  {
    SampledField(k, p)
  }

  /** The constructor from a field name and a patch delegates to the one
      from a patch and does not use the name. */
  function FromNameAndPatch(fieldName: string, k: Kind, p: Patch): (f: SampledField)
    ensures f == FromPatch(k, p)
  {
    FromPatch(k, p)
  }

  /** `registerFields()`: make sure the patch's sub-registry holds storage
      for kind `k`. Absent storage is read from the patch's sampling
      directory on disk when a file for it is there (`onDisk`, keyed by
      storage name) and is a zero vector per face otherwise; present storage
      is left exactly as it is. */
  function Register(db: Store, k: Kind, nFaces: nat, onDisk: map<string, seq<Vec3>>): (r: Store)
    ensures r.Keys == db.Keys + {Name(k)}
    ensures forall n :: n in db ==> r[n] == db[n]
    ensures Name(k) !in db && Name(k) in onDisk ==> r[Name(k)] == onDisk[Name(k)]
    ensures Name(k) !in db && Name(k) !in onDisk ==> r[Name(k)] == seq(nFaces, _ => Zero)
  {
    if Name(k) in db then db
    else if Name(k) in onDisk then db[Name(k) := onDisk[Name(k)]]
    else db[Name(k) := seq(nFaces, _ => Zero)]
  }

  /** Registering a second time is a no-op, whatever is on disk by then. */
  lemma RegisterIdempotent(db: Store, k: Kind, nFaces: nat, onDisk: map<string, seq<Vec3>>, onDisk': map<string, seq<Vec3>>)
    ensures Register(Register(db, k, nFaces, onDisk), k, nFaces, onDisk') == Register(db, k, nFaces, onDisk)
  {
    assert Name(k) in Register(db, k, nFaces, onDisk);
  }

  /** `sample()` of the velocity field: per face, the velocity of the
      sampling cell with its wall-normal part removed, as three components. */
  function SampleVelocity(U: seq<Vec3>, idx: seq<nat>, nf: seq<Vec3>): (out: seq<seq<real>>)
    requires |nf| == |idx|
    requires forall i :: 0 <= i < |idx| ==> idx[i] < |U|
    ensures |out| == |idx|
    ensures forall i :: 0 <= i < |out| ==> |out[i]| == NDims(Velocity)
  {
    seq(|idx|, i requires 0 <= i < |idx| => Components(Project(U[idx[i]], nf[i])))
  }

  /** Each sampled velocity is tangential to the wall at its face. */
  lemma SampleVelocityIsTangential(U: seq<Vec3>, idx: seq<nat>, nf: seq<Vec3>, i: nat)
    requires |nf| == |idx|
    requires forall j :: 0 <= j < |idx| ==> idx[j] < |U|
    requires i < |idx| && Dot(nf[i], nf[i]) == 1.0
    ensures var s := SampleVelocity(U, idx, nf)[i];
            Dot(Vec3(s[0], s[1], s[2]), nf[i]) == 0.0
  {
    var p := Project(U[idx[i]], nf[i]);
    assert SampleVelocity(U, idx, nf)[i] == Components(p);
    assert Vec3(p.x, p.y, p.z) == p;
    ProjectIsTangential(U[idx[i]], nf[i]);
  }

  /** On a wall whose normal is the y axis (the `bottomWall` patch of the
      channel case), the y component of each sample is zero and the other
      two are those of the sampling cell's velocity. */
  lemma SampleVelocityOnFlatWall(U: seq<Vec3>, idx: seq<nat>, nf: seq<Vec3>, i: nat, j: nat)
    requires |nf| == |idx|
    requires forall k :: 0 <= k < |idx| ==> idx[k] < |U|
    requires i < |idx| && j < 3
    requires nf[i] == Vec3(0.0, -1.0, 0.0)
    ensures j == 1 ==> SampleVelocity(U, idx, nf)[i][j] == 0.0
    ensures j != 1 ==> SampleVelocity(U, idx, nf)[i][j] == Component(U[idx[i]], j)
  {
    var v := U[idx[i]];
    assert SampleVelocity(U, idx, nf)[i] == Components(Project(v, nf[i]));
    assert Project(v, nf[i]) == Vec3(v.x, 0.0, v.z);
  }

  /** `recompute()`: a no-op for the velocity; for the other kinds its effect
      is given by `foreign`, since their implementations are not modelled. */
  function Recompute<S>(k: Kind, s: S, foreign: (Kind, S) -> S): (r: S)
    ensures k == Velocity ==> r == s
  {
    if k == Velocity then s else foreign(k, s)
  }
}
