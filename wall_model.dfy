/** The boundary condition shared by all LES wall models: it creates the
    registry fields the wall models exchange, and on every update it sets the
    patch's eddy viscosity from the concrete model, optionally copies it to
    the wall-adjacent cells, derives the wall shear stress and accounts the
    time spent. */
module WallModels {
  import opened Geometry
  import opened MeshData
  import opened Fields
  import opened Registries
  import opened Dictionaries
  import Samplers

  /** The registry names the wall models use, and the fact that they are
      five different names. */
  lemma RegistryNamesDistinct()
    ensures "h" != "wallShearStress" && "h" != "uTauPredicted" && "h" != "wallGradU"
    ensures "wallShearStress" != "uTauPredicted" && "wallShearStress" != "wallGradU"
    ensures "uTauPredicted" != "wallGradU"
    ensures "samplingCells" != "h" && "samplingCells" != "wallShearStress"
    ensures "samplingCells" != "uTauPredicted" && "samplingCells" != "wallGradU"
    ensures "nut" != "wallShearStress" && "nut" != "wallGradU" && "nut" != "nu"
  {
    assert "h"[0] != "wallShearStress"[0] && "h"[0] != "uTauPredicted"[0] && "h"[0] != "wallGradU"[0];
    assert "wallShearStress"[0] != "uTauPredicted"[0] && "wallShearStress"[4] != "wallGradU"[4];
    assert "uTauPredicted"[0] != "wallGradU"[0];
    assert "samplingCells"[0] != "h"[0] && "samplingCells"[0] != "wallShearStress"[0];
    assert "samplingCells"[0] != "uTauPredicted"[0] && "samplingCells"[0] != "wallGradU"[0];
    assert "nut"[0] != "wallShearStress"[0] && "nut"[0] != "wallGradU"[0] && |"nut"| != |"nu"|;
  }

  // ---------------------------------------------------------------------
  // createFields

  /** `createFields()` of the wall model: `h` read from disk if absent (the
      host gives `hRead`), then `wallShearStress` (vector), `uTauPredicted`
      (scalar) and `wallGradU` (vector), each created laid out like `h` if
      absent. `uTauPredicted` and `wallGradU` start at zero; `wallShearStress`
      is read from disk when a file for it is present (the host gives
      `wssRead`, `None` when there is no file) and is zero otherwise. The
      `wallGradU` test asks for a vector field under that name; a field of
      another type under the name still blocks the insertion, so the effect
      is the same as for the other names. */
  function WallModelFields(fields: map<string, Field>, hRead: Field, wssRead: Option<Field>): (r: map<string, Field>)
    ensures r.Keys == fields.Keys + {"h", "wallShearStress", "uTauPredicted", "wallGradU"}
    ensures forall k :: k in fields ==> r[k] == fields[k]
    ensures r["h"] == WithH(fields, hRead)["h"]
    ensures "wallShearStress" !in fields && wssRead.Some? ==> r["wallShearStress"] == wssRead.value
    ensures "wallShearStress" !in fields && wssRead.None? ==>
              r["wallShearStress"] == ZeroVectorField(ShapeOf(r["h"])) && IsZero(r["wallShearStress"])
    ensures "uTauPredicted" !in fields ==>
              r["uTauPredicted"] == ZeroScalarField(ShapeOf(r["h"])) && IsZero(r["uTauPredicted"])
    ensures "wallGradU" !in fields ==>
              r["wallGradU"] == ZeroVectorField(ShapeOf(r["h"])) && IsZero(r["wallGradU"])
  {
    RegistryNamesDistinct();
    var f1 := WithH(fields, hRead);
    var shape := ShapeOf(f1["h"]);
    var wss := if wssRead.Some? then wssRead.value else ZeroVectorField(shape);
    var f2 := StoreField(f1, "wallShearStress", wss);
    var f3 := StoreField(f2, "uTauPredicted", ZeroScalarField(shape));
    StoreField(f3, "wallGradU", ZeroVectorField(shape))
  }

  /** Creating the fields a second time changes nothing. */
  lemma WallModelFieldsIdempotent(fields: map<string, Field>, hRead: Field, wssRead: Option<Field>)
    ensures WallModelFields(WallModelFields(fields, hRead, wssRead), hRead, wssRead) == WallModelFields(fields, hRead, wssRead)
  {
    var once := WallModelFields(fields, hRead, wssRead);
    var twice := WallModelFields(once, hRead, wssRead);
    assert twice.Keys == once.Keys;
    forall k | k in once ensures twice[k] == once[k] {
    }
  }

  /** Once the wall model and its sampler have created their fields, the
      registry holds the five fields the wall models document: `h`,
      `samplingCells`, `uTauPredicted`, `wallShearStress` and `wallGradU`;
      a field that existed before is the one that is there. */
  lemma DocumentedFieldsPresent(fields: map<string, Field>, hRead: Field, wssRead: Option<Field>)
    ensures var r := Samplers.SamplerFields(WallModelFields(fields, hRead, wssRead), hRead);
            {"h", "samplingCells", "uTauPredicted", "wallShearStress", "wallGradU"} <= r.Keys &&
            (forall k :: k in fields ==> r[k] == fields[k])
  {
  }

  // ---------------------------------------------------------------------
  // updateCoeffs

  /** The registry fields an update of patch `pI` reads and writes are there
      with the layout it needs: the wall shear stress and the velocity
      gradient as vector fields, the molecular viscosity `nu` as a scalar
      field, and (when the values are copied to the cells) the eddy
      viscosity `nut` as a scalar field over every face's cell. */
  predicate UpdateReady(fields: map<string, Field>, pI: nat, faceCells: seq<nat>, copy: bool) {
    var n := |faceCells|;
    "wallShearStress" in fields && fields["wallShearStress"].VectorField? &&
    pI < |fields["wallShearStress"].vboundary| && |fields["wallShearStress"].vboundary[pI]| == n &&
    "wallGradU" in fields && fields["wallGradU"].VectorField? &&
    pI < |fields["wallGradU"].vboundary| && |fields["wallGradU"].vboundary[pI]| == n &&
    "nu" in fields && fields["nu"].ScalarField? &&
    pI < |fields["nu"].boundary| && |fields["nu"].boundary[pI]| == n &&
    (copy ==> "nut" in fields && fields["nut"].ScalarField? &&
              forall i :: 0 <= i < n ==> faceCells[i] < |fields["nut"].internal|)
  }

  /** The wall shear stress on each face: `(nut + nu) * wallGradU`. */
  function ShearStress(nut: seq<real>, nu: seq<real>, gradU: seq<Vec3>): (r: seq<Vec3>)
    requires |nu| == |nut| && |gradU| == |nut|
    ensures |r| == |nut|
  {
    seq(|nut|, i requires 0 <= i < |nut| => Scale(gradU[i], nut[i] + nu[i]))
  }

  /** The registry after the update of patch `pI` with the eddy viscosity
      `nut`: the patch values copied to the face cells of `nut` if `copy`,
      then the patch slice of `wallShearStress` set from `nut`, `nu` and
      `wallGradU`. */
  function UpdatedFields(fields: map<string, Field>, pI: nat, faceCells: seq<nat>, nut: seq<real>, copy: bool):
    (r: map<string, Field>)
    requires UpdateReady(fields, pI, faceCells, copy) && |nut| == |faceCells|
    ensures r.Keys == fields.Keys
  {
    RegistryNamesDistinct();
    var f1 := if copy then
                var nf := fields["nut"];
                fields["nut" := nf.(internal := Scatter(nf.internal, faceCells, nut))]
              else fields;
    var wss := f1["wallShearStress"];
    var tau := ShearStress(nut, fields["nu"].boundary[pI], fields["wallGradU"].vboundary[pI]);
    f1["wallShearStress" := wss.(vboundary := wss.vboundary[pI := tau])]
  }

  /** What the update leaves in the registry: on patch `pI` the wall shear
      stress is `(nut + nu) * wallGradU` face by face, the other patches and
      the cells of `wallShearStress` keep their values; `nut` changes only
      when copying, and then only in the face cells, each of which (when no
      two faces share a cell) holds its face's value; nothing else changes. */
  lemma {:induction false} UpdatedFieldsSpec(fields: map<string, Field>, pI: nat, faceCells: seq<nat>,
                                             nut: seq<real>, copy: bool)
    requires UpdateReady(fields, pI, faceCells, copy) && |nut| == |faceCells|
    ensures var r := UpdatedFields(fields, pI, faceCells, nut, copy);
            var w, w0 := r["wallShearStress"], fields["wallShearStress"];
            w.VectorField? && w.vinternal == w0.vinternal && |w.vboundary| == |w0.vboundary| &&
            (forall k :: 0 <= k < |w0.vboundary| && k != pI ==> w.vboundary[k] == w0.vboundary[k]) &&
            |w.vboundary[pI]| == |nut| &&
            (forall i :: 0 <= i < |nut| ==>
               w.vboundary[pI][i] == Scale(fields["wallGradU"].vboundary[pI][i], nut[i] + fields["nu"].boundary[pI][i]))
    ensures var r := UpdatedFields(fields, pI, faceCells, nut, copy);
            forall k :: k in fields && k != "wallShearStress" && k != "nut" ==> r[k] == fields[k]
    ensures !copy && "nut" in fields ==> UpdatedFields(fields, pI, faceCells, nut, copy)["nut"] == fields["nut"]
    ensures copy ==>
              var n, n0 := UpdatedFields(fields, pI, faceCells, nut, copy)["nut"], fields["nut"];
              n.ScalarField? && n.boundary == n0.boundary && |n.internal| == |n0.internal| &&
              (forall c :: 0 <= c < |n0.internal| && c !in faceCells ==> n.internal[c] == n0.internal[c]) &&
              (Distinct(faceCells) ==> forall i :: 0 <= i < |nut| ==> n.internal[faceCells[i]] == nut[i])
  {
    RegistryNamesDistinct();
    if copy {
      var n0 := fields["nut"];
      var n := UpdatedFields(fields, pI, faceCells, nut, copy)["nut"];
      assert n.internal == Scatter(n0.internal, faceCells, nut);
      if Distinct(faceCells) {
        forall i | 0 <= i < |nut| ensures n.internal[faceCells[i]] == nut[i] {
          ScatterDistinct(n0.internal, faceCells, nut, i);
        }
      }
    }
  }

  /** Updating twice in a row with the same eddy viscosity leaves the
      registry as one update does. */
  lemma UpdatedFieldsIdempotent(fields: map<string, Field>, pI: nat, faceCells: seq<nat>, nut: seq<real>, copy: bool)
    requires UpdateReady(fields, pI, faceCells, copy) && |nut| == |faceCells|
    ensures UpdateReady(UpdatedFields(fields, pI, faceCells, nut, copy), pI, faceCells, copy)
    ensures var once := UpdatedFields(fields, pI, faceCells, nut, copy);
            UpdatedFields(once, pI, faceCells, nut, copy) == once
  {
    RegistryNamesDistinct();
    var once := UpdatedFields(fields, pI, faceCells, nut, copy);
    UpdatedFieldsSpec(fields, pI, faceCells, nut, copy);
    assert UpdateReady(once, pI, faceCells, copy);
    var twice := UpdatedFields(once, pI, faceCells, nut, copy);
    if copy {
      var n0 := fields["nut"];
      ScatterIdempotent(n0.internal, faceCells, nut);
      assert twice["nut"] == once["nut"];
    }
    assert twice["wallShearStress"] == once["wallShearStress"];
    assert twice.Keys == once.Keys;
    forall k | k in once ensures twice[k] == once[k] {
    }
  }

  /** The accumulated wall-modelling time: the time of this update added,
      then the largest value over all processes taken. */
  function AccumulateTime(consumed: real, elapsed: real, remoteMax: real): (r: real)
    ensures r >= remoteMax && r >= consumed + elapsed
    ensures r == consumed + elapsed || r == remoteMax
    ensures elapsed >= 0.0 ==> r >= consumed
  {
    if consumed + elapsed >= remoteMax then consumed + elapsed else remoteMax
  }

  // ---------------------------------------------------------------------
  // The boundary condition

  /** The dictionary entries the constructor from a dictionary reads, with
      their defaults: no copy to the cells, no averaging. */
  function CopyToPatchInternalFieldEntry(d: Dict): (b: bool)
    ensures "copyToPatchInternalField" !in d.switches ==> !b
    ensures "copyToPatchInternalField" in d.switches ==> b == d.switches["copyToPatchInternalField"]
  {
    SwitchOrDefault(d, "copyToPatchInternalField", false)
  }

  function AveragingTimeEntry(d: Dict): (t: real)
    ensures "averagingTime" !in d.scalars ==> t == 0.0
    ensures "averagingTime" in d.scalars ==> t == d.scalars["averagingTime"]
  {
    LookupOrDefault(d, "averagingTime", 0.0)
  }

  /** `checkType()`: a wall model can only be put on a wall patch; on any
      other patch construction stops with an error naming the patch. */
  datatype Check = TypeOk | InvalidPatchType(patchName: string)

  function CheckType(p: Patch): (c: Check)
    ensures c.TypeOk? <==> p.isWall
    ensures c.InvalidPatchType? ==> c.patchName == p.name
  {
    if p.isWall then TypeOk else InvalidPatchType(p.name)
  }

  class WallModelPatchField {
    const patch: Patch
    const db: Registry
    const copyToPatchInternalField: bool
    const averagingTime: real
    /** The patch values: the eddy viscosity on each face. */
    var value: seq<real>
    var consumedTime: real
    /** Set by the host once the coefficients of the current time step are
        up to date; the update itself never sets it. */
    var updated: bool

    /** From a patch (w1): no copying, no averaging, nothing consumed; then
        the fields are created. `value0` are the initial patch values the
        host gives, `hRead` what it reads for `h` when absent, and `wssRead`
        the `wallShearStress` file, if one is present. */
    constructor FromPatch(p: Patch, reg: Registry, value0: seq<real>, hRead: Field, wssRead: Option<Field>)
      requires p.isWall
      modifies reg
      ensures patch == p && db == reg && value == value0 && !updated
      ensures consumedTime == 0.0 && !copyToPatchInternalField && averagingTime == 0.0
      ensures reg.fields == WallModelFields(old(reg.fields), hRead, wssRead)
      ensures reg.sampling == old(reg.sampling)
    {
      patch, db, value, updated := p, reg, value0, false;
      consumedTime, copyToPatchInternalField, averagingTime := 0.0, false, 0.0;
      new;
      CreateFields(hRead, wssRead);
    }

    /** From a patch and a dictionary (w3): the switch and the averaging
        time come from the dictionary or their defaults; then the fields
        are created. */
    constructor FromDict(p: Patch, reg: Registry, value0: seq<real>, d: Dict, hRead: Field, wssRead: Option<Field>)
      requires p.isWall
      modifies reg
      ensures patch == p && db == reg && value == value0 && !updated && consumedTime == 0.0
      ensures copyToPatchInternalField == CopyToPatchInternalFieldEntry(d)
      ensures averagingTime == AveragingTimeEntry(d)
      ensures reg.fields == WallModelFields(old(reg.fields), hRead, wssRead)
      ensures reg.sampling == old(reg.sampling)
    {
      patch, db, value, updated := p, reg, value0, false;
      consumedTime := 0.0;
      copyToPatchInternalField := CopyToPatchInternalFieldEntry(d);
      averagingTime := AveragingTimeEntry(d);
      new;
      CreateFields(hRead, wssRead);
    }

    /** By mapping onto another patch (w2): the switch and the averaging time
        are copied, the time consumed starts again from zero, and no fields
        are created. `mapped` are the mapped patch values and `reg` the
        registry of the new internal field, which becomes the field's `db()`. */
    constructor Mapped(orig: WallModelPatchField, p: Patch, reg: Registry, mapped: seq<real>)
      requires p.isWall
      ensures patch == p && db == reg && value == mapped && !updated && consumedTime == 0.0
      ensures copyToPatchInternalField == orig.copyToPatchInternalField
      ensures averagingTime == orig.averagingTime
    {
      patch, db, value, updated := p, reg, mapped, false;
      consumedTime := 0.0;
      copyToPatchInternalField, averagingTime := orig.copyToPatchInternalField, orig.averagingTime;
    }

    /** As a copy (w4): the patch, the values, the registry, the time
        consumed and both settings are those of `orig`. */
    constructor Copy(orig: WallModelPatchField)
      requires orig.patch.isWall
      ensures patch == orig.patch && db == orig.db && value == orig.value && !updated
      ensures consumedTime == orig.consumedTime
      ensures copyToPatchInternalField == orig.copyToPatchInternalField
      ensures averagingTime == orig.averagingTime
    {
      patch, db, value, updated := orig.patch, orig.db, orig.value, false;
      consumedTime := orig.consumedTime;
      copyToPatchInternalField, averagingTime := orig.copyToPatchInternalField, orig.averagingTime;
    }

    /** As a copy on another internal field (w5): as `Copy`, except that
        the field's `db()` is `reg`, the registry of the new internal field. */
    constructor CopyOnto(orig: WallModelPatchField, reg: Registry)
      requires orig.patch.isWall
      ensures patch == orig.patch && db == reg && value == orig.value && !updated
      ensures consumedTime == orig.consumedTime
      ensures copyToPatchInternalField == orig.copyToPatchInternalField
      ensures averagingTime == orig.averagingTime
    {
      patch, db, value, updated := orig.patch, reg, orig.value, false;
      consumedTime := orig.consumedTime;
      copyToPatchInternalField, averagingTime := orig.copyToPatchInternalField, orig.averagingTime;
    }

    /** `createFields()` on the registry of the mesh. */
    method CreateFields(hRead: Field, wssRead: Option<Field>)
      modifies db
      ensures db.fields == WallModelFields(old(db.fields), hRead, wssRead)
      ensures db.sampling == old(db.sampling)
    {
      db.fields := WallModelFields(db.fields, hRead, wssRead);
    }

    /** `averagingTime()`: the averaging time set at construction. */
    function AveragingTime(): (t: real)
      ensures t == averagingTime
    {
      averagingTime
    }

    /** `consumedTime()`: the time consumed so far. */
    function ConsumedTime(): (t: real)
      reads this
      ensures t == consumedTime
    {
      consumedTime
    }

    /** `copyToPatchInternalField()`: whether updates copy to the cells. */
    function CopyToPatchInternalField(): (b: bool)
      ensures b == copyToPatchInternalField
    {
      copyToPatchInternalField
    }

    /** `updateCoeffs()` with `nut` the result of the concrete model's
        `calcNut()`, `elapsed` the wall-clock time the update took here and
        `remoteMax` the largest time consumed on the other processes. Once
        the host has marked the field updated, nothing happens. Otherwise
        the patch values become `nut`, the registry is updated as
        `UpdatedFields` says, and the time is accumulated. */
    method UpdateCoeffs(nut: seq<real>, elapsed: real, remoteMax: real)
      requires !updated ==>
                 |nut| == |patch.faceCells| &&
                 UpdateReady(db.fields, patch.index, patch.faceCells, copyToPatchInternalField)
      modifies this`value, this`consumedTime, db
      ensures old(updated) ==>
                value == old(value) && consumedTime == old(consumedTime) &&
                db.fields == old(db.fields) && db.sampling == old(db.sampling)
      ensures !old(updated) ==>
                value == nut &&
                db.fields == UpdatedFields(old(db.fields), patch.index, patch.faceCells, nut, copyToPatchInternalField) &&
                db.sampling == old(db.sampling) &&
                consumedTime == AccumulateTime(old(consumedTime), elapsed, remoteMax)
      ensures elapsed >= 0.0 ==> consumedTime >= old(consumedTime)
    {
      if updated {
        return;
      }
      RegistryNamesDistinct();
      var pI := patch.index;
      var fC := patch.faceCells;
      var wss := db.fields["wallShearStress"];
      var wallGradU := db.fields["wallGradU"].vboundary[pI];
      var nu := db.fields["nu"].boundary[pI];

      value := nut;

      if copyToPatchInternalField {
        var nutField := db.fields["nut"];
        var cells := nutField.internal;
        for i := 0 to |nut|
          invariant |cells| == |nutField.internal|
          invariant Scatter(cells, fC[i..], nut[i..]) == Scatter(nutField.internal, fC, nut)
        {
          assert fC[i..][1..] == fC[i + 1..] && nut[i..][1..] == nut[i + 1..];
          cells := cells[fC[i] := nut[i]];
        }
        assert cells == Scatter(cells, fC[|nut|..], nut[|nut|..]);
        db.fields := db.fields["nut" := nutField.(internal := cells)];
      }

      db.fields := db.fields["wallShearStress" := wss.(vboundary := wss.vboundary[pI := ShearStress(nut, nu, wallGradU)])];

      consumedTime := consumedTime + elapsed;
      if remoteMax > consumedTime {
        consumedTime := remoteMax;
      }
    }
  }

  /** A factory for each constructor that checks the patch type: on a patch
      that is not a wall, construction fails with the error of `CheckType`
      and leaves the registry alone; otherwise the result is the new field
      as its constructor leaves it. */
  datatype Built = Built(field: WallModelPatchField) | Failed(error: Check)

  method NewFromPatch(p: Patch, reg: Registry, value0: seq<real>, hRead: Field, wssRead: Option<Field>) returns (r: Built)
    modifies reg
    ensures r.Failed? <==> !p.isWall
    ensures r.Failed? ==> r.error == CheckType(p) && reg.fields == old(reg.fields)
    ensures reg.sampling == old(reg.sampling)
    ensures r.Built? ==> fresh(r.field) && r.field.patch == p && r.field.db == reg &&
                         r.field.value == value0 && !r.field.updated && r.field.consumedTime == 0.0 &&
                         !r.field.copyToPatchInternalField && r.field.averagingTime == 0.0 &&
                         reg.fields == WallModelFields(old(reg.fields), hRead, wssRead)
  {
    var c := CheckType(p);
    if c.InvalidPatchType? {
      return Failed(c);
    }
    var f := new WallModelPatchField.FromPatch(p, reg, value0, hRead, wssRead);
    return Built(f);
  }

  method NewFromDict(p: Patch, reg: Registry, value0: seq<real>, d: Dict, hRead: Field, wssRead: Option<Field>)
    returns (r: Built)
    modifies reg
    ensures r.Failed? <==> !p.isWall
    ensures r.Failed? ==> r.error == CheckType(p) && reg.fields == old(reg.fields)
    ensures reg.sampling == old(reg.sampling)
    ensures r.Built? ==> fresh(r.field) && r.field.patch == p && r.field.db == reg &&
                         r.field.value == value0 && !r.field.updated && r.field.consumedTime == 0.0 &&
                         r.field.copyToPatchInternalField == CopyToPatchInternalFieldEntry(d) &&
                         r.field.averagingTime == AveragingTimeEntry(d) &&
                         reg.fields == WallModelFields(old(reg.fields), hRead, wssRead)
  {
    var c := CheckType(p);
    if c.InvalidPatchType? {
      return Failed(c);
    }
    var f := new WallModelPatchField.FromDict(p, reg, value0, d, hRead, wssRead);
    return Built(f);
  }

  method NewMapped(orig: WallModelPatchField, p: Patch, reg: Registry, mapped: seq<real>) returns (r: Built)
    ensures r.Failed? <==> !p.isWall
    ensures r.Failed? ==> r.error == CheckType(p)
    ensures r.Built? ==> fresh(r.field) && r.field.patch == p && r.field.db == reg &&
                         r.field.value == mapped && !r.field.updated && r.field.consumedTime == 0.0 &&
                         r.field.copyToPatchInternalField == orig.copyToPatchInternalField &&
                         r.field.averagingTime == orig.averagingTime
  {
    var c := CheckType(p);
    if c.InvalidPatchType? {
      return Failed(c);
    }
    var f := new WallModelPatchField.Mapped(orig, p, reg, mapped);
    return Built(f);
  }
}
