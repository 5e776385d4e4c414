# libWallModelledLES core, modelled in Dafny

This project models the core of libWallModelledLES, a library of wall models
for large-eddy simulation written on top of OpenFOAM. The model covers three
parts.

- **The single-cell sampler.** For each face of a wall patch it picks the
  cell whose data stands for the flow at the wall-normal distance `h`. It
  writes the distances back into the global `h` field and marks the chosen
  cells with the patch index in the shared `samplingCells` field. It then
  computes a cube-root length scale per face. After that it time-averages the
  fields it tracks (velocity, wall-normal velocity gradient, pressure
  gradient) into the `wallModelSampling/<patch>` sub-registry.
- **The base wall-model boundary condition.** It creates the registry fields
  the wall models share: `h`, `wallShearStress`, `uTauPredicted` and
  `wallGradU`. On an update it sets the patch values to the concrete model's
  eddy viscosity and, if asked, copies them to the wall-adjacent cells. It
  then writes the wall shear stress `(nut + nu) * wallGradU` on the patch and
  accumulates the time spent, taking the maximum over all processes. It
  refuses any patch that is not a wall.
- **The Van Driest algebraic eddy-viscosity closure.** The damping constant
  `APlus` defaults to 18 and the von Karman constant `kappa` defaults to 0.4.

## Design

**Numbers and geometry.**
- Scalars are exact reals and vectors are `Geometry.Vec3`.
- `mag`, `exp` and `cbrt` (the source's `pow(V, 1/3)`) are functions passed
  in a `Math` value. The only fact assumed about them is that `mag` is never
  negative.

**Mesh and patch.**
- A `MeshData.Mesh` holds the cell centres `C()` and cell volumes `V()` as
  sequences, and the queries `meshSearch::isInside` and
  `meshSearch::findNearestCell` as functions.
- A patch (`MeshData.Patch`) is a value: its index, name, whether it is a
  wall, and its face centres, normals, adjacent-cell centres and face cells.

**Registry and fields.**
- The object registry is a class, `Registries.Registry`. It holds a map of
  volume fields (`Fields.Field`, scalar or vector, internal values plus one
  list per patch). It also holds a map from patch name to the patch
  sub-registry of sampled values.
- `store` is insert-if-absent. What the host reads from disk is given as a
  parameter: `hRead` for `h`, which must be read; `wssRead` for
  `wallShearStress`, which is read only when a file for it is present
  (`None` when there is none); and `onDisk` for the sampled storage that a
  restart finds in `wallModelSampling/<patch>`, keyed by storage name.
- Dictionaries (`Dictionaries.Dict`) hold the scalar entries and switches
  the core looks up, and are shared by the wall model and the eddy-viscosity
  closure.
- Every cell-indexed write loop (`samplingCells[indexList[i]] = patchIndex`,
  `nutField[fC[i]] = nut[i]`) is specified by `Fields.Scatter`, the writes
  done one after another. This keeps the last-writer-wins behaviour when two
  faces share a cell.

**Sampled fields.**
- The three field classes are the three cases of the closed type
  `SampledFields.Kind`.
- Their samples, which come from `.C` files outside this model, are inputs
  to `Sample`. `recompute()` of the gradient kinds is a function passed in as
  `foreign`.

**Classes and methods.**
- The sampler and the boundary condition are classes whose methods update
  their fields and the registry.
- Each method is proved against specification functions, and the lemmas
  beside those functions are proved too: `SamplingPoint`/`Picks`,
  `MarkedFields`, `SamplerFields`, `SampleAll`, `WallModelFields`,
  `UpdatedFields` and `AccumulateTime`.

## Model

| member | source | states |
|---|---|---|
| Geometry.Project | samplers/Sampler/Sampler.C:186-189 | what `project` subtracts from a vector is the normal times the vector's component along it, `n (v . n)` |
| Geometry.ProjectIsTangential | samplers/SampledField/SampledField.H:142-147 | for a unit normal, the projected vector has no normal component |
| Geometry.ProjectKeepsTangential | samplers/Sampler/Sampler.C:183-190 | a vector already parallel to the wall is left unchanged |
| Geometry.ProjectIdempotent | samplers/Sampler/Sampler.C:183-190 | projecting twice is projecting once (unit normal) |
| Fields.ZeroScalarField | samplers/Sampler/Sampler.C:61-80 | a scalar field with the requested layout, zero in every cell and on every face |
| Fields.ZeroVectorField | wallModels/wallModelFvPatchScalarField.C:82-106 | a vector field with the requested layout, zero in every cell and on every face |
| Fields.Scatter | wallModels/wallModelFvPatchScalarField.C:319-322 | the indexed writes keep the length, and every cell no index names keeps its value |
| Fields.ScatterDistinct | wallModels/wallModelFvPatchScalarField.C:319-322 | when no cell is named twice, each named cell ends up holding the value written for it |
| Fields.ScatterConst | samplers/Sampler/Sampler.C:154-157 | when every write is the same value, every named cell holds it even if cells repeat |
| Fields.ScatterOverwrites | samplers/Sampler/Sampler.C:154-157 | the result depends on the original cells only where no write lands |
| Fields.ScatterIdempotent | wallModels/wallModelFvPatchScalarField.C:319-322 | repeating the same writes changes nothing |
| Registries.StoreField | wallModels/wallModelFvPatchScalarField.C:82-106 | checking a field in adds its name; a name already taken keeps its field; a free name gets the new one |
| Registries.WithH | samplers/Sampler/Sampler.C:38-55 | `h` is registered afterwards; an existing `h` and every other field are kept; an absent `h` is the one read |
| Registries.Registry.SubRegistry | samplers/Sampler/Sampler.C:206 | `subRegistry(name, 1)` adds an empty sub-registry for the patch if it is missing; the existing ones and the fields stay unchanged |
| SampledFields.Name | samplers/SampledField/SampledVelocityField.H:90-93 | each storage name (`U`, `wallGradU`, `pGrad`) belongs to exactly one kind, in both directions |
| SampledFields.NDims | samplers/SampledField/SampledWallGradUField.H:84-87 | every kind samples three components per face |
| SampledFields.KindsAreVectorsUnderDistinctNames | samplers/SampledField/SampledVelocityField.H:84-93 | every kind has three components, and no two kinds share a storage name (`U`, `wallGradU`, `pGrad`) |
| SampledFields.SampledField.Db | samplers/SampledField/SampledField.H:119-122 | a field's storage is `wallModelSampling/<patch name>` |
| SampledFields.SampledField.Clone | samplers/SampledField/SampledWallGradUField.H:70-73 | a clone has the same kind, patch and storage |
| SampledFields.FromPatch | samplers/SampledField/SampledField.H:70-77 | the field is bound to the given kind and patch |
| SampledFields.FromNameAndPatch | samplers/SampledField/SampledField.H:79-86 | the constructor that takes a name delegates to the one from a patch, so the name has no effect |
| SampledFields.Register | tests/samplers/SampledField/testSampledVelocityField.C:155-194 | afterwards the kind's storage exists; absent storage is the values read from disk when a file is there and zero on every face otherwise; all present storage is left exactly as it was |
| SampledFields.RegisterIdempotent | samplers/SampledField/SampledVelocityField.H:58-67 | every construction registers; registering again, whatever is on disk by then, keeps the storage the first registration made |
| SampledFields.SampleVelocity | tests/samplers/SampledField/testSampledVelocityField.C:233-252 | one three-component sample per face |
| SampledFields.SampleVelocityIsTangential | samplers/SampledField/SampledField.H:142-147 | each velocity sample is parallel to the wall at its face |
| SampledFields.SampleVelocityOnFlatWall | tests/samplers/SampledField/testSampledVelocityField.C:235-251 | on the `bottomWall` (normal the y axis) component 1 is zero and components 0 and 2 are the sampling cell's velocity |
| SampledFields.Recompute | samplers/SampledField/SampledVelocityField.H:99 | recomputing the velocity changes nothing |
| Samplers.SamplingPoint | samplers/Sampler/Sampler.C:114-142 | the chosen cell is a cell of the mesh and the recorded distance is non-negative |
| Samplers.FallbackWhenDistanceUnknown | samplers/Sampler/Sampler.C:118-122 | a zero `h` chooses the adjacent cell, at the distance from the face centre to that cell's centre |
| Samplers.SearchWhenDistanceKnown | samplers/Sampler/Sampler.C:123-141 | a non-zero `h` searches from `Cf - nf h`, or from the adjacent cell's centre when that point is outside the local mesh, and records the distance to the found cell's centre |
| Samplers.DistanceIsToChosenCell | samplers/Sampler/Sampler.C:118-141 | when the patch's adjacent centres agree with the mesh, the recorded distance is always that from the face centre to the chosen cell's centre |
| Samplers.Picks | samplers/Sampler/Sampler.C:114-142 | one choice per face, each made independently from that face's persisted distance |
| Samplers.MarkedFields | samplers/Sampler/Sampler.C:145-157 | marking adds and removes no registry field |
| Samplers.MarkedFieldsSpec | samplers/Sampler/Sampler.C:145-157 | after marking, the patch slice of `h` is the new distances, every sampling cell holds the patch index, the other cells keep their marks, and nothing else changes |
| Samplers.SamplerFields | samplers/Sampler/Sampler.C:35-82 | `h` and `samplingCells` exist afterwards; existing fields are kept; a new `samplingCells` is zero and laid out like `h` |
| Samplers.SamplerFieldsFit | samplers/Sampler/Sampler.C:57-80 | a `samplingCells` that fits the mesh (existing or new) and an `h` that fits the patch are what index-list creation needs |
| Samplers.SamplerFieldsIdempotent | samplers/Sampler/Sampler.C:38-80 | creating the fields twice is creating them once |
| Samplers.Eps | samplers/Sampler/Sampler.C:262-266 | the averaging weight lies in [0, 1], and is 1 (no averaging) when the averaging time does not exceed the time step |
| Samplers.EpsBounds | samplers/Sampler/Sampler.C:262-266 | the averaging weight lies in (0, 1] for a positive time step |
| Samplers.EpsIsMinimum | samplers/Sampler/Sampler.C:262-266 | the weight is 1 when the averaging time does not exceed the time step, and `dt / averagingTime` otherwise |
| Samplers.Blend | samplers/Sampler/Sampler.C:283 | one value per face, each moved from the stored value towards the sample by the fraction `eps` of the gap |
| Samplers.BlendWithoutAveraging | samplers/Sampler/Sampler.C:283 | with weight 1 the stored values become the new sample |
| Samplers.BlendStaysBetween | samplers/Sampler/Sampler.C:283 | each blended component lies between the sampled and the stored one |
| Samplers.BlendFixedPoint | samplers/Sampler/Sampler.C:283 | blending a sample into storage equal to it changes nothing |
| Samplers.ToField | samplers/Sampler/Sampler.H:50-62 | one vector per face of a three-component list, whose components are the listed ones |
| Samplers.ListListToField | samplers/Sampler/Sampler.H:50-62 | every component the list gives is copied into the array at its face; entries past the end of the list keep their values |
| Samplers.SampleStep | samplers/Sampler/Sampler.C:274-284 | a three-component field's storage becomes the blend of its sample into it; every other storage is unchanged, and a field with another number of components changes nothing |
| Samplers.SampleAll | samplers/Sampler/Sampler.C:268-286 | the patch sub-registry keeps its keys, and storage that belongs to no tracked kind is unchanged |
| Samplers.SampleAllBlendsEachField | samplers/Sampler/Sampler.C:274-284 | for distinct tracked kinds, each kind's storage becomes the blend of its sample into its old storage |
| Samplers.SampleWithoutAveragingIsIdempotent | samplers/Sampler/Sampler.C:262-284 | with no averaging, sampling the same values again changes nothing |
| Samplers.AsVectorField | samplers/Sampler/Sampler.C:276-277 | converting a sample through an array gives `ToField` of it |
| Samplers.RecomputeAll | samplers/Sampler/Sampler.C:314-320 | recomputing only velocity fields leaves the registry as it was |
| Samplers.RecomputeAllAppend | samplers/Sampler/Sampler.C:314-320 | recomputing a list of fields is recomputing its first part and then the rest |
| Samplers.ProjectAll | samplers/Sampler/Sampler.C:177-191 | one projected vector per input vector |
| Samplers.ProjectAllIsTangential | samplers/Sampler/Sampler.C:183-190 | each projected vector is parallel to the wall, and what was removed is parallel to the normal |
| Samplers.SingleCellSampler.constructor | samplers/Sampler/Sampler.C:195-223 | opens the patch sub-registry, creates the fields, chooses cells and distances as `Picks`, marks them, sets the length scales, and tracks exactly the velocity and the velocity gradient with their storage registered, read from `onDisk` where the sub-registry lacks it |
| Samplers.SingleCellSampler.CreateSamplingData | samplers/Sampler/Sampler.C:210-212 | creating the fields, the index list and the length list in turn: the cells and distances as `Picks`, the registry as `MarkedFields`, cube-root length scales |
| Samplers.SingleCellSampler.Copy | samplers/Sampler/Sampler.C:225-240 | the same patch, lists and averaging time, with one clone per tracked field |
| Samplers.SingleCellSampler.CreateFields | samplers/Sampler/Sampler.C:35-82 | the registry fields become `SamplerFields` of the old ones |
| Samplers.SingleCellSampler.CreateIndexList | samplers/Sampler/Sampler.C:85-158 | each face's cell and distance are `SamplingPoint` of the global `h` value; the registry becomes `MarkedFields` |
| Samplers.SingleCellSampler.CreateLengthList | samplers/Sampler/Sampler.C:161-174 | each length scale is the cube root of the volume of the face's sampling cell |
| Samplers.SingleCellSampler.Project | samplers/Sampler/Sampler.C:177-191 | the array in place becomes `ProjectAll` of its old contents |
| Samplers.SingleCellSampler.Sample | samplers/Sampler/Sampler.C:253-287 | a patch without faces here changes nothing; otherwise the patch sub-registry becomes `SampleAll` with weight `Eps`, and the fields stay unchanged |
| Samplers.SingleCellSampler.AddDefaultFields | samplers/Sampler/Sampler.C:214-222 | velocity then velocity gradient are registered, with restart data from `onDisk`, and appended to the tracked fields |
| Samplers.SingleCellSampler.AddNewField | samplers/SampledField/SampledPGradField.H:57-66 | constructing a sampled field registers its storage, with restart data from `onDisk`; adding it appends it |
| Samplers.SingleCellSampler.AddField | samplers/Sampler/Sampler.C:308-311 | one more field is tracked, at the end |
| Samplers.SingleCellSampler.RecomputeFields | samplers/Sampler/Sampler.C:314-320 | each tracked field's recompute runs in order on the registry fields |
| Samplers.SingleCellSampler.NSampledFields | samplers/Sampler/Sampler.H:176-179 | the number of tracked fields |
| Samplers.SingleCellSampler.IndexList | samplers/SingleCellSampler/SingleCellSampler.H:106-109 | the stored sampling cells, one per face |
| Samplers.SingleCellSampler.H | samplers/SingleCellSampler/SingleCellSampler.H:112-115 | the stored distances, one per face |
| Samplers.SingleCellSampler.LengthList | samplers/SingleCellSampler/SingleCellSampler.H:118-121 | the stored length scales, one per face |
| Samplers.SingleCellSampler.AveragingTime | samplers/Sampler/Sampler.H:171-174 | the averaging time given at construction |
| Samplers.SingleCellSampler.At | samplers/SingleCellSampler/SingleCellSampler.H:124-127 | the sampling cell of a face, which is a cell of the mesh |
| Samplers.SingleCellSampler.Db | samplers/Sampler/Sampler.H:159-162 | every sampled field built on the sampler's patch, which covers all fields the constructor and `AddNewField` add, has the sampler's sub-registry as its storage path |
| Dictionaries.LookupOrDefault | eddyViscosities/VanDriest/VanDriestEddyViscosity.C:40-41 | the scalar entry under the key when present, the default otherwise |
| Dictionaries.SwitchOrDefault | wallModels/wallModelFvPatchScalarField.C:216-219 | the switch under the key when present, the default otherwise |
| EddyViscosities.VanDriest.ConstDict | eddyViscosities/EddyViscosity/EddyViscosity.H:136-139 | the dictionary the closure was built from |
| EddyViscosities.VanDriest.Value | eddyViscosities/VanDriest/VanDriestEddyViscosity.C:79-96 | one value per distance, `kappa uTau y (1 - exp(-y+/APlus))^2` with `y+ = y uTau / nu` |
| EddyViscosities.VanDriest.NutAt | eddyViscosities/VanDriest/VanDriestEddyViscosity.C:93 | the eddy viscosity is zero at zero distance, and non-negative for non-negative `kappa`, `uTau` and distance |
| EddyViscosities.FromDict | eddyViscosities/VanDriest/VanDriestEddyViscosity.C:33-48 | keeps the dictionary; `APlus` and `kappa` come from it, or default to 18 and 0.4 |
| EddyViscosities.FromNameAndDict | eddyViscosities/VanDriest/VanDriestEddyViscosity.C:50-65 | the same closure as built from the dictionary alone |
| EddyViscosities.DefaultsAndOverrides | eddyViscosities/VanDriest/VanDriestEddyViscosity.C:40-41 | an empty dictionary gives 18 and 0.4; an entry always wins |
| EddyViscosities.ModelNameIgnored | eddyViscosities/EddyViscosity/EddyViscosity.H:75-78 | the model name never changes the closure |
| EddyViscosities.ValuesSigns | eddyViscosities/VanDriest/VanDriestEddyViscosity.C:87-95 | the list `value` returns is zero at zero distance, and non-negative where `kappa`, `uTau` and the distance are non-negative |
| WallModels.RegistryNamesDistinct | wallModels/wallModelFvPatchScalarField.H:25-36 | proof helper for the map updates, not a property of the program: the registry names `h`, `wallShearStress`, `uTauPredicted`, `wallGradU`, `samplingCells`, `nut` and `nu` differ where those proofs need it |
| WallModels.WallModelFields | wallModels/wallModelFvPatchScalarField.C:58-156 | `h` as read when absent; an absent `wallShearStress` is the one read when a file is present and zero laid out like `h` otherwise; `uTauPredicted` and `wallGradU` zero and laid out like `h` when absent; existing fields kept |
| WallModels.WallModelFieldsIdempotent | wallModels/wallModelFvPatchScalarField.C:60-155 | creating the fields twice is creating them once |
| WallModels.DocumentedFieldsPresent | wallModels/wallModelFvPatchScalarField.H:25-36 | once the wall model and its sampler have created their fields, all five documented fields exist and earlier fields are untouched |
| WallModels.ShearStress | wallModels/wallModelFvPatchScalarField.C:326-331 | one stress per face |
| WallModels.UpdatedFields | wallModels/wallModelFvPatchScalarField.C:304-331 | the update adds and removes no registry field |
| WallModels.UpdatedFieldsSpec | wallModels/wallModelFvPatchScalarField.C:310-331 | on the patch, the wall shear stress is `(nut + nu) wallGradU` face by face, with other patches and the cells kept; `nut` cells change only when copying, then only face cells, each holding its face's value when faces do not share cells; nothing else changes |
| WallModels.UpdatedFieldsIdempotent | wallModels/wallModelFvPatchScalarField.C:304-331 | the updated registry is still ready, and a second identical update changes nothing |
| WallModels.AccumulateTime | wallModels/wallModelFvPatchScalarField.C:333-336 | the new consumed time is the larger of the local `consumed + elapsed` and the other processes' maximum, so it is never less than before |
| WallModels.CopyToPatchInternalFieldEntry | wallModels/wallModelFvPatchScalarField.C:216-219 | the switch from the dictionary, false by default |
| WallModels.AveragingTimeEntry | wallModels/wallModelFvPatchScalarField.C:220 | the averaging time from the dictionary, 0 by default |
| WallModels.CheckType | wallModels/wallModelFvPatchScalarField.C:36-47 | the check passes exactly on wall patches; otherwise the error names the patch |
| WallModels.WallModelPatchField.FromPatch | wallModels/wallModelFvPatchScalarField.C:160-180 | no consumed time, no copying, no averaging; the wall-model fields are created |
| WallModels.WallModelPatchField.Mapped | wallModels/wallModelFvPatchScalarField.C:183-204 | settings copied, consumed time reset, values the mapped ones, the registry that of the new internal field, no fields created |
| WallModels.WallModelPatchField.FromDict | wallModels/wallModelFvPatchScalarField.C:207-231 | settings from the dictionary or their defaults; the fields are created |
| WallModels.WallModelPatchField.Copy | wallModels/wallModelFvPatchScalarField.C:234-251 | patch, values, registry, consumed time and settings are the original's |
| WallModels.WallModelPatchField.CopyOnto | wallModels/wallModelFvPatchScalarField.C:254-273 | as the copy, but with the registry of the new internal field |
| WallModels.WallModelPatchField.CreateFields | wallModels/wallModelFvPatchScalarField.C:58-156 | the registry fields become `WallModelFields` of the old ones |
| WallModels.WallModelPatchField.AveragingTime | wallModels/wallModelFvPatchScalarField.H:146-149 | the averaging time set at construction |
| WallModels.WallModelPatchField.ConsumedTime | wallModels/wallModelFvPatchScalarField.H:151-154 | the time consumed so far |
| WallModels.WallModelPatchField.CopyToPatchInternalField | wallModels/wallModelFvPatchScalarField.H:156-159 | whether updates copy to the cells |
| WallModels.WallModelPatchField.UpdateCoeffs | wallModels/wallModelFvPatchScalarField.C:277-340 | once marked updated, nothing changes; otherwise the patch values become `nut`, the registry becomes `UpdatedFields`, the time is accumulated as `AccumulateTime`, and for a non-negative `elapsed` the consumed time never decreases |
| WallModels.NewFromPatch | wallModels/wallModelFvPatchScalarField.C:160-180 | construction fails exactly on a non-wall patch, with the registry unchanged; otherwise the new field is on the patch and the registry, holds the given values, is not marked updated, has the defaults, and the fields are created; the sampling sub-registries never change |
| WallModels.NewFromDict | wallModels/wallModelFvPatchScalarField.C:207-231 | the same, with the dictionary's settings or their defaults |
| WallModels.NewMapped | wallModels/wallModelFvPatchScalarField.C:183-204 | fails exactly on a non-wall patch; otherwise the new field is on the patch and the given registry, holds the mapped values, is not marked updated, restarts its consumed time and copies both settings |

## Left out

- File input and output are not modelled: `IOobject` read and write flags, `write`, `writeLocalEntries`, `printCoeffs` and the `Info` logging. What the source reads from disk is a parameter: `hRead` for `h`, `wssRead` for a `wallShearStress` file that may be present, and `onDisk` for the sampled storage of a restart. Whether the file's contents fit the patch is not checked.
- The mesh search is not modelled; `isInside` and `findNearestCell` are uninterpreted functions of the mesh.
- Samplers.SamplingPoint: `findNearestCell` is assumed to always return a cell of the mesh (`Mesh.Valid`). The source's "not found" result of -1 is not modelled.
- Floating point is not modelled. Scalars are exact reals, and `mag`, `exp` and `cbrt` are uninterpreted; only the non-negativity of `mag` is assumed.
- EddyViscosities.VanDriest.Value: requires `nu` and `APlus` to be non-zero, because exact division by zero has no value. In floating point the source would produce an infinity or NaN.
- EddyViscosities.VanDriest.Value: the `index` argument of the source's `value`, which the body never uses, is dropped.
- The `Sampler&` argument of the eddy-viscosity constructors and the cell index list (`cil`) argument of the sampled-field constructors are dropped. Neither body keeps them.
- SampledFields.Register: absent storage with no file on disk is zero on every face. The test `RegisterFieldsInitialize` (testSampledVelocityField.C:106-152), which expects initialisation from the current velocity, is not modelled. Sampled values are stored as one vector per face rather than as the test's `scalarListIOList`.
- The `sample()` bodies of the three field kinds (their `.C` files are not part of this model) are left out. Their results are the `samples` argument of `Sample`, and `SampleVelocity` states what the velocity test checks.
- The `recompute()` of the gradient kinds is left out. Its effect is the `foreign` parameter.
- The multi-cell overloads of `sample` and `projectVectors` are left out; only the single-cell sampler is modelled.
- Samplers.ListListToField: vector components that the list does not give are set to zero. In the source the element is left uninitialised.
- The wall clock and the parallel `reduce` are not modelled. They are the `elapsed` and `remoteMax` arguments of `UpdateCoeffs`.
- The concrete model's `calcNut` is not modelled (the equilibrium ODE wall model is not part of this model). Its result is the `nut` argument of `UpdateCoeffs`.
- WallModels.WallModelPatchField.UpdateCoeffs: the patch values are kept in the object (`value`). The source's aliasing of those values with the `nut` field's patch slice is not modelled.
- The `updated()` flag is set by the host, outside this core. The model reads it but never sets it.
- The type checks of registry lookups (`lookupObject<volVectorField>`) are left out. The model requires the field to be present with the expected layout (`UpdateReady`, `Ready`).
- WallModels.WallModelPatchField.Copy: requires a wall patch, because in the source `checkType` aborts otherwise. `CopyOnto` and `Mapped` require one too; the failure path of `Mapped` is `NewMapped`.
- Run-time selection tables and `New` selectors are left out. So is the `SingleCellSampler` constructor that takes a sampler name, which only serves run-time selection.
- The `mesh()` accessors of the sampler and of `SampledField` are left out. The sampler holds the mesh as a constant, and a sampled field holds only its patch.
- Destructors and pointer ownership are left out; the model has no manual memory.
