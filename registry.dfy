/** The host's object registry, reduced to what the core uses: named volume
    fields of the mesh, and the sub-registries `wallModelSampling/<patch>`
    that hold the time-averaged sampled values of each patch. */
module Registries {
  import opened Geometry
  import opened Fields

  /** A value that may be missing, such as a field file that may not be
      present on disk. */
  datatype Option<T> = None | Some(value: T)

  /** One sampling sub-registry: sampled-field name to per-face values. */
  type Store = map<string, seq<Vec3>>

  /** The path of the sub-registry of patch `patchName`. */
  function SamplingDbPath(patchName: string): seq<string> {
    ["wallModelSampling", patchName]
  }

  /** Checking an object into the registry: a name already taken keeps its
      object (the registry's table refuses a second insertion). */
  function StoreField(fields: map<string, Field>, name: string, f: Field): (r: map<string, Field>)
    ensures r.Keys == fields.Keys + {name}
    ensures forall k :: k in fields ==> r[k] == fields[k]
    ensures name !in fields ==> r[name] == f
  {
    if name in fields then fields else fields[name := f]
  }

  /** The first step of both `createFields`: register `h` if absent, with the
      values the host reads from disk (IOobject::MUST_READ). */
  function WithH(fields: map<string, Field>, hRead: Field): (r: map<string, Field>)
    ensures "h" in r && r.Keys == fields.Keys + {"h"}
    ensures forall k :: k in fields ==> r[k] == fields[k]
    ensures "h" !in fields ==> r["h"] == hRead
  {
    StoreField(fields, "h", hRead)
  }

  class Registry {
    var fields: map<string, Field>
    var sampling: map<string, Store>

    constructor (fields0: map<string, Field>, sampling0: map<string, Store>)
      ensures fields == fields0 && sampling == sampling0
    {
      fields := fields0;
      sampling := sampling0;
    }

    /** `subRegistry(name, forceCreate = true)`: the sub-registry of a patch,
        created empty if it does not exist yet. */
    method SubRegistry(patchName: string)
      modifies this
      ensures fields == old(fields)
      ensures sampling.Keys == old(sampling).Keys + {patchName}
      ensures forall q :: q in old(sampling) ==> sampling[q] == old(sampling)[q]
      ensures patchName !in old(sampling) ==> sampling[patchName] == map[]
    {
      if patchName !in sampling {
        sampling := sampling[patchName := map[]];
      }
    }
  }
}
