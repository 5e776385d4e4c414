/** The host mesh as seen by the wall-modelling core: the cells (centres
    and volumes), the two search oracles, and one boundary patch with its
    per-face geometry. All of it is fixed once the topology is fixed. */
module MeshData {
  import opened Geometry

  /** Cell centres `C`, cell volumes `V`, and the mesh searcher: whether a
      point lies inside the part of the mesh this process owns, and the cell
      nearest to a point. */
  datatype Mesh = Mesh(
    C: seq<Vec3>,
    V: seq<real>,
    isInside: Vec3 -> bool,
    findNearestCell: Vec3 -> nat)
  {
    function NCells(): nat { |C| }

    /** One volume per cell, and the searcher always answers with a cell of
        this mesh (the nearest-cell search never comes back empty). */
    ghost predicate Valid() {
      |V| == |C| && forall p :: findNearestCell(p) < |C|
    }
  }

  /** A boundary patch: its index among the mesh's patches, its name, whether
      it is of wall type, and per face the centre `Cf`, the outward unit
      normal `nf`, the centre of the adjacent cell `Cn` and the index of that
      cell `faceCells`. */
  datatype Patch = Patch(
    index: nat,
    name: string,
    isWall: bool,
    Cf: seq<Vec3>,
    nf: seq<Vec3>,
    Cn: seq<Vec3>,
    faceCells: seq<nat>)
  {
    /** The number of faces, `patch.size()`. */
    function Size(): nat { |Cf| }

    /** The per-face lists have one entry per face and name cells of a mesh
        with `nCells` cells. */
    predicate WellFormed(nCells: nat) {
      |nf| == |Cf| && |Cn| == |Cf| && |faceCells| == |Cf| &&
      forall i :: 0 <= i < |faceCells| ==> faceCells[i] < nCells
    }

    /** The adjacent-cell centres are the centres of the adjacent cells. */
    predicate ConsistentWith(m: Mesh)
      requires WellFormed(m.NCells())
    {
      forall i :: 0 <= i < |faceCells| ==> Cn[i] == m.C[faceCells[i]]
    }
  }
}
