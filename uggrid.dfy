/**
 * The numbering logic `UGGrid<dim, dim>` runs on the DUNE side of the UG
 * library: the renumbering of element faces between the two conventions,
 * the vertex reordering of `insertElement`, the decision rule of `mark`,
 * the mode flags handed to UG's adaptation, and the count of live grids
 * that starts and stops UG. Every call into UG itself is left out; where
 * its outcome matters it is a parameter.
 */
module UGGrids {
  import opened Wrappers
  import Streams

  datatype GeometryType = Vertex | Line | Simplex | Cube | Prism | Pyramid

  /** The exceptions raised here: `NotImplemented` and `GridError`. */
  datatype Error = NotImplemented | GridError

  /** UG provides `UGGrid<2,2>` and `UGGrid<3,3>`. */
  predicate SupportedDim(dim: nat)
  {
    dim == 2 || dim == 3
  }

  // ---------------------------------------------------------------------------
  // Face renumbering (getChildrenOfSubface)
  // ---------------------------------------------------------------------------

  /** The hexahedron table, the same in both directions. */
  const HexahedronFaces: seq<nat> := [4, 2, 1, 3, 0, 5]
  const QuadrilateralToUG: seq<nat> := [3, 1, 0, 2]
  const QuadrilateralFromUG: seq<nat> := [2, 1, 3, 0]
  const TetrahedronToUG: seq<nat> := [1, 2, 3, 0]
  const TetrahedronFromUG: seq<nat> := [3, 0, 1, 2]
  const TriangleToUG: seq<nat> := [1, 2, 0]
  const TriangleFromUG: seq<nat> := [2, 0, 1]

  /** Whether faces of this type are renumbered: cubes and simplices are. */
  predicate Renumbered(gt: GeometryType)
  {
    gt == Cube || gt == Simplex
  }

  /** Whether face numbers of this type pass unchanged: vertices, prisms and pyramids. */
  predicate PassedThrough(gt: GeometryType)
  {
    gt == Vertex || gt == Prism || gt == Pyramid
  }

  /** The number of faces of a cube or simplex of dimension `dim`. */
  function FaceCount(gt: GeometryType, dim: nat): nat
  {
    if gt == Cube then (if dim == 3 then 6 else 4)
    else if gt == Simplex then (if dim == 3 then 4 else 3)
    else 0
  }

  /** A face number the renumbering tables can be indexed with. */
  predicate ValidFace(gt: GeometryType, dim: nat, side: nat)
  {
    Renumbered(gt) ==> side < FaceCount(gt, dim)
  }

  /** The table of the first switch, from DUNE to UG numbering. */
  function ToUGTable(gt: GeometryType, dim: nat): seq<nat>
  {
    if gt == Cube then (if dim == 3 then HexahedronFaces else QuadrilateralToUG)
    else if dim == 3 then TetrahedronToUG else TriangleToUG
  }

  /** The table of the second switch, from UG back to DUNE numbering. */
  function FromUGTable(gt: GeometryType, dim: nat): seq<nat>
  {
    if gt == Cube then (if dim == 3 then HexahedronFaces else QuadrilateralFromUG)
    else if dim == 3 then TetrahedronFromUG else TriangleFromUG
  }

  /** `b` undoes `a`: both permute the numbers below `|a|`. */
  predicate Undoes(a: seq<nat>, b: seq<nat>)
  {
    |a| == |b| && forall i :: 0 <= i < |a| ==> a[i] < |b| && b[a[i]] == i
  }

  /** Each table of the second switch undoes the matching table of the first, and the other way round. */
  lemma TablesAreInverse()
    ensures Undoes(HexahedronFaces, HexahedronFaces)
    ensures Undoes(QuadrilateralToUG, QuadrilateralFromUG) && Undoes(QuadrilateralFromUG, QuadrilateralToUG)
    ensures Undoes(TetrahedronToUG, TetrahedronFromUG) && Undoes(TetrahedronFromUG, TetrahedronToUG)
    ensures Undoes(TriangleToUG, TriangleFromUG) && Undoes(TriangleFromUG, TriangleToUG)
  {
    forall i | 0 <= i < 6
      ensures HexahedronFaces[i] < 6 && HexahedronFaces[HexahedronFaces[i]] == i
    {
      assert i == 0 || i == 1 || i == 2 || i == 3 || i == 4 || i == 5;
    }
    forall i | 0 <= i < 4
      ensures QuadrilateralToUG[i] < 4 && QuadrilateralFromUG[QuadrilateralToUG[i]] == i
      ensures QuadrilateralFromUG[i] < 4 && QuadrilateralToUG[QuadrilateralFromUG[i]] == i
      ensures TetrahedronToUG[i] < 4 && TetrahedronFromUG[TetrahedronToUG[i]] == i
      ensures TetrahedronFromUG[i] < 4 && TetrahedronToUG[TetrahedronFromUG[i]] == i
    {
      assert i == 0 || i == 1 || i == 2 || i == 3;
    }
    forall i | 0 <= i < 3
      ensures TriangleToUG[i] < 3 && TriangleFromUG[TriangleToUG[i]] == i
      ensures TriangleFromUG[i] < 3 && TriangleToUG[TriangleFromUG[i]] == i
    {
      assert i == 0 || i == 1 || i == 2;
    }
  }

  /** The tables of both switches have one entry per face. */
  lemma TableSizes(gt: GeometryType, dim: nat)
    requires SupportedDim(dim) && Renumbered(gt)
    ensures |ToUGTable(gt, dim)| == FaceCount(gt, dim) == |FromUGTable(gt, dim)|
    ensures Undoes(ToUGTable(gt, dim), FromUGTable(gt, dim)) && Undoes(FromUGTable(gt, dim), ToUGTable(gt, dim))
  {
    TablesAreInverse();
  }

  /**
   * The first switch of `getChildrenOfSubface`: the face number in UG's
   * convention, or `NotImplemented` for a type it does not know.
   */
  function FaceToUG(gt: GeometryType, dim: nat, side: nat): (r: Result<nat, Error>)
    requires SupportedDim(dim) && ValidFace(gt, dim, side)
    ensures Renumbered(gt) ==> r.Ok? && r.value < FaceCount(gt, dim)
    ensures PassedThrough(gt) ==> r == Ok(side)
    ensures gt == Line ==> r == Err(NotImplemented)
  {
    if Renumbered(gt) then TableSizes(gt, dim); Ok(ToUGTable(gt, dim)[side])
    else if PassedThrough(gt) then Ok(side)
    else Err(NotImplemented)
  }

  /** The second switch of `getChildrenOfSubface`: a child's face number back in DUNE's convention. */
  function FaceFromUG(gt: GeometryType, dim: nat, side: nat): (r: Result<nat, Error>)
    requires SupportedDim(dim) && ValidFace(gt, dim, side)
    ensures Renumbered(gt) ==> r.Ok? && r.value < FaceCount(gt, dim)
    ensures PassedThrough(gt) ==> r == Ok(side)
    ensures gt == Line ==> r == Err(NotImplemented)
  {
    if Renumbered(gt) then TableSizes(gt, dim); Ok(FromUGTable(gt, dim)[side])
    else if PassedThrough(gt) then Ok(side)
    else Err(NotImplemented)
  }

  /** DUNE to UG and back is the identity on faces, and so is UG to DUNE and back. */
  lemma FaceRoundTrip(gt: GeometryType, dim: nat, side: nat)
    requires SupportedDim(dim) && ValidFace(gt, dim, side) && gt != Line
    ensures FaceFromUG(gt, dim, FaceToUG(gt, dim, side).value) == Ok(side)
    ensures FaceToUG(gt, dim, FaceFromUG(gt, dim, side).value) == Ok(side)
  {
    if Renumbered(gt) {
      TableSizes(gt, dim);
    }
  }

  /**
   * The last loop of `getChildrenOfSubface`: the face number UG reports for
   * each collected child, turned back into DUNE's convention.
   */
  method ChildSidesToDune(gt: GeometryType, dim: nat, ugSides: seq<nat>) returns (r: Result<seq<nat>, Error>)
    requires SupportedDim(dim) && forall i :: 0 <= i < |ugSides| ==> ValidFace(gt, dim, ugSides[i])
    ensures r.Err? <==> gt == Line && |ugSides| > 0
    ensures r.Err? ==> r.error == NotImplemented
    ensures r.Ok? ==> |r.value| == |ugSides|
    ensures r.Ok? ==> forall i :: 0 <= i < |ugSides| ==> FaceFromUG(gt, dim, ugSides[i]) == Ok(r.value[i])
  {
    var childElementSides := new nat[|ugSides|];
    var i := 0;
    while i < |ugSides|
      invariant 0 <= i <= |ugSides|
      invariant i > 0 ==> gt != Line
      invariant forall k :: 0 <= k < i ==> FaceFromUG(gt, dim, ugSides[k]) == Ok(childElementSides[k])
    {
      var side := FaceFromUG(gt, dim, ugSides[i]);
      if side.Err? {
        return Err(side.error);
      }
      childElementSides[i] := side.value;
      i := i + 1;
    }
    return Ok(childElementSides[..]);
  }

  // ---------------------------------------------------------------------------
  // insertElement
  // ---------------------------------------------------------------------------

  /** The number of vertices UG expects for an element of this type, or `None` for a type it cannot take. */
  function VertexCount(gt: GeometryType, dim: nat): Option<nat>
  {
    if dim == 2 then
      (if gt == Simplex then Some(3) else if gt == Cube then Some(4) else None)
    else if gt == Simplex then Some(4)
    else if gt == Pyramid then Some(5)
    else if gt == Prism then Some(6)
    else if gt == Cube then Some(8)
    else None
  }

  /** The DUNE vertex that becomes UG vertex `i`: cubes exchange 2 and 3, and in 3D also 6 and 7. */
  function UGVertex(gt: GeometryType, dim: nat, i: nat): nat
  {
    if gt != Cube then i
    else if i == 2 then 3
    else if i == 3 then 2
    else if dim == 3 && i == 6 then 7
    else if dim == 3 && i == 7 then 6
    else i
  }

  /** The conversion of an `unsigned int` to `int`: values from 2^31 on wrap around to negative numbers. */
  function ToCInt(v: nat): int
    requires v < 0x1_0000_0000
  {
    if v < 0x8000_0000 then v else v - 0x1_0000_0000
  }

  /** Every vertex number fits an `unsigned int`. */
  predicate Unsigned(vertices: seq<nat>)
  {
    forall i :: 0 <= i < |vertices| ==> vertices[i] < 0x1_0000_0000
  }

  /** The vertices as copied into the `int` array. */
  function Converted(vertices: seq<nat>): (r: seq<int>)
    requires Unsigned(vertices)
    ensures |r| == |vertices| && forall i :: 0 <= i < |r| ==> r[i] == ToCInt(vertices[i])
  {
    seq(|vertices|, i requires 0 <= i < |vertices| => ToCInt(vertices[i]))
  }

  function Swap(s: seq<int>, i: nat, j: nat): (r: seq<int>)
    requires i < |s| && j < |s|
    ensures |r| == |s| && multiset(r) == multiset(s)
  {
    s[i := s[j]][j := s[i]]
  }

  /** The vertices in UG's order: each UG vertex `i` is DUNE vertex `UGVertex(i)`, and none is lost or repeated. */
  function ToUGOrder(gt: GeometryType, dim: nat, vs: seq<int>): (r: seq<int>)
    requires SupportedDim(dim) && VertexCount(gt, dim) == Some(|vs|)
    ensures |r| == |vs| && multiset(r) == multiset(vs)
    ensures forall i :: 0 <= i < |vs| ==> UGVertex(gt, dim, i) < |vs| && r[i] == vs[UGVertex(gt, dim, i)]
  {
    if gt != Cube then vs
    else if dim == 3 then Swap(Swap(vs, 2, 3), 6, 7)
    else Swap(vs, 2, 3)
  }

  /** Reordering twice gives back DUNE's order. */
  lemma ToUGOrderTwice(gt: GeometryType, dim: nat, vs: seq<int>)
    requires SupportedDim(dim) && VertexCount(gt, dim) == Some(|vs|)
    ensures ToUGOrder(gt, dim, ToUGOrder(gt, dim, vs)) == vs
  {
    var u := ToUGOrder(gt, dim, vs);
    var r := ToUGOrder(gt, dim, u);
    forall i | 0 <= i < |vs|
      ensures r[i] == vs[i]
    {
      UGVertexTwice(gt, dim, i);
    }
  }

  lemma UGVertexTwice(gt: GeometryType, dim: nat, i: nat)
    ensures UGVertex(gt, dim, UGVertex(gt, dim, i)) == i
  {
  }

  /**
   * `insertElement`: the vertex numbers are copied into an `int` array; a
   * type UG cannot take or a wrong vertex count raises `GridError`, and a
   * cube's vertices are reordered. The result is what is handed to UG.
   */
  method InsertElement(gt: GeometryType, dim: nat, vertices: seq<nat>) returns (r: Result<seq<int>, Error>)
    requires SupportedDim(dim) && Unsigned(vertices)
    ensures r.Ok? <==> VertexCount(gt, dim) == Some(|vertices|)
    ensures r.Err? ==> r.error == GridError
    ensures r.Ok? ==> r.value == ToUGOrder(gt, dim, Converted(vertices))
  {
    var cStyle := new int[|vertices|];
    var i := 0;
    while i < |vertices|
      invariant 0 <= i <= |vertices|
      invariant forall k :: 0 <= k < i ==> cStyle[k] == ToCInt(vertices[k])
    {
      cStyle[i] := ToCInt(vertices[i]);
      i := i + 1;
    }
    assert cStyle[..] == Converted(vertices);
    if dim == 2 {
      if gt == Simplex {
        if |vertices| != 3 {
          return Err(GridError);
        }
      } else if gt == Cube {
        if |vertices| != 4 {
          return Err(GridError);
        }
        cStyle[2] := ToCInt(vertices[3]);
        cStyle[3] := ToCInt(vertices[2]);
      } else {
        return Err(GridError);
      }
    } else {
      if gt == Simplex {
        if |vertices| != 4 {
          return Err(GridError);
        }
      } else if gt == Pyramid {
        if |vertices| != 5 {
          return Err(GridError);
        }
      } else if gt == Prism {
        if |vertices| != 6 {
          return Err(GridError);
        }
      } else if gt == Cube {
        if |vertices| != 8 {
          return Err(GridError);
        }
        cStyle[2] := ToCInt(vertices[3]);
        cStyle[3] := ToCInt(vertices[2]);
        cStyle[6] := ToCInt(vertices[7]);
        cStyle[7] := ToCInt(vertices[6]);
      } else {
        return Err(GridError);
      }
    }
    return Ok(cStyle[..]);
  }

  // ---------------------------------------------------------------------------
  // mark and adapt
  // ---------------------------------------------------------------------------

  datatype RefinementRule = Red | Coarse

  /**
   * `mark(refCount, e)`: whether the element was marked, and the rule UG
   * was asked to mark it with. `estimable` is UG's `EstimateHere` for the
   * element and `ugError` whether UG's `MarkForRefinement` reports an error.
   */
  function Mark(refCount: int, estimable: bool, ugError: bool): (r: Result<(bool, Option<RefinementRule>), Error>)
    ensures r.Err? <==> refCount != 0 && estimable && (ugError || (refCount != 1 && refCount != -1))
    ensures r.Err? ==> r.error == GridError
    ensures r.Ok? ==> (r.value.0 <==> r.value.1.Some?)
    ensures r.Ok? && r.value.0 <==> estimable && (refCount == 1 || refCount == -1) && !ugError
    ensures r.Ok? && r.value.0 ==> r.value.1 == Some(if refCount == 1 then Red else Coarse)
  {
    if refCount == 0 then Ok((false, None))
    else if !estimable then Ok((false, None))
    else if refCount == 1 then (if ugError then Err(GridError) else Ok((true, Some(Red))))
    else if refCount == -1 then (if ugError then Err(GridError) else Ok((true, Some(Coarse))))
    else Err(GridError)
  }

  /** The counts `mark` accepts: -1, 0 and 1 never raise an error of their own. */
  lemma MarkAcceptsUnitCounts(refCount: int, estimable: bool)
    requires -1 <= refCount <= 1
    ensures Mark(refCount, estimable, false).Ok?
    ensures Mark(refCount, estimable, false).value.1 ==
      if refCount == 0 || !estimable then None else if refCount == 1 then Some(Red) else Some(Coarse)
  {
  }

  datatype RefinementType = Local | Copy

  /** The flags of UG's adaptation mode. */
  datatype AdaptFlag = TrulyLocal | CopyAll | NotClosed

  /** The `mode` of `adapt`: truly local refinement, copying everything for `COPY`, no green closure if it is omitted. */
  function AdaptMode(refinementType: RefinementType, omitGreenClosure: bool): (mode: set<AdaptFlag>)
    ensures TrulyLocal in mode
    ensures CopyAll in mode <==> refinementType == Copy
    ensures NotClosed in mode <==> omitGreenClosure
  {
    var mode := {TrulyLocal};
    var mode := if refinementType == Copy then mode + {CopyAll} else mode;
    if omitGreenClosure then mode + {NotClosed} else mode
  }

  // ---------------------------------------------------------------------------
  // Grid instances
  // ---------------------------------------------------------------------------

  /** The name of the grid created when the name counter stood at `k`. */
  function GridName(k: nat): string
  {
    "DuneUGGrid_" + Streams.ShowNat(k)
  }

  /** Grids created at different counter values have different names. */
  lemma GridNamesDistinct(a: nat, b: nat)
    requires a != b
    ensures GridName(a) != GridName(b)
  {
    if GridName(a) == GridName(b) {
      var prefix := "DuneUGGrid_";
      assert Streams.ShowNat(a) == GridName(a)[|prefix|..];
      assert Streams.ShowNat(b) == GridName(b)[|prefix|..];
      Streams.ShowNatValue(a);
      Streams.ShowNatValue(b);
    }
  }

  /**
   * The static members every `UGGrid<dim, dim>` shares: the number of
   * live grids, the name counter, and whether UG is running, with the
   * number of times it was started and shut down.
   */
  class UGLibrary {
    var numOfUGGrids: int
    var nameCounter: nat
    var running: bool
    /** The calls of `InitUg` and of `ExitUg` so far. */
    var starts: nat
    var shutdowns: nat

    /**
     * What holds whatever UG answers: UG runs while some grid is counted,
     * and every shutdown but the last start's follows a start of its own.
     */
    ghost predicate Valid()
      reads this
    {
      numOfUGGrids >= 0 && (numOfUGGrids > 0 ==> running) &&
      starts >= shutdowns + (if numOfUGGrids > 0 then 1 else 0)
    }

    /** While every call into UG succeeds: UG runs exactly while some grid is alive, started once and not yet shut down. */
    ghost predicate Balanced()
      reads this
    {
      Valid() && (running <==> numOfUGGrids > 0) &&
      starts == shutdowns + (if running then 1 else 0)
    }

    constructor()
      ensures Balanced() && numOfUGGrids == 0 && nameCounter == 0 && !running && starts == 0 && shutdowns == 0
    {
      numOfUGGrids := 0;
      nameCounter := 0;
      running := false;
      starts := 0;
      shutdowns := 0;
    }

    /**
     * `init`: when no grid is counted, UG is started. `problemCreated` is
     * whether `CreateBoundaryValueProblem` succeeded and `formatCreated`
     * whether `CreateFormatCmd` did (it is only called for the first grid);
     * either failure raises `GridError` before the grid is counted or the
     * name counter moves, and UG stays started.
     */
    method Register(problemCreated: bool, formatCreated: bool) returns (r: Result<string, Error>)
      requires Valid()
      modifies this
      ensures Valid()
      ensures var first := old(numOfUGGrids) == 0;
        && starts == old(starts) + (if first then 1 else 0) && shutdowns == old(shutdowns)
        && running == (old(running) || first)
        && (r.Ok? <==> problemCreated && (first ==> formatCreated))
      ensures r.Ok? ==> (r.value == GridName(old(nameCounter))
        && numOfUGGrids == old(numOfUGGrids) + 1 && nameCounter == old(nameCounter) + 1)
      ensures r.Err? ==> r.error == GridError && numOfUGGrids == old(numOfUGGrids) && nameCounter == old(nameCounter)
      ensures old(Balanced()) && r.Ok? ==> Balanced()
    {
      var first := numOfUGGrids == 0;
      if first {
        running := true;
        starts := starts + 1;
      }
      var name := GridName(nameCounter);
      if !problemCreated {
        return Err(GridError);
      }
      if first && !formatCreated {
        return Err(GridError);
      }
      numOfUGGrids := numOfUGGrids + 1;
      nameCounter := nameCounter + 1;
      r := Ok(name);
    }

    /**
     * `~UGGrid`: `ownProblemFound` is whether the lookup of the grid's own
     * boundary value problem succeeded (true when the grid has no multigrid);
     * otherwise `GridError` is raised before the grid is uncounted. The grid
     * is uncounted and UG shuts down when it was the last one.
     */
    method Unregister(ownProblemFound: bool) returns (r: Result<(), Error>)
      requires Valid() && numOfUGGrids > 0
      modifies this
      ensures Valid()
      ensures !ownProblemFound ==> r == Err(GridError) && unchanged(this)
      ensures ownProblemFound ==> (r == Ok(())
        && numOfUGGrids == old(numOfUGGrids) - 1
        && shutdowns == old(shutdowns) + (if numOfUGGrids == 0 then 1 else 0) && starts == old(starts)
        && running == (numOfUGGrids > 0) && nameCounter == old(nameCounter))
      ensures old(Balanced()) ==> Balanced()
    {
      if !ownProblemFound {
        return Err(GridError);
      }
      numOfUGGrids := numOfUGGrids - 1;
      if numOfUGGrids == 0 {
        running := false;
        shutdowns := shutdowns + 1;
      }
      r := Ok(());
    }
  }

  /**
   * A first grid whose construction fails leaves UG started with no grid
   * counted; the next grid starts UG a second time, so two starts then
   * face one shutdown once that grid is gone.
   */
  method FailedFirstGridRestartsUG(library: UGLibrary)
    requires library.Balanced() && library.numOfUGGrids == 0
    modifies library
    ensures library.Valid() && !library.Balanced()
    ensures library.numOfUGGrids == 0 && !library.running
    ensures library.starts == old(library.starts) + 2 && library.shutdowns == old(library.shutdowns) + 1
  {
    var failed := library.Register(false, true);
    assert library.running && library.numOfUGGrids == 0;
    var second := library.Register(true, true);
    var gone := library.Unregister(true);
  }

  /**
   * `UGGrid()`: `init` registers the grid with the shared library state, and
   * a grid is made only when it succeeds, with local refinement and green
   * closure.
   */
  method NewUGGrid(library: UGLibrary, problemCreated: bool, formatCreated: bool) returns (r: Result<UGGrid, Error>)
    requires library.Valid()
    modifies library
    ensures library.Valid()
    ensures var first := old(library.numOfUGGrids) == 0;
      && library.starts == old(library.starts) + (if first then 1 else 0) && library.shutdowns == old(library.shutdowns)
      && (r.Ok? <==> problemCreated && (first ==> formatCreated))
    ensures r.Ok? ==> (fresh(r.value) && r.value.library == library && r.value.name == GridName(old(library.nameCounter))
      && r.value.refinementType == Local && !r.value.omitGreenClosure && r.value.adaptModes == []
      && library.numOfUGGrids == old(library.numOfUGGrids) + 1)
    ensures r.Err? ==> r.error == GridError && library.numOfUGGrids == old(library.numOfUGGrids)
    ensures old(library.Balanced()) && r.Ok? ==> library.Balanced()
  {
    var name := library.Register(problemCreated, formatCreated);
    if name.Err? {
      return Err(GridError);
    }
    var g := new UGGrid(library, name.value);
    r := Ok(g);
  }

  /** The refinement settings of one grid and the modes its adaptations handed to UG. */
  class UGGrid {
    const library: UGLibrary
    const name: string
    var refinementType: RefinementType
    var omitGreenClosure: bool
    var adaptModes: seq<set<AdaptFlag>>

    /** The member initialisers of `UGGrid()`: local refinement with green closure. */
    constructor(library: UGLibrary, name: string)
      ensures this.library == library && this.name == name
      ensures refinementType == Local && !omitGreenClosure && adaptModes == []
    {
      this.library := library;
      this.name := name;
      refinementType := Local;
      omitGreenClosure := false;
      adaptModes := [];
    }

    /** `~UGGrid`, with `ownProblemFound` as for `UGLibrary.Unregister`. */
    method Dispose(ownProblemFound: bool) returns (r: Result<(), Error>)
      requires library.Valid() && library.numOfUGGrids > 0
      modifies library
      ensures library.Valid()
      ensures r.Ok? <==> ownProblemFound
      ensures r.Ok? ==> (library.numOfUGGrids == old(library.numOfUGGrids) - 1
        && library.shutdowns == old(library.shutdowns) + (if library.numOfUGGrids == 0 then 1 else 0)
        && library.starts == old(library.starts))
      ensures r.Err? ==> unchanged(library)
      ensures old(library.Balanced()) ==> library.Balanced()
    {
      r := library.Unregister(ownProblemFound);
    }

    /**
     * `adapt`: UG adapts with the mode of the current settings; `rv` is the
     * code UG returns, and any code but 0 raises `GridError`.
     */
    method Adapt(rv: int) returns (r: Result<bool, Error>)
      modifies this
      ensures adaptModes == old(adaptModes) + [AdaptMode(refinementType, omitGreenClosure)]
      ensures refinementType == old(refinementType) && omitGreenClosure == old(omitGreenClosure)
      ensures r == if rv == 0 then Ok(true) else Err(GridError)
    {
      adaptModes := adaptModes + [AdaptMode(refinementType, omitGreenClosure)];
      if rv != 0 {
        return Err(GridError);
      }
      return Ok(true);
    }

    /**
     * `adaptWithoutClosure` as written: the flag is saved, set, and restored
     * after `adapt` returns; when `adapt` raises its error the restoring
     * statement is skipped and the flag stays set.
     */
    method AdaptWithoutClosure(rv: int) returns (r: Result<bool, Error>)
      modifies this
      ensures adaptModes == old(adaptModes) + [AdaptMode(refinementType, true)]
      ensures refinementType == old(refinementType)
      ensures omitGreenClosure == if r.Ok? then old(omitGreenClosure) else true
      ensures r == if rv == 0 then Ok(true) else Err(GridError)
    {
      var backup := omitGreenClosure;
      omitGreenClosure := true;
      r := Adapt(rv);
      if r.Err? {
        return;
      }
      omitGreenClosure := backup;
    }

    /** `adaptWithoutClosure` restoring the flag on both outcomes. */
    method AdaptWithoutClosureRestoring(rv: int) returns (r: Result<bool, Error>)
      modifies this
      ensures adaptModes == old(adaptModes) + [AdaptMode(refinementType, true)]
      ensures refinementType == old(refinementType) && omitGreenClosure == old(omitGreenClosure)
      ensures r == if rv == 0 then Ok(true) else Err(GridError)
    {
      var backup := omitGreenClosure;
      omitGreenClosure := true;
      r := Adapt(rv);
      omitGreenClosure := backup;
    }
  }

  /** A failed adaptation without closure leaves a grid that had green closure without it. */
  method FailedAdaptKeepsClosureOff(g: UGGrid)
    requires !g.omitGreenClosure
    modifies g
    ensures g.omitGreenClosure && NotClosed in AdaptMode(g.refinementType, g.omitGreenClosure)
  {
    var r := g.AdaptWithoutClosure(1);
  }
}
