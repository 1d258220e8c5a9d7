/**
 * The state bookkeeping of the ThreeJsViewer widget: the part registry, the selection,
 * the material colours and the framing of the scene. The rendering library is abstracted
 * away: `children` are the meshes under `root`, a pick is handed in as an optional mesh,
 * and the `onClick` callback's argument is returned.
 */
module Viewer {
  import opened Options
  import opened Bounds
  import opened Selection

  /** The closure `function(geometry)` that `registerGeometryFunc()(partId)` returns. */
  datatype PartCallback = PartCallback(partId: PartId, material: MaterialId)

  /** The bounding boxes of the meshes in the order the traversal visits them. */
  function Boxes(ms: seq<Mesh>): seq<Box>
  {
    seq(|ms|, i requires 0 <= i < |ms| => ms[i].geometry.box)
  }

  /** The geometry ids of the meshes. */
  function GeometryIds(ms: seq<Mesh>): set<GeometryId>
  {
    set i | 0 <= i < |ms| :: ms[i].geometry.id
  }

  class ThreeJsViewer {
    /** `meshes`: geometry id to part id. */
    var meshes: map<GeometryId, PartId>
    /** `root.children`. */
    var children: seq<Mesh>
    /** The colour of every material created so far. */
    var colors: map<MaterialId, Color>
    /** `selected`. */
    var selected: Option<Mesh>
    /** `root.position`. */
    var rootPosition: Vec3
    /** `camera.position`. */
    var cameraPosition: Vec3
    /** The identity the next `new THREE.Mesh` receives. */
    var nextMesh: nat
    /** The identity the next `new THREE.MeshPhongMaterial` receives. */
    var nextMaterial: nat

    function State(): SelectionState
      reads this
    {
      SelectionState(selected, colors)
    }

    /**
     * Every mesh under root is registered under its geometry id and no other id is; meshes and
     * materials were handed out identities below the counters; the highlighting invariant holds.
     */
    ghost predicate Valid()
      reads this
    {
      meshes.Keys == GeometryIds(children) &&
      (forall i :: 0 <= i < |children| ==> children[i].material in colors && children[i].handle < nextMesh) &&
      (selected.Some? ==> selected.value.handle < nextMesh) &&
      (forall m | m in colors :: m < nextMaterial) &&
      SingleHighlight(State())
    }

    /** The widget as `new ThreeJsViewer()` followed by `init` leaves it. */
    constructor ()
      ensures Valid()
      ensures meshes == map[] && children == [] && colors == map[] && selected == None
      ensures rootPosition == Vec3(0.0, 0.0, 0.0) && cameraPosition == Vec3(1.0, 1.0, 1.0)
    {
      meshes := map[];
      children := [];
      colors := map[];
      selected := None;
      rootPosition := Vec3(0.0, 0.0, 0.0);
      cameraPosition := Vec3(1.0, 1.0, 1.0);
      nextMesh := 0;
      nextMaterial := 0;
    }

    /** `registerGeometryFunc()(partId)`: one new material, UNSELECTED, shared by the part's meshes. */
    method RegisterPart(partId: PartId) returns (cb: PartCallback)
      requires Valid()
      modifies this`colors, this`nextMaterial
      ensures Valid()
      ensures cb.partId == partId
      ensures cb.material !in old(colors)
      ensures colors == old(colors)[cb.material := UnselectedColor]
    {
      cb := PartCallback(partId, nextMaterial);
      colors := colors[nextMaterial := UnselectedColor];
      nextMaterial := nextMaterial + 1;
    }

    /**
     * The callback applied to `geometry`: a new mesh with the part's material is appended to
     * root's children and the geometry id is mapped to the part, overwriting an earlier entry.
     */
    method RegisterGeometry(cb: PartCallback, geometry: Geometry)
      requires Valid()
      requires cb.material in colors
      modifies this`children, this`meshes, this`nextMesh
      ensures Valid()
      ensures |children| == |old(children)| + 1
      ensures children[..|old(children)|] == old(children)
      ensures children[|old(children)|].geometry == geometry
      ensures children[|old(children)|].material == cb.material
      ensures forall i :: 0 <= i < |old(children)| ==> old(children)[i] != children[|old(children)|]
      ensures selected != Some(children[|old(children)|])
      ensures meshes == old(meshes)[geometry.id := cb.partId]
    {
      var mesh := Mesh(nextMesh, geometry, cb.material);
      ghost var before := children;
      children := children + [mesh];
      meshes := meshes[mesh.geometry.id := cb.partId];
      nextMesh := nextMesh + 1;
      assert GeometryIds(children) == GeometryIds(before) + {geometry.id} by {
        forall g | g in GeometryIds(children) ensures g in GeometryIds(before) + {geometry.id} {
          var i :| 0 <= i < |children| && children[i].geometry.id == g;
          if i < |before| { assert before[i] == children[i]; }
        }
        forall g | g in GeometryIds(before) ensures g in GeometryIds(children) {
          var i :| 0 <= i < |before| && before[i].geometry.id == g;
          assert children[i] == before[i];
        }
        assert children[|before|] == mesh;
      }
    }

    /** clearModel: a fresh, empty root at the origin and an empty registry. */
    method ClearModel()
      requires Valid()
      modifies this`children, this`meshes, this`rootPosition
      ensures Valid()
      ensures children == [] && meshes == map[]
      ensures rootPosition == Vec3(0.0, 0.0, 0.0)
    {
      children := [];
      rootPosition := Vec3(0.0, 0.0, 0.0);
      meshes := map[];
    }

    /**
     * onMouseDown after the pick: `hit` is the first intersected object, `None` when the ray
     * hits nothing. Recolours, updates `selected` and returns what is passed to onClick.
     */
    method OnMouseDown(hit: Option<Mesh>) returns (reported: Option<PartId>)
      requires Valid()
      requires hit.Some? ==> hit.value in children
      modifies this`selected, this`colors
      ensures Valid()
      ensures State() == Click(old(State()), hit)
      ensures selected == hit
      ensures hit.Some? ==> hit.value.geometry.id in meshes && reported == Some(meshes[hit.value.geometry.id])
      ensures hit.None? ==> reported == None
    {
      ghost var s := State();
      if hit.Some? {
        if selected != hit {
          if selected.Some? {
            colors := colors[selected.value.material := UnselectedColor];
          }
          selected := hit;
          colors := colors[selected.value.material := SelectedColor];
        }
      } else {
        if selected.Some? {
          colors := colors[selected.value.material := UnselectedColor];
        }
        selected := None;
      }
      ClickKeepsSingleHighlight(s, hit);
      if selected.Some? {
        assert selected.value.geometry.id in GeometryIds(children);
        reported := Some(meshes[selected.value.geometry.id]);
      } else {
        reported := None;
      }
    }

    /**
     * computeBoundingBox: the per-axis min/max over every mesh's box, seeded with the first
     * child's; `None` stands for the TypeError thrown when root has no children.
     */
    method ComputeBoundingBox() returns (bb: Option<Box>)
      ensures bb.Some? <==> |children| > 0
      ensures bb.Some? ==> bb.value == Hull(Boxes(children))
      ensures bb.Some? ==> Encloses(bb.value, Boxes(children)) && Attained(bb.value, Boxes(children))
    {
      if |children| == 0 {
        return None;
      }
      ghost var boxes := Boxes(children);
      var acc := children[0].geometry.box;
      var i := 0;
      while i < |children|
        invariant 0 <= i <= |children|
        invariant acc == HullFrom(boxes[0], boxes[..i])
      {
        var box := children[i].geometry.box;
        ghost var start := acc;
        for j := 0 to |Axes|
          invariant forall k :: 0 <= k < j ==> Get(acc, Axes[k]) == Widen(Get(start, Axes[k]), Get(box, Axes[k]))
          invariant forall k :: j <= k < |Axes| ==> Get(acc, Axes[k]) == Get(start, Axes[k])
        {
          var a := Axes[j];
          acc := With(acc, a, Interval(Min(Get(acc, a).lo, Get(box, a).lo), Max(Get(acc, a).hi, Get(box, a).hi)));
        }
        assert acc.x == Get(acc, Axes[0]) && acc.y == Get(acc, Axes[1]) && acc.z == Get(acc, Axes[2]);
        assert boxes[..i + 1][..i] == boxes[..i];
        i := i + 1;
      }
      assert boxes[..i] == boxes;
      HullIsTightest(boxes);
      bb := Some(acc);
    }

    /**
     * finishScene: moves root so the box centre lands at the origin and puts the camera at
     * `(m, m, m)`, `m` the largest extent. Returns false, changing nothing, where the source
     * throws because root has no children.
     */
    method FinishScene() returns (ok: bool)
      modifies this`rootPosition, this`cameraPosition
      ensures ok <==> |children| > 0
      ensures ok ==> rootPosition == CenterOffset(Hull(Boxes(children)))
      ensures ok ==> cameraPosition == Vec3(MaxExtent(Hull(Boxes(children))), MaxExtent(Hull(Boxes(children))), MaxExtent(Hull(Boxes(children))))
      ensures !ok ==> rootPosition == old(rootPosition) && cameraPosition == old(cameraPosition)
    {
      var bb := ComputeBoundingBox();
      if bb.None? {
        return false;
      }
      var b := bb.value;
      var ext := Vec3(b.x.hi - b.x.lo, b.y.hi - b.y.lo, b.z.hi - b.z.lo);
      rootPosition := Vec3(ext.x * -0.5 - b.x.lo, ext.y * -0.5 - b.y.lo, ext.z * -0.5 - b.z.lo);
      var maxExtent := Max(Max(ext.x, ext.y), ext.z);
      cameraPosition := Vec3(maxExtent, maxExtent, maxExtent);
      ok := true;
    }
  }
}
