/**
 * Meshes, materials and the selection state machine of ThreeJsViewer.onMouseDown:
 * which mesh is selected and which colour every material has.
 */
module Selection {
  import opened Options
  import opened Bounds

  /** The part identifier the model loader hands to the viewer; opaque to it. */
  type PartId = string

  /** three.js `geometry.id`. */
  type GeometryId = int

  /** The identity of one THREE.MeshPhongMaterial object. */
  type MaterialId = nat

  /** A colour as a hex number. */
  type Color = int

  const SelectedColor: Color := 0xffff00
  const UnselectedColor: Color := 0xFF0000

  /** A geometry as the loader delivers it: its id and the bounding box computeBoundingBox gives it. */
  datatype Geometry = Geometry(id: GeometryId, box: Box)

  /**
   * A THREE.Mesh. `handle` stands for the identity of the object `new THREE.Mesh` creates,
   * so that two meshes compare equal exactly when they are the same object.
   */
  datatype Mesh = Mesh(handle: nat, geometry: Geometry, material: MaterialId)

  /** What a click reads and writes: `viewer.selected` and the colour of every material. */
  datatype SelectionState = SelectionState(selected: Option<Mesh>, colors: map<MaterialId, Color>)

  /** The material of a selection or pick, if there is one. */
  function MaterialOf(o: Option<Mesh>): set<MaterialId>
  {
    if o.Some? then {o.value.material} else {}
  }

  /**
   * The highlighting invariant: the selected mesh's material is SELECTED and every other
   * material is UNSELECTED, so at most one material is highlighted.
   */
  predicate SingleHighlight(s: SelectionState)
  {
    (s.selected.Some? ==> s.selected.value.material in s.colors) &&
    forall m | m in s.colors ::
      s.colors[m] == (if m in MaterialOf(s.selected) then SelectedColor else UnselectedColor)
  }

  /** The colours with the selected mesh's material, if any, reset to UNSELECTED. */
  function Deselect(s: SelectionState): map<MaterialId, Color>
  {
    if s.selected.Some? then s.colors[s.selected.value.material := UnselectedColor] else s.colors
  }

  /** The state change of onMouseDown for the pick result `hit` (`None` when nothing was hit). */
  function Click(s: SelectionState, hit: Option<Mesh>): (r: SelectionState)
    ensures r.selected == hit
    ensures s.selected == hit ==> r == s
    ensures s.selected != hit ==> r.colors.Keys == s.colors.Keys + MaterialOf(s.selected) + MaterialOf(hit)
    ensures s.selected != hit && hit.Some? ==> r.colors[hit.value.material] == SelectedColor
    ensures s.selected != hit && s.selected.Some? && s.selected.value.material !in MaterialOf(hit) ==>
      r.colors[s.selected.value.material] == UnselectedColor
    ensures forall m | m in s.colors && m !in MaterialOf(s.selected) + MaterialOf(hit) :: r.colors[m] == s.colors[m]
  {
    match hit
    case Some(mesh) =>
      if s.selected != hit then SelectionState(hit, Deselect(s)[mesh.material := SelectedColor]) else s
    case None =>
      SelectionState(None, Deselect(s))
  }

  /** Repeating the same click changes nothing more. */
  lemma ClickIdempotent(s: SelectionState, hit: Option<Mesh>)
    ensures Click(Click(s, hit), hit) == Click(s, hit)
  {
  }

  /** A click keeps at most one material highlighted, namely the new selection's. */
  lemma ClickKeepsSingleHighlight(s: SelectionState, hit: Option<Mesh>)
    requires SingleHighlight(s)
    requires hit.Some? ==> hit.value.material in s.colors
    ensures SingleHighlight(Click(s, hit))
    ensures Click(s, hit).colors.Keys == s.colors.Keys
  {
    var r := Click(s, hit);
    if s.selected != hit {
      forall m | m in r.colors
        ensures r.colors[m] == (if m in MaterialOf(r.selected) then SelectedColor else UnselectedColor)
      {
        if m !in MaterialOf(s.selected) + MaterialOf(hit) {
          assert r.colors[m] == s.colors[m];
        }
      }
    }
  }

  /** A miss leaves nothing selected and no material highlighted. */
  lemma MissClearsHighlight(s: SelectionState)
    requires SingleHighlight(s)
    ensures Click(s, None).selected == None
    ensures forall m | m in Click(s, None).colors :: Click(s, None).colors[m] == UnselectedColor
  {
    ClickKeepsSingleHighlight(s, None);
  }

  /** A hit highlights the hit mesh's material, that is every mesh of its part. */
  lemma HitHighlightsPart(s: SelectionState, mesh: Mesh, other: Mesh)
    requires SingleHighlight(s)
    requires mesh.material in s.colors
    requires other.material in s.colors
    ensures Click(s, Some(mesh)).colors[other.material] == SelectedColor <==> other.material == mesh.material
  {
    ClickKeepsSingleHighlight(s, Some(mesh));
  }
}
