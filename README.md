# ThreeJsViewer state model

A Dafny model of the state bookkeeping of the `ThreeJsViewer` widget, a WebGL/three.js viewer
for polygonal models split into parts. The widget itself holds little logic of its own:

- a **part registry**. Each part gets one Phong material, created UNSELECTED (`0xFF0000`). Each geometry of
  that part becomes a mesh under `root` sharing that material. `meshes` maps the geometry id to the part id.
  `clearModel` resets root and registry;
- a **selection state machine**. A click picks the first intersected mesh, or nothing. It
  moves the SELECTED colour (`0xffff00`) from the previously selected mesh's material to the picked one's,
  and reports the picked mesh's part id (or null) to the `onClick` callback;
- **scene framing**. `computeBoundingBox` folds per-axis min/max over all meshes' boxes, seeded with
  the first child. `finishScene` moves `root` so that the box centre lands at the origin, and puts the camera at
  `(m, m, m)`, where `m` is the largest extent.

Layout:

- `options.dfy` — module `Options`: `Option`, standing for JavaScript's `null`.
- `bounds.dfy` — module `Bounds`: intervals, boxes, the hull fold (`Hull`), the centring offset
  and the largest extent, over exact `real`s, with containment, tightness and framing lemmas.
- `selection.dfy` — module `Selection`: meshes (a `handle` stands for object identity),
  material ids, the two colours, the pure transition `Click` and its lemmas.
- `viewer.dfy` — module `Viewer`: class `ThreeJsViewer`. Its fields are `meshes`, `children` (root's
  children), `colors` (every material's colour), `selected`, `rootPosition` and `cameraPosition`, plus two
  identity counters. It has one method per operation, each proved against the functions above and
  keeping the object invariant `Valid()`. Each method's `modifies` frame names exactly the fields it assigns.

Modelling notes:

- `registerGeometryFunc` returns curried closures. `RegisterPart(partId)` is the middle closure: it
  creates the material and returns a `PartCallback` value. `RegisterGeometry(cb, geometry)` is the inner
  closure.
- `clearModel` does not touch `selected` or any material, exactly as the source does. A mesh
  selected before the clear stays selected and highlighted until the next click. A miss then turns it back
  to UNSELECTED, and a hit cannot equal it, because identities are never reused.
- Registering a second geometry with an id already in `meshes` overwrites the entry. Both meshes
  then report the later part.
- The pick (`ray.intersectScene`) is the input `hit` of `OnMouseDown`. Because the ray is cast
  against the scene, a hit is one of root's children; `OnMouseDown` requires that. The `onClick`
  argument is the method's result.
- `computeBoundingBox` on a root with no children throws in the source, because `children[0]` is
  undefined. There, `ComputeBoundingBox` returns `None`, and `FinishScene` returns `false` and changes nothing.
- A geometry's bounding box is given with the geometry. `geometry.computeBoundingBox()` is library code.

## Model

| member | source | states |
|---|---|---|
| `Viewer.ThreeJsViewer.constructor` | Client/ThreeJsViewer.js:3-31 | empty registry, no children, no selection, root at the origin, camera at (1, 1, 1); invariant established |
| `Viewer.ThreeJsViewer.RegisterPart` | Client/ThreeJsViewer.js:54-57 | a new material, not existing before, is added with UNSELECTED colour; the callback carries the part id and that material; nothing else changes |
| `Viewer.ThreeJsViewer.RegisterGeometry` | Client/ThreeJsViewer.js:58-63 | exactly one new mesh is appended to root's children; it has the given geometry and the callback's shared material; it is a new object, distinct from every earlier child and from the selection; `meshes` gains or overwrites only `geometry.id -> partId`; invariant kept |
| `Viewer.ThreeJsViewer.ClearModel` | Client/ThreeJsViewer.js:97-102 | root has no children and sits at the origin, `meshes` is empty, selection and colours untouched; invariant kept |
| `Viewer.ThreeJsViewer.OnMouseDown` | Client/ThreeJsViewer.js:119-144 | the new selection and colours are `Click` of the old ones; `selected` becomes the hit (null on a miss); the reported value is the part registered for the hit mesh's geometry, null on a miss; at most one material stays highlighted |
| `Viewer.ThreeJsViewer.ComputeBoundingBox` | Client/ThreeJsViewer.js:104-117 | no box (the source throws) exactly when root has no children; otherwise the fold `Hull` of the children's boxes, which encloses every child's box and each of whose bounds is some child's bound |
| `Viewer.ThreeJsViewer.FinishScene` | Client/ThreeJsViewer.js:67-78 | with children: root is placed at the centring offset of the bounding box and the camera at (m, m, m), m the largest extent; without: nothing changes |
| `Selection.Click` | Client/ThreeJsViewer.js:133-142 | the selection becomes the hit, or none on a miss. Clicking the already selected mesh, or missing with nothing selected, changes nothing. Otherwise the hit's material becomes SELECTED. A previously selected material that is not the hit's becomes UNSELECTED. Every other material keeps its colour |
| `Selection.ClickIdempotent` | Client/ThreeJsViewer.js:134 | repeating the same click leaves the state of the first click |
| `Selection.ClickKeepsSingleHighlight` | Client/ThreeJsViewer.js:133-142 | from a state where only the selected mesh's material is SELECTED, every click leads to such a state again, with the same set of materials |
| `Selection.MissClearsHighlight` | Client/ThreeJsViewer.js:139-142 | after a miss nothing is selected and every material is UNSELECTED |
| `Selection.HitHighlightsPart` | Client/ThreeJsViewer.js:56-59 | after a hit, a material is SELECTED exactly when it is the hit mesh's material, so every mesh of the hit part is highlighted and nothing else |
| `Bounds.HullFromEncloses` | Client/ThreeJsViewer.js:108-115 | the running box of the traversal encloses its seed and every box visited |
| `Bounds.HullFromAttained` | Client/ThreeJsViewer.js:108-115 | every bound of the running box is the seed's bound or some visited box's bound |
| `Bounds.HullIsTightest` | Client/ThreeJsViewer.js:104-117 | the computed box encloses every mesh's box and each of its bounds is attained by some mesh |
| `Bounds.HullIsLeast` | Client/ThreeJsViewer.js:104-117 | every box enclosing all meshes' boxes encloses the computed box |
| `Bounds.HullProper` | Client/ThreeJsViewer.js:104-117 | if every mesh's box has lo <= hi on each axis, so has the computed box |
| `Bounds.CenterOffset` | Client/ThreeJsViewer.js:69-73 | the root position on each axis is `-(lo + hi) / 2`, the negated box centre |
| `Bounds.CenteringIsSymmetric` | Client/ThreeJsViewer.js:70-73 | moved by the centring offset, every axis of the box is symmetric about 0 and keeps its extent |
| `Bounds.MaxExtent` | Client/ThreeJsViewer.js:75 | the camera coordinate is at least every axis extent and equals one of them; it is non-negative for a box with lo <= hi |
| `Bounds.CameraDistanceNonNegative` | Client/ThreeJsViewer.js:75-76 | when every mesh's box has lo <= hi, the camera coordinate m is non-negative |
| `Bounds.FramedInCube` | Client/ThreeJsViewer.js:67-76 | after centring, every mesh lies within [-m/2, m/2] on every axis, where m is the camera coordinate |

## Left out

- Renderer, scene, lights, the perspective camera and trackball controls (Client/ThreeJsViewer.js:7-52): library configuration with no logic of its own. Only the initial camera position (1, 1, 1) and the empty root are kept.
- The mouse-to-device-coordinate conversion, `Projector.unprojectVector`, the `THREE.Ray` and `intersectScene` (lines 124-132): floating-point 3D math of the library. The pick result is an input.
- `loadSerializedModel` and `loadModel` (lines 80-95): JSON parsing and AJAX loading through `JSONListLoader`, which is not part of this model. Also left out is the asynchronous timing of `loadModel`, which calls `finishScene` before the load completes.
- `animate`, `_animate`, `render` (lines 146-163): the `requestAnimationFrame` render loop.
- jQuery event wiring, `event.preventDefault()` and `container.offset()`.
- The callback's name mismatch (`onclick` assigned at line 51, `onClick` called at line 143): the reported value is returned instead of passed to a callback.
- `mesh.doubleSided = false` (line 60): a rendering flag.
- The traversal order of `THREE.SceneUtils.traverseHierarchy`: root's children are a sequence visited in order. Root holds only meshes, so the traversal visits exactly them.
- Floating point: coordinates are exact reals. `NaN`, infinities and rounding in `Math.min`/`Math.max` and in the centring are not modelled.
- Part ids are strings standing for whatever value the loader supplies; the model never inspects them.
