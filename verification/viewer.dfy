/** The viewer component's state outside three.js: the tree under rootGroup,
    the layers panel, the pick index, the emissive highlight and the two
    status texts, with the load sequence, clearScene, the layer checkboxes
    and onPick as transitions. */
module Viewer {
  import opened Wrappers
  import opened Text
  import opened SceneTree
  import opened PickIndex
  import opened Layers

  /** An emissive colour; each channel in thousandths of three.js's float. */
  datatype Color = Color(r: int, g: int, b: int)

  /** The highlight colour: 0.2 red, 0.2 green, 0.4 blue. */
  const Tint := Color(200, 200, 400)
  const Black := Color(0, 0, 0)

  const NothingSelected := "Nothing selected"
  const ClickHint := "Click a mesh to see its name. Toggle layers at left."

  /** How the three.js Scene above rootGroup shows in a path: it is unnamed
      and its type is "Scene". */
  const SceneLabel := "Scene"

  /** `lastEmissiveMat` together with `lastEmissiveColor`. */
  datatype Saved = Saved(mat: MatId, color: Color)

  datatype Viewer = Viewer(
    root: Node,                  // rootGroup
    layers: seq<LayerToggle>,    // the rows of the layers panel
    indexed: Node,               // the subtree currentPickMeshes was collected from
    indexSlot: Option<nat>,      // its position under rootGroup; None once clearScene detached it
    pickIndex: seq<Path>,        // currentPickMeshes, as addresses inside `indexed`
    emissive: map<MatId, Color>, // live emissive colour of every material that has one
    highlight: Option<Saved>,
    selection: string,           // text of the selection element
    info: string)                // text of the info element

  // ---------------------------------------------------------------- invariants

  predicate SameRows(a: seq<LayerToggle>, b: seq<LayerToggle>) {
    |a| == |b| && forall k | 0 <= k < |a| :: a[k].caption == b[k].caption && a[k].target == b[k].target
  }

  /** The derived lists are exactly what the loaded subtree yields: the pick
      index is its meshes, the rows are its layers (ticks aside), the subtree
      is still the one under rootGroup while attached, and nothing points at
      a node or material that does not exist. */
  predicate Inv(v: Viewer) {
    && v.pickIndex == Collect(v.indexed)
    && (v.indexSlot.None? ==> v.layers == [])
    && (v.indexSlot.Some? ==>
          && v.indexSlot.value < |v.root.children|
          && SameShape(v.root.children[v.indexSlot.value], v.indexed)
          && SameRows(v.layers, BuildLayers(v.indexed, v.indexSlot.value)))
    && (forall k | 0 <= k < |v.layers| :: ValidPath(v.root, v.layers[k].target))
    && HighlightKnown(v)
  }

  /** The saved material is one whose emissive colour the viewer tracks. */
  predicate HighlightKnown(v: Viewer) {
    v.highlight.Some? ==> v.highlight.value.mat in v.emissive
  }

  /** The highlight discipline against the materials' own colours `base`:
      every material shows its own colour except the highlighted one, which
      shows the tint while its own colour is saved. */
  predicate Consistent(v: Viewer, base: map<MatId, Color>) {
    && v.emissive.Keys == base.Keys
    && (forall id | id in base && (v.highlight.None? || id != v.highlight.value.mat) ::
          v.emissive[id] == base[id])
    && (v.highlight.Some? ==>
          && v.highlight.value.mat in base
          && v.highlight.value.color == base[v.highlight.value.mat]
          && v.emissive[v.highlight.value.mat] == Tint)
  }

  /** At most one material is tinted away from its own colour. */
  lemma AtMostOneTinted(v: Viewer, base: map<MatId, Color>, a: MatId, b: MatId)
    requires Consistent(v, base)
    requires a in base && v.emissive[a] != base[a]
    requires b in base && v.emissive[b] != base[b]
    ensures a == b
    ensures v.highlight == Some(Saved(a, base[a]))
  {
  }

  // ------------------------------------------------------------ the fallback demo

  const SkinMat: MatId := 0
  const MuscleMat: MatId := 1
  const BoneMat: MatId := 2

  function MeshNode(name: string, mat: MatId): Node {
    Node(name, Mesh, true, Some(mat), [])
  }

  function GroupNode(name: string, children: seq<Node>): Node {
    Node(name, Group, true, None, children)
  }

  /** `makeFallback()`: an unnamed group holding Skin (Head, Torso), Muscles
      (Biceps) and Skeleton (Femur); head and torso share one material. */
  function Demo(): Node {
    GroupNode("", [
      GroupNode("Skin", [MeshNode("Head", SkinMat), MeshNode("Torso", SkinMat)]),
      GroupNode("Muscles", [MeshNode("Biceps", MuscleMat)]),
      GroupNode("Skeleton", [MeshNode("Femur", BoneMat)])])
  }

  /** MeshStandardMaterial starts with a black emissive colour. */
  function DemoMaterials(): map<MatId, Color> {
    map[SkinMat := Black, MuscleMat := Black, BoneMat := Black]
  }

  /** The demo's layer rows: Skin, Muscles and Skeleton, all ticked and
      bound to the three groups of the demo under rootGroup. */
  const DemoRows := [
    LayerToggle("Skin", true, [0, 0]),
    LayerToggle("Muscles", true, [0, 1]),
    LayerToggle("Skeleton", true, [0, 2])]

  /** The state once `bootstrap` has added, framed and indexed the demo;
      `selection0` and `info0` are whatever the template showed.  rootGroup
      holds the demo alone, the panel lists its three groups, the pick index
      its four meshes, and every material shows its own colour. */
  function Boot(selection0: string, info0: string): (v: Viewer)
    ensures v.root == GroupNode("", [Demo()]) && v.indexed == Demo() && v.indexSlot == Some(0)
    ensures v.layers == DemoRows
    ensures v.pickIndex == [[0, 0], [0, 1], [1, 0], [2, 0]]
    ensures v.highlight.None? && v.emissive == DemoMaterials()
    ensures v.selection == selection0 && v.info == info0
  {
    DemoLayers();
    DemoPickIndex();
    Viewer(GroupNode("", [Demo()]), BuildLayers(Demo(), 0), Demo(), Some(0), Collect(Demo()),
           DemoMaterials(), None, selection0, info0)
  }

  /** The start-up state meets the invariant, with the demo's colours as
      the materials' own. */
  lemma BootInv(s0: string, i0: string)
    ensures Inv(Boot(s0, i0)) && Consistent(Boot(s0, i0), DemoMaterials())
  {
    var v := Boot(s0, i0);
    assert v.pickIndex == Collect(v.indexed) by { DemoPickIndex(); }
    assert SameShape(v.root.children[0], v.indexed) by { assert v.root.children[0] == Demo(); }
    assert SameRows(v.layers, BuildLayers(v.indexed, 0)) by { DemoLayers(); }
    assert forall k | 0 <= k < |v.layers| :: ValidPath(v.root, v.layers[k].target) by { DemoRowPaths(); }
  }

  lemma DemoContainers()
    ensures ContainerIndices(Demo(), 0) == [0, 1, 2]
  {
    var d := Demo();
    assert IsContainer(d.children[0]) && IsContainer(d.children[1]) && IsContainer(d.children[2]);
    assert ContainerIndices(d, 3) == [];
    assert ContainerIndices(d, 2) == [2];
    assert ContainerIndices(d, 1) == [1, 2];
  }

  lemma DemoLayers()
    ensures BuildLayers(Demo(), 0) == DemoRows
  {
    DemoContainers();
    var d := Demo();
    var rows := BuildLayers(d, 0);
    assert d.children[0].name == "Skin" && d.children[1].name == "Muscles" && d.children[2].name == "Skeleton";
    assert rows[0] == LayerToggle("Skin", true, [0, 0]);
    assert rows[1] == LayerToggle("Muscles", true, [0, 1]);
    assert rows[2] == LayerToggle("Skeleton", true, [0, 2]);
  }

  lemma CollectLeafMesh(name: string, mat: MatId)
    ensures Collect(MeshNode(name, mat)) == [[]]
  {
    assert CollectChildren(MeshNode(name, mat), 0) == [];
  }

  lemma UnderOne(k: nat, p: Path)
    ensures Under(k, [p]) == [[k] + p]
  {
  }

  /** A named group holding one mesh indexes that mesh alone. */
  lemma CollectGroupOfOne(name: string, leaf: string, mat: MatId)
    ensures Collect(GroupNode(name, [MeshNode(leaf, mat)])) == [[0]]
  {
    var g := GroupNode(name, [MeshNode(leaf, mat)]);
    CollectLeafMesh(leaf, mat);
    UnderOne(0, []);
    assert [0] + [] == [0];
    assert g.children[0] == MeshNode(leaf, mat);
    assert CollectChildren(g, 1) == [];
    assert CollectChildren(g, 0) == Under(0, [[]]) + [];
  }

  lemma CollectSkin()
    ensures Collect(Demo().children[0]) == [[0], [1]]
  {
    var skin := Demo().children[0];
    CollectLeafMesh("Head", SkinMat);
    CollectLeafMesh("Torso", SkinMat);
    UnderOne(0, []);
    UnderOne(1, []);
    assert [0] + [] == [0] && [1] + [] == [1];
    assert skin.children[0] == MeshNode("Head", SkinMat) && skin.children[1] == MeshNode("Torso", SkinMat);
    assert CollectChildren(skin, 2) == [];
    assert CollectChildren(skin, 1) == [[1]];
    assert CollectChildren(skin, 0) == [[0], [1]];
  }

  lemma DemoPickIndex()
    ensures Collect(Demo()) == [[0, 0], [0, 1], [1, 0], [2, 0]]
  {
    var d := Demo();
    CollectSkin();
    CollectGroupOfOne("Muscles", "Biceps", MuscleMat);
    CollectGroupOfOne("Skeleton", "Femur", BoneMat);
    UnderOne(1, [0]);
    UnderOne(2, [0]);
    var skinPart := Under(0, [[0], [1]]);
    assert skinPart[0] == [0, 0] && skinPart[1] == [0, 1];
    assert skinPart == [[0, 0], [0, 1]];
    assert d.children[1] == GroupNode("Muscles", [MeshNode("Biceps", MuscleMat)]);
    assert d.children[2] == GroupNode("Skeleton", [MeshNode("Femur", BoneMat)]);
    assert [1] + [0] == [1, 0] && [2] + [0] == [2, 0];
    assert CollectChildren(d, 3) == [];
    assert CollectChildren(d, 2) == [[2, 0]];
    assert CollectChildren(d, 1) == [[1, 0], [2, 0]];
    assert CollectChildren(d, 0) == [[0, 0], [0, 1], [1, 0], [2, 0]];
  }

  /** The demo rows are bound to nodes under rootGroup. */
  lemma DemoRowPaths()
    ensures forall k | 0 <= k < |DemoRows| :: ValidPath(GroupNode("", [Demo()]), DemoRows[k].target)
  {
    DemoPaths();
    assert DemoRows[0].target == [0, 0] && DemoRows[1].target == [0, 1] && DemoRows[2].target == [0, 2];
  }

  /** The addresses the demo's rows and pick index use all exist. */
  lemma DemoPaths()
    ensures ValidPath(GroupNode("", [Demo()]), [0, 0])
    ensures ValidPath(GroupNode("", [Demo()]), [0, 1])
    ensures ValidPath(GroupNode("", [Demo()]), [0, 2])
    ensures forall p | p in [[0, 0], [0, 1], [1, 0], [2, 0]] :: ValidPath(Demo(), p)
  {
    var r := GroupNode("", [Demo()]);
    assert [0, 0][1..] == [0] && [0, 1][1..] == [1] && [0, 2][1..] == [2];
    assert [1, 0][1..] == [0] && [2, 0][1..] == [0];
    assert [0][1..] == [] && [1][1..] == [] && [2][1..] == [];
  }

  // ------------------------------------------------------------ loading

  /** `clearScene()`: empty rootGroup, empty the layers panel and reset the
      selection text.  The pick index, the highlight and the info text are
      left alone, so the index now refers to a detached subtree. */
  function ClearScene(v: Viewer): (r: Viewer)
    ensures r.root == v.root.(children := []) && r.root.children == []
    ensures r.layers == [] && r.selection == NothingSelected
    ensures r.indexSlot.None?
    ensures r.pickIndex == v.pickIndex && r.indexed == v.indexed
    ensures r.highlight == v.highlight && r.emissive == v.emissive && r.info == v.info
  {
    v.(root := v.root.(children := []), layers := [], indexSlot := None, selection := NothingSelected)
  }

  /** The end of a load (`loadUrl` or the file handler, after the decoder
      returned `scene` and its fresh materials `mats`): add the scene to
      rootGroup, then rebuild the layers panel and the pick index from it. */
  function CompleteLoad(v: Viewer, scene: Node, mats: map<MatId, Color>): (r: Viewer)
    requires mats.Keys !! v.emissive.Keys
    ensures |r.root.children| == |v.root.children| + 1
    ensures r.root.children[..|v.root.children|] == v.root.children
    ensures r.root.children[|v.root.children|] == scene
    ensures r.root == v.root.(children := v.root.children + [scene])
    ensures r.indexSlot == Some(|v.root.children|) && r.indexed == scene
    ensures r.layers == BuildLayers(scene, |v.root.children|)
    ensures r.pickIndex == Collect(scene)
    ensures r.highlight == v.highlight && r.emissive == v.emissive + mats
    ensures r.selection == v.selection && r.info == v.info
  {
    var slot := |v.root.children|;
    v.(root := v.root.(children := v.root.children + [scene]),
       layers := BuildLayers(scene, slot),
       indexed := scene, indexSlot := Some(slot), pickIndex := Collect(scene),
       emissive := v.emissive + mats)
  }

  /** The "Load URL" button: the field is trimmed, a blank one does nothing,
      otherwise the scene is cleared and the trimmed URL is fetched. */
  function LoadUrlClicked(v: Viewer, field: string): (r: (Viewer, Option<string>))
    ensures r.1.None? <==> AllSpace(field)
    ensures r.1.None? ==> r.0 == v
    ensures r.1.Some? ==> r.0 == ClearScene(v) && r.1.value == Trim(field)
    ensures r.1.Some? ==> r.1.value != "" && !IsSpace(r.1.value[0]) && !IsSpace(r.1.value[|r.1.value| - 1])
  {
    var url := Trim(field);
    if url == "" then (v, None) else (ClearScene(v), Some(url))
  }

  /** The file input's change handler up to the decoder.  With no file
      nothing happens.  Otherwise the first file's bytes are read first:
      `read` gives None when reading fails, which abandons the handler with
      nothing cleared.  Only once the bytes have arrived is the scene cleared
      (rootGroup and the panel emptied, the selection reset; the pick index,
      highlight, colours and info text untouched) and the bytes handed to the
      decoder. */
  function FileChosen<F, B>(v: Viewer, files: seq<F>, read: F -> Option<B>): (r: (Viewer, Option<B>))
    ensures r.1.None? <==> |files| == 0 || read(files[0]).None?
    ensures r.1.None? ==> r.0 == v
    ensures r.1.Some? ==> r.1 == read(files[0])
    ensures r.1.Some? ==>
      && r.0.root == v.root.(children := []) && r.0.layers == [] && r.0.selection == NothingSelected
      && r.0.indexSlot.None? && r.0.indexed == v.indexed && r.0.pickIndex == v.pickIndex
      && r.0.highlight == v.highlight && r.0.emissive == v.emissive && r.0.info == v.info
  {
    if |files| == 0 then (v, None)
    else
      match read(files[0])
      case None => (v, None)
      case Some(bytes) => (ClearScene(v), Some(bytes))
  }

  /** A file load that runs alone, once its bytes have been read and decoded,
      leaves rootGroup holding just the new scene, with the panel and pick
      index derived from it; a file that cannot be read leaves the viewer as
      it was. */
  lemma FileLoadReplacesScene<F, B>(v: Viewer, files: seq<F>, read: F -> Option<B>,
                                    scene: Node, mats: map<MatId, Color>)
    requires Inv(v) && mats.Keys !! v.emissive.Keys
    ensures |files| > 0 && read(files[0]).Some? ==>
      var w := CompleteLoad(FileChosen(v, files, read).0, scene, mats);
      && w.root.children == [scene] && w.layers == BuildLayers(scene, 0)
      && w.pickIndex == Collect(scene) && Inv(w)
    ensures |files| > 0 && read(files[0]).None? ==> FileChosen(v, files, read).0 == v
  {
    if |files| > 0 && read(files[0]).Some? {
      assert FileChosen(v, files, read).0 == ClearScene(v);
      LoadReplacesScene(v, scene, mats);
    }
  }

  /** A load that runs alone ends with rootGroup holding just the new scene,
      and the layers panel and pick index derived from it. */
  lemma LoadReplacesScene(v: Viewer, scene: Node, mats: map<MatId, Color>)
    requires Inv(v) && mats.Keys !! v.emissive.Keys
    ensures CompleteLoad(ClearScene(v), scene, mats).root.children == [scene]
    ensures CompleteLoad(ClearScene(v), scene, mats).layers == BuildLayers(scene, 0)
    ensures CompleteLoad(ClearScene(v), scene, mats).pickIndex == Collect(scene)
    ensures Inv(CompleteLoad(ClearScene(v), scene, mats))
  {
    InvCompleteLoad(ClearScene(v), scene, mats);
  }

  /** Two loads in flight: both clear first, and each completion appends, so
      both scenes end up under rootGroup; only the panel and the pick index
      follow the later completion. */
  lemma OverlappingLoadsKeepBoth(v: Viewer, a: Node, ma: map<MatId, Color>, b: Node, mb: map<MatId, Color>)
    requires ma.Keys !! v.emissive.Keys && mb.Keys !! (v.emissive.Keys + ma.Keys)
    ensures CompleteLoad(CompleteLoad(ClearScene(ClearScene(v)), a, ma), b, mb).root.children == [a, b]
    ensures CompleteLoad(CompleteLoad(ClearScene(ClearScene(v)), a, ma), b, mb).pickIndex == Collect(b)
    ensures CompleteLoad(CompleteLoad(ClearScene(ClearScene(v)), a, ma), b, mb).layers == BuildLayers(b, 1)
  {
  }

  lemma InvClearScene(v: Viewer)
    requires Inv(v)
    ensures Inv(ClearScene(v))
  {
  }

  lemma InvCompleteLoad(v: Viewer, scene: Node, mats: map<MatId, Color>)
    requires Inv(v) && mats.Keys !! v.emissive.Keys
    ensures Inv(CompleteLoad(v, scene, mats))
  {
    var r := CompleteLoad(v, scene, mats);
    var slot := |v.root.children|;
    forall k | 0 <= k < |r.layers|
      ensures ValidPath(r.root, r.layers[k].target)
    {
      var t := r.layers[k].target;
      PathCons(r.root, slot, []);
      if |t| == 2 {
        PathCons(r.root, slot, [t[1]]);
        assert t == [slot] + [t[1]];
      } else {
        assert t == [slot] + [];
      }
    }
  }

  lemma ConsistentCompleteLoad(v: Viewer, base: map<MatId, Color>, scene: Node, mats: map<MatId, Color>)
    requires Consistent(v, base) && mats.Keys !! v.emissive.Keys
    ensures Consistent(CompleteLoad(v, scene, mats), base + mats)
  {
  }

  // ------------------------------------------------------------ layer checkboxes

  /** A checkbox change: tick or untick row `k` and set its bound node's
      `visible` flag to match. */
  function SetLayer(v: Viewer, k: nat, checked: bool): (r: Viewer)
    requires k < |v.layers| && ValidPath(v.root, v.layers[k].target)
    ensures SameShape(r.root, v.root)
    ensures forall q | ValidPath(v.root, q) ::
      ValidPath(r.root, q) &&
      NodeAt(r.root, q).visible == if q == v.layers[k].target then checked else NodeAt(v.root, q).visible
    ensures |r.layers| == |v.layers| && r.layers[k].checked == checked
    ensures forall l | 0 <= l < |v.layers| && l != k :: r.layers[l] == v.layers[l]
    ensures SameRows(r.layers, v.layers)
    ensures r.pickIndex == v.pickIndex && r.indexed == v.indexed && r.indexSlot == v.indexSlot
    ensures r.emissive == v.emissive && r.highlight == v.highlight
    ensures r.selection == v.selection && r.info == v.info
  {
    SetVisibleChangesOnlyTarget(v.root, v.layers[k].target, checked);
    v.(root := SetVisibleAt(v.root, v.layers[k].target, checked),
       layers := v.layers[k := v.layers[k].(checked := checked)])
  }

  lemma InvSetLayer(v: Viewer, k: nat, checked: bool)
    requires Inv(v) && k < |v.layers|
    ensures Inv(SetLayer(v, k, checked))
  {
    var r := SetLayer(v, k, checked);
    forall l | 0 <= l < |r.layers|
      ensures ValidPath(r.root, r.layers[l].target)
    {
      SameShapeAt(r.root, v.root, r.layers[l].target);
    }
    if v.indexSlot.Some? {
      var s := v.indexSlot.value;
      SameShapeChildren(r.root, v.root);
      assert SameShape(r.root.children[s], v.root.children[s]);
    }
  }

  lemma DemoAllVisible()
    ensures AllVisible(GroupNode("", [Demo()]))
  {
    var d := Demo();
    assert AllVisible(d.children[0]) by {
      assert AllVisible(d.children[0].children[0]) && AllVisible(d.children[0].children[1]);
    }
    assert AllVisible(d.children[1]) by {
      assert AllVisible(d.children[1].children[0]);
    }
    assert AllVisible(d.children[2]) by {
      assert AllVisible(d.children[2].children[0]);
    }
  }

  /** Unticking the Muscles row of the demo hides everything in the Muscles
      group. */
  lemma DemoHideMuscles(s0: string, i0: string, q: Path)
    requires ValidPath(GroupNode("", [Demo()]), q) && IsPrefix([0, 1], q)
    ensures var v := Boot(s0, i0);
      && 1 < |v.layers| && ValidPath(v.root, v.layers[1].target)
      && var r := SetLayer(v, 1, false);
      ValidPath(r.root, q) && !Shown(r.root, q)
  {
    var v := Boot(s0, i0);
    DemoPaths();
    HideSubtree(v.root, [0, 1], q);
  }

  /** ... and leaves every other node of the demo drawn. */
  lemma DemoHideMusclesKeepsOthers(s0: string, i0: string, q: Path)
    requires ValidPath(GroupNode("", [Demo()]), q) && !IsPrefix([0, 1], q)
    ensures var v := Boot(s0, i0);
      && 1 < |v.layers| && ValidPath(v.root, v.layers[1].target)
      && var r := SetLayer(v, 1, false);
      ValidPath(r.root, q) && Shown(r.root, q)
  {
    var v := Boot(s0, i0);
    DemoPaths();
    DemoAllVisible();
    AllVisibleShown(v.root, q);
    HideSubtree(v.root, [0, 1], q);
  }

  // ------------------------------------------------------------ picking

  /** Every entry of the pick index addresses a node of the indexed subtree. */
  predicate IndexValid(v: Viewer) {
    forall p | p in v.pickIndex :: ValidPath(v.indexed, p)
  }

  /** The ray caster's answer: positions in the pick index, nearest first. */
  predicate HitsFromIndex(v: Viewer, hits: seq<nat>) {
    forall i | 0 <= i < |hits| :: hits[i] < |v.pickIndex|
  }

  /** The ancestry list onPick builds for the node at `p`: its own label, its
      ancestors nearest first, and above the subtree rootGroup and the Scene
      when the subtree is still attached (a removed subtree's root has no
      parent). */
  function SelectionPath(v: Viewer, p: Path): seq<string>
    requires ValidPath(v.indexed, p)
  {
    [Label(NodeAt(v.indexed, p))] + AncestorLabels(v.indexed, p)
      + (if v.indexSlot.Some? then [Label(v.root), SceneLabel] else [])
  }

  /** Put the saved colour back on the saved material, if any, and forget
      the highlight. */
  function Restore(v: Viewer): Viewer {
    match v.highlight
    case None => v
    case Some(s) => v.(emissive := v.emissive[s.mat := s.color], highlight := None)
  }

  /** Save and tint the material of `m` when it has an emissive channel. */
  function Tinted(v: Viewer, m: Node): Viewer {
    if m.material.Some? && m.material.value in v.emissive then
      var id := m.material.value;
      v.(highlight := Some(Saved(id, v.emissive[id])), emissive := v.emissive[id := Tint])
    else v
  }

  /** `onPick` given the ray caster's ordered hit list.  Any earlier highlight
      is undone first; a miss selects nothing; otherwise `hits[0]` is
      selected, its material tinted if it has an emissive colour, and the
      info text shows at most four entries of its ancestry. */
  function Pick(v: Viewer, hits: seq<nat>): (r: Viewer)
    requires IndexValid(v) && HighlightKnown(v) && HitsFromIndex(v, hits)
    ensures r.root == v.root && r.layers == v.layers
    ensures r.indexed == v.indexed && r.indexSlot == v.indexSlot && r.pickIndex == v.pickIndex
    ensures |hits| == 0 ==> r.highlight.None? && r.selection == NothingSelected && r.info == ClickHint
    ensures |hits| > 0 ==>
      var m := NodeAt(v.indexed, v.pickIndex[hits[0]]);
      && r.selection == OrElse(m.name, "Mesh")
      && (r.highlight.Some? <==> m.material.Some? && m.material.value in v.emissive)
      && (r.highlight.Some? ==> r.highlight.value.mat == m.material.value)
      && r.info == "Selected " + r.selection + " path "
                   + Join(Take(SelectionPath(v, v.pickIndex[hits[0]]), 4), " > ")
  {
    var w := Restore(v);
    if |hits| == 0 then
      w.(selection := NothingSelected, info := ClickHint)
    else
      var p := v.pickIndex[hits[0]];
      var m := NodeAt(v.indexed, p);
      var name := OrElse(m.name, "Mesh");
      Tinted(w, m).(selection := name,
                    info := "Selected " + name + " path " + Join(Take(SelectionPath(v, p), 4), " > "))
  }

  lemma InvIndexValid(v: Viewer)
    requires Inv(v)
    ensures IndexValid(v)
  {
    CollectIsPreorderMeshes(v.indexed);
  }

  lemma InvPick(v: Viewer, hits: seq<nat>)
    requires Inv(v) && IndexValid(v) && HitsFromIndex(v, hits)
    ensures Inv(Pick(v, hits))
  {
  }

  /** Every pick keeps at most one material tinted and each other material at
      its own colour. */
  lemma ConsistentPick(v: Viewer, base: map<MatId, Color>, hits: seq<nat>)
    requires IndexValid(v) && HighlightKnown(v) && HitsFromIndex(v, hits) && Consistent(v, base)
    ensures Consistent(Pick(v, hits), base)
  {
  }

  /** A miss restores every material to exactly its own colour and leaves no
      highlight; a second miss changes nothing. */
  lemma MissRestores(v: Viewer, base: map<MatId, Color>)
    requires IndexValid(v) && HighlightKnown(v) && Consistent(v, base)
    ensures Pick(v, []).emissive == base && Pick(v, []).highlight.None?
    ensures Pick(Pick(v, []), []) == Pick(v, [])
  {
  }

  /** Picking the same hit list twice ends where picking it once did: the
      saved colour is the material's own one, never the tint. */
  lemma PickTwiceSame(v: Viewer, hits: seq<nat>)
    requires IndexValid(v) && HighlightKnown(v) && HitsFromIndex(v, hits)
    ensures Pick(Pick(v, hits), hits) == Pick(v, hits)
  {
    var r := Pick(v, hits);
    if |hits| > 0 {
      var m := NodeAt(v.indexed, v.pickIndex[hits[0]]);
      if m.material.Some? && m.material.value in Restore(v).emissive {
        var id := m.material.value;
        assert Restore(r).emissive == Restore(v).emissive;
      }
    }
  }

  /** Only the nearest hit matters. */
  lemma OnlyFirstHit(v: Viewer, hits: seq<nat>)
    requires IndexValid(v) && HighlightKnown(v) && HitsFromIndex(v, hits) && |hits| > 0
    ensures Pick(v, hits) == Pick(v, [hits[0]])
  {
  }

  /** A mesh whose material has no emissive colour is selected but nothing is
      tinted: every material is back at its own colour. */
  lemma PickWithoutEmissive(v: Viewer, base: map<MatId, Color>, hits: seq<nat>)
    requires IndexValid(v) && HighlightKnown(v) && HitsFromIndex(v, hits) && |hits| > 0 && Consistent(v, base)
    requires var m := NodeAt(v.indexed, v.pickIndex[hits[0]]);
      m.material.None? || m.material.value !in v.emissive
    ensures Pick(v, hits).highlight.None? && Pick(v, hits).emissive == base
  {
  }

  /** While the indexed subtree is attached, the selection path is the one a
      walk up the live tree meets: the mesh, each ancestor up to and
      including rootGroup, then the Scene. */
  lemma {:induction false} SelectionPathFollowsTree(v: Viewer, p: Path)
    requires Inv(v) && v.indexSlot.Some? && ValidPath(v.indexed, p)
    ensures var q := [v.indexSlot.value] + p;
      && ValidPath(v.root, q)
      && SelectionPath(v, p) == [Label(NodeAt(v.root, q))] + AncestorLabels(v.root, q) + [SceneLabel]
      && |SelectionPath(v, p)| == |p| + 3
  {
    var s := v.indexSlot.value;
    var c := v.root.children[s];
    SameShapeAt(c, v.indexed, p);
    SameShapeChildren(NodeAt(c, p), NodeAt(v.indexed, p));
    PathCons(v.root, s, p);
    AncestorLabelsWalkUp(v.indexed, p);
  }

  /** On a detached subtree the path stops at the subtree's own root. */
  lemma SelectionPathDetached(v: Viewer, p: Path)
    requires v.indexSlot.None? && ValidPath(v.indexed, p)
    ensures |SelectionPath(v, p)| == |p| + 1
    ensures SelectionPath(v, p)[0] == Label(NodeAt(v.indexed, p))
    ensures SelectionPath(v, p)[|p|] == Label(v.indexed)
  {
    AncestorLabelsWalkUp(v.indexed, p);
    assert p[..0] == [];
  }

  lemma DemoHeadPath()
    ensures ValidPath(Demo(), [0, 0])
    ensures NodeAt(Demo(), [0, 0]) == MeshNode("Head", SkinMat)
    ensures AncestorLabels(Demo(), [0, 0]) == ["Skin", "Group"]
  {
    var d := Demo();
    var p: Path := [0, 0];
    assert p[1..] == [0] && [0][1..] == [];
    assert d.children[0].children[0] == MeshNode("Head", SkinMat);
    assert AncestorLabels(d.children[0], [0]) == ["Skin"];
  }

  lemma JoinFour(a: string, b: string, c: string, d: string, sep: string)
    ensures Join([a, b, c, d], sep) == a + sep + b + sep + c + sep + d
  {
    assert [a, b, c, d][1..] == [b, c, d];
    assert [b, c, d][1..] == [c, d];
    assert [c, d][1..] == [d];
    assert Join([d], sep) == d;
    assert Join([c, d], sep) == c + sep + d;
    assert Join([b, c, d], sep) == b + sep + (c + sep + d);
  }

  /** The demo as the viewer shows it after start-up, as far as picking
      looks at it. */
  predicate ShowsDemo(v: Viewer) {
    && v.indexed == Demo() && v.indexSlot.Some? && Label(v.root) == "Group"
    && v.pickIndex == [[0, 0], [0, 1], [1, 0], [2, 0]]
    && v.highlight.None? && v.emissive == DemoMaterials()
  }

  lemma DemoHeadSelectionPath(v: Viewer)
    requires ShowsDemo(v)
    ensures ValidPath(v.indexed, [0, 0])
    ensures Take(SelectionPath(v, [0, 0]), 4) == ["Head", "Skin", "Group", "Group"]
  {
    DemoHeadPath();
    var path := SelectionPath(v, [0, 0]);
    assert path == ["Head", "Skin", "Group", "Group", "Scene"];
  }

  /** The info text after clicking the demo head. */
  const DemoHeadInfo := "Selected " + "Head" + " path " + "Head" + " > " + "Skin" + " > " + "Group" + " > " + "Group"

  lemma DemoHeadInfoText()
    ensures "Selected " + "Head" + " path " + Join(["Head", "Skin", "Group", "Group"], " > ") == DemoHeadInfo
  {
    JoinFour("Head", "Skin", "Group", "Group", " > ");
  }

  lemma PickDemoHeadText(v: Viewer)
    requires ShowsDemo(v)
    ensures IndexValid(v) && HighlightKnown(v) && HitsFromIndex(v, [0])
    ensures Pick(v, [0]).info == DemoHeadInfo
  {
    DemoPaths();
    DemoHeadSelectionPath(v);
    DemoHeadInfoText();
    var m := NodeAt(v.indexed, v.pickIndex[0]);
    assert m.name == "Head";
  }

  lemma PickDemoHeadTint(v: Viewer)
    requires ShowsDemo(v)
    ensures IndexValid(v) && HighlightKnown(v) && HitsFromIndex(v, [0])
    ensures Pick(v, [0]).selection == "Head"
    ensures Pick(v, [0]).highlight == Some(Saved(SkinMat, Black))
    ensures Pick(v, [0]).emissive == DemoMaterials()[SkinMat := Tint]
  {
    DemoPaths();
    DemoHeadPath();
  }

  /** Clicking the demo's head after start-up: the shared skin material is
      tinted, so the torso lights up with it, and the info text names four
      levels of ancestry. */
  lemma DemoPickHead(s0: string, i0: string)
    ensures var v := Boot(s0, i0);
      && IndexValid(v) && HighlightKnown(v) && HitsFromIndex(v, [0])
      && Pick(v, [0]).info == DemoHeadInfo
      && Pick(v, [0]).highlight == Some(Saved(SkinMat, Black))
      && Pick(v, [0]).emissive[SkinMat] == Tint
  {
    DemoPickIndex();
    PickDemoHeadText(Boot(s0, i0));
    PickDemoHeadTint(Boot(s0, i0));
  }
}
