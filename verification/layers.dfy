/** The layers panel (`buildLayerUI`): one checkbox row per container child
    of a freshly loaded subtree, or a single "Whole model" row. */
module Layers {
  import opened SceneTree
  import opened Text

  /** A checkbox row: its caption, whether it is ticked, and the address under
      rootGroup of the node its change handler shows or hides. */
  datatype LayerToggle = LayerToggle(caption: string, checked: bool, target: Path)

  const WholeModel := "Whole model"

  /** The positions, from `k` on, of the children of `scene` that are Groups
      or Object3Ds: `children.filter(...)` as indices. */
  function ContainerIndices(scene: Node, k: nat): (r: seq<nat>)
    requires k <= |scene.children|
    ensures forall i | 0 <= i < |r| :: k <= r[i] < |scene.children| && IsContainer(scene.children[r[i]])
    ensures forall i, j | 0 <= i < j < |r| :: r[i] < r[j]
    ensures forall c | k <= c < |scene.children| && IsContainer(scene.children[c]) :: c in r
    decreases |scene.children| - k
  {
    if k == |scene.children| then []
    else if IsContainer(scene.children[k]) then [k] + ContainerIndices(scene, k + 1)
    else ContainerIndices(scene, k + 1)
  }

  predicate NoContainers(scene: Node) {
    forall c | 0 <= c < |scene.children| :: !IsContainer(scene.children[c])
  }

  /** The rows built for `scene` once it sits at position `slot` under
      rootGroup.  Every row starts ticked.  Without container children there
      is one "Whole model" row bound to the scene itself; otherwise one row
      per container child, in child order, labelled with its name or "Group",
      and bound to that child. */
  function BuildLayers(scene: Node, slot: nat): (r: seq<LayerToggle>)
    ensures |r| >= 1
    ensures forall k | 0 <= k < |r| :: r[k].checked
    ensures NoContainers(scene) <==> r == [LayerToggle(WholeModel, true, [slot])]
    ensures !NoContainers(scene) ==> forall k | 0 <= k < |r| ::
      && |r[k].target| == 2 && r[k].target[0] == slot
      && r[k].target[1] < |scene.children|
      && IsContainer(scene.children[r[k].target[1]])
      && r[k].caption == OrElse(scene.children[r[k].target[1]].name, "Group")
    ensures !NoContainers(scene) ==> forall k, l | 0 <= k < l < |r| :: r[k].target[1] < r[l].target[1]
    ensures forall c | 0 <= c < |scene.children| && IsContainer(scene.children[c]) ::
      exists k | 0 <= k < |r| :: r[k].target == [slot, c]
  {
    var top := ContainerIndices(scene, 0);
    if |top| == 0 then
      [LayerToggle(WholeModel, true, [slot])]
    else
      ContainerRowsCover(scene, slot, top);
      ContainerRows(scene, slot, top)
  }

  /** One ticked row per entry of `top`, captioned with the child's name or
      "Group" and bound to that child under `slot`. */
  function ContainerRows(scene: Node, slot: nat, top: seq<nat>): (r: seq<LayerToggle>)
    requires forall i | 0 <= i < |top| :: top[i] < |scene.children|
    ensures |r| == |top|
    ensures forall k | 0 <= k < |r| ::
      r[k] == LayerToggle(OrElse(scene.children[top[k]].name, "Group"), true, [slot, top[k]])
  {
    seq(|top|, i requires 0 <= i < |top| =>
      LayerToggle(OrElse(scene.children[top[i]].name, "Group"), true, [slot, top[i]]))
  }

  /** The container rows of a scene with a container child name every
      container child, so the scene is not one without containers. */
  lemma ContainerRowsCover(scene: Node, slot: nat, top: seq<nat>)
    requires top == ContainerIndices(scene, 0) && |top| > 0
    ensures !NoContainers(scene)
    ensures forall c | 0 <= c < |scene.children| && IsContainer(scene.children[c]) ::
      exists k | 0 <= k < |top| :: ContainerRows(scene, slot, top)[k].target == [slot, c]
  {
    var rows := ContainerRows(scene, slot, top);
    assert IsContainer(scene.children[top[0]]);
    forall c | 0 <= c < |scene.children| && IsContainer(scene.children[c])
      ensures exists k | 0 <= k < |top| :: rows[k].target == [slot, c]
    {
      var k :| 0 <= k < |top| && top[k] == c;
      assert rows[k].target == [slot, c];
    }
  }
}
