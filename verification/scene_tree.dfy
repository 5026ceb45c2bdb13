/** The three.js scene graph as an immutable tree.  A node is addressed by its
    path: the child indices that lead to it from the node the path starts at. */
module SceneTree {
  import opened Wrappers
  import opened Text

  /** Identity of a material object.  Materials are shared between meshes
      (the demo's head and torso use one skin material), so a mesh refers to
      its material by identity. */
  type MatId = nat

  /** The `type` of an Object3D as far as the viewer looks at it; lights,
      cameras, bones and the like are `Other` and keep their type name, which
      is never one of the three the viewer looks at. */
  datatype Kind = Group | Object3D | Mesh | Other(typeName: OtherTypeName)

  type OtherTypeName = t: string | t != "Group" && t != "Object3D" && t != "Mesh" witness "Light"

  datatype Node = Node(name: string, kind: Kind, visible: bool, material: Option<MatId>, children: seq<Node>)

  type Path = seq<nat>

  function TypeName(k: Kind): string {
    match k
    case Group => "Group"
    case Object3D => "Object3D"
    case Mesh => "Mesh"
    case Other(t) => t
  }

  /** `o.name || o.type`: how a node appears in a selection path. */
  function Label(n: Node): string {
    OrElse(n.name, TypeName(n.kind))
  }

  /** The children the layer list offers: Groups and Object3Ds. */
  predicate IsContainer(n: Node) {
    n.kind.Group? || n.kind.Object3D?
  }

  predicate ValidPath(n: Node, p: Path)
    decreases |p|
  {
    p == [] || (p[0] < |n.children| && ValidPath(n.children[p[0]], p[1..]))
  }

  function NodeAt(n: Node, p: Path): Node
    requires ValidPath(n, p)
    decreases |p|
  {
    if p == [] then n else NodeAt(n.children[p[0]], p[1..])
  }

  /** The labels of the proper ancestors of the node at `p`, nearest first;
      the last entry is the label of `n` itself. */
  function AncestorLabels(n: Node, p: Path): seq<string>
    requires ValidPath(n, p)
    decreases |p|
  {
    if p == [] then [] else AncestorLabels(n.children[p[0]], p[1..]) + [Label(n)]
  }

  lemma PathCons(n: Node, k: nat, q: Path)
    ensures ValidPath(n, [k] + q) <==> k < |n.children| && ValidPath(n.children[k], q)
    ensures ValidPath(n, [k] + q) ==> NodeAt(n, [k] + q) == NodeAt(n.children[k], q)
    ensures ValidPath(n, [k] + q) ==> AncestorLabels(n, [k] + q) == AncestorLabels(n.children[k], q) + [Label(n)]
  {
    assert ([k] + q)[1..] == q;
  }

  /** Read from the far end, the ancestor list holds the label of the
      ancestor at each depth: entry `|p| - 1 - j` belongs to the node `j`
      steps below `n` on the way to the addressed one, which is what a walk
      along parent links meets `|p| - j` steps up. */
  lemma {:induction false} AncestorLabelsWalkUp(n: Node, p: Path)
    requires ValidPath(n, p)
    ensures |AncestorLabels(n, p)| == |p|
    ensures forall j | 0 <= j < |p| ::
      ValidPath(n, p[..j]) && AncestorLabels(n, p)[|p| - 1 - j] == Label(NodeAt(n, p[..j]))
  {
    if p != [] {
      var c, rest := n.children[p[0]], p[1..];
      AncestorLabelsWalkUp(c, rest);
      assert AncestorLabels(n, p) == AncestorLabels(c, rest) + [Label(n)];
      forall j | 0 <= j < |p|
        ensures ValidPath(n, p[..j]) && AncestorLabels(n, p)[|p| - 1 - j] == Label(NodeAt(n, p[..j]))
      {
        if j == 0 {
          assert p[..j] == [];
        } else {
          var q := rest[..j - 1];
          assert ValidPath(c, q) && AncestorLabels(c, rest)[|rest| - 1 - (j - 1)] == Label(NodeAt(c, q));
          assert p[..j] == [p[0]] + q;
          PathCons(n, p[0], q);
        }
      }
    }
  }

  /** The node with every visibility flag erased: what loading fixed and
      nothing in the viewer changes afterwards. */
  function Strip(n: Node): Node
    decreases n
  {
    Node(n.name, n.kind, true, n.material,
         seq(|n.children|, i requires 0 <= i < |n.children| => Strip(n.children[i])))
  }

  predicate SameShape(a: Node, b: Node) {
    Strip(a) == Strip(b)
  }

  lemma SameShapeChildren(a: Node, b: Node)
    requires SameShape(a, b)
    ensures a.name == b.name && a.kind == b.kind && a.material == b.material
    ensures |a.children| == |b.children|
    ensures forall i | 0 <= i < |a.children| :: SameShape(a.children[i], b.children[i])
  {
    assert |Strip(a).children| == |Strip(b).children|;
    forall i | 0 <= i < |a.children|
      ensures SameShape(a.children[i], b.children[i])
    {
      assert Strip(a).children[i] == Strip(b).children[i];
    }
  }

  /** Two trees that differ only in visibility flags have the same addresses,
      and the same names, types, materials and ancestry at each of them. */
  lemma {:induction false} SameShapeAt(a: Node, b: Node, p: Path)
    requires SameShape(a, b)
    ensures ValidPath(a, p) <==> ValidPath(b, p)
    ensures ValidPath(a, p) ==> SameShape(NodeAt(a, p), NodeAt(b, p))
    ensures ValidPath(a, p) ==> AncestorLabels(a, p) == AncestorLabels(b, p)
    decreases |p|
  {
    SameShapeChildren(a, b);
    if p != [] && p[0] < |a.children| {
      SameShapeAt(a.children[p[0]], b.children[p[0]], p[1..]);
    }
  }

  /** Set the `visible` flag of the node at `p`, as a layer checkbox does. */
  function SetVisibleAt(n: Node, p: Path, b: bool): Node
    requires ValidPath(n, p)
    decreases |p|
  {
    if p == [] then n.(visible := b)
    else n.(children := n.children[p[0] := SetVisibleAt(n.children[p[0]], p[1..], b)])
  }

  lemma {:induction false} SetVisibleShape(n: Node, p: Path, b: bool)
    requires ValidPath(n, p)
    ensures SameShape(SetVisibleAt(n, p, b), n)
    decreases |p|
  {
    var r := SetVisibleAt(n, p, b);
    if p != [] {
      SetVisibleShape(n.children[p[0]], p[1..], b);
      assert Strip(r).children == Strip(n).children by {
        forall i | 0 <= i < |n.children|
          ensures Strip(r).children[i] == Strip(n).children[i]
        {
        }
      }
    }
  }

  lemma {:induction false} SetVisibleFlag(n: Node, p: Path, b: bool, q: Path)
    requires ValidPath(n, p) && ValidPath(n, q)
    ensures ValidPath(SetVisibleAt(n, p, b), q)
    ensures NodeAt(SetVisibleAt(n, p, b), q).visible == if q == p then b else NodeAt(n, q).visible
    decreases |q|
  {
    var r := SetVisibleAt(n, p, b);
    SetVisibleShape(n, p, b);
    SameShapeAt(r, n, q);
    if q != [] && p != [] {
      if p[0] == q[0] {
        SetVisibleFlag(n.children[p[0]], p[1..], b, q[1..]);
        assert (q == p) == (q[1..] == p[1..]);
      } else {
        assert q != p;
      }
    }
  }

  /** Changing one visibility flag leaves every name, type, material and
      child list in place and every other node's flag as it was. */
  lemma SetVisibleChangesOnlyTarget(n: Node, p: Path, b: bool)
    requires ValidPath(n, p)
    ensures SameShape(SetVisibleAt(n, p, b), n)
    ensures forall q | ValidPath(n, q) ::
      ValidPath(SetVisibleAt(n, p, b), q) &&
      NodeAt(SetVisibleAt(n, p, b), q).visible == if q == p then b else NodeAt(n, q).visible
  {
    SetVisibleShape(n, p, b);
    forall q | ValidPath(n, q)
      ensures ValidPath(SetVisibleAt(n, p, b), q)
      ensures NodeAt(SetVisibleAt(n, p, b), q).visible == if q == p then b else NodeAt(n, q).visible
    {
      SetVisibleFlag(n, p, b, q);
    }
  }

  /** Whether the renderer draws the node at `p`: it and every node above it
      are visible, so a hidden group hides everything beneath it. */
  predicate Shown(n: Node, p: Path)
    requires ValidPath(n, p)
    decreases |p|
  {
    n.visible && (p == [] || Shown(n.children[p[0]], p[1..]))
  }

  predicate IsPrefix(p: Path, q: Path) {
    |p| <= |q| && q[..|p|] == p
  }

  /** Hiding the node at `p` hides its whole subtree and leaves what is drawn
      elsewhere as it was. */
  lemma {:induction false} HideSubtree(n: Node, p: Path, q: Path)
    requires ValidPath(n, p) && ValidPath(n, q)
    ensures ValidPath(SetVisibleAt(n, p, false), q)
    ensures IsPrefix(p, q) ==> !Shown(SetVisibleAt(n, p, false), q)
    ensures !IsPrefix(p, q) ==> Shown(SetVisibleAt(n, p, false), q) == Shown(n, q)
    decreases |q|
  {
    SetVisibleFlag(n, p, false, q);
    var r := SetVisibleAt(n, p, false);
    if p == [] {
      assert IsPrefix(p, q);
    } else if q == [] {
      assert !IsPrefix(p, q);
    } else if p[0] == q[0] {
      HideSubtree(n.children[p[0]], p[1..], q[1..]);
      assert IsPrefix(p, q) == IsPrefix(p[1..], q[1..]);
    } else {
      assert !IsPrefix(p, q);
      assert r.children[q[0]] == n.children[q[0]];
    }
  }

  /** Every node of the tree has its `visible` flag set. */
  predicate AllVisible(n: Node)
    decreases n
  {
    n.visible && forall i | 0 <= i < |n.children| :: AllVisible(n.children[i])
  }

  /** In a tree where no flag is cleared, every node is drawn. */
  lemma {:induction false} AllVisibleShown(n: Node, q: Path)
    requires AllVisible(n) && ValidPath(n, q)
    ensures Shown(n, q)
    decreases |q|
  {
    if q != [] {
      AllVisibleShown(n.children[q[0]], q[1..]);
    }
  }
}
