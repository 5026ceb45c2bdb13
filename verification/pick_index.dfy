/** The viewer's flat pick index (`collectPickMeshes`): every Mesh of a loaded
    subtree, gathered by `Object3D.traverse`. */
module PickIndex {
  import opened SceneTree

  /** Depth-first pre-order on addresses: a node comes before everything in
      its subtree, and a subtree before the subtrees of later siblings. */
  predicate Before(a: Path, b: Path)
    decreases |a|
  {
    |b| > 0 && (|a| == 0 || a[0] < b[0] || (a[0] == b[0] && Before(a[1..], b[1..])))
  }

  predicate Ascending(ps: seq<Path>) {
    forall i, j | 0 <= i < j < |ps| :: Before(ps[i], ps[j])
  }

  lemma {:induction false} BeforeIrreflexive(a: Path)
    ensures !Before(a, a)
    decreases |a|
  {
    if |a| > 0 {
      BeforeIrreflexive(a[1..]);
    }
  }

  /** An ascending list names no node twice. */
  lemma AscendingDistinct(ps: seq<Path>)
    requires Ascending(ps)
    ensures forall i, j | 0 <= i < j < |ps| :: ps[i] != ps[j]
  {
    forall i, j | 0 <= i < j < |ps|
      ensures ps[i] != ps[j]
    {
      BeforeIrreflexive(ps[i]);
    }
  }

  /** The addresses `ps`, taken relative to child `k`. */
  function Under(k: nat, ps: seq<Path>): (r: seq<Path>)
    ensures |r| == |ps|
    ensures forall i | 0 <= i < |ps| :: r[i] == [k] + ps[i]
  {
    seq(|ps|, i requires 0 <= i < |ps| => [k] + ps[i])
  }

  /** `collectPickMeshes(n)`: `traverse` calls back on `n` and then on each
      child's subtree in child order, and every node with `isMesh` is kept. */
  function Collect(n: Node): seq<Path>
    decreases n, |n.children| + 1
  {
    (if n.kind.Mesh? then [[]] else []) + CollectChildren(n, 0)
  }

  /** The meshes of the subtrees of children `k`, `k + 1`, ... of `n`. */
  function CollectChildren(n: Node, k: nat): seq<Path>
    requires k <= |n.children|
    decreases n, |n.children| - k
  {
    if k == |n.children| then []
    else Under(k, Collect(n.children[k])) + CollectChildren(n, k + 1)
  }

  lemma UnderMembers(k: nat, ps: seq<Path>, p: Path)
    ensures p in Under(k, ps) <==> |p| > 0 && p[0] == k && p[1..] in ps
  {
    var u := Under(k, ps);
    if |p| > 0 && p[0] == k && p[1..] in ps {
      var i :| 0 <= i < |ps| && ps[i] == p[1..];
      assert u[i] == p;
    }
    if p in u {
      var i :| 0 <= i < |u| && u[i] == p;
      assert p[1..] == ps[i];
    }
  }

  lemma UnderAscending(k: nat, ps: seq<Path>)
    requires Ascending(ps)
    ensures Ascending(Under(k, ps))
  {
    var u := Under(k, ps);
    forall i, j | 0 <= i < j < |u|
      ensures Before(u[i], u[j])
    {
      assert u[i][1..] == ps[i] && u[j][1..] == ps[j];
    }
  }

  /** Two ascending lists, the first wholly before the second, concatenate
      to an ascending list. */
  lemma AscendingConcat(a: seq<Path>, b: seq<Path>)
    requires Ascending(a) && Ascending(b)
    requires forall x, y | x in a && y in b :: Before(x, y)
    ensures Ascending(a + b)
  {
    forall i, j | 0 <= i < j < |a + b|
      ensures Before((a + b)[i], (a + b)[j])
    {
      if j < |a| {
        assert (a + b)[i] == a[i] && (a + b)[j] == a[j];
      } else if i >= |a| {
        assert (a + b)[i] == b[i - |a|] && (a + b)[j] == b[j - |a|];
      } else {
        assert (a + b)[i] == a[i] && (a + b)[i] in a;
        assert (a + b)[j] == b[j - |a|] && (a + b)[j] in b;
      }
    }
  }

  /** The pick index is exactly the Mesh nodes of the subtree, each once, in
      depth-first pre-order; the subtree's own root comes first when it is a
      mesh itself. */
  lemma {:induction false} CollectIsPreorderMeshes(n: Node)
    ensures Ascending(Collect(n))
    ensures forall p :: p in Collect(n) <==> ValidPath(n, p) && NodeAt(n, p).kind.Mesh?
    ensures n.kind.Mesh? ==> Collect(n)[0] == []
    decreases n, |n.children| + 1
  {
    var own: seq<Path> := if n.kind.Mesh? then [[]] else [];
    var rest := CollectChildren(n, 0);
    CollectChildrenMeshes(n, 0);
    assert Collect(n) == own + rest;
    AscendingConcat(own, rest);
    forall p
      ensures p in own + rest <==> ValidPath(n, p) && NodeAt(n, p).kind.Mesh?
    {
      if p == [] {
        assert p !in rest;
      }
    }
  }

  lemma {:induction false} CollectChildrenMeshes(n: Node, k: nat)
    requires k <= |n.children|
    ensures Ascending(CollectChildren(n, k))
    ensures forall p :: p in CollectChildren(n, k) <==>
      |p| > 0 && k <= p[0] && ValidPath(n, p) && NodeAt(n, p).kind.Mesh?
    decreases n, |n.children| - k
  {
    if k < |n.children| {
      var c := n.children[k];
      var head := Under(k, Collect(c));
      var tail := CollectChildren(n, k + 1);
      CollectIsPreorderMeshes(c);
      CollectChildrenMeshes(n, k + 1);
      UnderAscending(k, Collect(c));
      forall p
        ensures p in CollectChildren(n, k) <==>
          |p| > 0 && k <= p[0] && ValidPath(n, p) && NodeAt(n, p).kind.Mesh?
      {
        UnderMembers(k, Collect(c), p);
        if |p| > 0 && p[0] == k {
          PathCons(n, k, p[1..]);
          assert [k] + p[1..] == p;
        }
      }
      forall x, y | x in head && y in tail
        ensures Before(x, y)
      {
        UnderMembers(k, Collect(c), x);
      }
      AscendingConcat(head, tail);
    }
  }
}
