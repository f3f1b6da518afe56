/** A node of the packed tree as the queries see it. */
module KdNode {
  import opened KdGeometry
  import opened KdShape
  import opened KdBuild

  /** The trees that the cells from `o` and `p` may be read as. */
  ghost function TreesAt(nodes: seq<int>, splits: seq<real>, o: int, p: int): iset<Tree> {
    iset t | EncodesNodes(nodes, o, p, t) && EncodesSplits(splits, p, t)
  }

  /** The cells from `o` and `p` hold tree `t`. */
  ghost predicate Coded(nodes: seq<int>, splits: seq<real>, o: int, p: int, t: Tree) {
    t in TreesAt(nodes, splits, o, p)
  }

  /** Tree `t` separates its rows, and rows and thresholds lie in box [lo, hi]. */
  ghost predicate Fits(a: seq<Row>, t: Tree, lo: Point, hi: Point) {
    Separates(t, a, |lo|) && SplitsInside(t, lo, hi) && AllInBox(a, Lo(t), Hi(t), lo, hi)
  }

  lemma {:induction false} CodedChildren(nodes: seq<int>, splits: seq<real>, o: int, p: int, t: Tree)
    requires Coded(nodes, splits, o, p, t) && t.Split?
    ensures o + SPLIT_NODE_SIZE <= |nodes| && nodes[o] == 0 && nodes[o + 1] == t.d && nodes[o + 2] == p
    ensures 0 <= p < |splits| && splits[p] == t.s && nodes[o + 3] > 0 && nodes[o + 4] > 0
    ensures Coded(nodes, splits, nodes[o + 3], p + 1, t.left)
    ensures Coded(nodes, splits, nodes[o + 4], p + 1 + SplitCells(t.left), t.right)
  {
  }

  /** Both children fit their halves of the box. */
  lemma {:induction false} FitsChildren(a: seq<Row>, t: Tree, lo: Point, hi: Point)
    requires Fits(a, t, lo, hi) && t.Split?
    ensures t.d < |lo| == |hi| && lo[t.d] <= t.s <= hi[t.d]
    ensures Fits(a, t.left, lo, hi[t.d := t.s]) && Fits(a, t.right, lo[t.d := t.s], hi)
    ensures Lo(t) == Lo(t.left) < Hi(t.left) == Lo(t.right) < Hi(t.right) == Hi(t)
  {
    assert Separates(t.left, a, |lo|) && Separates(t.right, a, |lo|);
    forall i | Lo(t.left) <= i < Hi(t.left) ensures InBox(a[i].xy, lo, hi[t.d := t.s]) {
      assert InBox(a[i].xy, lo, hi);
    }
    forall i | Lo(t.right) <= i < Hi(t.right) ensures InBox(a[i].xy, lo[t.d := t.s], hi) {
      assert InBox(a[i].xy, lo, hi);
    }
  }
}
