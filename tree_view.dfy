/**
 * BoundingBoxTreeView: the tree view holds the root of the bounding-box tree and rebuilds
 * or extends it; the tree keeps its alternating, grouped shape throughout.
 */
module TreeView {
  import opened Annotations
  import opened TreeItems
  import opened TreeRoundTrip
  import opened TreeShape
  import opened TreeIterator

  lemma {:induction false} ConstructAllSnoc(root: TreeItem, shapes: seq<BoundingShapeData>, s: BoundingShapeData)
    ensures ConstructAll(root, shapes + [s]) == Construct(ConstructAll(root, shapes), s)
    decreases |shapes|
  {
    if shapes == [] {
      assert [s][1..] == [];
    } else {
      assert (shapes + [s])[1..] == shapes[1..] + [s];
      ConstructAllSnoc(Construct(root, shapes[0]), shapes[1..], s);
    }
  }

  /**
   * The tree after createTreeItemFromBoundingBoxView (or ...PolygonView) for each view in
   * order: one new leaf per view directly below the root's category items, none removed.
   */
  function CreateTreeItemsFromViews(root: TreeItem, views: seq<ShapeView>): (r: TreeItem)
    ensures r.value == root.value
  {
    if views == [] then root
    else CreateTreeItemFromView(CreateTreeItemsFromViews(root, views[..|views| - 1]), views[|views| - 1])
  }

  /** One new leaf per view two levels down, none removed. */
  lemma {:induction false} CreateTreeItemsAddsLeaves(root: TreeItem, views: seq<ShapeView>)
    ensures multiset(Grandchildren(CreateTreeItemsFromViews(root, views).children))
         == multiset(Grandchildren(root.children)) + multiset(Leaves(views))
  {
    if views == [] {
      assert Leaves(views) == [];
    } else {
      var init, v := views[..|views| - 1], views[|views| - 1];
      var leaf := TreeItem(ShapeValue(v), []);
      assert views == init + [v];
      LeavesSnoc(init, v);
      CreateTreeItemsAddsLeaves(root, init);
      CreateTreeItemAddsOneLeaf(CreateTreeItemsFromViews(root, init), v);
      MultisetAssociates(multiset(Grandchildren(root.children)), multiset(Leaves(init)), multiset{leaf});
    }
  }

  lemma LeavesSnoc(views: seq<ShapeView>, v: ShapeView)
    ensures multiset(Leaves(views + [v])) == multiset(Leaves(views)) + multiset{TreeItem(ShapeValue(v), [])}
  {
    assert Leaves(views + [v]) == Leaves(views) + [TreeItem(ShapeValue(v), [])];
  }

  /** The leaf items created for views, in order. */
  function Leaves(views: seq<ShapeView>): (r: seq<TreeItem>)
    ensures |r| == |views| && forall k :: 0 <= k < |views| ==> r[k] == TreeItem(ShapeValue(views[k]), [])
  {
    seq(|views|, k requires 0 <= k < |views| => TreeItem(ShapeValue(views[k]), []))
  }

  /** Adding items for views keeps a well-formed tree well formed. */
  lemma {:induction false} CreateTreeItemsKeepsWellFormed(root: TreeItem, views: seq<ShapeView>)
    requires WellFormed(root)
    ensures WellFormed(CreateTreeItemsFromViews(root, views))
  {
    if views != [] {
      var init := views[..|views| - 1];
      CreateTreeItemsKeepsWellFormed(root, init);
      CreateTreeItemKeepsWellFormed(CreateTreeItemsFromViews(root, init), views[|views| - 1]);
    }
  }

  /** The tree view: the root of the tree it shows. */
  class BoundingBoxTreeView {
    var root: TreeItem

    ghost predicate Valid()
      reads this
    {
      WellFormed(root)
    }

    /** A new tree view shows an empty root. */
    constructor ()
      ensures Valid() && root == EmptyRoot
    {
      root := EmptyRoot;
    }

    /** reset: a new, empty root. */
    method Reset()
      modifies this
      ensures Valid() && root == EmptyRoot
    {
      root := EmptyRoot;
    }

    /**
     * extractViewsAndBuildTreeFromAnnotation: inserts the annotation's shapes below the
     * current root in order, then returns the box views and the polygon views of the walk
     * over the whole tree.
     */
    method ExtractViewsAndBuildTreeFromAnnotation(shapes: seq<BoundingShapeData>)
      returns (boxes: seq<ShapeView>, polygons: seq<ShapeView>)
      requires Valid()
      modifies this
      ensures Valid() && root == ConstructAll(old(root), shapes)
      ensures boxes == BoxViews(Visit(root)) && polygons == PolygonViews(Visit(root))
    {
      var i := 0;
      while i < |shapes|
        invariant 0 <= i <= |shapes|
        invariant Valid() && root == ConstructAll(old(root), shapes[..i])
      {
        assert shapes[..i + 1] == shapes[..i] + [shapes[i]];
        ConstructAllSnoc(old(root), shapes[..i], shapes[i]);
        ConstructKeepsWellFormed(root, shapes[i]);
        root := Construct(root, shapes[i]);
        i := i + 1;
      }
      assert shapes[..i] == shapes;
      var items := ToList(root);
      boxes := BoxViews(items);
      items := ToList(root);
      polygons := PolygonViews(items);
    }

    /**
     * addTreeItemsFromBoundingBoxViews / addTreeItemsFromBoundingPolygonViews: one new leaf
     * per view, below the category item of its category, created when missing.
     */
    method AddTreeItemsFromViews(views: seq<ShapeView>)
      requires Valid()
      modifies this
      ensures Valid() && root == CreateTreeItemsFromViews(old(root), views)
      ensures multiset(Grandchildren(root.children)) == multiset(Grandchildren(old(root).children)) + multiset(Leaves(views))
    {
      var i := 0;
      while i < |views|
        invariant 0 <= i <= |views|
        invariant root == CreateTreeItemsFromViews(old(root), views[..i])
      {
        assert views[..i + 1][..i] == views[..i];
        root := CreateTreeItemFromView(root, views[i]);
        i := i + 1;
      }
      assert views[..i] == views;
      CreateTreeItemsKeepsWellFormed(old(root), views);
      CreateTreeItemsAddsLeaves(old(root), views);
    }
  }
}
