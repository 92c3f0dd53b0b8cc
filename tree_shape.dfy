/**
 * The shape of the bounding-box tree: every path from the root downwards alternates
 * root, category item, shape item, category item, shape item, ...; the category items
 * below one parent have pairwise distinct categories, are never empty, and hold only
 * shapes of their own category.
 */
module TreeShape {
  import opened Wrappers
  import opened Annotations
  import opened TreeItems
  import opened TreeRoundTrip

  /** A shape item whose children are well-formed category items. */
  predicate ShapeLevel(t: TreeItem)
    decreases t, 2
  {
    t.value.ShapeValue? && GroupsOk(t.children)
  }

  /** A non-empty category item holding shape items of its own category. */
  predicate GroupOk(g: TreeItem)
    decreases g, 1
  {
    && g.value.CategoryValue?
    && g.children != []
    && forall k :: 0 <= k < |g.children| ==>
         ShapeLevel(g.children[k]) && g.children[k].value.view.category == g.value.category
  }

  /** Well-formed category items with pairwise distinct categories. */
  predicate GroupsOk(groups: seq<TreeItem>)
    decreases groups, 0
  {
    && (forall i, j :: 0 <= i < j < |groups| ==> groups[i].value != groups[j].value)
    && forall i :: 0 <= i < |groups| ==> GroupOk(groups[i])
  }

  /** The tree below a root: the root holds no value and its children are well-formed category items. */
  predicate WellFormed(root: TreeItem)
  {
    root.value == RootValue && GroupsOk(root.children)
  }

  /**
   * Attaching a shape item of category c below a parent keeps its category items well formed:
   * an existing item of category c grows by one child, otherwise one new item is appended.
   */
  lemma AttachKeepsGroupsOk(parent: TreeItem, c: Category, item: TreeItem)
    requires GroupsOk(parent.children)
    requires ShapeLevel(item) && item.value.view.category == c
    ensures GroupsOk(AttachToCategoryItem(parent, c, item).children)
  {
    var r := AttachToCategoryItem(parent, c, item);
    match FindParentCategoryTreeItemForCategory(parent, c)
    case Some(i) =>
      AttachToExistingCategoryItem(parent, c, item, i);
      assert GroupOk(parent.children[i]);
      assert GroupOk(r.children[i]) by {
        var g := r.children[i];
        forall k | 0 <= k < |g.children|
          ensures ShapeLevel(g.children[k]) && g.children[k].value.view.category == g.value.category
        {
          if k < |parent.children[i].children| {
            assert g.children[k] == parent.children[i].children[k];
          }
        }
      }
      forall j | 0 <= j < |r.children| ensures GroupOk(r.children[j]) {
        if j != i {
          assert r.children[j] == parent.children[j];
        }
      }
    case None =>
      AttachToNewCategoryItem(parent, c, item);
      var n := |parent.children|;
      assert GroupOk(r.children[n]);
      forall j | 0 <= j < |r.children| ensures GroupOk(r.children[j]) {
        if j < n {
          assert r.children[j] == parent.children[j];
        }
      }
  }

  /** The item built for a shape is a well-formed shape item showing that shape. */
  lemma {:induction false} ShapeTreeItemIsShapeLevel(s: BoundingShapeData)
    ensures ShapeLevel(ShapeTreeItem(s))
    ensures ShapeTreeItem(s).value == ShapeValue(FromData(s))
    decreases s, 1
  {
    ConstructAllKeepsGroupsOk(TreeItem(ShapeValue(FromData(s)), []), s.parts);
  }

  /** Inserting shapes one after the other keeps the item's value and its category items well formed. */
  lemma {:induction false} ConstructAllKeepsGroupsOk(root: TreeItem, shapes: seq<BoundingShapeData>)
    requires GroupsOk(root.children)
    ensures GroupsOk(ConstructAll(root, shapes).children)
    ensures ConstructAll(root, shapes).value == root.value
    decreases shapes, 2
  {
    if shapes != [] {
      var s := shapes[0];
      ShapeTreeItemIsShapeLevel(s);
      AttachKeepsGroupsOk(root, s.category, ShapeTreeItem(s));
      ConstructAllKeepsGroupsOk(Construct(root, s), shapes[1..]);
    }
  }

  /** Inserting one shape below the root keeps the tree well formed. */
  lemma ConstructKeepsWellFormed(root: TreeItem, s: BoundingShapeData)
    requires WellFormed(root)
    ensures WellFormed(Construct(root, s))
  {
    ShapeTreeItemIsShapeLevel(s);
    AttachKeepsGroupsOk(root, s.category, ShapeTreeItem(s));
  }

  /** Adding a leaf item for a view (createTreeItemFromBoundingBoxView) keeps the tree well formed. */
  lemma CreateTreeItemKeepsWellFormed(root: TreeItem, view: ShapeView)
    requires WellFormed(root)
    ensures WellFormed(CreateTreeItemFromView(root, view))
  {
    assert ShapeLevel(TreeItem(ShapeValue(view), []));
    AttachKeepsGroupsOk(root, view.category, TreeItem(ShapeValue(view), []));
  }

  /** The tree built from any list of shapes on a fresh root is well formed. */
  lemma BuiltTreeIsWellFormed(shapes: seq<BoundingShapeData>)
    ensures WellFormed(ConstructAll(EmptyRoot, shapes))
  {
    ConstructAllKeepsGroupsOk(EmptyRoot, shapes);
  }

  /** A well-formed shape item converts without the IllegalStateException. */
  lemma {:induction false} ShapeLevelConverts(t: TreeItem)
    requires ShapeLevel(t)
    ensures TreeItemToBoundingShapeData(t).Success?
    decreases t, 2
  {
    if !t.IsLeaf() {
      GroupsConvert(t.children);
    }
  }

  lemma {:induction false} GroupsConvert(groups: seq<TreeItem>)
    requires GroupsOk(groups)
    ensures ConvertGroups(groups).Success?
    decreases groups, 1
  {
    if groups != [] {
      var g := groups[0];
      assert GroupOk(g);
      forall k | 0 <= k < |g.children| ensures TreeItemToBoundingShapeData(g.children[k]).Success? {
        ShapeLevelConverts(g.children[k]);
      }
      assert GroupsOk(groups[1..]) by {
        forall i | 0 <= i < |groups[1..]| ensures GroupOk(groups[1..][i]) {
          assert groups[1..][i] == groups[i + 1];
        }
      }
      GroupsConvert(groups[1..]);
    }
  }

  /**
   * On a well-formed tree, every grandchild of the root is a shape item, so extraction
   * keeps them all and succeeds.
   */
  lemma WellFormedExtracts(root: TreeItem)
    requires WellFormed(root)
    ensures TopLevelShapeItems(root) == Grandchildren(root.children)
    ensures ExtractCurrentBoundingShapeData(root).Success?
  {
    GrandchildrenAreShapes(root.children);
    OnlyShapeItemsKeepsShapeItems(Grandchildren(root.children));
    GroupsConvert(root.children);
    ConvertGroupsIsConvertGrandchildren(root.children);
  }

  lemma {:induction false} GrandchildrenAreShapes(groups: seq<TreeItem>)
    requires GroupsOk(groups)
    ensures forall k :: 0 <= k < |Grandchildren(groups)| ==> Grandchildren(groups)[k].value.ShapeValue?
  {
    if groups != [] {
      assert GroupOk(groups[0]);
      assert GroupsOk(groups[1..]) by {
        forall i | 0 <= i < |groups[1..]| ensures GroupOk(groups[1..][i]) {
          assert groups[1..][i] == groups[i + 1];
        }
      }
      GrandchildrenAreShapes(groups[1..]);
      var head: seq<TreeItem> := groups[0].children;
      var tail: seq<TreeItem> := Grandchildren(groups[1..]);
      forall k | 0 <= k < |head + tail| ensures (head + tail)[k].value.ShapeValue? {
        if k >= |head| {
          assert (head + tail)[k] == tail[k - |head|];
        }
      }
    }
  }

  /** extractCurrentBoundingShapeData skips a grandchild of the root that is not a shape item. */
  lemma NonShapeGrandchildIsFiltered(root: TreeItem, g: nat, k: nat)
    requires g < |root.children| && k < |root.children[g].children|
    requires !root.children[g].children[k].value.ShapeValue?
    ensures TreeItemToBoundingShapeData(root.children[g].children[k]) == Failure(InvalidTreeItemClassType)
    ensures root.children[g].children[k] !in TopLevelShapeItems(root)
  {
  }

  /** The children of any category item below parent are among parent's grandchildren. */
  lemma {:induction false} GrandchildIsInGrandchildren(groups: seq<TreeItem>, g: nat, k: nat)
    requires g < |groups| && k < |groups[g].children|
    ensures groups[g].children[k] in Grandchildren(groups)
  {
    assert Grandchildren(groups) == groups[0].children + Grandchildren(groups[1..]);
    if g > 0 {
      GrandchildIsInGrandchildren(groups[1..], g - 1, k);
    }
  }

  /**
   * Converting a shape item fails with the IllegalStateException as soon as any item two
   * levels below it is not a shape item: parts are not filtered, unlike the top level.
   */
  lemma NonShapePartFails(t: TreeItem, g: nat, k: nat)
    requires t.value.ShapeValue?
    requires g < |t.children| && k < |t.children[g].children|
    requires !t.children[g].children[k].value.ShapeValue?
    ensures TreeItemToBoundingShapeData(t) == Failure(InvalidTreeItemClassType)
  {
    var bad := t.children[g].children[k];
    GrandchildIsInGrandchildren(t.children, g, k);
    var all := Grandchildren(t.children);
    var j :| 0 <= j < |all| && all[j] == bad;
    assert TreeItemToBoundingShapeData(all[j]).Failure?;
    ConvertGroupsIsConvertGrandchildren(t.children);
    assert !t.IsLeaf();
    var r := ConvertGroups(t.children);
    assert r.Failure? && r.error == InvalidTreeItemClassType;
  }
}
