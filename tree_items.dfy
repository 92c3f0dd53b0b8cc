/**
 * The tree of BoundingBoxTreeView: a hidden root whose children are category items
 * (ObjectCategoryTreeItem), whose children are shape items (BoundingBoxTreeItem,
 * BoundingPolygonTreeItem), whose children are category items again, and so on.
 * This module builds that tree from nested BoundingShapeData and extracts the data back.
 */
module TreeItems {
  import opened Wrappers
  import opened Annotations

  /** What a TreeItem holds: nothing (the root), an ObjectCategory, or a shape view. */
  datatype ItemValue = RootValue | CategoryValue(category: Category) | ShapeValue(view: ShapeView)

  datatype TreeItem = TreeItem(value: ItemValue, children: seq<TreeItem>)
  {
    /** TreeItem.isLeaf: no children. */
    predicate IsLeaf() { children == [] }
  }

  /** The root a fresh or reset tree view starts with. */
  const EmptyRoot: TreeItem := TreeItem(RootValue, [])

  /** The first position in items whose value is v, if any. */
  function IndexOfValue(items: seq<TreeItem>, v: ItemValue): (r: Option<nat>)
    ensures r.Some? ==> r.value < |items| && items[r.value].value == v
    ensures r.Some? ==> forall j :: 0 <= j < r.value ==> items[j].value != v
    ensures r.None? <==> forall j :: 0 <= j < |items| ==> items[j].value != v
  {
    if items == [] then None
    else if items[0].value == v then Some(0)
    else match IndexOfValue(items[1..], v)
      case None => None
      case Some(i) => Some(i + 1)
  }

  /**
   * findParentCategoryTreeItemForCategory: the first DIRECT child of searchRoot whose value
   * is the category (given by its position), or None where the source returns null.
   */
  function FindParentCategoryTreeItemForCategory(searchRoot: TreeItem, category: Category): (r: Option<nat>)
    ensures r.Some? ==>
              && r.value < |searchRoot.children|
              && searchRoot.children[r.value].value == CategoryValue(category)
              && forall j :: 0 <= j < r.value ==> searchRoot.children[j].value != CategoryValue(category)
    ensures r.None? <==> forall j :: 0 <= j < |searchRoot.children| ==> searchRoot.children[j].value != CategoryValue(category)
  {
    IndexOfValue(searchRoot.children, CategoryValue(category))
  }

  /**
   * Attaches item below the category item for category among parent's children, appending
   * a new category item at the end when there is none yet.
   */
  function AttachToCategoryItem(parent: TreeItem, category: Category, item: TreeItem): (r: TreeItem)
    ensures r.value == parent.value
    ensures |r.children| == |parent.children| + (if FindParentCategoryTreeItemForCategory(parent, category).None? then 1 else 0)
    ensures forall j :: 0 <= j < |parent.children| ==> r.children[j].value == parent.children[j].value
    ensures FindParentCategoryTreeItemForCategory(r, category).Some?
    ensures var i := FindParentCategoryTreeItemForCategory(r, category).value;
      && r.children[i].children == (if i < |parent.children| then parent.children[i].children else []) + [item]
      && forall j :: 0 <= j < |parent.children| && j != i ==> r.children[j] == parent.children[j]
  {
    match FindParentCategoryTreeItemForCategory(parent, category)
    case Some(i) =>
      var group := parent.children[i];
      parent.(children := parent.children[i := group.(children := group.children + [item])])
    case None =>
      var r := parent.(children := parent.children + [TreeItem(CategoryValue(category), [item])]);
      assert r.children[|parent.children|].value == CategoryValue(category);
      r
  }

  /**
   * createTreeItemFromBoundingBoxView / createTreeItemFromBoundingPolygonView: a new leaf for
   * the view, below the category item of its category; nothing else is added or removed.
   */
  function CreateTreeItemFromView(root: TreeItem, view: ShapeView): (r: TreeItem)
    ensures r.value == root.value
  {
    AttachToCategoryItem(root, view.category, TreeItem(ShapeValue(view), []))
  }

  /** Creating the item for a view adds one leaf for it two levels down, and nothing else. */
  lemma CreateTreeItemAddsOneLeaf(root: TreeItem, view: ShapeView)
    ensures multiset(Grandchildren(CreateTreeItemFromView(root, view).children))
         == multiset(Grandchildren(root.children)) + multiset{TreeItem(ShapeValue(view), [])}
  {
    AttachAddsOneGrandchild(root, view.category, TreeItem(ShapeValue(view), []));
  }

  /** The shape item constructTreeFromBoundingShapeData creates for shape: it shows the shape's view. */
  function ShapeTreeItem(shape: BoundingShapeData): (r: TreeItem)
    decreases shape, 0
    ensures r.value == ShapeValue(FromData(shape))
  {
    ConstructAll(TreeItem(ShapeValue(FromData(shape)), []), shape.parts)
  }

  /** constructTreeFromBoundingShapeData(root, shape): the shape's item below the category item of its category. */
  function Construct(root: TreeItem, shape: BoundingShapeData): (r: TreeItem)
    decreases shape, 1
    ensures r.value == root.value
  {
    AttachToCategoryItem(root, shape.category, ShapeTreeItem(shape))
  }

  /** constructTreeFromBoundingShapeData applied to each shape in order. */
  function ConstructAll(root: TreeItem, shapes: seq<BoundingShapeData>): (r: TreeItem)
    decreases shapes, 2
    ensures r.value == root.value
  {
    if shapes == [] then root else ConstructAll(Construct(root, shapes[0]), shapes[1..])
  }

  /** The shape items built for shapes, in order. */
  function ShapeTreeItems(shapes: seq<BoundingShapeData>): (r: seq<TreeItem>)
    ensures |r| == |shapes| && forall i :: 0 <= i < |shapes| ==> r[i] == ShapeTreeItem(shapes[i])
  {
    seq(|shapes|, i requires 0 <= i < |shapes| => ShapeTreeItem(shapes[i]))
  }

  /** constructTreeFromBoundingShapeData adds the shape's item two levels down, and nothing else. */
  lemma ConstructGrandchildren(root: TreeItem, shape: BoundingShapeData)
    ensures multiset(Grandchildren(Construct(root, shape).children)) == multiset(Grandchildren(root.children)) + multiset{ShapeTreeItem(shape)}
  {
    AttachAddsOneGrandchild(root, shape.category, ShapeTreeItem(shape));
  }

  /** Constructing each shape in order adds exactly the shapes' items two levels down, and nothing else. */
  lemma {:induction false} ConstructAllGrandchildren(root: TreeItem, shapes: seq<BoundingShapeData>)
    ensures multiset(Grandchildren(ConstructAll(root, shapes).children))
         == multiset(Grandchildren(root.children)) + multiset(ShapeTreeItems(shapes))
    decreases |shapes|
  {
    if shapes == [] {
      assert ShapeTreeItems(shapes) == [];
    } else {
      var first := Construct(root, shapes[0]);
      ConstructGrandchildren(root, shapes[0]);
      ConstructAllGrandchildren(first, shapes[1..]);
      ShapeTreeItemsCons(shapes);
      MultisetAssociates(multiset(Grandchildren(root.children)), multiset{ShapeTreeItem(shapes[0])}, multiset(ShapeTreeItems(shapes[1..])));
    }
  }

  lemma ShapeTreeItemsCons(shapes: seq<BoundingShapeData>)
    requires shapes != []
    ensures multiset(ShapeTreeItems(shapes)) == multiset{ShapeTreeItem(shapes[0])} + multiset(ShapeTreeItems(shapes[1..]))
  {
    assert ShapeTreeItems(shapes) == [ShapeTreeItem(shapes[0])] + ShapeTreeItems(shapes[1..]);
  }

  /** The items two levels below a shape's item are exactly the items of the shape's parts. */
  lemma ShapeTreeItemGrandchildren(shape: BoundingShapeData)
    ensures multiset(Grandchildren(ShapeTreeItem(shape).children)) == multiset(ShapeTreeItems(shape.parts))
  {
    ConstructAllGrandchildren(TreeItem(ShapeValue(FromData(shape)), []), shape.parts);
  }

  lemma MultisetAssociates(a: multiset<TreeItem>, b: multiset<TreeItem>, c: multiset<TreeItem>)
    ensures (a + b) + c == a + (b + c)
  {
  }

  /** The children of every item in groups, in order (TreeItem::getChildren, flatMap). */
  function Grandchildren(groups: seq<TreeItem>): seq<TreeItem>
  {
    if groups == [] then [] else groups[0].children + Grandchildren(groups[1..])
  }

  lemma AttachToExistingCategoryItem(parent: TreeItem, c: Category, item: TreeItem, i: nat)
    requires FindParentCategoryTreeItemForCategory(parent, c) == Some(i)
    ensures AttachToCategoryItem(parent, c, item).children
         == parent.children[i := TreeItem(CategoryValue(c), parent.children[i].children + [item])]
  {
  }

  lemma AttachToNewCategoryItem(parent: TreeItem, c: Category, item: TreeItem)
    requires FindParentCategoryTreeItemForCategory(parent, c) == None
    ensures AttachToCategoryItem(parent, c, item).children == parent.children + [TreeItem(CategoryValue(c), [item])]
  {
  }

  lemma {:induction false} GrandchildrenAppend(a: seq<TreeItem>, b: seq<TreeItem>)
    ensures Grandchildren(a + b) == Grandchildren(a) + Grandchildren(b)
  {
    if a != [] {
      assert (a + b)[1..] == a[1..] + b;
      GrandchildrenAppend(a[1..], b);
    } else {
      assert a + b == b;
    }
  }

  lemma {:induction false} GrandchildrenUpdate(groups: seq<TreeItem>, i: nat, g: TreeItem)
    requires i < |groups|
    ensures multiset(Grandchildren(groups[i := g])) + multiset(groups[i].children)
         == multiset(Grandchildren(groups)) + multiset(g.children)
  {
    var updated := groups[i := g];
    var head := groups[0].children;
    assert Grandchildren(groups) == head + Grandchildren(groups[1..]);
    if i > 0 {
      var tail := groups[1..];
      assert updated[1..] == tail[i - 1 := g];
      assert updated[0] == groups[0] && tail[i - 1] == groups[i];
      assert Grandchildren(updated) == head + Grandchildren(tail[i - 1 := g]);
      GrandchildrenUpdate(tail, i - 1, g);
      calc {
        multiset(Grandchildren(updated)) + multiset(groups[i].children);
        multiset(head) + (multiset(Grandchildren(tail[i - 1 := g])) + multiset(tail[i - 1].children));
        multiset(head) + (multiset(Grandchildren(tail)) + multiset(g.children));
        multiset(Grandchildren(groups)) + multiset(g.children);
      }
    } else {
      assert updated[1..] == groups[1..];
      assert Grandchildren(updated) == g.children + Grandchildren(groups[1..]);
    }
  }

  lemma {:induction false} GrandchildrenGrow(groups: seq<TreeItem>, i: nat, g: TreeItem, item: TreeItem)
    requires i < |groups| && g.children == groups[i].children + [item]
    ensures multiset(Grandchildren(groups[i := g])) == multiset(Grandchildren(groups)) + multiset{item}
  {
    GrandchildrenUpdate(groups, i, g);
    var lhs, rhs := multiset(Grandchildren(groups[i := g])), multiset(Grandchildren(groups)) + multiset{item};
    var was := multiset(groups[i].children);
    assert lhs + was == rhs + was;
    forall x ensures lhs[x] == rhs[x] {
      assert (lhs + was)[x] == (rhs + was)[x];
    }
  }

  /** Attaching an item below a parent adds exactly that item to the parent's grandchildren. */
  lemma {:induction false} AttachAddsOneGrandchild(parent: TreeItem, c: Category, item: TreeItem)
    ensures multiset(Grandchildren(AttachToCategoryItem(parent, c, item).children))
         == multiset(Grandchildren(parent.children)) + multiset{item}
  {
    match FindParentCategoryTreeItemForCategory(parent, c)
    case Some(i) =>
      AttachToExistingCategoryItem(parent, c, item, i);
      GrandchildrenGrow(parent.children, i, TreeItem(CategoryValue(c), parent.children[i].children + [item]), item);
    case None =>
      AttachToNewCategoryItem(parent, c, item);
      var g := TreeItem(CategoryValue(c), [item]);
      GrandchildrenAppend(parent.children, [g]);
      assert Grandchildren([g]) == [item] + Grandchildren([]);
  }

  /** Only the shape items of items, in order. */
  function OnlyShapeItems(items: seq<TreeItem>): (r: seq<TreeItem>)
    ensures forall k :: 0 <= k < |r| ==> r[k].value.ShapeValue? && r[k] in items
    ensures forall x :: x in items && x.value.ShapeValue? ==> x in r
  {
    if items == [] then []
    else (if items[0].value.ShapeValue? then [items[0]] else []) + OnlyShapeItems(items[1..])
  }

  /** The filter keeps each shape item as often as it occurs, and nothing else. */
  lemma {:induction false} OnlyShapeItemsCounts(items: seq<TreeItem>)
    ensures forall x :: multiset(OnlyShapeItems(items))[x] == if x.value.ShapeValue? then multiset(items)[x] else 0
  {
    if items != [] {
      assert items == [items[0]] + items[1..];
      OnlyShapeItemsCounts(items[1..]);
    }
  }

  /** Filtering a concatenation filters each half and keeps them in order. */
  lemma {:induction false} OnlyShapeItemsAppend(a: seq<TreeItem>, b: seq<TreeItem>)
    ensures OnlyShapeItems(a + b) == OnlyShapeItems(a) + OnlyShapeItems(b)
  {
    if a == [] {
      assert a + b == b;
    } else {
      assert (a + b)[0] == a[0] && (a + b)[1..] == a[1..] + b;
      OnlyShapeItemsAppend(a[1..], b);
    }
  }

  /** The error treeItemToBoundingShapeData throws (IllegalStateException) on a non-shape item. */
  datatype TreeError = InvalidTreeItemClassType

  /** The data d describes the shape item item: same category and geometry. */
  predicate Describes(d: BoundingShapeData, item: TreeItem)
  {
    item.value == ShapeValue(FromData(d))
  }

  predicate DescribesAll(ds: seq<BoundingShapeData>, items: seq<TreeItem>)
  {
    |ds| == |items| && forall k :: 0 <= k < |ds| ==> Describes(ds[k], items[k])
  }

  /**
   * treeItemToBoundingShapeData: the data for a shape item, whose parts (when it is not a
   * leaf) are the converted items two levels below it; a leaf keeps the parts of its fresh record.
   */
  function TreeItemToBoundingShapeData(item: TreeItem): (r: Result<BoundingShapeData, TreeError>)
    decreases item, 2
    ensures !item.value.ShapeValue? ==> r == Failure(InvalidTreeItemClassType)
    ensures item.value.ShapeValue? && item.IsLeaf() ==> r == Success(ToData(item.value.view))
    ensures r.Success? ==> Describes(r.value, item) && DescribesAll(r.value.parts, Grandchildren(item.children))
  {
    if !item.value.ShapeValue? then Failure(InvalidTreeItemClassType)
    else if item.IsLeaf() then Success(ToData(item.value.view))
    else match ConvertGroups(item.children)
      case Failure(e) => Failure(e)
      case Success(parts) => Success(ToData(item.value.view).(parts := parts))
  }

  /** Converts the children of every item in groups, in order; the first failure is the result. */
  function ConvertGroups(groups: seq<TreeItem>): (r: Result<seq<BoundingShapeData>, TreeError>)
    decreases groups, 1
    ensures r.Success? ==> DescribesAll(r.value, Grandchildren(groups))
  {
    if groups == [] then Success([])
    else match ConvertItems(groups[0].children)
      case Failure(e) => Failure(e)
      case Success(first) =>
        match ConvertGroups(groups[1..])
        case Failure(e) => Failure(e)
        case Success(rest) => Success(first + rest)
  }

  /** Converts every item in order; the first failure is the result. */
  function ConvertItems(items: seq<TreeItem>): (r: Result<seq<BoundingShapeData>, TreeError>)
    decreases items, 0
    ensures r.Success? <==> forall k :: 0 <= k < |items| ==> TreeItemToBoundingShapeData(items[k]).Success?
    ensures r.Success? ==>
              && |r.value| == |items|
              && forall k :: 0 <= k < |items| ==> r.value[k] == TreeItemToBoundingShapeData(items[k]).value
    ensures r.Success? ==> DescribesAll(r.value, items)
  {
    if items == [] then Success([])
    else match TreeItemToBoundingShapeData(items[0])
      case Failure(e) => Failure(e)
      case Success(first) =>
        match ConvertItems(items[1..])
        case Failure(e) => Failure(e)
        case Success(rest) => Success([first] + rest)
  }

  /** The shape items that are grandchildren of root, category item by category item. */
  function TopLevelShapeItems(root: TreeItem): seq<TreeItem>
  {
    OnlyShapeItems(Grandchildren(root.children))
  }

  /**
   * extractCurrentBoundingShapeData: the data of the shape items directly below the root's
   * category items, in category-item order and then child order, parts included.
   */
  function ExtractCurrentBoundingShapeData(root: TreeItem): (r: Result<seq<BoundingShapeData>, TreeError>)
    ensures r.Success? <==> forall x :: x in TopLevelShapeItems(root) ==> TreeItemToBoundingShapeData(x).Success?
    ensures r.Success? ==> DescribesAll(r.value, TopLevelShapeItems(root))
  {
    ConvertItems(TopLevelShapeItems(root))
  }
}
