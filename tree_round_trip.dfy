/**
 * Building the bounding-box tree from a list of shapes and extracting the shapes back
 * yields the same shapes, stably regrouped by category at every level of nesting.
 */
module TreeRoundTrip {
  import opened Wrappers
  import opened Annotations
  import opened TreeItems
  import opened ShapeGrouping

  /** One category item per category in cs, holding the shape items of that category in order. */
  function CategoryItems(shapes: seq<BoundingShapeData>, cs: seq<Category>): (r: seq<TreeItem>)
    ensures |r| == |cs|
    ensures forall k :: 0 <= k < |cs| ==> r[k] == TreeItem(CategoryValue(cs[k]), ShapeTreeItems(OfCategory(shapes, cs[k])))
  {
    seq(|cs|, k requires 0 <= k < |cs| => TreeItem(CategoryValue(cs[k]), ShapeTreeItems(OfCategory(shapes, cs[k]))))
  }

  /** The children the tree gives an item after shapes were inserted below it, starting from none. */
  function Grouped(shapes: seq<BoundingShapeData>): seq<TreeItem>
  {
    CategoryItems(shapes, Categories(shapes))
  }

  lemma ShapeTreeItemsSnoc(shapes: seq<BoundingShapeData>, s: BoundingShapeData)
    ensures ShapeTreeItems(shapes + [s]) == ShapeTreeItems(shapes) + [ShapeTreeItem(s)]
  {
  }

  lemma CategoryItemsIgnoreOtherCategory(p: seq<BoundingShapeData>, s: BoundingShapeData, cs: seq<Category>)
    requires s.category !in cs
    ensures CategoryItems(p + [s], cs) == CategoryItems(p, cs)
  {
    var q := p + [s];
    assert q[..|q| - 1] == p;
    forall k | 0 <= k < |cs| ensures OfCategory(q, cs[k]) == OfCategory(p, cs[k]) {
    }
  }

  lemma CategoryItemsExtend(p: seq<BoundingShapeData>, cs: seq<Category>, c: Category)
    ensures CategoryItems(p, cs + [c]) == CategoryItems(p, cs) + [TreeItem(CategoryValue(c), ShapeTreeItems(OfCategory(p, c)))]
  {
  }

  lemma CategoryItemsAddToKnown(p: seq<BoundingShapeData>, s: BoundingShapeData, cs: seq<Category>, i: nat)
    requires forall a, b :: 0 <= a < b < |cs| ==> cs[a] != cs[b]
    requires i < |cs| && cs[i] == s.category
    ensures var before := CategoryItems(p, cs);
      CategoryItems(p + [s], cs) == before[i := TreeItem(CategoryValue(s.category), before[i].children + [ShapeTreeItem(s)])]
  {
    var q := p + [s];
    assert q[..|q| - 1] == p;
    var before := CategoryItems(p, cs);
    var after := CategoryItems(q, cs);
    forall k | 0 <= k < |cs|
      ensures after[k] == before[i := TreeItem(CategoryValue(s.category), before[i].children + [ShapeTreeItem(s)])][k]
    {
      if k == i {
        assert OfCategory(q, cs[k]) == OfCategory(p, cs[k]) + [s];
        ShapeTreeItemsSnoc(OfCategory(p, cs[k]), s);
      } else {
        assert OfCategory(q, cs[k]) == OfCategory(p, cs[k]);
      }
    }
  }

  /** Inserting a shape whose category already has an item below a Grouped parent. */
  lemma {:induction false} InsertKnownCategory(v: ItemValue, p: seq<BoundingShapeData>, s: BoundingShapeData, i: nat)
    requires i < |Categories(p)| && Categories(p)[i] == s.category
    ensures AttachToCategoryItem(TreeItem(v, Grouped(p)), s.category, ShapeTreeItem(s)).children == Grouped(p + [s])
  {
    var q := p + [s];
    assert q[..|q| - 1] == p;
    var cs := Categories(p);
    assert Categories(q) == cs;
    var parent := TreeItem(v, Grouped(p));
    FindKnownCategory(v, p, i);
    AttachToExistingCategoryItem(parent, s.category, ShapeTreeItem(s), i);
    CategoryItemsAddToKnown(p, s, cs, i);
  }

  /** Below a Grouped parent, the item of the i-th category is the i-th child. */
  lemma {:induction false} FindKnownCategory(v: ItemValue, p: seq<BoundingShapeData>, i: nat)
    requires i < |Categories(p)|
    ensures FindParentCategoryTreeItemForCategory(TreeItem(v, Grouped(p)), Categories(p)[i]) == Some(i)
  {
    GroupedValues(p);
    FindAmongDistinct(v, Grouped(p), Categories(p), i);
  }

  /** Among category items for distinct categories, the item of the i-th category is found at i. */
  lemma FindAmongDistinct(v: ItemValue, children: seq<TreeItem>, cs: seq<Category>, i: nat)
    requires |children| == |cs| && i < |cs|
    requires forall k :: 0 <= k < |cs| ==> children[k].value == CategoryValue(cs[k])
    requires forall a, b :: 0 <= a < b < |cs| ==> cs[a] != cs[b]
    ensures FindParentCategoryTreeItemForCategory(TreeItem(v, children), cs[i]) == Some(i)
  {
    var r := FindParentCategoryTreeItemForCategory(TreeItem(v, children), cs[i]);
    assert children[i].value == CategoryValue(cs[i]);
  }

  /** The values of the category items below a Grouped parent: its categories, in order. */
  lemma GroupedValues(p: seq<BoundingShapeData>)
    ensures |Grouped(p)| == |Categories(p)|
    ensures forall k :: 0 <= k < |Grouped(p)| ==> Grouped(p)[k].value == CategoryValue(Categories(p)[k])
  {
  }

  /** Inserting a shape of a category not yet present below a Grouped parent. */
  lemma {:induction false} InsertNewCategory(v: ItemValue, p: seq<BoundingShapeData>, s: BoundingShapeData)
    requires s.category !in Categories(p)
    ensures AttachToCategoryItem(TreeItem(v, Grouped(p)), s.category, ShapeTreeItem(s)).children == Grouped(p + [s])
  {
    FindAbsentCategory(v, p, s.category);
    AttachToNewCategoryItem(TreeItem(v, Grouped(p)), s.category, ShapeTreeItem(s));
    GroupedSnocNewCategory(p, s);
  }

  /** Below a Grouped parent, a category that none of the shapes has has no item. */
  lemma {:induction false} FindAbsentCategory(v: ItemValue, p: seq<BoundingShapeData>, c: Category)
    requires c !in Categories(p)
    ensures FindParentCategoryTreeItemForCategory(TreeItem(v, Grouped(p)), c) == None
  {
    GroupedValues(p);
  }

  /** A shape of a new category adds one category item, holding only that shape, at the end. */
  lemma {:induction false} GroupedSnocNewCategory(p: seq<BoundingShapeData>, s: BoundingShapeData)
    requires s.category !in Categories(p)
    ensures Grouped(p + [s]) == Grouped(p) + [TreeItem(CategoryValue(s.category), [ShapeTreeItem(s)])]
  {
    var q := p + [s];
    assert q[..|q| - 1] == p;
    assert ShapeTreeItems([s]) == [ShapeTreeItem(s)];
    var cs, c := Categories(p), s.category;
    assert Categories(q) == cs + [c];
    AbsentCategoryHasNoShapes(p, c);
    assert OfCategory(q, c) == [s];
    CategoryItemsExtend(q, cs, c);
    CategoryItemsIgnoreOtherCategory(p, s, cs);
  }

  /** Inserting one more shape below an item whose children are Grouped(p) gives Grouped(p + [s]). */
  lemma InsertIntoGrouped(v: ItemValue, p: seq<BoundingShapeData>, s: BoundingShapeData)
    ensures Construct(TreeItem(v, Grouped(p)), s) == TreeItem(v, Grouped(p + [s]))
  {
    var cs := Categories(p);
    if s.category in cs {
      var i :| 0 <= i < |cs| && cs[i] == s.category;
      InsertKnownCategory(v, p, s, i);
    } else {
      InsertNewCategory(v, p, s);
    }
  }

  lemma ConstructAllUnfold(t: TreeItem, shapes: seq<BoundingShapeData>)
    requires shapes != []
    ensures ConstructAll(t, shapes) == ConstructAll(Construct(t, shapes[0]), shapes[1..])
  {
  }

  lemma {:induction false} ConstructAllIntoGrouped(v: ItemValue, p: seq<BoundingShapeData>, shapes: seq<BoundingShapeData>)
    ensures ConstructAll(TreeItem(v, Grouped(p)), shapes) == TreeItem(v, Grouped(p + shapes))
    decreases |shapes|
  {
    if shapes == [] {
      assert p + shapes == p;
    } else {
      var next := p + [shapes[0]];
      var t := TreeItem(v, Grouped(p));
      assert ConstructAll(t, shapes) == ConstructAll(TreeItem(v, Grouped(next)), shapes[1..]) by {
        ConstructAllUnfold(t, shapes);
        InsertIntoGrouped(v, p, shapes[0]);
      }
      ConstructAllIntoGrouped(v, next, shapes[1..]);
      SnocThenRest(p, shapes);
    }
  }

  lemma SnocThenRest(p: seq<BoundingShapeData>, shapes: seq<BoundingShapeData>)
    requires shapes != []
    ensures (p + [shapes[0]]) + shapes[1..] == p + shapes
  {
    assert shapes == [shapes[0]] + shapes[1..];
  }

  /** The tree built below any item from no children: one category item per category, in order of first appearance. */
  lemma ConstructAllGroups(v: ItemValue, shapes: seq<BoundingShapeData>)
    ensures ConstructAll(TreeItem(v, []), shapes) == TreeItem(v, Grouped(shapes))
  {
    assert Grouped([]) == [];
    ConstructAllIntoGrouped(v, [], shapes);
    assert [] + shapes == shapes;
  }

  /** A shape's item has one category item per category of its parts, in order of first appearance. */
  lemma ShapeTreeItemGroupsParts(s: BoundingShapeData)
    ensures ShapeTreeItem(s) == TreeItem(ShapeValue(FromData(s)), Grouped(s.parts))
  {
    ConstructAllGroups(ShapeValue(FromData(s)), s.parts);
  }

  lemma ShapeTreeItemsAppend(a: seq<BoundingShapeData>, b: seq<BoundingShapeData>)
    ensures ShapeTreeItems(a + b) == ShapeTreeItems(a) + ShapeTreeItems(b)
  {
    var l, r := ShapeTreeItems(a + b), ShapeTreeItems(a) + ShapeTreeItems(b);
    forall k | 0 <= k < |l| ensures l[k] == r[k] {
      if k < |a| {
        assert (a + b)[k] == a[k];
      } else {
        assert (a + b)[k] == b[k - |a|];
      }
    }
  }

  lemma {:induction false} GrandchildrenOfCategoryItems(shapes: seq<BoundingShapeData>, cs: seq<Category>)
    ensures Grandchildren(CategoryItems(shapes, cs)) == ShapeTreeItems(Concatenated(shapes, cs))
  {
    if cs != [] {
      var items := CategoryItems(shapes, cs);
      assert items[1..] == CategoryItems(shapes, cs[1..]);
      GrandchildrenOfCategoryItems(shapes, cs[1..]);
      var first := OfCategory(shapes, cs[0]);
      var rest := Concatenated(shapes, cs[1..]);
      assert items[0].children == ShapeTreeItems(first);
      assert Grandchildren(items) == items[0].children + Grandchildren(items[1..]);
      ShapeTreeItemsAppend(first, rest);
    } else {
      assert CategoryItems(shapes, cs) == [];
    }
  }

  lemma {:induction false} ConvertItemsAppend(a: seq<TreeItem>, b: seq<TreeItem>)
    requires ConvertItems(a).Success? && ConvertItems(b).Success?
    ensures ConvertItems(a + b) == Success(ConvertItems(a).value + ConvertItems(b).value)
  {
    var r := ConvertItems(a + b);
    assert forall k :: 0 <= k < |a + b| ==> TreeItemToBoundingShapeData((a + b)[k]).Success? by {
      forall k | 0 <= k < |a + b| ensures TreeItemToBoundingShapeData((a + b)[k]).Success? {
        if k >= |a| { assert (a + b)[k] == b[k - |a|]; }
      }
    }
    assert r.Success?;
    var expected := ConvertItems(a).value + ConvertItems(b).value;
    assert |r.value| == |expected|;
    forall k | 0 <= k < |a + b| ensures r.value[k] == expected[k] {
      if k >= |a| { assert (a + b)[k] == b[k - |a|]; }
    }
    assert r.value == expected;
  }

  lemma {:induction false} ConvertGroupsIsConvertGrandchildren(groups: seq<TreeItem>)
    ensures ConvertGroups(groups) == ConvertItems(Grandchildren(groups))
  {
    if groups != [] {
      ConvertGroupsIsConvertGrandchildren(groups[1..]);
      var head := groups[0].children;
      var tail := Grandchildren(groups[1..]);
      assert Grandchildren(groups) == head + tail;
      if ConvertItems(head).Success? && ConvertItems(tail).Success? {
        ConvertItemsAppend(head, tail);
      } else {
        ConvertItemsAppendFails(head, tail);
        var l, r := ConvertGroups(groups), ConvertItems(head + tail);
        assert l.Failure? && r.Failure?;
        assert l.error == InvalidTreeItemClassType == r.error;
      }
    }
  }

  lemma {:induction false} ConvertItemsAppendFails(a: seq<TreeItem>, b: seq<TreeItem>)
    requires ConvertItems(a).Failure? || ConvertItems(b).Failure?
    ensures ConvertItems(a + b).Failure?
  {
    if ConvertItems(a).Failure? {
      var k :| 0 <= k < |a| && TreeItemToBoundingShapeData(a[k]).Failure?;
      assert (a + b)[k] == a[k];
    } else {
      var k :| 0 <= k < |b| && TreeItemToBoundingShapeData(b[k]).Failure?;
      assert (a + b)[|a| + k] == b[k];
    }
  }

  /** The item built for s converts back to s with its parts regrouped. */
  ghost predicate ConvertsBack(s: BoundingShapeData)
  {
    TreeItemToBoundingShapeData(ShapeTreeItem(s)) == Success(Normalize(s))
  }

  lemma {:induction false} ConvertShapeTreeItems(shapes: seq<BoundingShapeData>)
    requires forall x :: x in shapes ==> ConvertsBack(x)
    ensures ConvertItems(ShapeTreeItems(shapes)) == Success(NormalizeAll(shapes))
  {
    var items := ShapeTreeItems(shapes);
    assert forall k :: 0 <= k < |items| ==> TreeItemToBoundingShapeData(items[k]) == Success(Normalize(shapes[k])) by {
      forall k | 0 <= k < |items| ensures TreeItemToBoundingShapeData(items[k]) == Success(Normalize(shapes[k])) {
        assert ConvertsBack(shapes[k]);
      }
    }
    var r := ConvertItems(items);
    assert r.Success?;
    assert r.value == NormalizeAll(shapes);
  }

  lemma {:induction false} NormalizeAllAppend(a: seq<BoundingShapeData>, b: seq<BoundingShapeData>)
    ensures NormalizeAll(a + b) == NormalizeAll(a) + NormalizeAll(b)
  {
    if a == [] {
      assert a + b == b;
    } else {
      assert (a + b)[1..] == a[1..] + b;
      NormalizeAllAppend(a[1..], b);
    }
  }

  lemma {:induction false} NormalizeAllKeepsCategories(shapes: seq<BoundingShapeData>)
    ensures Categories(NormalizeAll(shapes)) == Categories(shapes)
    ensures forall c :: OfCategory(NormalizeAll(shapes), c) == NormalizeAll(OfCategory(shapes, c))
    decreases |shapes|
  {
    if shapes != [] {
      var init := shapes[..|shapes| - 1];
      var last := shapes[|shapes| - 1];
      var n := NormalizeAll(shapes);
      assert n[..|n| - 1] == NormalizeAll(init);
      NormalizeAllKeepsCategories(init);
      forall c ensures OfCategory(n, c) == NormalizeAll(OfCategory(shapes, c)) {
        NormalizeAllAppend(OfCategory(init, c), if last.category == c then [last] else []);
      }
    }
  }

  lemma {:induction false} NormalizeAllConcatenated(shapes: seq<BoundingShapeData>, cs: seq<Category>)
    ensures NormalizeAll(Concatenated(shapes, cs)) == Concatenated(NormalizeAll(shapes), cs)
  {
    if cs != [] {
      NormalizeAllConcatenated(shapes, cs[1..]);
      NormalizeAllAppend(OfCategory(shapes, cs[0]), Concatenated(shapes, cs[1..]));
      NormalizeAllKeepsCategories(shapes);
    }
  }

  /** Extracting the shape items built for shapes (below category items) gives the regrouped shapes. */
  lemma ConvertGrouped(shapes: seq<BoundingShapeData>)
    requires forall x :: x in shapes ==> ConvertsBack(x)
    ensures ConvertItems(Grandchildren(Grouped(shapes))) == Success(Regroup(shapes))
  {
    var cs := Categories(shapes);
    GrandchildrenOfCategoryItems(shapes, cs);
    GroupByCategoryIsPermutation(shapes);
    forall x | x in GroupByCategory(shapes) ensures ConvertsBack(x) {
      assert x in multiset(GroupByCategory(shapes));
    }
    ConvertShapeTreeItems(GroupByCategory(shapes));
    NormalizeAllConcatenated(shapes, cs);
    NormalizeAllKeepsCategories(shapes);
  }

  lemma {:induction false} ShapeTreeItemConvertsBack(s: BoundingShapeData)
    ensures ConvertsBack(s)
    decreases s, 1
  {
    AllConvertBack(s.parts);
    ShapeTreeItemGroupsParts(s);
    var item := ShapeTreeItem(s);
    if s.parts == [] {
      assert Grouped([]) == [];
      assert NormalizeAll([]) == [];
      assert Regroup([]) == [];
    } else {
      assert s.parts[0].category in Categories(s.parts);
      assert !item.IsLeaf();
      ConvertGrouped(s.parts);
      ConvertGroupsIsConvertGrandchildren(item.children);
    }
  }

  lemma {:induction false} AllConvertBack(shapes: seq<BoundingShapeData>)
    ensures forall x :: x in shapes ==> ConvertsBack(x)
    decreases shapes, 0
  {
    if shapes != [] {
      ShapeTreeItemConvertsBack(shapes[0]);
      AllConvertBack(shapes[1..]);
      assert forall x :: x in shapes ==> x == shapes[0] || x in shapes[1..];
    }
  }

  /**
   * Round trip: building the tree from a list of shapes (extractViewsAndBuildTreeFromAnnotation
   * on a reset tree) and extracting it again (extractCurrentBoundingShapeData) gives the same
   * shapes, stably regrouped by category in order of first appearance, parts included.
   */
  lemma BuildThenExtract(shapes: seq<BoundingShapeData>)
    ensures ExtractCurrentBoundingShapeData(ConstructAll(EmptyRoot, shapes)) == Success(Regroup(shapes))
  {
    ConstructAllGroups(RootValue, shapes);
    AllConvertBack(shapes);
    ConvertGrouped(shapes);
    var g := Grandchildren(Grouped(shapes));
    GrandchildrenOfCategoryItems(shapes, Categories(shapes));
    OnlyShapeItemsKeepsShapeItems(g);
  }

  lemma {:induction false} OnlyShapeItemsKeepsShapeItems(items: seq<TreeItem>)
    requires forall k :: 0 <= k < |items| ==> items[k].value.ShapeValue?
    ensures OnlyShapeItems(items) == items
  {
    if items != [] {
      OnlyShapeItemsKeepsShapeItems(items[1..]);
    }
  }

  /** Round trip, as a permutation: the extracted top-level shapes are the inserted ones, each with its parts regrouped. */
  lemma BuildThenExtractKeepsShapes(shapes: seq<BoundingShapeData>)
    ensures var r := ExtractCurrentBoundingShapeData(ConstructAll(EmptyRoot, shapes));
      r.Success? && multiset(r.value) == multiset(NormalizeAll(shapes))
  {
    BuildThenExtract(shapes);
    GroupByCategoryIsPermutation(NormalizeAll(shapes));
  }
}
