/**
 * The older MainView (package BoundingboxEditor): the delete action of the explorer tree's
 * cells and the switch of the per-image selection-rectangle list.
 *
 * The explorer tree has a hidden root whose children are category items; their children
 * are the rectangle items, each showing one SelectionRectangle and a numeric id. The
 * rectangle list of each image is one shared list object: the per-image database and
 * the image pane's current list refer to the same object once it is loaded.
 */
module MainView {

  /** A SelectionRectangle. The lists below only compare rectangles for equality. */
  type SelectionRectangle(==, !new)

  /** The category an explorer category item stands for. */
  type CategoryName(==, !new)

  /** A SelectionRectangleTreeItem: a leaf showing a rectangle and its id within its category. */
  datatype RectangleItem = RectangleItem(rectangle: SelectionRectangle, id: int)

  /** A category item of the explorer tree and its rectangle items, in order. */
  datatype CategoryItem = CategoryItem(category: CategoryName, items: seq<RectangleItem>)

  /** The tree item of the cell whose delete action fires: none, a category item, or a rectangle item (by position). */
  datatype Cell = EmptyCell | CategoryCell(group: nat) | RectangleCell(group: nat, index: nat)

  /** Calls into the image pane's scene graph, whose code is not part of this model, in the order made. */
  datatype PaneCall =
    | RemovedFromScene(rectangles: seq<SelectionRectangle>)
    | AddedToScene(rectangles: seq<SelectionRectangle>)

  /** An ObservableList<SelectionRectangle>, shared by reference. */
  class RectangleList {
    var rectangles: seq<SelectionRectangle>

    /** FXCollections.observableArrayList(): a new empty list. */
    constructor ()
      ensures rectangles == []
    {
      rectangles := [];
    }
  }

  /** The position of the first occurrence of x in s, which holds it (List.indexOf). */
  function FirstIndex(s: seq<SelectionRectangle>, x: SelectionRectangle): (i: nat)
    requires x in s
    ensures i < |s| && s[i] == x && x !in s[..i]
  {
    if s[0] == x then 0
    else
      assert s == [s[0]] + s[1..];
      var i := 1 + FirstIndex(s[1..], x);
      assert s[..i] == [s[0]] + s[1..][..i - 1];
      i
  }

  /** List.remove(Object): s without the first occurrence of x, the rest in order; s itself when x does not occur. */
  function RemoveFirst(s: seq<SelectionRectangle>, x: SelectionRectangle): (r: seq<SelectionRectangle>)
    ensures x in s ==> |r| == |s| - 1
    ensures x in s ==> r == s[..FirstIndex(s, x)] + s[FirstIndex(s, x) + 1..]
    ensures x !in s ==> r == s
  {
    if s == [] then []
    else if s[0] == x then s[1..]
    else
      var r := [s[0]] + RemoveFirst(s[1..], x);
      if x in s[1..] then
        var i := FirstIndex(s[1..], x);
        assert FirstIndex(s, x) == i + 1;
        ConsOfSlices(s, i);
        r
      else
        assert x !in s by { assert s == [s[0]] + s[1..]; }
        r
  }

  lemma ConsOfSlices(s: seq<SelectionRectangle>, i: nat)
    requires i + 1 < |s|
    ensures [s[0]] + (s[1..][..i] + s[1..][i + 1..]) == s[..i + 1] + s[i + 2..]
  {
    assert s[..i + 1] == [s[0]] + s[1..][..i];
    assert s[i + 2..] == s[1..][i + 1..];
  }

  /** Removing a present rectangle takes exactly one copy of it out of the list. */
  lemma RemoveFirstRemovesOne(s: seq<SelectionRectangle>, x: SelectionRectangle)
    requires x in s
    ensures multiset(RemoveFirst(s, x)) == multiset(s) - multiset{x}
  {
    var i := FirstIndex(s, x);
    var before, after := s[..i], s[i + 1..];
    assert s == before + [x] + after;
    assert multiset(s) == multiset(before) + multiset{x} + multiset(after);
    assert multiset(RemoveFirst(s, x)) == multiset(before) + multiset(after);
  }

  /** Everything before the first occurrence of the removed rectangle stays in place. */
  lemma {:induction false} RemoveFirstKeepsPrefix(s: seq<SelectionRectangle>, x: SelectionRectangle, k: nat)
    requires k < |s| && forall j :: 0 <= j <= k ==> s[j] != x
    ensures k < |RemoveFirst(s, x)| && RemoveFirst(s, x)[k] == s[k]
  {
    assert s[0] != x;
    if k > 0 {
      RemoveFirstKeepsPrefix(s[1..], x, k - 1);
    }
  }

  /** The rectangles the given items show, in order. */
  function Rectangles(items: seq<RectangleItem>): (r: seq<SelectionRectangle>)
    ensures |r| == |items| && forall k :: 0 <= k < |items| ==> r[k] == items[k].rectangle
  {
    seq(|items|, k requires 0 <= k < |items| => items[k].rectangle)
  }

  /** s after List.remove of each of xs in turn. */
  function RemoveEach(s: seq<SelectionRectangle>, xs: seq<SelectionRectangle>): seq<SelectionRectangle>
    decreases xs
  {
    if xs == [] then s else RemoveEach(RemoveFirst(s, xs[0]), xs[1..])
  }

  /** Removing each of xs in turn takes exactly one copy of each of them out of s, where s has one. */
  lemma {:induction false} RemoveEachIsMultisetDifference(s: seq<SelectionRectangle>, xs: seq<SelectionRectangle>)
    ensures multiset(RemoveEach(s, xs)) == multiset(s) - multiset(xs)
    decreases xs
  {
    if xs != [] {
      var x := xs[0];
      RemoveEachIsMultisetDifference(RemoveFirst(s, x), xs[1..]);
      assert xs == [x] + xs[1..];
      assert multiset(xs) == multiset{x} + multiset(xs[1..]);
      RemoveFirstMultiset(s, x);
      DifferenceOfSum(multiset(s), multiset{x}, multiset(xs[1..]));
    }
  }

  /** List.remove takes one copy of x out of the list, or nothing when there is none. */
  lemma RemoveFirstMultiset(s: seq<SelectionRectangle>, x: SelectionRectangle)
    ensures multiset(RemoveFirst(s, x)) == multiset(s) - multiset{x}
  {
    if x in s {
      RemoveFirstRemovesOne(s, x);
    } else {
      var a := multiset(s);
      forall y ensures (a - multiset{x})[y] == a[y] {
        if y == x {
          assert a[y] == 0;
        }
      }
    }
  }

  lemma DifferenceOfSum(a: multiset<SelectionRectangle>, b: multiset<SelectionRectangle>, c: multiset<SelectionRectangle>)
    ensures (a - b) - c == a - (b + c)
  {
    forall y ensures ((a - b) - c)[y] == (a - (b + c))[y] {
    }
  }

  /**
   * The siblings of the deleted rectangle item after the delete action: the earlier ones
   * unchanged, the item itself gone, every later one moved up one place with its id one lower.
   */
  function SiblingsAfterDelete(items: seq<RectangleItem>, k: nat): (r: seq<RectangleItem>)
    requires k < |items|
    ensures |r| == |items| - 1
    ensures forall j :: 0 <= j < k ==> r[j] == items[j]
    ensures forall j :: k <= j < |r| ==> r[j] == RectangleItem(items[j + 1].rectangle, items[j + 1].id - 1)
  {
    items[..k] + seq(|items| - k - 1, j requires 0 <= j < |items| - k - 1 => items[k + 1 + j].(id := items[k + 1 + j].id - 1))
  }

  /** The ids of a category's rectangle items are 1, 2, ..., N in order. */
  predicate ConsecutiveIds(items: seq<RectangleItem>)
  {
    forall j :: 0 <= j < |items| ==> items[j].id == j + 1
  }

  /** Deleting a rectangle item whose siblings were numbered 1..N leaves them numbered 1..N-1. */
  lemma DeleteKeepsIdsConsecutive(items: seq<RectangleItem>, k: nat)
    requires k < |items| && ConsecutiveIds(items)
    ensures ConsecutiveIds(SiblingsAfterDelete(items, k))
  {
    var r := SiblingsAfterDelete(items, k);
    forall j | 0 <= j < |r| ensures r[j].id == j + 1 {
      if j >= k {
        assert r[j].id == items[j + 1].id - 1;
      }
    }
  }

  /** r is groups without its item at position g: every other item kept, in order. */
  predicate RemovedAt(r: seq<CategoryItem>, groups: seq<CategoryItem>, g: nat)
  {
    && g < |groups| && |r| == |groups| - 1
    && (forall h :: 0 <= h < g ==> r[h] == groups[h])
    && forall h :: g < h < |groups| ==> r[h - 1] == groups[h]
  }

  /**
   * The category items after deleting the item of a cell. An empty cell changes nothing; a
   * category item leaves the root; a rectangle item leaves its category item, whose later
   * items move up with their ids one lower, and the category item leaves the root when that
   * was its last item.
   */
  function CategoryItemsAfterDelete(groups: seq<CategoryItem>, cell: Cell): (r: seq<CategoryItem>)
    requires cell.CategoryCell? ==> cell.group < |groups|
    requires cell.RectangleCell? ==> cell.group < |groups| && cell.index < |groups[cell.group].items|
    ensures cell.EmptyCell? ==> r == groups
    ensures cell.CategoryCell? ==> RemovedAt(r, groups, cell.group)
    ensures cell.RectangleCell? && |groups[cell.group].items| == 1 ==> RemovedAt(r, groups, cell.group)
    ensures cell.RectangleCell? && |groups[cell.group].items| > 1 ==>
              && |r| == |groups|
              && r[cell.group] == CategoryItem(groups[cell.group].category, SiblingsAfterDelete(groups[cell.group].items, cell.index))
              && forall h :: 0 <= h < |groups| && h != cell.group ==> r[h] == groups[h]
  {
    match cell
    case EmptyCell => groups
    case CategoryCell(g) => groups[..g] + groups[g + 1..]
    case RectangleCell(g, k) =>
      var siblings := SiblingsAfterDelete(groups[g].items, k);
      if siblings == [] then groups[..g] + groups[g + 1..]
      else groups[g := groups[g].(items := siblings)]
  }

  /** The rectangles the delete action removes from the current list, in the order it removes them. */
  function RectanglesRemovedByDelete(groups: seq<CategoryItem>, cell: Cell): (r: seq<SelectionRectangle>)
    requires cell.CategoryCell? ==> cell.group < |groups|
    requires cell.RectangleCell? ==> cell.group < |groups| && cell.index < |groups[cell.group].items|
    ensures cell.EmptyCell? ==> r == []
    ensures cell.CategoryCell? ==>
              && |r| == |groups[cell.group].items|
              && forall j :: 0 <= j < |r| ==> r[j] == groups[cell.group].items[j].rectangle
    ensures cell.RectangleCell? ==> r == [groups[cell.group].items[cell.index].rectangle]
  {
    match cell
    case EmptyCell => []
    case CategoryCell(g) => Rectangles(groups[g].items)
    case RectangleCell(g, k) => [groups[g].items[k].rectangle]
  }

  /** Deleting a rectangle item leaves every other category item in place, and removes its own only when it empties. */
  lemma DeleteCollapsesOneLevel(groups: seq<CategoryItem>, g: nat, k: nat)
    requires g < |groups| && k < |groups[g].items|
    ensures var r := CategoryItemsAfterDelete(groups, RectangleCell(g, k));
      && (|groups[g].items| == 1 <==> |r| == |groups| - 1)
      && (|groups[g].items| > 1 <==> |r| == |groups|)
      && forall h :: 0 <= h < |groups| && h != g ==> groups[h] in r
  {
    var r := CategoryItemsAfterDelete(groups, RectangleCell(g, k));
    forall h | 0 <= h < |groups| && h != g ensures groups[h] in r {
      if |groups[g].items| == 1 {
        if h < g {
          assert r[h] == groups[h];
        } else {
          assert r[h - 1] == groups[h];
        }
      } else {
        assert r[h] == groups[h];
      }
    }
  }

  /** The state of the older main view that the two operations touch. */
  class MainView {
    /** The children of the explorer tree's root. */
    var categoryItems: seq<CategoryItem>
    /** imagePaneView.getSelectionRectangleList(): the list of the image on display. */
    var current: RectangleList
    /** imagePaneView.getImageSelectionRectangles(): one list per image, null until first loaded. */
    var database: seq<RectangleList?>
    /** The calls made into the image pane's scene graph. */
    var paneCalls: seq<PaneCall>

    constructor (database: seq<RectangleList?>)
      ensures categoryItems == [] && current.rectangles == [] && this.database == database && paneCalls == []
      ensures fresh(current)
    {
      categoryItems := [];
      current := new RectangleList();
      this.database := database;
      paneCalls := [];
    }

    /**
     * The delete action of an explorer cell. An empty cell changes nothing. Otherwise the
     * rectangles of the item's children leave the current list and its children are
     * cleared; later siblings of a rectangle item get their id decremented; the item leaves
     * its parent and its rectangle leaves the current list; a category item left empty is
     * removed from the root.
     */
    method DeleteSelectionRectangleItem(cell: Cell)
      requires cell.CategoryCell? ==> cell.group < |categoryItems|
      requires cell.RectangleCell? ==> cell.group < |categoryItems| && cell.index < |categoryItems[cell.group].items|
      modifies this, current
      ensures categoryItems == CategoryItemsAfterDelete(old(categoryItems), cell)
      ensures current == old(current)
      ensures current.rectangles == RemoveEach(old(current.rectangles), RectanglesRemovedByDelete(old(categoryItems), cell))
      ensures database == old(database) && paneCalls == old(paneCalls)
    {
      match cell
      case EmptyCell =>
      case CategoryCell(g) =>
        DeleteCategoryItem(g);
      case RectangleCell(g, k) =>
        DeleteRectangleItem(g, k);
    }

    /** The delete action on a category item: its rectangles leave the current list, then the item leaves the root. */
    method DeleteCategoryItem(g: nat)
      requires g < |categoryItems|
      modifies this, current
      ensures categoryItems == old(categoryItems)[..g] + old(categoryItems)[g + 1..]
      ensures current == old(current)
      ensures current.rectangles == RemoveEach(old(current.rectangles), Rectangles(old(categoryItems)[g].items))
      ensures database == old(database) && paneCalls == old(paneCalls)
    {
      var children := categoryItems[g].items;
      ghost var was := current.rectangles;
      var i := 0;
      while i < |children|
        invariant 0 <= i <= |children|
        invariant current == old(current) && categoryItems == old(categoryItems)
        invariant database == old(database) && paneCalls == old(paneCalls)
        invariant current.rectangles == RemoveEach(was, Rectangles(children[..i]))
      {
        assert Rectangles(children[..i + 1]) == Rectangles(children[..i]) + [children[i].rectangle];
        RemoveEachSnoc(was, Rectangles(children[..i]), children[i].rectangle);
        current.rectangles := RemoveFirst(current.rectangles, children[i].rectangle);
        i := i + 1;
      }
      assert children[..i] == children;
      categoryItems := categoryItems[g := categoryItems[g].(items := [])];
      categoryItems := categoryItems[..g] + categoryItems[g + 1..];
    }

    /**
     * The delete action on a rectangle item: every later sibling's id is decremented, the
     * item leaves its category item and its rectangle the current list, and the category
     * item leaves the root when it has no items left.
     */
    method DeleteRectangleItem(g: nat, k: nat)
      requires g < |categoryItems| && k < |categoryItems[g].items|
      modifies this, current
      ensures var siblings := SiblingsAfterDelete(old(categoryItems)[g].items, k);
        categoryItems == if siblings == [] then old(categoryItems)[..g] + old(categoryItems)[g + 1..]
                         else old(categoryItems)[g := CategoryItem(old(categoryItems)[g].category, siblings)]
      ensures current == old(current)
      ensures current.rectangles == RemoveFirst(old(current.rectangles), old(categoryItems)[g].items[k].rectangle)
      ensures database == old(database) && paneCalls == old(paneCalls)
    {
      var siblings := categoryItems[g].items;
      ghost var items := siblings;
      var rectangle := siblings[k].rectangle;
      var i := k + 1;
      while i < |siblings|
        invariant k + 1 <= i <= |siblings| == |items|
        invariant forall j :: 0 <= j <= k ==> siblings[j] == items[j]
        invariant forall j :: k < j < i ==> siblings[j] == RectangleItem(items[j].rectangle, items[j].id - 1)
        invariant forall j :: i <= j < |siblings| ==> siblings[j] == items[j]
      {
        siblings := siblings[i := siblings[i].(id := siblings[i].id - 1)];
        i := i + 1;
      }
      siblings := siblings[..k] + siblings[k + 1..];
      assert siblings == SiblingsAfterDelete(items, k);
      categoryItems := categoryItems[g := categoryItems[g].(items := siblings)];
      current.rectangles := RemoveFirst(current.rectangles, rectangle);
      if siblings == [] {
        categoryItems := categoryItems[..g] + categoryItems[g + 1..];
      }
    }

    /**
     * loadSelectionRectangleList: false, with nothing changed, where the database has no
     * entry at index (IndexOutOfBoundsException). Otherwise the current rectangles are
     * removed from the scene first; then a missing (null) entry gets a new empty list,
     * stored at index and made current, and an existing entry is made current itself and
     * its rectangles are added to the scene and to the explorer tree. addToExplorer stands
     * for the explorer view's addTreeItemsFromSelectionRectangles.
     */
    method LoadSelectionRectangleList(index: int, addToExplorer: (seq<CategoryItem>, seq<SelectionRectangle>) -> seq<CategoryItem>)
      returns (ok: bool)
      modifies this
      ensures ok <==> 0 <= index < |old(database)|
      ensures !ok ==> categoryItems == old(categoryItems) && current == old(current)
                      && database == old(database) && paneCalls == old(paneCalls)
      ensures ok && old(database)[index] == null ==>
                && fresh(current) && current.rectangles == []
                && database == old(database)[index := current]
                && paneCalls == old(paneCalls) + [RemovedFromScene(old(current.rectangles))]
                && categoryItems == old(categoryItems)
      ensures ok && old(database)[index] != null ==>
                && current == old(database)[index]
                && database == old(database)
                && paneCalls == old(paneCalls) + [RemovedFromScene(old(current.rectangles)), AddedToScene(current.rectangles)]
                && categoryItems == addToExplorer(old(categoryItems), current.rectangles)
    {
      if !(0 <= index < |database|) {
        return false;
      }
      var loaded := database[index];
      paneCalls := paneCalls + [RemovedFromScene(current.rectangles)];
      if loaded == null {
        var created := new RectangleList();
        database := database[index := created];
        current := created;
      } else {
        current := loaded;
        paneCalls := paneCalls + [AddedToScene(loaded.rectangles)];
        categoryItems := addToExplorer(categoryItems, loaded.rectangles);
      }
      ok := true;
    }
  }

  lemma {:induction false} RemoveEachSnoc(s: seq<SelectionRectangle>, xs: seq<SelectionRectangle>, x: SelectionRectangle)
    ensures RemoveEach(s, xs + [x]) == RemoveFirst(RemoveEach(s, xs), x)
    decreases |xs|
  {
    if xs == [] {
      assert [x][1..] == [];
    } else {
      assert (xs + [x])[1..] == xs[1..] + [x];
      RemoveEachSnoc(RemoveFirst(s, xs[0]), xs[1..], x);
    }
  }
}
