/**
 * BoundingShapeTreeItemIterator: a depth-first walk of a tree with an explicit stack.
 * next() pops the top item and pushes its children in order, so the last child is
 * visited first. Visit gives the order of that walk; Preorder is the usual preorder,
 * children left to right, used as the reference for "every item exactly once".
 */
module TreeIterator {
  import opened Wrappers
  import opened Annotations
  import opened TreeItems

  /** The items the walk yields for the subtree t: t first, then the walk of its children as a stack. */
  function Visit(t: TreeItem): (r: seq<TreeItem>)
    decreases t, 1
    ensures r != [] && r[0] == t
  {
    [t] + VisitStack(t.children)
  }

  /** The items the walk yields from a stack whose top is the last element. */
  function VisitStack(stack: seq<TreeItem>): (r: seq<TreeItem>)
    decreases stack, 0
    ensures r == [] <==> stack == []
  {
    if stack == [] then []
    else Visit(stack[|stack| - 1]) + VisitStack(stack[..|stack| - 1])
  }

  /** The usual preorder: t, then the preorder of each child from first to last. */
  function Preorder(t: TreeItem): seq<TreeItem>
    decreases t, 1
  {
    [t] + PreorderAll(t.children)
  }

  function PreorderAll(items: seq<TreeItem>): seq<TreeItem>
    decreases items, 0
  {
    if items == [] then [] else Preorder(items[0]) + PreorderAll(items[1..])
  }

  lemma {:induction false} VisitStackAppend(a: seq<TreeItem>, b: seq<TreeItem>)
    ensures VisitStack(a + b) == VisitStack(b) + VisitStack(a)
    decreases |b|
  {
    if b == [] {
      assert a + b == a;
    } else {
      var ab := a + b;
      var b', x := b[..|b| - 1], b[|b| - 1];
      assert ab[..|ab| - 1] == a + b';
      assert ab[|ab| - 1] == x;
      calc {
        VisitStack(ab);
        Visit(x) + VisitStack(a + b');
        { VisitStackAppend(a, b'); }
        Visit(x) + (VisitStack(b') + VisitStack(a));
        (Visit(x) + VisitStack(b')) + VisitStack(a);
        VisitStack(b) + VisitStack(a);
      }
    }
  }

  lemma {:induction false} PreorderAllSnoc(items: seq<TreeItem>, t: TreeItem)
    ensures PreorderAll(items + [t]) == PreorderAll(items) + Preorder(t)
  {
    if items == [] {
      assert [t][1..] == [];
    } else {
      assert (items + [t])[1..] == items[1..] + [t];
      PreorderAllSnoc(items[1..], t);
    }
  }

  /** The walk yields every item of the subtree exactly once: it is a permutation of the preorder. */
  lemma {:induction false} VisitIsPermutationOfPreorder(t: TreeItem)
    ensures multiset(Visit(t)) == multiset(Preorder(t))
    decreases t, 1
  {
    VisitStackIsPermutationOfPreorder(t.children);
  }

  lemma {:induction false} VisitStackIsPermutationOfPreorder(stack: seq<TreeItem>)
    ensures multiset(VisitStack(stack)) == multiset(PreorderAll(stack))
    decreases stack, 0
  {
    if stack != [] {
      var init, top := stack[..|stack| - 1], stack[|stack| - 1];
      assert stack == init + [top];
      VisitIsPermutationOfPreorder(top);
      VisitStackIsPermutationOfPreorder(init);
      PreorderAllSnoc(init, top);
    }
  }

  /**
   * Each item comes before its descendants: wherever an item x occurs in the walk, the walk
   * of x's own subtree follows it contiguously from that position.
   */
  lemma {:induction false} VisitKeepsSubtreesTogether(t: TreeItem, i: nat)
    requires i < |Visit(t)|
    ensures i + |Visit(Visit(t)[i])| <= |Visit(t)|
    ensures Visit(t)[i..i + |Visit(Visit(t)[i])|] == Visit(Visit(t)[i])
    decreases t, 1
  {
    var w := Visit(t);
    if i == 0 {
      assert w[0..|w|] == w;
    } else {
      var rest := VisitStack(t.children);
      assert w == [t] + rest;
      VisitStackKeepsSubtreesTogether(t.children, i - 1);
      var x := rest[i - 1];
      assert w[i] == x;
      assert w[i..i + |Visit(x)|] == rest[i - 1..i - 1 + |Visit(x)|];
    }
  }

  lemma {:induction false} VisitStackKeepsSubtreesTogether(stack: seq<TreeItem>, i: nat)
    requires i < |VisitStack(stack)|
    ensures i + |Visit(VisitStack(stack)[i])| <= |VisitStack(stack)|
    ensures VisitStack(stack)[i..i + |Visit(VisitStack(stack)[i])|] == Visit(VisitStack(stack)[i])
    decreases stack, 0
  {
    var init, top := stack[..|stack| - 1], stack[|stack| - 1];
    var a, b := Visit(top), VisitStack(init);
    var w := VisitStack(stack);
    assert w == a + b;
    if i < |a| {
      VisitKeepsSubtreesTogether(top, i);
      SliceOfLeft(a, b, i, |Visit(a[i])|);
    } else {
      VisitStackKeepsSubtreesTogether(init, i - |a|);
      SliceOfRight(a, b, i - |a|, |Visit(b[i - |a|])|);
    }
  }

  /** A slice inside the left part of a + b is that slice of a. */
  lemma SliceOfLeft(a: seq<TreeItem>, b: seq<TreeItem>, j: nat, n: nat)
    requires j < |a| && j + n <= |a|
    ensures (a + b)[j] == a[j] && (a + b)[j..j + n] == a[j..j + n]
  {
  }

  /** A slice inside the right part of a + b is that slice of b. */
  lemma SliceOfRight(a: seq<TreeItem>, b: seq<TreeItem>, j: nat, n: nat)
    requires j < |b| && j + n <= |b|
    ensures (a + b)[|a| + j] == b[j] && (a + b)[|a| + j..|a| + j + n] == b[j..j + n]
  {
  }

  /** The exception next() throws on an exhausted iterator. */
  datatype IteratorError = NoSuchElement

  /**
   * The iterator: the stack (top last) of items still to visit. The ghost fields record
   * the item the walk started from and what has been yielded so far.
   */
  class BoundingShapeTreeItemIterator {
    var stack: seq<TreeItem>
    ghost var root: TreeItem
    ghost var yielded: seq<TreeItem>

    /** What has been yielded, followed by what the stack will yield, is the whole walk. */
    ghost predicate Valid()
      reads this
    {
      yielded + VisitStack(stack) == Visit(root)
    }

    /** A new iterator holds only the root on its stack. */
    constructor (root: TreeItem)
      ensures Valid() && this.root == root && yielded == [] && stack == [root]
    {
      stack := [root];
      this.root := root;
      yielded := [];
      new;
      assert [root][..0] == [];
    }

    /** hasNext: the stack is not empty, which is exactly when part of the walk is still to come. */
    function HasNext(): (b: bool)
      reads this
      requires Valid()
      ensures b <==> |yielded| < |Visit(root)|
    {
      stack != []
    }

    /**
     * next: the following item of the walk, its children pushed in order; NoSuchElement
     * (and no change) when the stack is empty.
     */
    method Next() returns (r: Result<TreeItem, IteratorError>)
      requires Valid()
      modifies this
      ensures Valid() && root == old(root)
      ensures old(stack) == [] ==> r == Failure(NoSuchElement) && stack == old(stack) && yielded == old(yielded)
      ensures old(stack) != [] ==>
                && r.Success?
                && r.value == Visit(root)[|old(yielded)|]
                && yielded == old(yielded) + [r.value]
                && stack == old(stack)[..|old(stack)| - 1] + r.value.children
    {
      if stack == [] {
        return Failure(NoSuchElement);
      }
      var item := stack[|stack| - 1];
      var rest := stack[..|stack| - 1];
      assert VisitStack(stack) == [item] + VisitStack(item.children) + VisitStack(rest);
      VisitStackAppend(rest, item.children);
      stack := rest + item.children;
      yielded := yielded + [item];
      r := Success(item);
      assert Visit(root) == old(yielded) + [item] + VisitStack(stack);
    }
  }

  /** IteratorUtils.toList over a new iterator: the whole walk from root, in order. */
  method ToList(root: TreeItem) returns (items: seq<TreeItem>)
    ensures items == Visit(root)
  {
    var it := new BoundingShapeTreeItemIterator(root);
    items := [];
    while it.HasNext()
      invariant it.Valid() && it.root == root && items == it.yielded
      decreases |Visit(root)| - |items|
    {
      var next := it.Next();
      items := items + [next.value];
    }
    assert it.yielded + VisitStack(it.stack) == Visit(root);
  }

  /** The values the items hold, in order. */
  function Values(items: seq<TreeItem>): (vs: seq<ItemValue>)
    ensures |vs| == |items| && forall k :: 0 <= k < |items| ==> vs[k] == items[k].value
  {
    seq(|items|, k requires 0 <= k < |items| => items[k].value)
  }

  /** The views of the items that are BoundingBoxTreeItems, in order. */
  function BoxViews(items: seq<TreeItem>): (r: seq<ShapeView>)
    ensures forall v :: v in r <==> exists x :: x in items && x.value == ShapeValue(v) && v.IsBox()
  {
    if items == [] then []
    else
      var head := items[0].value;
      (if head.ShapeValue? && head.view.IsBox() then [head.view] else []) + BoxViews(items[1..])
  }

  /** The views of the items that are BoundingPolygonTreeItems, in order. */
  function PolygonViews(items: seq<TreeItem>): (r: seq<ShapeView>)
    ensures forall v :: v in r <==> exists x :: x in items && x.value == ShapeValue(v) && v.IsPolygon()
  {
    if items == [] then []
    else
      var head := items[0].value;
      (if head.ShapeValue? && head.view.IsPolygon() then [head.view] else []) + PolygonViews(items[1..])
  }

  lemma ValuesUnfold(items: seq<TreeItem>)
    requires items != []
    ensures Values(items) == [items[0].value] + Values(items[1..])
  {
  }

  /** Each box view occurs as often as items hold it, and nothing else occurs. */
  lemma {:induction false} BoxViewsCounts(items: seq<TreeItem>)
    ensures forall v :: multiset(BoxViews(items))[v] == if v.IsBox() then multiset(Values(items))[ShapeValue(v)] else 0
  {
    if items != [] {
      ValuesUnfold(items);
      BoxViewsCounts(items[1..]);
    }
  }

  /** Each polygon view occurs as often as items hold it, and nothing else occurs. */
  lemma {:induction false} PolygonViewsCounts(items: seq<TreeItem>)
    ensures forall v :: multiset(PolygonViews(items))[v] == if v.IsPolygon() then multiset(Values(items))[ShapeValue(v)] else 0
  {
    if items != [] {
      ValuesUnfold(items);
      PolygonViewsCounts(items[1..]);
    }
  }

  /** The box views of a concatenation are those of each half, in order. */
  lemma {:induction false} BoxViewsAppend(a: seq<TreeItem>, b: seq<TreeItem>)
    ensures BoxViews(a + b) == BoxViews(a) + BoxViews(b)
  {
    if a == [] {
      assert a + b == b;
    } else {
      assert (a + b)[0] == a[0] && (a + b)[1..] == a[1..] + b;
      BoxViewsAppend(a[1..], b);
    }
  }

  /** The polygon views of a concatenation are those of each half, in order. */
  lemma {:induction false} PolygonViewsAppend(a: seq<TreeItem>, b: seq<TreeItem>)
    ensures PolygonViews(a + b) == PolygonViews(a) + PolygonViews(b)
  {
    if a == [] {
      assert a + b == b;
    } else {
      assert (a + b)[0] == a[0] && (a + b)[1..] == a[1..] + b;
      PolygonViewsAppend(a[1..], b);
    }
  }

  /**
   * getBoundingBoxViewsRecursively: a leaf gives its own view when it is a box item and
   * nothing otherwise; any other item gives the box views of the whole walk from it.
   * Both cases are the box views of the walk.
   */
  method GetBoundingBoxViewsRecursively(root: TreeItem) returns (views: seq<ShapeView>)
    ensures views == BoxViews(Visit(root))
  {
    if root.IsLeaf() {
      views := if root.value.ShapeValue? && root.value.view.IsBox() then [root.value.view] else [];
      assert Visit(root) == [root];
      assert Visit(root)[1..] == [];
    } else {
      var items := ToList(root);
      views := BoxViews(items);
    }
  }

  /** getBoundingPolygonViewsRecursively: as for boxes, with polygon items. */
  method GetBoundingPolygonViewsRecursively(root: TreeItem) returns (views: seq<ShapeView>)
    ensures views == PolygonViews(Visit(root))
  {
    if root.IsLeaf() {
      views := if root.value.ShapeValue? && root.value.view.IsPolygon() then [root.value.view] else [];
      assert Visit(root) == [root];
      assert Visit(root)[1..] == [];
    } else {
      var items := ToList(root);
      views := PolygonViews(items);
    }
  }
}
