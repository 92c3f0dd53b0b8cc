/**
 * The order in which the bounding-box tree hands shapes back: a stable regrouping by
 * category, categories in order of first appearance, applied to the parts at every level.
 * Defined here on the data alone, independently of the tree.
 */
module ShapeGrouping {
  import opened Annotations

  /** The position of the first shape of category c among shapes; |shapes| when there is none. */
  function FirstIndexOf(shapes: seq<BoundingShapeData>, c: Category): (k: nat)
    ensures k <= |shapes|
    ensures k < |shapes| ==> shapes[k].category == c
    ensures forall j :: 0 <= j < k ==> shapes[j].category != c
  {
    if shapes == [] || shapes[0].category == c then 0 else 1 + FirstIndexOf(shapes[1..], c)
  }

  /** Appending a shape leaves the first shape of every category already present where it was. */
  lemma {:induction false} FirstIndexOfSnoc(init: seq<BoundingShapeData>, last: BoundingShapeData, c: Category)
    ensures FirstIndexOf(init, c) < |init| ==> FirstIndexOf(init + [last], c) == FirstIndexOf(init, c)
    ensures FirstIndexOf(init, c) == |init| ==> FirstIndexOf(init + [last], c) >= |init|
  {
    var shapes := init + [last];
    var k, k' := FirstIndexOf(init, c), FirstIndexOf(shapes, c);
    if k < |init| {
      assert shapes[k] == init[k];
    }
    if k' < |init| {
      assert shapes[k'] == init[k'];
    }
  }

  /** A category occurs among shapes exactly when its first shape lies within them. */
  lemma OccursIffFirstIndexInside(shapes: seq<BoundingShapeData>, c: Category)
    ensures (exists s :: s in shapes && s.category == c) <==> FirstIndexOf(shapes, c) < |shapes|
  {
    var k := FirstIndexOf(shapes, c);
    if k < |shapes| {
      assert shapes[k] in shapes;
    }
    if s :| s in shapes && s.category == c {
      var i :| 0 <= i < |shapes| && shapes[i] == s;
      assert i >= k;
    }
  }

  /** The categories of shapes, each once, in order of first appearance. */
  function Categories(shapes: seq<BoundingShapeData>): (cs: seq<Category>)
    ensures forall i, j :: 0 <= i < j < |cs| ==> cs[i] != cs[j]
    ensures forall c :: c in cs <==> exists s :: s in shapes && s.category == c
  {
    if shapes == [] then []
    else
      var init := shapes[..|shapes| - 1];
      var last := shapes[|shapes| - 1];
      assert shapes == init + [last];
      var cs := Categories(init);
      if last.category in cs then cs else cs + [last.category]
  }

  /** A category comes before another in Categories exactly when its first shape comes first. */
  lemma {:induction false} CategoriesInFirstAppearanceOrder(shapes: seq<BoundingShapeData>)
    ensures forall i, j :: 0 <= i < |Categories(shapes)| && 0 <= j < |Categories(shapes)| ==>
              (i < j <==> FirstIndexOf(shapes, Categories(shapes)[i]) < FirstIndexOf(shapes, Categories(shapes)[j]))
  {
    if shapes != [] {
      var init := shapes[..|shapes| - 1];
      var last := shapes[|shapes| - 1];
      assert shapes == init + [last];
      CategoriesInFirstAppearanceOrder(init);
      CategoriesSnocOrder(init, last, Categories(init));
    }
  }

  lemma CategoriesSnocOrder(init: seq<BoundingShapeData>, last: BoundingShapeData, cs: seq<Category>)
    requires forall c :: c in cs <==> exists s :: s in init && s.category == c
    requires forall i, j :: 0 <= i < j < |cs| ==> FirstIndexOf(init, cs[i]) < FirstIndexOf(init, cs[j])
    ensures forall i, j :: 0 <= i < j < |cs| ==> FirstIndexOf(init + [last], cs[i]) < FirstIndexOf(init + [last], cs[j])
    ensures last.category !in cs ==> forall i :: 0 <= i < |cs| ==>
              FirstIndexOf(init + [last], cs[i]) < FirstIndexOf(init + [last], last.category)
  {
    var shapes := init + [last];
    forall i | 0 <= i < |cs| ensures FirstIndexOf(init, cs[i]) < |init| && FirstIndexOf(shapes, cs[i]) == FirstIndexOf(init, cs[i]) {
      assert cs[i] in cs;
      OccursIffFirstIndexInside(init, cs[i]);
      FirstIndexOfSnoc(init, last, cs[i]);
    }
    if last.category !in cs {
      OccursIffFirstIndexInside(init, last.category);
      FirstIndexOfSnoc(init, last, last.category);
    }
  }

  /** The shapes of category c, in their original order. */
  function OfCategory(shapes: seq<BoundingShapeData>, c: Category): (r: seq<BoundingShapeData>)
    ensures forall x :: x in r <==> x in shapes && x.category == c
    ensures forall k :: 0 <= k < |r| ==> r[k].category == c
  {
    if shapes == [] then []
    else
      var init := shapes[..|shapes| - 1];
      var last := shapes[|shapes| - 1];
      assert shapes == init + [last];
      OfCategory(init, c) + (if last.category == c then [last] else [])
  }

  /** The shapes of category c are kept as often as they occur, and nothing else is. */
  lemma {:induction false} OfCategoryCounts(shapes: seq<BoundingShapeData>, c: Category)
    ensures forall x :: multiset(OfCategory(shapes, c))[x] == if x.category == c then multiset(shapes)[x] else 0
    decreases |shapes|
  {
    if shapes != [] {
      var init, last := shapes[..|shapes| - 1], shapes[|shapes| - 1];
      assert shapes == init + [last];
      OfCategoryCounts(init, c);
    }
  }

  /** The shapes of each category in cs, one category after the other. */
  function Concatenated(shapes: seq<BoundingShapeData>, cs: seq<Category>): seq<BoundingShapeData>
  {
    if cs == [] then [] else OfCategory(shapes, cs[0]) + Concatenated(shapes, cs[1..])
  }

  /** Stable grouping by category, in order of first appearance. */
  function GroupByCategory(shapes: seq<BoundingShapeData>): seq<BoundingShapeData>
  {
    Concatenated(shapes, Categories(shapes))
  }

  /** A shape with its parts regrouped, recursively. */
  function Normalize(shape: BoundingShapeData): (r: BoundingShapeData)
    decreases shape, 2
    ensures r.category == shape.category && r.geometry == shape.geometry
  {
    BoundingShapeData(shape.category, shape.geometry, Regroup(shape.parts))
  }

  function NormalizeAll(shapes: seq<BoundingShapeData>): (r: seq<BoundingShapeData>)
    decreases shapes, 0
    ensures |r| == |shapes| && forall i :: 0 <= i < |shapes| ==> r[i] == Normalize(shapes[i])
  {
    if shapes == [] then [] else [Normalize(shapes[0])] + NormalizeAll(shapes[1..])
  }

  /** Every shape normalized, then the list grouped by category. */
  function Regroup(shapes: seq<BoundingShapeData>): seq<BoundingShapeData>
    decreases shapes, 1
  {
    GroupByCategory(NormalizeAll(shapes))
  }

  lemma {:induction false} OfCategoryAppend(a: seq<BoundingShapeData>, b: seq<BoundingShapeData>, c: Category)
    ensures OfCategory(a + b, c) == OfCategory(a, c) + OfCategory(b, c)
    decreases |b|
  {
    if b != [] {
      var b', z := b[..|b| - 1], b[|b| - 1];
      var ab := a + b;
      assert ab[..|ab| - 1] == a + b' && ab[|ab| - 1] == z;
      var extra := if z.category == c then [z] else [];
      assert OfCategory(ab, c) == OfCategory(a + b', c) + extra;
      assert OfCategory(b, c) == OfCategory(b', c) + extra;
      OfCategoryAppend(a, b', c);
      var x, y := OfCategory(a, c), OfCategory(b', c);
      assert (x + y) + extra == x + (y + extra);
    } else {
      assert a + b == a;
    }
  }

  lemma {:induction false} OfCategoryTwice(shapes: seq<BoundingShapeData>, c: Category, d: Category)
    ensures OfCategory(OfCategory(shapes, c), d) == if c == d then OfCategory(shapes, c) else []
    decreases |shapes|
  {
    if shapes != [] {
      var init := shapes[..|shapes| - 1];
      var last := shapes[|shapes| - 1];
      OfCategoryTwice(init, c, d);
      var once := OfCategory(init, c);
      if last.category == c {
        assert OfCategory(shapes, c) == once + [last];
        OfCategoryAppend(once, [last], d);
        assert [last][..0] == [];
        assert OfCategory([last], d) == OfCategory([], d) + (if last.category == d then [last] else []);
      } else {
        assert OfCategory(shapes, c) == once;
      }
    }
  }

  lemma {:induction false} ConcatenatedOfCategory(shapes: seq<BoundingShapeData>, cs: seq<Category>, c: Category)
    requires forall i, j :: 0 <= i < j < |cs| ==> cs[i] != cs[j]
    ensures OfCategory(Concatenated(shapes, cs), c) == if c in cs then OfCategory(shapes, c) else []
  {
    if cs != [] {
      ConcatenatedOfCategory(shapes, cs[1..], c);
      OfCategoryAppend(OfCategory(shapes, cs[0]), Concatenated(shapes, cs[1..]), c);
      OfCategoryTwice(shapes, cs[0], c);
      assert c in cs <==> c == cs[0] || c in cs[1..];
    }
  }

  /** Regrouping is stable: the shapes of any one category keep their relative order. */
  lemma GroupByCategoryIsStable(shapes: seq<BoundingShapeData>, c: Category)
    ensures OfCategory(GroupByCategory(shapes), c) == OfCategory(shapes, c)
  {
    var cs := Categories(shapes);
    ConcatenatedOfCategory(shapes, cs, c);
    if c !in cs {
      AbsentCategoryHasNoShapes(shapes, c);
    }
  }

  lemma AbsentCategoryHasNoShapes(shapes: seq<BoundingShapeData>, c: Category)
    requires c !in Categories(shapes)
    ensures OfCategory(shapes, c) == []
  {
    var r := OfCategory(shapes, c);
    assert forall x :: x in r ==> x in shapes && x.category == c;
  }

  lemma {:induction false} ConcatenatedSnoc(shapes: seq<BoundingShapeData>, s: BoundingShapeData, cs: seq<Category>)
    requires forall i, j :: 0 <= i < j < |cs| ==> cs[i] != cs[j]
    ensures multiset(Concatenated(shapes + [s], cs))
         == multiset(Concatenated(shapes, cs)) + if s.category in cs then multiset{s} else multiset{}
  {
    if cs != [] {
      var q := shapes + [s];
      assert q[..|q| - 1] == shapes;
      var extra := if s.category == cs[0] then [s] else [];
      assert OfCategory(q, cs[0]) == OfCategory(shapes, cs[0]) + extra;
      ConcatenatedSnoc(shapes, s, cs[1..]);
      var later: multiset<BoundingShapeData> := if s.category in cs[1..] then multiset{s} else multiset{};
      assert s.category in cs <==> s.category == cs[0] || s.category in cs[1..];
      assert s.category == cs[0] ==> s.category !in cs[1..];
      assert multiset(extra) + later == if s.category in cs then multiset{s} else multiset{};
      MultisetRearrange(multiset(OfCategory(shapes, cs[0])), multiset(extra), multiset(Concatenated(shapes, cs[1..])), later);
    }
  }

  lemma MultisetRearrange(a: multiset<BoundingShapeData>, e: multiset<BoundingShapeData>, b: multiset<BoundingShapeData>, f: multiset<BoundingShapeData>)
    ensures (a + e) + (b + f) == (a + b) + (e + f)
  {
  }

  lemma {:induction false} ConcatenatedExtend(shapes: seq<BoundingShapeData>, cs: seq<Category>, c: Category)
    ensures Concatenated(shapes, cs + [c]) == Concatenated(shapes, cs) + OfCategory(shapes, c)
  {
    if cs == [] {
      assert [c][1..] == [];
    } else {
      assert (cs + [c])[1..] == cs[1..] + [c];
      ConcatenatedExtend(shapes, cs[1..], c);
    }
  }

  /** Regrouping is a permutation: no shape is lost or duplicated. */
  lemma {:induction false} GroupByCategoryIsPermutation(shapes: seq<BoundingShapeData>)
    ensures multiset(GroupByCategory(shapes)) == multiset(shapes)
    decreases |shapes|
  {
    if shapes != [] {
      var init := shapes[..|shapes| - 1];
      var s := shapes[|shapes| - 1];
      assert shapes == init + [s];
      GroupByCategoryIsPermutation(init);
      var cs := Categories(init);
      ConcatenatedSnoc(init, s, cs);
      if s.category in cs {
        assert Categories(shapes) == cs;
      } else {
        assert Categories(shapes) == cs + [s.category];
        ConcatenatedExtend(shapes, cs, s.category);
        AbsentCategoryHasNoShapes(init, s.category);
        assert OfCategory(shapes, s.category) == OfCategory(init, s.category) + [s];
      }
    }
  }

  /** The position of c in cs, a list that holds it. */
  function Rank(cs: seq<Category>, c: Category): (k: nat)
    requires c in cs
    ensures k < |cs| && cs[k] == c
  {
    if cs[0] == c then 0
    else
      assert cs == [cs[0]] + cs[1..];
      1 + Rank(cs[1..], c)
  }

  /** Behind a first category different from c, the rank of c is one more than in the rest. */
  lemma RankInRest(cs: seq<Category>, c: Category)
    requires cs != [] && c in cs[1..] && c != cs[0]
    ensures c in cs && Rank(cs, c) == 1 + Rank(cs[1..], c)
  {
    assert cs == [cs[0]] + cs[1..];
  }

  lemma {:induction false} ConcatenatedCategories(shapes: seq<BoundingShapeData>, cs: seq<Category>)
    ensures forall x :: x in Concatenated(shapes, cs) ==> x.category in cs
  {
    if cs != [] {
      ConcatenatedCategories(shapes, cs[1..]);
      assert cs == [cs[0]] + cs[1..];
    }
  }

  lemma {:induction false} ConcatenatedIsGrouped(shapes: seq<BoundingShapeData>, cs: seq<Category>)
    requires forall i, j :: 0 <= i < j < |cs| ==> cs[i] != cs[j]
    ensures forall x :: x in Concatenated(shapes, cs) ==> x.category in cs
    ensures forall i, j :: 0 <= i < j < |Concatenated(shapes, cs)| ==>
              Rank(cs, Concatenated(shapes, cs)[i].category) <= Rank(cs, Concatenated(shapes, cs)[j].category)
  {
    ConcatenatedCategories(shapes, cs);
    if cs != [] {
      var a, b := OfCategory(shapes, cs[0]), Concatenated(shapes, cs[1..]);
      ConcatenatedIsGrouped(shapes, cs[1..]);
      assert Concatenated(shapes, cs) == a + b;
      var r: seq<BoundingShapeData> := a + b;
      forall i, j | 0 <= i < j < |r| ensures Rank(cs, r[i].category) <= Rank(cs, r[j].category) {
        GroupedPair(cs, a, b, i, j);
      }
    }
  }

  lemma GroupedPair(cs: seq<Category>, a: seq<BoundingShapeData>, b: seq<BoundingShapeData>, i: nat, j: nat)
    requires cs != [] && forall p, q :: 0 <= p < q < |cs| ==> cs[p] != cs[q]
    requires forall k :: 0 <= k < |a| ==> a[k].category == cs[0]
    requires forall x :: x in b ==> x.category in cs[1..]
    requires forall p, q :: 0 <= p < q < |b| ==> Rank(cs[1..], b[p].category) <= Rank(cs[1..], b[q].category)
    requires i < j < |a + b|
    ensures (a + b)[i].category in cs && (a + b)[j].category in cs
    ensures Rank(cs, (a + b)[i].category) <= Rank(cs, (a + b)[j].category)
  {
    var r := a + b;
    if j < |a| {
      assert r[i] == a[i] && r[j] == a[j];
    } else if i < |a| {
      assert r[i] == a[i] && r[j] == b[j - |a|] && b[j - |a|] in b;
      assert cs[1..][Rank(cs[1..], r[j].category)] == r[j].category;
    } else {
      BothInRest(cs, b, i - |a|, j - |a|);
      assert r[i] == b[i - |a|] && r[j] == b[j - |a|];
    }
  }

  lemma BothInRest(cs: seq<Category>, b: seq<BoundingShapeData>, i: nat, j: nat)
    requires cs != [] && forall p, q :: 0 <= p < q < |cs| ==> cs[p] != cs[q]
    requires forall x :: x in b ==> x.category in cs[1..]
    requires forall p, q :: 0 <= p < q < |b| ==> Rank(cs[1..], b[p].category) <= Rank(cs[1..], b[q].category)
    requires i < j < |b|
    ensures b[i].category in cs && b[j].category in cs
    ensures Rank(cs, b[i].category) <= Rank(cs, b[j].category)
  {
    assert b[i] in b && b[j] in b;
    var m, n := Rank(cs[1..], b[i].category), Rank(cs[1..], b[j].category);
    assert cs[m + 1] == b[i].category && cs[n + 1] == b[j].category;
    RankInRest(cs, b[i].category);
    RankInRest(cs, b[j].category);
  }

  /**
   * Regrouping really groups: each shape's category is one of the categories, and along the
   * result the categories never go back to an earlier one in order of first appearance.
   */
  lemma GroupByCategoryIsGrouped(shapes: seq<BoundingShapeData>)
    ensures var cs, g := Categories(shapes), GroupByCategory(shapes);
      && (forall x :: x in g ==> x.category in cs)
      && forall i, j :: 0 <= i < j < |g| ==> Rank(cs, g[i].category) <= Rank(cs, g[j].category)
  {
    ConcatenatedIsGrouped(shapes, Categories(shapes));
  }
}
