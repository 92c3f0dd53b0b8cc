/**
 * The annotation values the bounding-box tree is built from and extracted to:
 * BoundingShapeData (a box or a polygon with a category and nested parts) and
 * the view a tree item displays.
 */
module Annotations {

  /** An object category. The tree only ever compares categories for equality. */
  type Category(==, !new)

  /** The geometric part of a shape: a BoundingBoxData or a BoundingPolygonData. */
  datatype Geometry =
    | Box(minX: real, minY: real, maxX: real, maxY: real)
    | Polygon(points: seq<real>)

  /** BoundingShapeData: a category, a geometry and the ordered list of nested parts. */
  datatype BoundingShapeData = BoundingShapeData(category: Category, geometry: Geometry, parts: seq<BoundingShapeData>)

  /**
   * A BoundingBoxView or BoundingPolygonView: the category and geometry of one shape.
   * A view does not hold the shape's parts; those live in the tree below the view's item.
   */
  datatype ShapeView = ShapeView(category: Category, geometry: Geometry)
  {
    predicate IsBox() { geometry.Box? }
    predicate IsPolygon() { geometry.Polygon? }
  }

  /** BoundingBoxView.fromData / BoundingPolygonView.fromData, taken as the identity on category and geometry. */
  function FromData(data: BoundingShapeData): (v: ShapeView)
    ensures v.category == data.category && v.geometry == data.geometry
  {
    ShapeView(data.category, data.geometry)
  }

  /** toBoundingShapeData: a fresh record for the view, without parts. */
  function ToData(view: ShapeView): (d: BoundingShapeData)
    ensures FromData(d) == view && d.parts == []
  {
    BoundingShapeData(view.category, view.geometry, [])
  }
}
