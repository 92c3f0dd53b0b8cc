# BoundingBoxEditor core, modelled in Dafny

A model of the core of BoundingBoxEditor, a JavaFX tool for drawing bounding boxes and
polygons on images and saving them as annotations. The model covers five parts.

- **The bounding-box tree view** (`BoundingBoxTreeView`). The tree has a hidden root. The
  root's children are category items (`ObjectCategoryTreeItem`), one per object category.
  Their children are shape items (box or polygon). A shape's nested parts hang below its
  item in the same way: category items, then shape items.
  - `constructTreeFromBoundingShapeData` builds the tree from nested `BoundingShapeData`.
  - `extractCurrentBoundingShapeData` / `treeItemToBoundingShapeData` read it back.
  - `createTreeItemFrom…View` adds leaves for views.
  - `BoundingShapeTreeItemIterator` walks the tree with an explicit stack.
- **The older main view** (`MainView`, package `BoundingboxEditor`):
  - the delete action of an explorer-tree cell;
  - the switch between the per-image selection-rectangle lists (`loadSelectionRectangleList`).
- **`ImageMetaData`**: the two constructors, `fromFile` with the image reader reduced to its
  three outcomes, the getters, `hasDetails`, and `equals`/`hashCode`.
- **`ImageAnnotationsSaveStrategy.createStrategy`**: the factory from format tag to strategy kind.
- **`ImageAnnotationsSavingSuccessfulEvent`**: the status message after a save.

Files:

- `wrappers.dfy`: `Option`, `Result`.
- `annotations.dfy`: shape data and views.
- `tree_items.dfy`: tree items, tree construction and extraction.
- `shape_grouping.dfy`: the regrouping by category that the tree imposes, defined on the data alone.
- `tree_round_trip.dfy`: build-then-extract returns the regrouped shapes.
- `tree_shape.dfy`: the alternating, grouped shape of the tree is kept by every operation.
- `tree_iterator.dfy`: the iterator class and the walk it performs.
- `tree_view.dfy`: the tree-view class.
- `main_view.dfy`: the older main view.
- `image_meta_data.dfy`, `save_strategy.dfy`, `saving_event.dfy`: the remaining three parts.

Modelling choices:

- **Tree items are values.** A rose tree `TreeItem(value, children)` stands for them. The
  tree view and the iterator are classes whose methods reassign their fields.
- **Grouping reference.** Building the tree groups the shapes below each item by category,
  in order of first appearance. `ShapeGrouping.Regroup` states that grouping independently
  of the tree. The round trip is proved against it: extraction returns every inserted shape
  once, with its parts, grouped in that way.
- **Walk order.** The iterator pops the top of the stack and pushes its children in order,
  so it visits the last child first. `TreeIterator.Visit` is that order.
  `TreeIterator.Preorder` is the usual preorder, and is the reference for "every item
  exactly once".
- **Older main view.** The per-image lists are objects (`MainView.RectangleList`). After a
  load, the database entry and the image pane's current list are the same object, as in the
  source.
- **Calls into code not shown.** The image pane's scene graph is code that is not part of
  this model. The calls made into it are recorded, in the order made, in `paneCalls`. The
  explorer view's `addTreeItemsFromSelectionRectangles` is not part of this model either:
  `loadSelectionRectangleList` takes it as a function parameter from the old category items
  and the loaded rectangles to the new category items.
- **Java doubles** in `ImageMetaData` are held as their `Double.doubleToLongBits` pattern.
  `Double.compare(a, b) == 0` is then equality of patterns. `Double.hashCode` and the
  int-wrapping arithmetic of `Objects.hash` and `String.hashCode` are written out exactly.

## Model

| member | source | states |
|---|---|---|
| Annotations.FromData | src/main/java/boundingboxeditor/ui/BoundingBoxTreeView.java:270 | the view built for a shape has the shape's category and geometry |
| Annotations.ToData | src/main/java/boundingboxeditor/ui/BoundingBoxTreeView.java:293 | the record built for a view has no parts and gives the same view back |
| TreeItems.IndexOfValue | src/main/java/boundingboxeditor/ui/BoundingBoxTreeView.java:205-208 | the first position holding the value, every earlier one holding another; none exactly when no position holds it |
| TreeItems.FindParentCategoryTreeItemForCategory | src/main/java/boundingboxeditor/ui/BoundingBoxTreeView.java:204-209 | the first direct child whose value is the category, or none exactly when no direct child has it (nothing deeper is searched) |
| TreeItems.AttachToCategoryItem | src/main/java/boundingboxeditor/ui/BoundingBoxTreeView.java:231-243 | the parent keeps its value and the values of its children; one category item is added exactly when none existed; afterwards the category's item exists and ends with the attached item |
| TreeItems.AttachToExistingCategoryItem | src/main/java/boundingboxeditor/ui/BoundingBoxTreeView.java:233-236 | with a category item present, only that item changes, by one appended child |
| TreeItems.AttachToNewCategoryItem | src/main/java/boundingboxeditor/ui/BoundingBoxTreeView.java:237-241 | with none present, one new category item holding just the item is appended at the end |
| TreeItems.AttachAddsOneGrandchild | src/main/java/boundingboxeditor/ui/BoundingBoxTreeView.java:231-243 | attaching adds exactly the attached item to the parent's grandchildren |
| TreeItems.CreateTreeItemFromView | src/main/java/boundingboxeditor/ui/BoundingBoxTreeView.java:231-257 | the parent keeps its value |
| TreeItems.CreateTreeItemAddsOneLeaf | src/main/java/boundingboxeditor/ui/BoundingBoxTreeView.java:231-257 | creating the item for a view adds one leaf for it two levels down, and nothing else |
| TreeItems.ShapeTreeItem | src/main/java/boundingboxeditor/ui/BoundingBoxTreeView.java:270-275 | the item built for a shape shows the shape's view |
| TreeItems.Construct | src/main/java/boundingboxeditor/ui/BoundingBoxTreeView.java:259-286 | the parent keeps its value |
| TreeItems.ConstructAll | src/main/java/boundingboxeditor/ui/BoundingBoxTreeView.java:259-286 | the parent keeps its value |
| TreeItems.ShapeTreeItems | src/main/java/boundingboxeditor/ui/BoundingBoxTreeView.java:259-286 | element by element the item built for each shape |
| TreeItems.ConstructGrandchildren | src/main/java/boundingboxeditor/ui/BoundingBoxTreeView.java:259-286 | inserting a shape adds its item two levels down, and nothing else |
| TreeItems.ConstructAllGrandchildren | src/main/java/boundingboxeditor/ui/BoundingBoxTreeView.java:259-286 | inserting shapes in order adds exactly their items two levels down, and nothing else |
| TreeItems.ShapeTreeItemGrandchildren | src/main/java/boundingboxeditor/ui/BoundingBoxTreeView.java:270-275 | the items two levels below a shape's item are exactly the items of its parts |
| TreeItems.OnlyShapeItems | src/main/java/boundingboxeditor/ui/BoundingBoxTreeView.java:70 | keeps exactly the shape items, each drawn from the input |
| TreeItems.OnlyShapeItemsCounts | src/main/java/boundingboxeditor/ui/BoundingBoxTreeView.java:70 | each shape item is kept as often as it occurs, every other item dropped |
| TreeItems.OnlyShapeItemsAppend | src/main/java/boundingboxeditor/ui/BoundingBoxTreeView.java:70 | filtering a concatenation filters each half, in order |

| TreeItems.TreeItemToBoundingShapeData | src/main/java/boundingboxeditor/ui/BoundingBoxTreeView.java:288-306 | a non-shape item fails with the IllegalStateException; a leaf gives the view's fresh record; a success describes the item, and its parts describe the items two levels below |
| TreeItems.ConvertGroups | src/main/java/boundingboxeditor/ui/BoundingBoxTreeView.java:296-300 | a success describes every grandchild in order |
| TreeItems.ConvertItems | src/main/java/boundingboxeditor/ui/BoundingBoxTreeView.java:299-300 | succeeds exactly when every item converts, and then describes every item in order |
| TreeItems.ExtractCurrentBoundingShapeData | src/main/java/boundingboxeditor/ui/BoundingBoxTreeView.java:66-73 | succeeds exactly when every shape item below the root's category items converts, and then describes those items in order |
| ShapeGrouping.Categories | src/main/java/boundingboxeditor/ui/BoundingBoxTreeView.java:260-265 | each category of the shapes once, and nothing else |
| ShapeGrouping.FirstIndexOf | src/main/java/boundingboxeditor/ui/BoundingBoxTreeView.java:260-265 | the position of the first shape of the category, or the length when there is none |
| ShapeGrouping.CategoriesInFirstAppearanceOrder | src/main/java/boundingboxeditor/ui/BoundingBoxTreeView.java:260-265 | one category comes before another exactly when its first shape comes before the other's |

| ShapeGrouping.OfCategory | src/main/java/boundingboxeditor/ui/BoundingBoxTreeView.java:274 | exactly the shapes of that category, and only shapes of it |
| ShapeGrouping.OfCategoryCounts | src/main/java/boundingboxeditor/ui/BoundingBoxTreeView.java:274 | each shape of the category is kept as often as it occurs, every other shape dropped |

| ShapeGrouping.Normalize | src/main/java/boundingboxeditor/ui/BoundingBoxTreeView.java:275 | the category and geometry are unchanged |
| ShapeGrouping.NormalizeAll | src/main/java/boundingboxeditor/ui/BoundingBoxTreeView.java:275 | element by element the normalized shape |
| ShapeGrouping.GroupByCategoryIsStable | src/main/java/boundingboxeditor/ui/BoundingBoxTreeView.java:260-265 | the shapes of any one category keep their relative order |
| ShapeGrouping.GroupByCategoryIsPermutation | src/main/java/boundingboxeditor/ui/BoundingBoxTreeView.java:260-265 | regrouping loses and duplicates nothing |
| ShapeGrouping.GroupByCategoryIsGrouped | src/main/java/boundingboxeditor/ui/BoundingBoxTreeView.java:260-265 | every shape's category is among the categories, and along the result their positions in the category order never decrease |
| ShapeGrouping.AbsentCategoryHasNoShapes | src/main/java/boundingboxeditor/ui/BoundingBoxTreeView.java:260-265 | a category not among the shapes' categories has no shapes |
| ShapeGrouping.OfCategoryAppend | src/main/java/boundingboxeditor/ui/BoundingBoxTreeView.java:274 | the shapes of a category in a concatenation are those of each half, in order |
| TreeRoundTrip.InsertIntoGrouped | src/main/java/boundingboxeditor/ui/BoundingBoxTreeView.java:259-286 | inserting one shape below an item grouped from p gives the item grouped from p plus that shape |
| TreeRoundTrip.ConstructAllGroups | src/main/java/boundingboxeditor/ui/BoundingBoxTreeView.java:259-286 | the tree built from shapes below an empty item has one category item per category, in order of first appearance, each with its shapes in order |
| TreeRoundTrip.ShapeTreeItemGroupsParts | src/main/java/boundingboxeditor/ui/BoundingBoxTreeView.java:270-275 | a shape's item shows its view and holds its parts grouped by category |
| TreeRoundTrip.ConvertGroupsIsConvertGrandchildren | src/main/java/boundingboxeditor/ui/BoundingBoxTreeView.java:296-300 | converting category item by category item is converting the flattened grandchildren, failures included |
| TreeRoundTrip.ShapeTreeItemConvertsBack | src/main/java/boundingboxeditor/ui/BoundingBoxTreeView.java:288-306 | the item built for a shape converts back to the shape with its parts regrouped |
| TreeRoundTrip.ConvertGrouped | src/main/java/boundingboxeditor/ui/BoundingBoxTreeView.java:66-73 | converting the shape items of a grouped tree gives the regrouped shapes |
| TreeRoundTrip.BuildThenExtract | src/main/java/boundingboxeditor/ui/BoundingBoxTreeView.java:66-73 | extracting from the tree built from shapes on a fresh root gives exactly the shapes regrouped by category, parts regrouped at every level |
| TreeRoundTrip.BuildThenExtractKeepsShapes | src/main/java/boundingboxeditor/ui/BoundingBoxTreeView.java:66-73 | extraction succeeds and returns every inserted top-level shape exactly once |
| TreeRoundTrip.NormalizeAllConcatenated | src/main/java/boundingboxeditor/ui/BoundingBoxTreeView.java:275 | regrouping parts commutes with grouping the list |
| TreeRoundTrip.OnlyShapeItemsKeepsShapeItems | src/main/java/boundingboxeditor/ui/BoundingBoxTreeView.java:70 | the filter keeps a list of shape items whole |
| TreeShape.AttachKeepsGroupsOk | src/main/java/boundingboxeditor/ui/BoundingBoxTreeView.java:231-243 | attaching keeps the category items distinct, non-empty and holding only their own category |
| TreeShape.ConstructKeepsWellFormed | src/main/java/boundingboxeditor/ui/BoundingBoxTreeView.java:259-286 | inserting a shape keeps the tree well formed |
| TreeShape.CreateTreeItemKeepsWellFormed | src/main/java/boundingboxeditor/ui/BoundingBoxTreeView.java:231-243 | adding a leaf for a view keeps the tree well formed |
| TreeShape.BuiltTreeIsWellFormed | src/main/java/boundingboxeditor/ui/BoundingBoxTreeView.java:259-286 | any tree built on a fresh root is well formed |
| TreeShape.ShapeLevelConverts | src/main/java/boundingboxeditor/ui/BoundingBoxTreeView.java:288-306 | a well-formed shape item converts without the exception |
| TreeShape.WellFormedExtracts | src/main/java/boundingboxeditor/ui/BoundingBoxTreeView.java:66-73 | on a well-formed tree the filter drops nothing and extraction succeeds |
| TreeShape.NonShapeGrandchildIsFiltered | src/main/java/boundingboxeditor/ui/BoundingBoxTreeView.java:70 | an item below a root category item that is not a shape item would throw, and extraction skips it |
| TreeShape.NonShapePartFails | src/main/java/boundingboxeditor/ui/BoundingBoxTreeView.java:289-290 | below a shape item, one non-shape item two levels down makes the whole conversion throw: parts are not filtered |
| TreeIterator.Visit | src/main/java/boundingboxeditor/ui/BoundingBoxTreeView.java:322-331 | the walk of a subtree starts with its root |
| TreeIterator.VisitStack | src/main/java/boundingboxeditor/ui/BoundingBoxTreeView.java:317-319 | the walk from a stack is empty exactly when the stack is |
| TreeIterator.VisitStackAppend | src/main/java/boundingboxeditor/ui/BoundingBoxTreeView.java:327-328 | the items pushed last are walked first, completely, before what lay below them |
| TreeIterator.VisitIsPermutationOfPreorder | src/main/java/boundingboxeditor/ui/BoundingBoxTreeView.java:309-332 | the walk yields every item of the subtree exactly once |
| TreeIterator.VisitKeepsSubtreesTogether | src/main/java/boundingboxeditor/ui/BoundingBoxTreeView.java:309-332 | each yielded item is followed at once by the whole walk of its own subtree |
| TreeIterator.BoundingShapeTreeItemIterator.constructor | src/main/java/boundingboxeditor/ui/BoundingBoxTreeView.java:312-314 | the stack holds the root alone and nothing has been yielded |
| TreeIterator.BoundingShapeTreeItemIterator.HasNext | src/main/java/boundingboxeditor/ui/BoundingBoxTreeView.java:316-319 | true exactly when part of the walk is still to come |
| TreeIterator.BoundingShapeTreeItemIterator.Next | src/main/java/boundingboxeditor/ui/BoundingBoxTreeView.java:321-331 | NoSuchElementException with nothing changed on an empty stack; otherwise the next item of the walk, its children pushed in order |
| TreeIterator.ToList | src/main/java/boundingboxeditor/ui/BoundingBoxTreeView.java:133 | draining a new iterator gives the whole walk from the root |
| TreeIterator.BoxViews | src/main/java/boundingboxeditor/ui/BoundingBoxTreeView.java:133-136 | exactly the views of the box items |
| TreeIterator.BoxViewsCounts | src/main/java/boundingboxeditor/ui/BoundingBoxTreeView.java:133-136 | each box view as often as an item shows it, no polygon view |
| TreeIterator.BoxViewsAppend | src/main/java/boundingboxeditor/ui/BoundingBoxTreeView.java:133-136 | the box views of a concatenation are those of each half, in order |

| TreeIterator.PolygonViews | src/main/java/boundingboxeditor/ui/BoundingBoxTreeView.java:138-141 | exactly the views of the polygon items |
| TreeIterator.PolygonViewsCounts | src/main/java/boundingboxeditor/ui/BoundingBoxTreeView.java:138-141 | each polygon view as often as an item shows it, no box view |
| TreeIterator.PolygonViewsAppend | src/main/java/boundingboxeditor/ui/BoundingBoxTreeView.java:138-141 | the polygon views of a concatenation are those of each half, in order |

| TreeIterator.GetBoundingBoxViewsRecursively | src/main/java/boundingboxeditor/ui/BoundingBoxTreeView.java:154-164 | the box views of the walk from the root, leaf case included |
| TreeIterator.GetBoundingPolygonViewsRecursively | src/main/java/boundingboxeditor/ui/BoundingBoxTreeView.java:166-176 | the polygon views of the walk from the root, leaf case included |
| TreeView.BoundingBoxTreeView.constructor | src/main/java/boundingboxeditor/ui/BoundingBoxTreeView.java:39-46 | the view starts with an empty, well-formed root |
| TreeView.BoundingBoxTreeView.Reset | src/main/java/boundingboxeditor/ui/BoundingBoxTreeView.java:52-55 | a new empty root |
| TreeView.BoundingBoxTreeView.ExtractViewsAndBuildTreeFromAnnotation | src/main/java/boundingboxeditor/ui/BoundingBoxTreeView.java:129-145 | the shapes are inserted in order and the tree stays well formed; the results are the box views and the polygon views of the walk over the new tree |
| TreeView.BoundingBoxTreeView.AddTreeItemsFromViews | src/main/java/boundingboxeditor/ui/BoundingBoxTreeView.java:183-194 | the tree stays well formed and gains exactly one leaf per view directly below its category items, losing none |
| TreeView.CreateTreeItemsFromViews | src/main/java/boundingboxeditor/ui/BoundingBoxTreeView.java:183-194 | the root keeps its value |
| TreeView.CreateTreeItemsAddsLeaves | src/main/java/boundingboxeditor/ui/BoundingBoxTreeView.java:183-194 | adding items for views adds one leaf per view below the root's category items and removes nothing |
| MainView.FirstIndex | src/main/java/BoundingboxEditor/MainView.java:270 | a position holding the rectangle, with no earlier one holding it |
| MainView.RemoveFirst | src/main/java/BoundingboxEditor/MainView.java:270 | a present rectangle: the list with exactly its first occurrence cut out, one shorter; an absent one: the list as it is |
| MainView.RemoveFirstRemovesOne | src/main/java/BoundingboxEditor/MainView.java:270 | removing a present rectangle takes exactly one copy of it out of the list |
| MainView.RemoveFirstKeepsPrefix | src/main/java/BoundingboxEditor/MainView.java:270 | everything before the first occurrence stays in place |
| MainView.RemoveEachIsMultisetDifference | src/main/java/BoundingboxEditor/MainView.java:256 | removing the children's rectangles one by one takes one copy of each out of the list |
| MainView.SiblingsAfterDelete | src/main/java/BoundingboxEditor/MainView.java:262-269 | earlier siblings unchanged; every later one moves up one place with its id one lower |
| MainView.DeleteKeepsIdsConsecutive | src/main/java/BoundingboxEditor/MainView.java:262-269 | siblings numbered 1..N are numbered 1..N-1 after a delete |
| MainView.CategoryItemsAfterDelete | src/main/java/BoundingboxEditor/MainView.java:253-274 | an empty cell changes nothing; a category cell: that item is cut out, the others kept in order, one fewer; a rectangle cell: its category item is cut out the same way when it held only that item, otherwise only its items change, to the siblings after the delete, and every other item and the length are kept |
| MainView.RectanglesRemovedByDelete | src/main/java/BoundingboxEditor/MainView.java:256-270 | nothing for an empty cell; for a category cell the rectangle of each of its items, one per item, in order; for a rectangle cell that item's rectangle alone |
| MainView.DeleteCollapsesOneLevel | src/main/java/BoundingboxEditor/MainView.java:272-274 | the category item disappears exactly when the deleted item was its last; other category items remain |
| MainView.MainView.DeleteSelectionRectangleItem | src/main/java/BoundingboxEditor/MainView.java:252-276 | an empty cell changes nothing; otherwise the explorer tree and the current list become exactly as specified above; nothing else changes |
| MainView.MainView.DeleteCategoryItem | src/main/java/BoundingboxEditor/MainView.java:256-270 | each child's rectangle leaves the current list in turn, and the category item leaves the root |
| MainView.MainView.DeleteRectangleItem | src/main/java/BoundingboxEditor/MainView.java:258-274 | later siblings' ids are decremented by the loop, the item and its rectangle are removed, and an emptied category item leaves the root |
| MainView.MainView.LoadSelectionRectangleList | src/main/java/BoundingboxEditor/MainView.java:169-196 | a bad index fails with nothing changed; else the old rectangles leave the scene first, then a null entry is replaced by a new empty list that becomes current, or the stored list itself becomes current, is shown, and its rectangles go to the explorer tree |
| MainView.RectangleList.constructor | src/main/java/BoundingboxEditor/MainView.java:180 | a new list is empty |
| MainView.MainView.constructor | src/main/java/BoundingboxEditor/ImagePaneView.java:21-22 | the explorer tree and the current list start empty, no call has been made, and the current list is a fresh object |
| ImageMetaDataModel.WithDetails | src/main/java/boundingboxeditor/model/ImageMetaData.java:29-32 | has details, and the getters return the arguments unchanged |
| ImageMetaDataModel.WithFileName | src/main/java/boundingboxeditor/model/ImageMetaData.java:34-36 | has no details, and every details getter fails |
| ImageMetaDataModel.ImageMetaData.GetImageWidth | src/main/java/boundingboxeditor/model/ImageMetaData.java:55-57 | the width, or the NullPointerException without details |
| ImageMetaDataModel.ImageMetaData.GetImageHeight | src/main/java/boundingboxeditor/model/ImageMetaData.java:64-66 | the height, or the NullPointerException without details |
| ImageMetaDataModel.ImageMetaData.GetImageDepth | src/main/java/boundingboxeditor/model/ImageMetaData.java:73-75 | the depth, or the NullPointerException without details |
| ImageMetaDataModel.ImageMetaData.GetFolderName | src/main/java/boundingboxeditor/model/ImageMetaData.java:91-93 | the folder name, or the NullPointerException without details |
| ImageMetaDataModel.ReadImageDimensions | src/main/java/boundingboxeditor/model/ImageMetaData.java:119-143 | the reader's dimensions; zero on an IOException or when no reader is found |
| ImageMetaDataModel.FromFile | src/main/java/boundingboxeditor/model/ImageMetaData.java:44-48 | file name from the file and folder name from its parent directory, and the dimensions read, or zero; fails exactly when there is no parent directory |
| ImageMetaDataModel.Equals | src/main/java/boundingboxeditor/model/ImageMetaData.java:104-111 | equal exactly when the file names match and the details are both absent or agree on width, height and depth |
| ImageMetaDataModel.Wrap | src/main/java/boundingboxeditor/model/ImageMetaData.java:101 | the int result agrees with the exact value modulo 2^32 |
| ImageMetaDataModel.StringHash | src/main/java/boundingboxeditor/model/ImageMetaData.java:101 | congruent modulo 2^32 to the sum of each character code times 31 to the number of characters after it |
| ImageMetaDataModel.DoubleHash | src/main/java/boundingboxeditor/model/ImageMetaData.java:160 | congruent modulo 2^32 to the exclusive-or of the high and low 32 bits of the bit pattern |
| ImageMetaDataModel.HashAll | src/main/java/boundingboxeditor/model/ImageMetaData.java:101 | congruent modulo 2^32 to 31^n plus the sum of each element hash times 31 to the number of elements after it |
| ImageMetaDataModel.HashOfThree | src/main/java/boundingboxeditor/model/ImageMetaData.java:160 | the hash of three ints is 29791 + 961 a + 31 b + c, modulo 2^32 |
| ImageMetaDataModel.HashOfTwo | src/main/java/boundingboxeditor/model/ImageMetaData.java:101 | the hash of two ints is 961 + 31 a + b, modulo 2^32 |
| ImageMetaDataModel.DetailsHash | src/main/java/boundingboxeditor/model/ImageMetaData.java:158-161 | 29791 + 961 times the width hash + 31 times the height hash + the depth, modulo 2^32; the folder name takes no part |
| ImageMetaDataModel.HashCode | src/main/java/boundingboxeditor/model/ImageMetaData.java:99-102 | 961 + 31 times the file-name hash + the details hash (0 without details), modulo 2^32 |
| ImageMetaDataModel.HasDetailsExactlyWhenGettersSucceed | src/main/java/boundingboxeditor/model/ImageMetaData.java:95-97 | hasDetails is true exactly when each details getter succeeds |
| ImageMetaDataModel.FileNameDecidesEqualityWithoutDetails | src/main/java/boundingboxeditor/model/ImageMetaData.java:82-84 | between objects without details, equal exactly when getFileName gives the same name |

| ImageMetaDataModel.EqualsConsistentWithHashCode | src/main/java/boundingboxeditor/model/ImageMetaData.java:99-111 | equal objects have equal hash codes |
| ImageMetaDataModel.FolderNameIsIgnored | src/main/java/boundingboxeditor/model/ImageMetaData.java:158-178 | objects differing only in folder name are equal, with equal hash codes |
| ImageMetaDataModel.EqualsIsEquivalence | src/main/java/boundingboxeditor/model/ImageMetaData.java:104-111 | equals is reflexive, symmetric and transitive, and nothing equals null |
| ImageMetaDataModel.DetailsPresenceMatters | src/main/java/boundingboxeditor/model/ImageMetaData.java:108 | an object without details never equals one with details |
| SaveStrategies.CreateStrategy | src/main/java/BoundingboxEditor/ImageAnnotationsSaveStrategy.java:7-22 | PASCAL_VOC gives a PVOC strategy and SIMPLE_SAVE a Simple one, each exactly then |
| SaveStrategies.CreateStrategyIsInjective | src/main/java/BoundingboxEditor/ImageAnnotationsSaveStrategy.java:10-16 | distinct tags give distinct kinds |
| SaveStrategies.EveryKindIsCreated | src/main/java/BoundingboxEditor/ImageAnnotationsSaveStrategy.java:10-16 | every kind comes from some tag |
| SavingEvent.NatToString | src/main/java/BoundingboxEditor/ui/StatusEvents/ImageAnnotationsSavingSuccessfulEvent.java:16 | non-empty decimal digits that stand for the number, with no leading zero; the first digit is 0 exactly for 0 |
| SavingEvent.IntToString | src/main/java/BoundingboxEditor/ui/StatusEvents/ImageAnnotationsSavingSuccessfulEvent.java:16 | a '-' exactly for a negative number, then digits without a leading zero that stand for its magnitude |

| SavingEvent.Pad3 | src/main/java/BoundingboxEditor/ui/StatusEvents/ImageAnnotationsSavingSuccessfulEvent.java:18 | exactly three digits that stand for the number |
| SavingEvent.Seconds | src/main/java/BoundingboxEditor/ui/StatusEvents/ImageAnnotationsSavingSuccessfulEvent.java:18 | ends in a '.' and three digits, starts with a '-' exactly for a negative time, has no leading zero in the whole seconds, and reads back to the milliseconds; together these fix the text |
| SavingEvent.SecondsOfNegative | src/main/java/BoundingboxEditor/ui/StatusEvents/ImageAnnotationsSavingSuccessfulEvent.java:18 | a negative time is written as a '-' followed by the text for its magnitude |
| SavingEvent.Noun | src/main/java/BoundingboxEditor/ui/StatusEvents/ImageAnnotationsSavingSuccessfulEvent.java:16-17 | " image-annotation", followed by an "s" exactly when the count is not 1 |
| SavingEvent.ParseTailRoundTrip | src/main/java/BoundingboxEditor/ui/StatusEvents/ImageAnnotationsSavingSuccessfulEvent.java:16-18 | what follows the count (noun, " in ", seconds) reads back to the count and the milliseconds |
| SavingEvent.ParseBodyRoundTrip | src/main/java/BoundingboxEditor/ui/StatusEvents/ImageAnnotationsSavingSuccessfulEvent.java:16-18 | the count followed by the rest reads back to the count and the milliseconds |

| SavingEvent.SecondsHaveThreeDecimals | src/main/java/BoundingboxEditor/ui/StatusEvents/ImageAnnotationsSavingSuccessfulEvent.java:18 | a '.' and then three digits for ms mod 1000, after exactly the decimal digits of ms div 1000 with no leading zero |
| SavingEvent.MessageRoundTrip | src/main/java/BoundingboxEditor/ui/StatusEvents/ImageAnnotationsSavingSuccessfulEvent.java:15-19 | the event's message `Message(count, ms)`, read back, gives the count and the milliseconds |
| SavingEvent.MessageIsInjective | src/main/java/BoundingboxEditor/ui/StatusEvents/ImageAnnotationsSavingSuccessfulEvent.java:15-19 | different counts or times never give the same message |
| SavingEvent.MessageFrame | src/main/java/BoundingboxEditor/ui/StatusEvents/ImageAnnotationsSavingSuccessfulEvent.java:16-18 | starts with "Successfully saved " and the count, ends with " sec." |
| SavingEvent.PluralUnlessOne | src/main/java/BoundingboxEditor/ui/StatusEvents/ImageAnnotationsSavingSuccessfulEvent.java:16-17 | an "s" follows "image-annotation" exactly when the count is not 1 |

## Left out

- Tree items as objects: the model's tree items are values. Identity and in-place mutation
  of `TreeItem` children are not captured: the view's aliasing with its tree item
  (`setTreeItem`), and `TreeItem` parent links.
- Selection and the selection model, expansion (`expandAllTreeItems`), `keepTreeItemInView`,
  the toggle-icon setters and the internal listeners of the tree view: UI state with no
  effect on the tree's content.
- TreeView.BoundingBoxTreeView.AddTreeItemsFromViews: one member stands for both
  `addTreeItemsFromBoundingBoxViews` and `addTreeItemsFromBoundingPolygonViews`. Those differ
  only in the item class they create, which the view's geometry tells apart here.
- TreeItems.AttachToCategoryItem: `attachBoundingBoxTreeItemChild` and
  `attachBoundingPolygonTreeItemChild` are not part of this model. Attaching is taken to
  append the item at the end of the category item's children. Any id those methods assign
  to the item is not modelled.
- TreeItems.OnlyShapeItems: the contract states membership only. Multiplicity is stated by
  `OnlyShapeItemsCounts` and order by `OnlyShapeItemsAppend`.
- ShapeGrouping.OfCategory: the contract states membership only. Multiplicity is stated by
  `OfCategoryCounts` and order by `OfCategoryAppend` and `GroupByCategoryIsStable`.
- ShapeGrouping.Categories: the contract states distinctness and membership. The order of
  first appearance is stated by `CategoriesInFirstAppearanceOrder`.
- TreeIterator.BoxViews: the contract states membership only. Multiplicity is stated by
  `BoxViewsCounts` and order by `BoxViewsAppend`.
- TreeIterator.PolygonViews: the contract states membership only. Multiplicity is stated by
  `PolygonViewsCounts` and order by `PolygonViewsAppend`.
- TreeItems.CreateTreeItemFromView: the contract states only that the root keeps its value.
  What it adds is stated by `CreateTreeItemAddsOneLeaf` and `AttachToCategoryItem`.
- TreeItems.ShapeTreeItem: the contract states only the item's value. Its children are
  stated by `ShapeTreeItemGrandchildren` and `TreeRoundTrip.ShapeTreeItemGroupsParts`.
- TreeItems.Construct: the contract states only that the root keeps its value. What it adds
  is stated by `ConstructGrandchildren` and `TreeRoundTrip.InsertIntoGrouped`.
- TreeItems.ConstructAll: the contract states only that the root keeps its value. What it
  adds is stated by `ConstructAllGrandchildren` and `TreeRoundTrip.ConstructAllGroups`.
- TreeView.CreateTreeItemsFromViews: the contract states only that the root keeps its value.
  What it adds is stated by `CreateTreeItemsAddsLeaves`.
- A `BoundingShapeData` that is neither a box nor a polygon: the source then creates the
  category item and attaches nothing. Such data is not representable here.
- Annotations.FromData: `fromData` is taken as carrying category and geometry unchanged.
  The scaling by the image metadata belongs to view code that is not part of this model.
- MainView.MainView.DeleteSelectionRectangleItem:
  - a category item's own value is taken to be in no rectangle list, so removing it from
    the current list is modelled as no change;
  - rectangle items are leaves.
- MainView.MainView.constructor: the database parameter stands for the later call to
  `setImageSelectionRectangles` (ImagePaneView.java:84-85). Before that call the source's
  list is null, and `loadSelectionRectangleList` then throws a NullPointerException. The
  model has no null database, so it does not capture that exception.
- MainView.MainView.LoadSelectionRectangleList: what
  `addTreeItemsFromSelectionRectangles` does to the explorer tree is a parameter of the
  model, since that code is not part of this model.
- The listeners on the selection-rectangle list (`setSelectionRectangleListListener`) and
  what they do on later changes are not modelled; `paneCalls` records only the calls that
  `loadSelectionRectangleList` itself makes.
- ImageMetaDataModel.FromFile: the header decoding by ImageIO is replaced by its three
  outcomes. Reader widths arrive already as doubles, the int-to-double conversion is not
  modelled, and a missing raw image type (a NullPointerException inside the reader branch)
  is not modelled. The log messages are left out.
- ImageMetaDataModel.ImageMetaData: a null file name is not modelled. `toString` is not
  modelled.
- ImageMetaDataModel.StringHash: characters are taken as one UTF-16 unit each; characters
  outside the Basic Multilingual Plane are not modelled.
- SaveStrategies.CreateStrategy: a null tag (a NullPointerException in the switch) is not
  modelled. The default branch throwing `InvalidParameterException` cannot be reached with
  the two declared tags, so it has no counterpart. `PVOCSaveStrategy` and
  `SimpleSaveStrategy` themselves, and `save`, are file I/O and are not part of this model.
- SavingEvent.Seconds:
  - the time is whole milliseconds, rendered exactly as a '-' for a negative time, then
    |ms| div 1000, '.', and |ms| mod 1000 in three digits;
  - the rounding of `ms / 1000.0` to a double is not modelled: from |ms| of about 2^43 * 1000
    (8.8 * 10^15) on, neighbouring doubles lie more than 1 ms apart, so there the source
    prints the same text for different times, while the model still prints each time exactly;
  - the decimal separator is '.', whereas `String.format` uses the default locale's;
  - the `IOResult` object is reduced to its two numbers.
- The background saving service, concurrency and every other part of the application are
  outside this model.
