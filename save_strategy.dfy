/**
 * ImageAnnotationsSaveStrategy.createStrategy: the save strategy for a format tag. The
 * enum has exactly the two tags the switch handles, so its default branch, which throws
 * InvalidParameterException, is never taken.
 */
module SaveStrategies {

  /** ImageAnnotationsSaveStrategy.SaveStrategy */
  datatype SaveStrategy = PascalVoc | SimpleSave

  /** The kind of strategy object the factory builds. */
  datatype StrategyKind = PVOCSaveStrategy | SimpleSaveStrategy

  /** createStrategy: PASCAL_VOC gives a PVOCSaveStrategy and SIMPLE_SAVE a SimpleSaveStrategy. */
  function CreateStrategy(tag: SaveStrategy): (kind: StrategyKind)
    ensures kind == PVOCSaveStrategy <==> tag == PascalVoc
    ensures kind == SimpleSaveStrategy <==> tag == SimpleSave
  {
    match tag
    case PascalVoc => PVOCSaveStrategy
    case SimpleSave => SimpleSaveStrategy
  }

  /** Distinct tags give distinct kinds of strategy. */
  lemma CreateStrategyIsInjective(a: SaveStrategy, b: SaveStrategy)
    ensures CreateStrategy(a) == CreateStrategy(b) ==> a == b
  {
  }

  /** Every kind of strategy is built for some tag, so the two tags and the two kinds correspond one to one. */
  lemma EveryKindIsCreated(kind: StrategyKind)
    ensures exists tag :: CreateStrategy(tag) == kind
  {
    match kind
    case PVOCSaveStrategy => assert CreateStrategy(PascalVoc) == kind;
    case SimpleSaveStrategy => assert CreateStrategy(SimpleSave) == kind;
  }
}
