/** The records the program passes around (types.ts). JavaScript's optional
    fields become `Option`s; `isError?` on a card defaults to false, so it is
    a plain boolean here. */
module Types {
  import opened Wrappers

  /** Which second facet a round pairs with the hanzi card. */
  datatype GameMode = HanziPinyin | HanziMeaning

  /** One vocabulary entry. */
  datatype VocabItem = VocabItem(id: string, hanzi: string, pinyin: string, meaning: string)

  /** A named, user-created list of entries. */
  datatype VocabSet = VocabSet(id: string, name: string, createdAt: int, items: seq<VocabItem>)

  /** The facet a card shows. */
  datatype CardKind = Hanzi | Pinyin | Meaning

  /** One card of the matching game. */
  datatype CardItem = CardItem(
    id: string,
    content: string,
    vocabId: string,
    kind: CardKind,
    isMatched: bool,
    isSelected: bool,
    isError: bool)

  /** Where the words of a round came from. */
  datatype SourceType = Hsk | Upload

  /** What the next round should be built from. */
  datatype GameConfig = GameConfig(
    sourceType: SourceType,
    hskLevel: Option<int>,
    setId: Option<string>,
    customVocab: Option<seq<VocabItem>>,
    mode: GameMode)

  /** The screen the application shows. */
  datatype AppView = Auth | Dashboard | GameView
}
