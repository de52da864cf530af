/** The matching game (components/Game.tsx). A round is the record of the
    component's four pieces of state; building the deck, clicking a card and
    the deferred reset after a wrong pair are pure transitions on it. The
    800 ms `setTimeout` becomes the explicit step `TimerFire`, which is
    enabled exactly while a wrong pair is on display. */
module Game {
  import opened Wrappers
  import opened Types
  import Text
  import Shuffle

  datatype GameState = GameState(
    cards: seq<CardItem>,
    selectedCardId: Option<string>,
    wrongPairIds: seq<string>,
    matchedCount: int)

  // Building the deck.

  function KindName(k: CardKind): string {
    match k
    case Hanzi => "hanzi"
    case Pinyin => "pinyin"
    case Meaning => "meaning"
  }

  /** The id of the card showing facet `k` of the entry with id `vocabId`:
      `${id}-hanzi`, `${id}-pinyin` or `${id}-meaning`. */
  function FacetId(vocabId: string, k: CardKind): string {
    vocabId + "-" + KindName(k)
  }

  /** The facet the mode pairs with the hanzi card. */
  function SecondKind(mode: GameMode): CardKind {
    if mode == HanziPinyin then Pinyin else Meaning
  }

  function HanziCard(v: VocabItem): CardItem {
    CardItem(FacetId(v.id, Hanzi), v.hanzi, v.id, Hanzi, false, false, false)
  }

  function SecondCard(v: VocabItem, mode: GameMode): CardItem {
    var kind := SecondKind(mode);
    var content := if mode == HanziPinyin then v.pinyin else v.meaning;
    CardItem(FacetId(v.id, kind), content, v.id, kind, false, false, false)
  }

  /** A card as dealt: not matched, not highlighted, not marked wrong. */
  ghost predicate Fresh(c: CardItem) {
    !c.isMatched && !c.isSelected && !c.isError
  }

  /** `c` is the hanzi card dealt for `v`. */
  ghost predicate IsHanziCardOf(c: CardItem, v: VocabItem) {
    && c.id == FacetId(v.id, Hanzi) && c.content == v.hanzi
    && c.vocabId == v.id && c.kind == Hanzi && Fresh(c)
  }

  /** `c` is the second card dealt for `v` in `mode`. */
  ghost predicate IsSecondCardOf(c: CardItem, v: VocabItem, mode: GameMode) {
    && c.vocabId == v.id && Fresh(c)
    && (mode == HanziPinyin ==> c.id == FacetId(v.id, Pinyin) && c.content == v.pinyin && c.kind == Pinyin)
    && (mode == HanziMeaning ==> c.id == FacetId(v.id, Meaning) && c.content == v.meaning && c.kind == Meaning)
  }

  /** The unshuffled deck: for each entry, its hanzi card then its second
      card, every one fresh (where each card sits is `BuildCardsLayout`). */
  function BuildCards(vocab: seq<VocabItem>, mode: GameMode): (r: seq<CardItem>)
    ensures |r| == 2 * |vocab|
    ensures forall c :: c in r ==> Fresh(c)
  {
    if |vocab| == 0 then []
    else
      var v := vocab[|vocab| - 1];
      BuildCards(vocab[..|vocab| - 1], mode) + [HanziCard(v), SecondCard(v, mode)]
  }

  /** Entry `i` yields its hanzi card at `2i` and its second card at
      `2i + 1`. */
  lemma {:induction false} BuildCardsLayout(vocab: seq<VocabItem>, mode: GameMode)
    ensures forall i :: 0 <= i < |vocab| ==>
      IsHanziCardOf(BuildCards(vocab, mode)[2 * i], vocab[i])
      && IsSecondCardOf(BuildCards(vocab, mode)[2 * i + 1], vocab[i], mode)
  {
    if |vocab| > 0 {
      var n := |vocab| - 1;
      var v, p := vocab[n], vocab[..n];
      var ps := BuildCards(p, mode);
      var r := BuildCards(vocab, mode);
      assert r == ps + [HanziCard(v), SecondCard(v, mode)];
      BuildCardsLayout(p, mode);
      forall i | 0 <= i < |vocab|
        ensures IsHanziCardOf(r[2 * i], vocab[i]) && IsSecondCardOf(r[2 * i + 1], vocab[i], mode)
      {
        if i < n {
          assert r[2 * i] == ps[2 * i] && r[2 * i + 1] == ps[2 * i + 1] && p[i] == vocab[i];
        } else {
          assert r[2 * i] == HanziCard(v) && r[2 * i + 1] == SecondCard(v, mode);
        }
      }
    }
  }

  /** The start of a round: the built deck in shuffled order, nothing
      selected, no wrong pair pending, no pair matched. */
  function Init(vocab: seq<VocabItem>, mode: GameMode, rand: nat -> nat): (s: GameState)
    ensures |s.cards| == 2 * |vocab|
    ensures multiset(s.cards) == multiset(BuildCards(vocab, mode))
    ensures forall c :: c in s.cards ==> Fresh(c)
    ensures s.selectedCardId == None && s.wrongPairIds == [] && s.matchedCount == 0
  {
    var built := BuildCards(vocab, mode);
    var deck := Shuffle.FisherYates(built, rand);
    assert forall c :: c in deck ==> c in built by {
      forall c | c in deck ensures c in built {
        Shuffle.FisherYatesSameElements(built, rand, c);
      }
    }
    GameState(deck, None, [], 0)
  }

  // Clicking a card.

  /** `Array.prototype.find` by card id: the first card carrying it. */
  function FindCard(cs: seq<CardItem>, id: string): (r: Option<CardItem>)
    ensures r.Some? ==> r.value in cs && r.value.id == id
    ensures r.None? ==> forall i :: 0 <= i < |cs| ==> cs[i].id != id
  {
    if |cs| == 0 then None
    else if cs[0].id == id then Some(cs[0])
    else FindCard(cs[1..], id)
  }

  /** The card `find` returns is the first one carrying the id: no card
      before it has that id. */
  lemma {:induction false} FindCardFirst(cs: seq<CardItem>, id: string)
    ensures FindCard(cs, id).Some? ==>
      exists i :: 0 <= i < |cs| && cs[i] == FindCard(cs, id).value && forall j :: 0 <= j < i ==> cs[j].id != id
  {
    if |cs| > 0 && cs[0].id != id && FindCard(cs, id).Some? {
      FindCardFirst(cs[1..], id);
      var i :| 0 <= i < |cs| - 1 && cs[1..][i] == FindCard(cs, id).value && forall j :: 0 <= j < i ==> cs[1..][j].id != id;
      assert cs[i + 1] == FindCard(cs, id).value;
      assert forall j :: 0 <= j < i + 1 ==> cs[j].id != id by {
        forall j | 0 <= j < i + 1 ensures cs[j].id != id {
          if j > 0 { assert cs[j] == cs[1..][j - 1]; }
        }
      }
    }
  }

  /** The toggle-off map: cards with the clicked id lose their highlight. */
  function Unselect(cs: seq<CardItem>, id: string): seq<CardItem> {
    seq(|cs|, i requires 0 <= i < |cs| =>
      if cs[i].id == id then cs[i].(isSelected := false) else cs[i])
  }

  /** The highlight map: the clicked card is highlighted, the pending one is
      kept, every other card is unhighlighted. */
  function Highlight(cs: seq<CardItem>, id: string, selected: Option<string>): (r: seq<CardItem>)
    ensures SameFaces(cs, r)
    ensures forall i :: 0 <= i < |cs| ==> r[i].isMatched == cs[i].isMatched && r[i].isError == cs[i].isError
    ensures forall i :: 0 <= i < |cs| ==>
      r[i].isSelected == (cs[i].id == id || (selected == Some(cs[i].id) && cs[i].isSelected))
  {
    seq(|cs|, i requires 0 <= i < |cs| =>
      if cs[i].id == id then cs[i].(isSelected := true)
      else if selected == Some(cs[i].id) then cs[i]
      else cs[i].(isSelected := false))
  }

  /** The match map: both cards of the pair become matched and unhighlighted. */
  function MarkMatched(cs: seq<CardItem>, a: string, b: string): seq<CardItem> {
    seq(|cs|, i requires 0 <= i < |cs| =>
      if cs[i].id == a || cs[i].id == b then cs[i].(isMatched := true, isSelected := false) else cs[i])
  }

  /** The wrong-pair map: both cards get the error flag `on` and lose their
      highlight (used with `on` set by a mismatch and cleared by the timer). */
  function MarkError(cs: seq<CardItem>, a: string, b: string, on: bool): seq<CardItem> {
    seq(|cs|, i requires 0 <= i < |cs| =>
      if cs[i].id == a || cs[i].id == b then cs[i].(isError := on, isSelected := false) else cs[i])
  }

  /** Position for position, the cards show the same faces. */
  ghost predicate SameFaces(a: seq<CardItem>, b: seq<CardItem>) {
    && |a| == |b|
    && forall i :: 0 <= i < |a| ==>
      a[i].id == b[i].id && a[i].content == b[i].content
      && a[i].vocabId == b[i].vocabId && a[i].kind == b[i].kind
  }

  /** A click is ignored on a matched card and while a wrong pair shows. */
  predicate Blocked(s: GameState, k: nat)
    requires k < |s.cards|
  {
    s.cards[k].isMatched || |s.wrongPairIds| > 0
  }

  /** The click handler on the card at position `k`. */
  function Click(s: GameState, k: nat): (r: GameState)
    requires k < |s.cards|
    ensures SameFaces(s.cards, r.cards)
    ensures forall i :: 0 <= i < |s.cards| && s.cards[i].isMatched ==> r.cards[i].isMatched
    ensures r.matchedCount == s.matchedCount || r.matchedCount == s.matchedCount + 1
    ensures Blocked(s, k) ==> r == s
  {
    if Blocked(s, k) then s
    else if s.selectedCardId == Some(s.cards[k].id) then Deselect(s, k)
    else if s.selectedCardId.None? then SelectFirst(s, k)
    else SelectSecond(s, k)
  }

  /** Clicking the highlighted card again un-highlights it and changes
      nothing else. */
  function Deselect(s: GameState, k: nat): (r: GameState)
    requires k < |s.cards| && s.selectedCardId == Some(s.cards[k].id)
    ensures |r.cards| == |s.cards|
    ensures r.selectedCardId == None && r.matchedCount == s.matchedCount && r.wrongPairIds == s.wrongPairIds
    ensures forall i :: 0 <= i < |s.cards| && s.cards[i].id == s.cards[k].id ==>
      r.cards[i] == s.cards[i].(isSelected := false)
    ensures forall i :: 0 <= i < |s.cards| && s.cards[i].id != s.cards[k].id ==> r.cards[i] == s.cards[i]
  {
    s.(selectedCardId := None, cards := Unselect(s.cards, s.cards[k].id))
  }

  /** A first click highlights the card, un-highlights every other card and
      remembers the clicked id. */
  function SelectFirst(s: GameState, k: nat): (r: GameState)
    requires k < |s.cards| && s.selectedCardId.None?
    ensures |r.cards| == |s.cards|
    ensures r.selectedCardId == Some(s.cards[k].id)
    ensures r.matchedCount == s.matchedCount && r.wrongPairIds == s.wrongPairIds
    ensures forall i :: 0 <= i < |s.cards| && s.cards[i].id == s.cards[k].id ==>
      r.cards[i] == s.cards[i].(isSelected := true)
    ensures forall i :: 0 <= i < |s.cards| && s.cards[i].id != s.cards[k].id ==>
      r.cards[i] == s.cards[i].(isSelected := false)
  {
    s.(cards := Highlight(s.cards, s.cards[k].id, None), selectedCardId := Some(s.cards[k].id))
  }

  /** A second click. The first card is looked up in the deck; if it is
      missing only the highlight changes, otherwise the pair is compared by
      entry id. */
  function SelectSecond(s: GameState, k: nat): (r: GameState)
    requires k < |s.cards| && s.selectedCardId.Some? && s.selectedCardId != Some(s.cards[k].id)
    ensures SameFaces(s.cards, r.cards)
    ensures forall i :: 0 <= i < |s.cards| && s.cards[i].isMatched ==> r.cards[i].isMatched
    ensures FindCard(s.cards, s.selectedCardId.value).None? ==>
      r == s.(cards := Highlight(s.cards, s.cards[k].id, s.selectedCardId))
    ensures FindCard(s.cards, s.selectedCardId.value).Some? ==>
      if FindCard(s.cards, s.selectedCardId.value).value.vocabId == s.cards[k].vocabId
      then r == MatchPair(s, k)
      else r == WrongPair(s, k)
  {
    var firstId := s.selectedCardId.value;
    match FindCard(s.cards, firstId)
    case None => s.(cards := Highlight(s.cards, s.cards[k].id, s.selectedCardId))
    case Some(first) =>
      if first.vocabId == s.cards[k].vocabId then MatchPair(s, k) else WrongPair(s, k)
  }

  /** The pair matches: both cards become matched and un-highlighted, every
      other card is un-highlighted, the score rises by one and the pending
      selection is cleared. */
  function MatchPair(s: GameState, k: nat): (r: GameState)
    requires k < |s.cards| && s.selectedCardId.Some? && s.selectedCardId != Some(s.cards[k].id)
    ensures |r.cards| == |s.cards|
    ensures r.matchedCount == s.matchedCount + 1 && r.selectedCardId == None
    ensures r.wrongPairIds == s.wrongPairIds
    ensures forall i :: 0 <= i < |s.cards| && (s.cards[i].id == s.cards[k].id || Some(s.cards[i].id) == s.selectedCardId) ==>
      r.cards[i] == s.cards[i].(isMatched := true, isSelected := false)
    ensures forall i :: 0 <= i < |s.cards| && s.cards[i].id != s.cards[k].id && Some(s.cards[i].id) != s.selectedCardId ==>
      r.cards[i] == s.cards[i].(isSelected := false)
  {
    var clickedId := s.cards[k].id;
    var firstId := s.selectedCardId.value;
    var shown := Highlight(s.cards, clickedId, s.selectedCardId);
    s.(cards := MarkMatched(shown, clickedId, firstId),
       matchedCount := s.matchedCount + 1,
       selectedCardId := None)
  }

  /** The pair differs: both cards are marked wrong and un-highlighted,
      every other card is un-highlighted, the pair's ids are recorded (which
      blocks further clicks) and the score and the selection stay. */
  function WrongPair(s: GameState, k: nat): (r: GameState)
    requires k < |s.cards| && s.selectedCardId.Some? && s.selectedCardId != Some(s.cards[k].id)
    ensures |r.cards| == |s.cards|
    ensures r.matchedCount == s.matchedCount && r.selectedCardId == s.selectedCardId
    ensures r.wrongPairIds == [s.selectedCardId.value, s.cards[k].id]
    ensures forall i :: 0 <= i < |s.cards| && (s.cards[i].id == s.cards[k].id || Some(s.cards[i].id) == s.selectedCardId) ==>
      r.cards[i] == s.cards[i].(isError := true, isSelected := false)
    ensures forall i :: 0 <= i < |s.cards| && s.cards[i].id != s.cards[k].id && Some(s.cards[i].id) != s.selectedCardId ==>
      r.cards[i] == s.cards[i].(isSelected := false)
  {
    var clickedId := s.cards[k].id;
    var firstId := s.selectedCardId.value;
    var shown := Highlight(s.cards, clickedId, s.selectedCardId);
    s.(cards := MarkError(shown, clickedId, firstId, true),
       wrongPairIds := [firstId, clickedId])
  }

  /** The deferred reset scheduled by a wrong pair, enabled while the pair is
      on display: both cards lose the error mark and the highlight, the
      pending pair and selection are cleared, nothing else changes. */
  function TimerFire(s: GameState): (r: GameState)
    requires |s.wrongPairIds| == 2
    ensures |r.cards| == |s.cards|
    ensures r.wrongPairIds == [] && r.selectedCardId == None && r.matchedCount == s.matchedCount
    ensures forall i :: 0 <= i < |s.cards| && s.cards[i].id in s.wrongPairIds ==>
      r.cards[i] == s.cards[i].(isError := false, isSelected := false)
    ensures forall i :: 0 <= i < |s.cards| && s.cards[i].id !in s.wrongPairIds ==> r.cards[i] == s.cards[i]
  {
    var firstId := s.wrongPairIds[0];
    var clickedId := s.wrongPairIds[1];
    GameState(MarkError(s.cards, clickedId, firstId, false), None, [], s.matchedCount)
  }

  /** The round is won once every entry's pair is matched; an empty round is
      never won. */
  predicate IsWin(s: GameState, vocabCount: nat) {
    vocabCount > 0 && s.matchedCount == vocabCount
  }

  // The invariant every reachable state keeps.

  function CardId(c: CardItem): string {
    c.id
  }

  function VocabId(v: VocabItem): string {
    v.id
  }

  /** Positions of matched cards. */
  ghost function MatchedSet(cs: seq<CardItem>): set<nat> {
    set i: nat | i < |cs| && cs[i].isMatched
  }

  /** The invariant every reachable state keeps: its counting half and its
      marking half. */
  ghost predicate Inv(s: GameState) {
    InvCounts(s) && InvMarks(s)
  }

  /** Card ids are distinct and the score is half the matched cards. */
  ghost predicate InvCounts(s: GameState) {
    && Shuffle.DistinctBy(s.cards, CardId)
    && 2 * s.matchedCount == |MatchedSet(s.cards)|
  }

  /** The selection names an unmatched card; a highlight only shows the
      selection while no wrong pair is pending; the error marks sit exactly
      on the cards of the pending pair, which are unmatched; matched cards
      carry no mark. */
  ghost predicate InvMarks(s: GameState) {
    var cs := s.cards;
    && (s.selectedCardId.Some? ==>
          exists i :: 0 <= i < |cs| && cs[i].id == s.selectedCardId.value && !cs[i].isMatched)
    && (|s.wrongPairIds| == 0 || |s.wrongPairIds| == 2)
    && (forall i :: 0 <= i < |cs| && cs[i].isSelected ==>
          s.wrongPairIds == [] && s.selectedCardId == Some(cs[i].id))
    && (forall i :: 0 <= i < |cs| && cs[i].isError ==> cs[i].id in s.wrongPairIds)
    && (forall i :: 0 <= i < |cs| && cs[i].id in s.wrongPairIds ==> cs[i].isError)
    && (forall i :: 0 <= i < |cs| && cs[i].id in s.wrongPairIds ==> !cs[i].isMatched)
    && (forall i :: 0 <= i < |cs| && cs[i].isMatched ==> !cs[i].isSelected && !cs[i].isError)
  }

  lemma SameIdSamePosition(cs: seq<CardItem>, i: int, j: int)
    requires Shuffle.DistinctBy(cs, CardId)
    requires 0 <= i < |cs| && 0 <= j < |cs| && cs[i].id == cs[j].id
    ensures i == j
  {
  }

  lemma MatchedSetUnchanged(a: seq<CardItem>, b: seq<CardItem>)
    requires |a| == |b|
    requires forall i :: 0 <= i < |a| ==> a[i].isMatched == b[i].isMatched
    ensures MatchedSet(a) == MatchedSet(b)
  {
  }

  lemma MatchedSetAddsTwo(a: seq<CardItem>, b: seq<CardItem>, k: nat, q: nat)
    requires |a| == |b| && k < |a| && q < |a| && k != q
    requires !a[k].isMatched && !a[q].isMatched && b[k].isMatched && b[q].isMatched
    requires forall i :: 0 <= i < |a| && i != k && i != q ==> a[i].isMatched == b[i].isMatched
    ensures |MatchedSet(b)| == |MatchedSet(a)| + 2
  {
    assert MatchedSet(b) == MatchedSet(a) + {k, q};
    assert k !in MatchedSet(a) && q !in MatchedSet(a);
  }

  /** At most every card is matched, and all of them exactly when every
      card is. */
  lemma {:induction false} MatchedSetSize(cs: seq<CardItem>)
    ensures |MatchedSet(cs)| <= |cs|
    ensures |MatchedSet(cs)| == |cs| <==> forall i :: 0 <= i < |cs| ==> cs[i].isMatched
  {
    if |cs| > 0 {
      var n := |cs| - 1;
      var p := cs[..n];
      MatchedSetSize(p);
      assert n !in MatchedSet(p);
      if cs[n].isMatched {
        assert MatchedSet(cs) == MatchedSet(p) + {n};
      } else {
        assert MatchedSet(cs) == MatchedSet(p);
      }
      if forall i :: 0 <= i < |cs| ==> cs[i].isMatched {
        assert forall i :: 0 <= i < |p| ==> p[i].isMatched;
      }
    }
  }

  /** The ids of a list of entries. */
  ghost function Ids(vocab: seq<VocabItem>): set<string> {
    set v | v in vocab :: v.id
  }

  /** Every dealt card's id is its entry id, a dash and its facet. */
  lemma {:induction false} BuiltIdShape(vocab: seq<VocabItem>, mode: GameMode)
    ensures forall c :: c in BuildCards(vocab, mode) ==>
      c.id == FacetId(c.vocabId, c.kind) && c.vocabId in Ids(vocab)
  {
    if |vocab| > 0 {
      var p, v := vocab[..|vocab| - 1], vocab[|vocab| - 1];
      assert BuildCards(vocab, mode) == BuildCards(p, mode) + [HanziCard(v), SecondCard(v, mode)];
      assert vocab == p + [v];
      BuiltIdShape(p, mode);
      assert Ids(p) <= Ids(vocab) by {
        forall x | x in p ensures x in vocab {}
      }
      assert v.id in Ids(vocab);
    }
  }

  lemma {:induction false} BuiltIdsDistinct(vocab: seq<VocabItem>, mode: GameMode)
    requires Shuffle.DistinctBy(vocab, VocabId)
    ensures Shuffle.DistinctBy(BuildCards(vocab, mode), CardId)
  {
    if |vocab| > 0 {
      var n := |vocab| - 1;
      var p, v := vocab[..n], vocab[n];
      var ps := BuildCards(p, mode);
      var h, c2 := HanziCard(v), SecondCard(v, mode);
      var r := BuildCards(vocab, mode);
      assert r == ps + [h, c2];
      assert Shuffle.DistinctBy(p, VocabId) by {
        forall a, b | 0 <= a < b < |p| ensures VocabId(p[a]) != VocabId(p[b]) {
          assert p[a] == vocab[a] && p[b] == vocab[b];
        }
      }
      BuiltIdsDistinct(p, mode);
      assert v.id !in Ids(p) by {
        forall w | w in p ensures w.id != v.id {
          var j :| 0 <= j < |p| && p[j] == w;
          assert VocabId(vocab[j]) != VocabId(vocab[n]);
        }
      }
      NewIdsFresh(p, v, mode);
      KindNameNoDash(Hanzi);
      KindNameNoDash(SecondKind(mode));
      if h.id == c2.id {
        Text.SplitAtLastDash(v.id, KindName(Hanzi), v.id, KindName(SecondKind(mode)));
      }
      forall a, b | 0 <= a < b < |r| ensures CardId(r[a]) != CardId(r[b]) {
        if b < |ps| {
          assert r[a] == ps[a] && r[b] == ps[b];
        } else if a < |ps| {
          assert r[a] in ps;
        }
      }
    }
  }

  lemma KindNameNoDash(k: CardKind)
    ensures Text.NoDash(KindName(k))
  {
  }

  /** Cards of different entries never share an id. */
  lemma DifferentEntryDifferentId(c: CardItem, entryId: string, k: CardKind)
    requires c.id == FacetId(c.vocabId, c.kind)
    requires c.vocabId != entryId
    ensures c.id != FacetId(entryId, k)
  {
    KindNameNoDash(c.kind);
    KindNameNoDash(k);
    if c.id == FacetId(entryId, k) {
      Text.SplitAtLastDash(c.vocabId, KindName(c.kind), entryId, KindName(k));
    }
  }

  /** The two cards of an entry whose id is new clash with no earlier card. */
  lemma NewIdsFresh(p: seq<VocabItem>, v: VocabItem, mode: GameMode)
    requires v.id !in Ids(p)
    ensures forall x :: x in BuildCards(p, mode) ==> x.id != HanziCard(v).id && x.id != SecondCard(v, mode).id
  {
    BuiltIdShape(p, mode);
    forall x | x in BuildCards(p, mode) ensures x.id != HanziCard(v).id && x.id != SecondCard(v, mode).id {
      DifferentEntryDifferentId(x, v.id, Hanzi);
      DifferentEntryDifferentId(x, v.id, SecondKind(mode));
    }
  }

  /** With distinct entry ids, a new round satisfies the invariant. */
  lemma InitEstablishesInv(vocab: seq<VocabItem>, mode: GameMode, rand: nat -> nat)
    requires Shuffle.DistinctBy(vocab, VocabId)
    ensures Inv(Init(vocab, mode, rand))
  {
    InitCounts(vocab, mode, rand);
    InitMarks(Init(vocab, mode, rand));
  }

  lemma InitCounts(vocab: seq<VocabItem>, mode: GameMode, rand: nat -> nat)
    requires Shuffle.DistinctBy(vocab, VocabId)
    ensures InvCounts(Init(vocab, mode, rand))
  {
    var s := Init(vocab, mode, rand);
    BuiltIdsDistinct(vocab, mode);
    Shuffle.FisherYatesKeepsDistinct(BuildCards(vocab, mode), rand, CardId);
    forall i | 0 <= i < |s.cards| ensures !s.cards[i].isMatched {
      assert s.cards[i] in s.cards;
    }
    assert MatchedSet(s.cards) == {};
  }

  /** A state with no selection, no pending pair and only fresh cards
      satisfies the marking half of the invariant. */
  lemma InitMarks(s: GameState)
    requires s.selectedCardId == None && s.wrongPairIds == []
    requires forall c :: c in s.cards ==> Fresh(c)
    ensures InvMarks(s)
  {
    forall i | 0 <= i < |s.cards| ensures Fresh(s.cards[i]) {
      assert s.cards[i] in s.cards;
    }
  }

  lemma DistinctKept(a: seq<CardItem>, b: seq<CardItem>)
    requires SameFaces(a, b) && Shuffle.DistinctBy(a, CardId)
    ensures Shuffle.DistinctBy(b, CardId)
  {
    forall p, q | 0 <= p < q < |b| ensures CardId(b[p]) != CardId(b[q]) {
      assert CardId(a[p]) != CardId(a[q]);
    }
  }

  /** Under the invariant the first card of a pair sits at exactly one
      position, which differs from the clicked one and is unmatched. */
  lemma PairPositions(s: GameState, k: nat) returns (q: nat)
    requires Inv(s) && k < |s.cards| && !Blocked(s, k)
    requires s.selectedCardId.Some? && s.selectedCardId != Some(s.cards[k].id)
    ensures q < |s.cards| && q != k && !s.cards[q].isMatched
    ensures s.cards[q].id == s.selectedCardId.value
    ensures FindCard(s.cards, s.selectedCardId.value) == Some(s.cards[q])
    ensures forall i :: 0 <= i < |s.cards| && s.cards[i].id == s.cards[k].id ==> i == k
    ensures forall i :: 0 <= i < |s.cards| && s.cards[i].id == s.selectedCardId.value ==> i == q
  {
    var cs := s.cards;
    var firstId := s.selectedCardId.value;
    q :| 0 <= q < |cs| && cs[q].id == firstId && !cs[q].isMatched;
    var found := FindCard(cs, firstId);
    var qi :| 0 <= qi < |cs| && cs[qi] == found.value;
    SameIdSamePosition(cs, q, qi);
    forall i | 0 <= i < |cs| && cs[i].id == cs[k].id ensures i == k {
      SameIdSamePosition(cs, i, k);
    }
    forall i | 0 <= i < |cs| && cs[i].id == firstId ensures i == q {
      SameIdSamePosition(cs, i, q);
    }
  }

  lemma MatchPairPreservesInv(s: GameState, k: nat)
    requires Inv(s) && k < |s.cards| && !Blocked(s, k)
    requires s.selectedCardId.Some? && s.selectedCardId != Some(s.cards[k].id)
    ensures Inv(MatchPair(s, k))
  {
    var q := PairPositions(s, k);
    MatchPairKeepsCounts(s, k, q);
    MatchPairKeepsMarks(s, k, q);
  }

  lemma MatchPairKeepsCounts(s: GameState, k: nat, q: nat)
    requires InvCounts(s) && k < |s.cards| && q < |s.cards| && q != k
    requires !s.cards[k].isMatched && !s.cards[q].isMatched && s.wrongPairIds == []
    requires s.selectedCardId == Some(s.cards[q].id)
    requires forall i :: 0 <= i < |s.cards| && s.cards[i].id == s.cards[k].id ==> i == k
    requires forall i :: 0 <= i < |s.cards| && s.cards[i].id == s.cards[q].id ==> i == q
    requires FindCard(s.cards, s.cards[q].id) == Some(s.cards[q])
    ensures InvCounts(MatchPair(s, k))
  {
    var r := MatchPair(s, k);
    DistinctKept(s.cards, r.cards);
    MatchedSetAddsTwo(s.cards, r.cards, k, q);
  }

  lemma MatchPairKeepsMarks(s: GameState, k: nat, q: nat)
    requires InvMarks(s) && k < |s.cards| && q < |s.cards| && q != k
    requires !s.cards[k].isMatched && !s.cards[q].isMatched && s.wrongPairIds == []
    requires s.selectedCardId == Some(s.cards[q].id)
    requires forall i :: 0 <= i < |s.cards| && s.cards[i].id == s.cards[k].id ==> i == k
    requires forall i :: 0 <= i < |s.cards| && s.cards[i].id == s.cards[q].id ==> i == q
    requires FindCard(s.cards, s.cards[q].id) == Some(s.cards[q])
    ensures InvMarks(MatchPair(s, k))
  {
  }

  lemma WrongPairPreservesInv(s: GameState, k: nat)
    requires Inv(s) && k < |s.cards| && !Blocked(s, k)
    requires s.selectedCardId.Some? && s.selectedCardId != Some(s.cards[k].id)
    ensures Inv(WrongPair(s, k))
  {
    var q := PairPositions(s, k);
    var r := WrongPair(s, k);
    DistinctKept(s.cards, r.cards);
    MatchedSetUnchanged(s.cards, r.cards);
    WrongPairKeepsMarks(s, k, q);
  }

  lemma WrongPairKeepsMarks(s: GameState, k: nat, q: nat)
    requires InvMarks(s) && k < |s.cards| && q < |s.cards| && q != k
    requires !s.cards[k].isMatched && !s.cards[q].isMatched && s.wrongPairIds == []
    requires s.selectedCardId == Some(s.cards[q].id)
    requires forall i :: 0 <= i < |s.cards| && s.cards[i].id == s.cards[k].id ==> i == k
    requires forall i :: 0 <= i < |s.cards| && s.cards[i].id == s.cards[q].id ==> i == q
    requires FindCard(s.cards, s.cards[q].id) == Some(s.cards[q])
    ensures InvMarks(WrongPair(s, k))
  {
    var r := WrongPair(s, k);
    assert r.cards[q].id == s.selectedCardId.value && !r.cards[q].isMatched;
  }

  lemma SelectSecondPreservesInv(s: GameState, k: nat)
    requires Inv(s) && k < |s.cards| && !Blocked(s, k)
    requires s.selectedCardId.Some? && s.selectedCardId != Some(s.cards[k].id)
    ensures Inv(SelectSecond(s, k))
  {
    var q := PairPositions(s, k);
    if s.cards[q].vocabId == s.cards[k].vocabId {
      MatchPairPreservesInv(s, k);
    } else {
      WrongPairPreservesInv(s, k);
    }
  }

  /** Every click keeps the invariant. */
  lemma ClickPreservesInv(s: GameState, k: nat)
    requires Inv(s) && k < |s.cards|
    ensures Inv(Click(s, k))
  {
    var r := Click(s, k);
    if Blocked(s, k) {
    } else if s.selectedCardId == Some(s.cards[k].id) {
      DistinctKept(s.cards, r.cards);
      MatchedSetUnchanged(s.cards, r.cards);
    } else if s.selectedCardId.None? {
      DistinctKept(s.cards, r.cards);
      MatchedSetUnchanged(s.cards, r.cards);
      assert r.cards[k].id == s.cards[k].id && !r.cards[k].isMatched;
    } else {
      SelectSecondPreservesInv(s, k);
    }
  }

  /** The deferred reset keeps the invariant. */
  lemma TimerPreservesInv(s: GameState)
    requires Inv(s) && |s.wrongPairIds| == 2
    ensures Inv(TimerFire(s))
  {
    var r := TimerFire(s);
    MatchedSetUnchanged(s.cards, r.cards);
    DistinctKept(s.cards, r.cards);
  }

  /** A matched card is terminal: no click and no reset changes it at all. */
  lemma MatchedCardsFrozen(s: GameState, k: nat, i: nat)
    requires Inv(s) && k < |s.cards| && i < |s.cards| && s.cards[i].isMatched
    ensures Click(s, k).cards[i] == s.cards[i]
    ensures |s.wrongPairIds| == 2 ==> TimerFire(s).cards[i] == s.cards[i]
  {
    var cs := s.cards;
    if !Blocked(s, k) && s.selectedCardId.Some? && s.selectedCardId != Some(cs[k].id) {
      var q :| 0 <= q < |cs| && cs[q].id == s.selectedCardId.value && !cs[q].isMatched;
      if cs[i].id == s.selectedCardId.value {
        SameIdSamePosition(cs, i, q);
      }
    }
    if !Blocked(s, k) && cs[i].id == cs[k].id {
      SameIdSamePosition(cs, i, k);
    }
  }

  /** At most one card is highlighted at any time. */
  lemma AtMostOneSelected(s: GameState, i: nat, j: nat)
    requires Inv(s) && i < |s.cards| && j < |s.cards|
    requires s.cards[i].isSelected && s.cards[j].isSelected
    ensures i == j
  {
    SameIdSamePosition(s.cards, i, j);
  }

  /** A wrong pair followed by its timer: every card ends unmarked and
      unhighlighted, nothing is pending, and no pair was counted. */
  lemma MismatchThenTimer(s: GameState, k: nat)
    requires Inv(s) && k < |s.cards| && !Blocked(s, k)
    requires s.selectedCardId.Some? && s.selectedCardId != Some(s.cards[k].id)
    requires FindCard(s.cards, s.selectedCardId.value).Some?
    requires FindCard(s.cards, s.selectedCardId.value).value.vocabId != s.cards[k].vocabId
    ensures |Click(s, k).wrongPairIds| == 2
    ensures var r := TimerFire(Click(s, k));
      && r.matchedCount == s.matchedCount && r.selectedCardId == None && r.wrongPairIds == []
      && (forall i :: 0 <= i < |r.cards| ==> !r.cards[i].isSelected && !r.cards[i].isError)
      && (forall i :: 0 <= i < |r.cards| ==> r.cards[i].isMatched == s.cards[i].isMatched)
  {
    var m := Click(s, k);
    assert m == WrongPair(s, k);
    ClickPreservesInv(s, k);
    var r := TimerFire(m);
    forall i | 0 <= i < |r.cards| ensures !r.cards[i].isSelected && !r.cards[i].isError {
      if m.cards[i].id !in m.wrongPairIds {
        assert !m.cards[i].isSelected;
      }
    }
  }

  /** The score never exceeds the number of pairs on the table. */
  lemma MatchedCountBounded(s: GameState)
    requires Inv(s)
    ensures 0 <= s.matchedCount <= |s.cards| / 2
  {
    MatchedSetSize(s.cards);
  }

  /** In a round dealt from `vocab`, the win test holds exactly when the
      list is non-empty and every card is matched. */
  lemma WinIffAllMatched(s: GameState, vocab: seq<VocabItem>)
    requires Inv(s) && |s.cards| == 2 * |vocab|
    ensures IsWin(s, |vocab|) <==> |vocab| > 0 && forall i :: 0 <= i < |s.cards| ==> s.cards[i].isMatched
  {
    MatchedSetSize(s.cards);
  }
}
