/** The session handlers of the application shell (App.tsx), as pure
    transitions of the part of its state they touch. The storage slot is
    part of that state; the word service, the clock, the random draws and
    the mode selector on the page are inputs. */
module App {
  import opened Wrappers
  import opened Types
  import Text
  import Shuffle
  import Storage

  /** The messages the handlers can raise. */
  datatype AppError = NeedFourWords(setName: string) | VocabFetchFailed

  /** The state the handlers read and write. */
  datatype AppState = AppState(
    view: AppView,
    error: Option<AppError>,
    vocabList: seq<VocabItem>,
    gameConfig: Option<GameConfig>,
    savedSets: seq<VocabSet>,
    newSetName: string,
    store: Storage.Blob)

  /** A round is played with at most this many entries of a saved set. */
  const MaxRound := 12

  /** A saved set needs at least this many entries to be played. */
  const MinSetSize := 4

  /** `handleCreateSet`: a blank name does nothing; otherwise the set is
      created and saved, the list shown is the one saved, and the name
      field is cleared. */
  function HandleCreateSet(s: AppState, idStamp: nat, createdAt: int): (r: AppState)
    ensures Text.Trim(s.newSetName) == [] ==> r == s
    ensures Text.Trim(s.newSetName) != [] ==>
      && r == s.(savedSets := r.savedSets, newSetName := "", store := r.store)
      && Storage.GetSavedSets(r.store) == r.savedSets
      && |r.savedSets| == |Storage.GetSavedSets(s.store)| + 1
      && r.savedSets[0].name == Text.Trim(s.newSetName) && r.savedSets[0].items == []
      && r.savedSets[1..] == Storage.GetSavedSets(s.store)
  {
    if Text.Trim(s.newSetName) == [] then s
    else
      var res := Storage.CreateVocabSet(s.store, s.newSetName, idStamp, createdAt);
      s.(savedSets := res.sets, newSetName := "", store := res.blob)
  }

  /** `handleCreateSet` ignores exactly the names made only of whitespace. */
  lemma CreateSetIgnoresBlank(s: AppState, idStamp: nat, createdAt: int)
    ensures HandleCreateSet(s, idStamp, createdAt) == s <==> Text.AllSpace(s.newSetName)
  {
    Text.TrimEmptyIffAllSpace(s.newSetName);
    if !Text.AllSpace(s.newSetName) {
      var r := HandleCreateSet(s, idStamp, createdAt);
      assert |r.savedSets| != |s.savedSets| || r.newSetName != s.newSetName || r.savedSets != s.savedSets by {
        if |r.savedSets| == |s.savedSets| && r.savedSets == s.savedSets {
          assert r.newSetName == "";
          assert s.newSetName != "";
        }
      }
    }
  }

  /** The first `n` entries, `n` at most `MaxRound`: `slice(0, 12)`. */
  function TakeRound(xs: seq<VocabItem>): (r: seq<VocabItem>)
    ensures |r| == if |xs| < MaxRound then |xs| else MaxRound
    ensures r == xs[..|r|]
  {
    if |xs| < MaxRound then xs else xs[..MaxRound]
  }

  /** The mode the page's selector yields: its value, or `HANZI_MEANING`
      when it is not on the page. */
  function SelectedMode(modeSelect: Option<GameMode>): (m: GameMode)
    ensures modeSelect.Some? ==> m == modeSelect.value
    ensures modeSelect.None? ==> m == HanziMeaning
  {
    modeSelect.GetOr(HanziMeaning)
  }

  /** `handlePlaySavedSet`: a set with fewer than four entries only raises
      an error; otherwise a random selection of at most twelve of its
      entries is played in the selected mode. An earlier error is left in
      place either way. */
  function HandlePlaySavedSet(s: AppState, vs: VocabSet, modeSelect: Option<GameMode>, rand: nat -> nat): (r: AppState)
    ensures |vs.items| < MinSetSize ==> r == s.(error := Some(NeedFourWords(vs.name)))
    ensures |vs.items| >= MinSetSize ==>
      && r == s.(vocabList := r.vocabList, gameConfig := r.gameConfig, view := GameView)
      && r.gameConfig == Some(GameConfig(Upload, None, Some(vs.id), None, SelectedMode(modeSelect)))
      && |r.vocabList| == (if |vs.items| < MaxRound then |vs.items| else MaxRound)
      && multiset(r.vocabList) <= multiset(vs.items)
  {
    if |vs.items| < MinSetSize then s.(error := Some(NeedFourWords(vs.name)))
    else
      var shuffled := Shuffle.FisherYates(vs.items, rand);
      var selected := TakeRound(shuffled);
      assert shuffled == selected + shuffled[|selected|..];
      s.(vocabList := selected,
         gameConfig := Some(GameConfig(Upload, None, Some(vs.id), None, SelectedMode(modeSelect))),
         view := GameView)
  }

  /** A played selection never repeats an entry of a set without repeats:
      it comes from distinct positions of the set. */
  lemma PlayedEntriesDistinct(s: AppState, vs: VocabSet, modeSelect: Option<GameMode>, rand: nat -> nat)
    requires |vs.items| >= MinSetSize
    requires Shuffle.DistinctBy(vs.items, (v: VocabItem) => v.id)
    ensures Shuffle.DistinctBy(HandlePlaySavedSet(s, vs, modeSelect, rand).vocabList, (v: VocabItem) => v.id)
  {
    Shuffle.FisherYatesKeepsDistinct(vs.items, rand, (v: VocabItem) => v.id);
  }

  /** A set of at most twelve entries is played whole. */
  lemma SmallSetPlayedWhole(s: AppState, vs: VocabSet, modeSelect: Option<GameMode>, rand: nat -> nat)
    requires MinSetSize <= |vs.items| <= MaxRound
    ensures multiset(HandlePlaySavedSet(s, vs, modeSelect, rand).vocabList) == multiset(vs.items)
  {
    var shuffled := Shuffle.FisherYates(vs.items, rand);
    assert TakeRound(shuffled) == shuffled;
  }

  /** `handleRestart`: the same entries, reshuffled. App.tsx first
      empties the list and puts the reshuffled one back ten milliseconds
      later; this is the state after both steps. */
  function HandleRestart(s: AppState, rand: nat -> nat): (r: AppState)
    ensures r == s.(vocabList := r.vocabList)
    ensures multiset(r.vocabList) == multiset(s.vocabList)
  {
    s.(vocabList := Shuffle.FisherYates(s.vocabList, rand))
  }

  /** Restarting keeps a list without repeated ids free of repeats. */
  lemma RestartKeepsDistinct(s: AppState, rand: nat -> nat)
    requires Shuffle.DistinctBy(s.vocabList, (v: VocabItem) => v.id)
    ensures Shuffle.DistinctBy(HandleRestart(s, rand).vocabList, (v: VocabItem) => v.id)
  {
    Shuffle.FisherYatesKeepsDistinct(s.vocabList, rand, (v: VocabItem) => v.id);
  }

  /** `handleHSKSelection`: the error is cleared and the word service is
      asked for a level; `fetched` is its answer, `None` when it fails. */
  function HandleHSKSelection(s: AppState, level: int, mode: GameMode, fetched: Option<seq<VocabItem>>): (r: AppState)
    ensures fetched.None? ==> r == s.(error := Some(VocabFetchFailed))
    ensures fetched.Some? ==>
      r == s.(error := None, vocabList := fetched.value,
              gameConfig := Some(GameConfig(Hsk, Some(level), None, None, mode)), view := GameView)
  {
    var cleared := s.(error := None);
    match fetched
    case None => cleared.(error := Some(VocabFetchFailed))
    case Some(vocab) =>
      cleared.(vocabList := vocab, gameConfig := Some(GameConfig(Hsk, Some(level), None, None, mode)), view := GameView)
  }

  /** `savedSets.find(s => s.id === id)`: the first set carrying the id. */
  function FindSet(sets: seq<VocabSet>, id: string): (r: Option<VocabSet>)
    ensures r.Some? <==> exists j :: 0 <= j < |sets| && sets[j].id == id
    ensures r.Some? ==> r.value.id == id && r.value in sets
    ensures r.Some? ==> exists j :: 0 <= j < |sets| && sets[j] == r.value && forall i :: 0 <= i < j ==> sets[i].id != id
  {
    var t := Storage.FindSetIndex(sets, id);
    if t == -1 then None else Some(sets[t])
  }

  /** What `handleNextLevel` does, as App.tsx branches on the config. */
  datatype NextStep = Stay | Refetch(level: int, mode: GameMode) | Replay(target: VocabSet)

  /** The branch `handleNextLevel` takes: no config stays; an HSK round with
      a non-zero level asks for that level again in the same mode; an
      uploaded round with a non-empty set id replays that set when it is
      still saved; anything else stays. */
  function NextStepOf(s: AppState): (n: NextStep)
    ensures n.Refetch? <==>
      s.gameConfig.Some? && s.gameConfig.value.sourceType == Hsk
      && s.gameConfig.value.hskLevel.Some? && s.gameConfig.value.hskLevel.value != 0
    ensures n.Refetch? ==> n.level == s.gameConfig.value.hskLevel.value && n.mode == s.gameConfig.value.mode
    ensures n.Replay? <==>
      s.gameConfig.Some? && s.gameConfig.value.sourceType == Upload
      && s.gameConfig.value.setId.Some? && s.gameConfig.value.setId.value != ""
      && exists j :: 0 <= j < |s.savedSets| && s.savedSets[j].id == s.gameConfig.value.setId.value
    ensures n.Replay? ==> n.target.id == s.gameConfig.value.setId.value && n.target in s.savedSets
  {
    match s.gameConfig
    case None => Stay
    case Some(cfg) =>
      if cfg.sourceType == Hsk && cfg.hskLevel.Some? && cfg.hskLevel.value != 0 then
        Refetch(cfg.hskLevel.value, cfg.mode)
      else if cfg.sourceType == Upload && cfg.setId.Some? && cfg.setId.value != "" then
        match FindSet(s.savedSets, cfg.setId.value)
        case Some(vs) => Replay(vs)
        case None => Stay
      else Stay
  }

  /** The page's saved-set mode selector is part of the dashboard: in any
      other view `getElementById('saved-mode')` finds nothing. */
  function SavedModeSelect(view: AppView, dashboardMode: GameMode): (m: Option<GameMode>)
    ensures m.Some? <==> view == Dashboard
  {
    if view == Dashboard then Some(dashboardMode) else None
  }

  /** `handleNextLevel` as written: a replayed set takes its mode from the
      saved-set selector, which the game view does not render. */
  function HandleNextLevelAsWritten(s: AppState, fetched: Option<seq<VocabItem>>, dashboardMode: GameMode, rand: nat -> nat): (r: AppState)
    ensures NextStepOf(s).Stay? ==> r == s
    ensures NextStepOf(s).Refetch? ==>
      r == HandleHSKSelection(s, s.gameConfig.value.hskLevel.value, s.gameConfig.value.mode, fetched)
    ensures NextStepOf(s).Replay? ==>
      r == HandlePlaySavedSet(s, NextStepOf(s).target, SavedModeSelect(s.view, dashboardMode), rand)
  {
    match NextStepOf(s)
    case Stay => s
    case Refetch(level, mode) => HandleHSKSelection(s, level, mode, fetched)
    case Replay(vs) => HandlePlaySavedSet(s, vs, SavedModeSelect(s.view, dashboardMode), rand)
  }

  /** From the game view, "next" on a saved set played with pinyin cards
      switches the next round to meaning cards. */
  lemma NextLevelAsWrittenDropsMode(rand: nat -> nat, dashboardMode: GameMode)
    ensures var vs := VocabSet("1", "Food", 0, [
          VocabItem("a", "苹果", "píngguǒ", "Táo"), VocabItem("b", "米饭", "mǐfàn", "Cơm"),
          VocabItem("c", "水", "shuǐ", "Nước"), VocabItem("d", "茶", "chá", "Trà")]);
      var s := AppState(GameView, None, vs.items, Some(GameConfig(Upload, None, Some("1"), None, HanziPinyin)),
                        [vs], "", Storage.Stored([vs]));
      var r := HandleNextLevelAsWritten(s, None, dashboardMode, rand);
      r.gameConfig.Some? && r.gameConfig.value.mode == HanziMeaning
  {
    var vs := VocabSet("1", "Food", 0, [
      VocabItem("a", "苹果", "píngguǒ", "Táo"), VocabItem("b", "米饭", "mǐfàn", "Cơm"),
      VocabItem("c", "水", "shuǐ", "Nước"), VocabItem("d", "茶", "chá", "Trà")]);
    var s := AppState(GameView, None, vs.items, Some(GameConfig(Upload, None, Some("1"), None, HanziPinyin)),
                      [vs], "", Storage.Stored([vs]));
    assert s.savedSets[0].id == "1";
    assert NextStepOf(s) == Replay(vs);
  }

  /** `handleNextLevel` with the replayed set keeping the round's mode, as
      the HSK branch does. */
  function HandleNextLevel(s: AppState, fetched: Option<seq<VocabItem>>, rand: nat -> nat): (r: AppState)
    ensures NextStepOf(s).Stay? ==> r == s
    ensures NextStepOf(s).Refetch? ==>
      r == HandleHSKSelection(s, s.gameConfig.value.hskLevel.value, s.gameConfig.value.mode, fetched)
    ensures NextStepOf(s).Replay? ==>
      r == HandlePlaySavedSet(s, NextStepOf(s).target, Some(s.gameConfig.value.mode), rand)
  {
    match NextStepOf(s)
    case Stay => s
    case Refetch(level, mode) => HandleHSKSelection(s, level, mode, fetched)
    case Replay(vs) => HandlePlaySavedSet(s, vs, Some(s.gameConfig.value.mode), rand)
  }

  /** Whatever branch it takes, "next" keeps the round's source, set and
      mode: a new round differs from the last one only in its entries. */
  lemma NextLevelKeepsRound(s: AppState, fetched: Option<seq<VocabItem>>, rand: nat -> nat)
    requires s.gameConfig.Some?
    ensures var r := HandleNextLevel(s, fetched, rand);
      r.gameConfig.Some?
      && r.gameConfig.value.sourceType == s.gameConfig.value.sourceType
      && r.gameConfig.value.mode == s.gameConfig.value.mode
      && (s.gameConfig.value.sourceType == Upload ==> r.gameConfig.value.setId == s.gameConfig.value.setId)
      && (s.gameConfig.value.sourceType == Hsk ==> r.gameConfig.value.hskLevel == s.gameConfig.value.hskLevel)
  {
  }

  /** A replayed set draws its new round from the saved set with that id. */
  lemma ReplayDrawsFromSavedSet(s: AppState, fetched: Option<seq<VocabItem>>, rand: nat -> nat)
    requires NextStepOf(s).Replay? && |NextStepOf(s).target.items| >= MinSetSize
    ensures var r := HandleNextLevel(s, fetched, rand);
      exists j :: 0 <= j < |s.savedSets| && s.savedSets[j].id == s.gameConfig.value.setId.value
        && multiset(r.vocabList) <= multiset(s.savedSets[j].items)
  {
    var vs := NextStepOf(s).target;
    var j :| 0 <= j < |s.savedSets| && s.savedSets[j] == vs;
  }
}
