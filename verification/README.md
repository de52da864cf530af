# panda-vocab in Dafny

A model of the logic of panda-vocab, a small web application for learning
Chinese vocabulary (HSK levels 1–9) with a card-matching game. The model
covers five parts, each as immutable data and pure transitions:

- **The matching game** (`Game`, from components/Game.tsx). A round is the
  component's state `(cards, selectedCardId, wrongPairIds, matchedCount)`.
  `Init` deals two cards per entry: the hanzi card, plus a pinyin or
  meaning card depending on the mode. It then shuffles the deck. `Click`
  is the card click handler. `TimerFire` is the 800 ms reset after a wrong
  pair, made an explicit step. `IsWin` is the win test. The invariant
  `Inv` holds in every state reachable from a round dealt from entries
  with pairwise distinct ids. It states:
  - card ids are distinct;
  - `2 * matchedCount` is the number of matched cards;
  - at most one card is highlighted, and only while no wrong pair shows;
  - the error marks are exactly on the pending pair;
  - matched cards are neither highlighted nor marked.
- **The saved lists** (`Storage`, from services/storageService.ts). The
  browser's storage slot is a value `Blob`. The operations are: create a
  list (prepended), merge imported entries into a list, and delete a list.
  The merge is modelled on a JavaScript `Map` keyed by the trimmed hanzi.
  It is proved equal to a reference description:
  - the keys are the deduplicated concatenation of the old keys, then the
    new ones;
  - under an imported key sits the last imported entry with that key. Its
    id is that of the last stored entry with the key when there is one,
    and otherwise that of the first imported entry with the key;
  - under a key that was never imported sits the last stored entry with
    that key.
- **The spreadsheet row filter** (`Excel`, from services/excelService.ts).
  The input is the list of rows that the workbook reader hands over.
- **The offline word bank** (`Fallback`, from services/fallbackData.ts).
  It holds the HSK table, transcribed entry for entry, and the random
  picker.
- **The session handlers** (`App`, from App.tsx). These cover creating a
  list, playing a saved list, restarting, fetching an HSK level and "next
  round".

Supporting modules:

- `Wrappers` holds `Option` and `Result`.
- `Types` transcribes types.ts.
- `Text` holds JavaScript's `trim` and the decimal rendering of integers.
- `Shuffle` holds Fisher–Yates. It has a functional definition and an
  in-place array version proved equal to it.

Randomness and clocks are inputs. `rand(i)` is the draw at index `i`, and
the Fisher–Yates index is `rand(i) % (i + 1)`. `stamp(i)` is the
`Date.now()` reading taken for item `i`. The program also shuffles with
`sort(() => Math.random() - 0.5)` (the deck, a played list, a restart).
Those shuffles are modelled with the same Fisher–Yates. Every ordering is
reachable that way, and what the model proves about them is that the
result is a permutation.

Three behaviours of the program worth noting:

- `createVocabSet` puts the new list in front.
- A new round does not cancel a pending wrong-pair timer. `TimerFire`
  requires a pending pair and claims nothing about a stale timer.
- `updateVocabSet` with an unknown id returns the stored lists and does
  not write the slot.

## Model

| member | source | states |
|---|---|---|
| Game.BuildCards | components/Game.tsx:25-48 | the deck has 2·N cards, all unmatched, unhighlighted and unmarked |
| Game.BuildCardsLayout | components/Game.tsx:25-48 | entry i yields at 2i its hanzi card (id `<id>-hanzi`, content the hanzi) and at 2i+1 its pinyin card in HANZI_PINYIN mode or its meaning card otherwise |
| Game.Highlight | components/Game.tsx:69-74 | the clicked card is highlighted, the pending card keeps its highlight, every other card loses it; faces, matches and error marks stay |
| Game.Init | components/Game.tsx:22-56 | a new round's deck is a permutation of the built cards, every card fresh, no selection, no pending pair, score 0 |
| Game.FindCard | components/Game.tsx:81 | `find` returns a card of the deck with the id, or reports that no card has it |
| Game.FindCardFirst | components/Game.tsx:81 | the card `find` returns is the first with the id: no earlier card carries it |
| Game.Click | components/Game.tsx:58-116 | a click never changes which card shows what, never unmatches a card, raises the score by at most one, and is ignored on a matched card or while a wrong pair shows |
| Game.Deselect | components/Game.tsx:63-67 | clicking the highlighted card clears the selection and its highlight and changes nothing else |
| Game.SelectFirst | components/Game.tsx:69-78 | a first click highlights the clicked card, un-highlights all others and remembers its id |
| Game.SelectSecond | components/Game.tsx:69-84 | a second click only re-highlights when the first card is not in the deck, and otherwise matches or mismatches by entry id |
| Game.MatchPair | components/Game.tsx:84-92 | same entry: both cards matched and un-highlighted, others un-highlighted, score +1, selection cleared |
| Game.WrongPair | components/Game.tsx:93-103 | different entries: both cards marked wrong and un-highlighted, the pair's ids recorded, score and selection kept |
| Game.TimerFire | components/Game.tsx:105-113 | the deferred reset clears the mark and highlight of the pair's cards, empties the pending pair and the selection, and changes no other card |
| Game.InitEstablishesInv | components/Game.tsx:22-56 | with distinct entry ids a new round satisfies the invariant (distinct card ids, score is half the matched cards, …) |
| Game.InitCounts | components/Game.tsx:22-56 | dealt from entries with pairwise distinct ids, a new round has distinct card ids and no matched card at score 0 |
| Game.InitMarks | components/Game.tsx:53-55 | with no selection, no pending pair and fresh cards, the marking half of the invariant holds |
| Game.BuiltIdsDistinct | components/Game.tsx:28-41 | with distinct entry ids, the card ids `<id>-hanzi`, `<id>-pinyin`/`<id>-meaning` are pairwise distinct |
| Game.ClickPreservesInv | components/Game.tsx:58-103 | every click keeps the invariant |
| Game.MatchPairKeepsCounts | components/Game.tsx:84-92 | a match keeps card ids distinct and raises the score with the matched cards |
| Game.MatchPairKeepsMarks | components/Game.tsx:84-92 | a match clears the selection and every highlight and marks no error |
| Game.WrongPairKeepsMarks | components/Game.tsx:93-103 | a mismatch marks exactly the two unmatched cards of the pending pair and keeps the selection on an unmatched card |
| Game.TimerPreservesInv | components/Game.tsx:105-113 | the deferred reset keeps the invariant |
| Game.MatchedCardsFrozen | components/Game.tsx:60 | a matched card is terminal: no click and no reset changes it |
| Game.AtMostOneSelected | components/Game.tsx:69-74 | in a reachable state at most one card is highlighted |
| Game.MismatchThenTimer | components/Game.tsx:93-113 | a mismatch followed by its timer leaves no card marked or highlighted, nothing pending, the matched cards and the score as before |
| Game.MatchedCountBounded | components/Game.tsx:86-91 | the score stays between 0 and the number of pairs |
| Game.WinIffAllMatched | components/Game.tsx:119-130 | the win test holds exactly when the list is non-empty and every card is matched |
| Game.MatchedSetSize | components/Game.tsx:130 | the matched cards number at most the deck, and all of it exactly when every card is matched |
| Storage.GetSavedSets | services/storageService.ts:5-13 | the stored lists, or none when the slot is empty or unreadable |
| Storage.CreateVocabSet | services/storageService.ts:19-31 | one new empty list named by the trimmed name, with the clock's id and timestamp, in front of the stored lists in their order; the slot holds what is returned |
| Storage.IndexOf | services/storageService.ts:52 | the position of a key in the map, or the map's size exactly when the key is absent |
| Storage.Put | services/storageService.ts:46 | `Map.set` keeps keys distinct, keeps a present key's position and appends an absent one, and changes only that key's value |
| Storage.SeedOld | services/storageService.ts:44-47 | after the stored entries are set, the keys are the stored keys deduplicated by first occurrence and each value is the last stored entry with that key |
| Storage.AddOne | services/storageService.ts:51-62 | an imported entry whose key is present replaces the value in place under the old id; an absent key is appended with the entry as is |
| Storage.AddNew | services/storageService.ts:49-63 | after all imported entries the keys are distinct and are the deduplicated concatenation of the map's keys and the imported ones |
| Storage.AddOneValues | services/storageService.ts:51-62 | one more imported entry turns the values described for the earlier imports into those described for all of them |
| Storage.AddNewValues | services/storageService.ts:49-63 | each value is the last imported entry with its key (id from the map or from the first import of that key), or the untouched map value |
| Storage.GetAt | services/storageService.ts:53 | in a map with distinct keys, `get` of an entry's key returns that entry's value |
| Storage.Dedup | services/storageService.ts:41-66 | the reference key order is duplicate-free and holds exactly the keys of its input |
| Storage.MergeEntry | services/storageService.ts:41-66 | each merged entry's trimmed hanzi is its map key, and the entry is the reference entry for that key |
| Storage.MergeSpec | services/storageService.ts:41-66 | the merged keys are the old trimmed hanzi then the new ones, each once in order of first appearance, and under each sits the last imported entry with the stored id (or the last stored entry when not imported) |
| Storage.MergeKeysDistinct | services/storageService.ts:41-66 | after a merge no two entries of the list share a trimmed hanzi |
| Storage.MergeIdempotent | services/storageService.ts:41-66 | merging the same entries a second time changes nothing |
| Storage.MergeExample | services/storageService.ts:45-66 | an import of ` 苹果 ` updates the stored `苹果` in place under its old id, and a new word is appended |
| Storage.FindSetIndex | services/storageService.ts:35 | the first position holding the id, or -1 when no list has it |
| Storage.UpdateVocabSet | services/storageService.ts:33-78 | an unknown id returns the stored lists and leaves the slot; otherwise only the target's entries change (to the merge), its id, name and date and every other list stay, and the slot holds what is returned |
| Storage.UpdateIdempotent | services/storageService.ts:33-78 | repeating an import gives the same slot and the same lists |
| Storage.KeepOthers | services/storageService.ts:82 | the kept lists are exactly the stored lists with another id |
| Storage.KeepOthersCounts | services/storageService.ts:82 | the filter keeps each set with another id exactly as often as it occurs and drops every set with the id |
| Storage.KeepOthersNoMatch | services/storageService.ts:82 | filtering out an id no list carries keeps every list, in order |
| Storage.KeepOthersAppend | services/storageService.ts:82 | filtering distributes over concatenation, so kept lists stay in their order |
| Storage.DeleteVocabSet | services/storageService.ts:80-85 | the saved lists are the filter of the stored lists by the id, so exactly those with another id in their original order; an id no list has leaves the lists as they were; the slot holds what is returned |
| Excel.CellText | services/excelService.ts:41-43 | `String()` of a text cell is its text and of a number its decimal form |
| Excel.RowItem | services/excelService.ts:34-44 | an accepted row gives the entry whose fields are the trimmed text of cells 0, 1, 2, with id `excel-<clock>-<row>` |
| Excel.UsableRows | services/excelService.ts:28-37 | the rows that yield entries are exactly the present rows after the header with three non-falsy leading cells, ascending |
| Excel.Collect | services/excelService.ts:26-45 | one entry is collected per usable row |
| Excel.CollectSpec | services/excelService.ts:26-45 | the j-th collected entry is the one built from the j-th usable row, so the entries follow row order |
| Excel.ParseRows | services/excelService.ts:20-52 | fewer than two rows is rejected; no usable row after the header is rejected, exactly; otherwise between one and (rows − 1) entries |
| Excel.ParseRowsLoop | services/excelService.ts:20-52 | the imperative row loop computes the same result as the functional filter |
| Excel.ParsedIdsDistinct | services/excelService.ts:39-44 | accepted entries carry pairwise different ids whatever the clock reads |
| Excel.UsableRowImported | services/excelService.ts:28-45 | every usable row after the header contributes its entry |
| Excel.WhitespaceCellPasses | services/excelService.ts:37-41 | a whitespace-only cell passes the falsy check and yields an empty field |
| Fallback.HskData | services/fallbackData.ts:6-129 | levels 1 to 9 exist, with 15 entries for levels 1–6, 5 for level 7 and 4 for levels 8 and 9 |
| Fallback.SourceList | services/fallbackData.ts:136-139 | a level outside 1–9 draws from level 6; every list drawn from has at least four entries |
| Fallback.SliceLength | services/fallbackData.ts:151 | `slice(0, count)` keeps `min(count, len)` for a non-negative count and `max(len + count, 0)` for a negative one |
| Fallback.Number | services/fallbackData.ts:154-157 | the picked entries keep their fields and get ids `fallback-<level>-<clock>-<index>` |
| Fallback.PickFrom | services/fallbackData.ts:142-157 | picking from a list yields `SliceLength(list, count)` entries, entry i with the id for index i |
| Fallback.PickFromSubMultiset | services/fallbackData.ts:142-151 | the entries picked from a list are a sub-multiset of that list |
| Fallback.GetRandomFallbackVocab | services/fallbackData.ts:134-158 | the result has `SliceLength(source, count)` entries, entry i with id for index i |
| Fallback.PickedFromSource | services/fallbackData.ts:142-151 | the picked entries are a sub-multiset of the level's list |
| Fallback.AllPickedWhenCountCovers | services/fallbackData.ts:142-151 | asking for at least the list's size yields a permutation of the whole list |
| Fallback.PickedIdsDistinct | services/fallbackData.ts:154-157 | the picked entries carry pairwise distinct ids |
| Fallback.UnknownLevelUsesSix | services/fallbackData.ts:136-139 | an unknown level picks from level 6, at most 15 entries |
| Fallback.LevelEightYieldsFour | services/fallbackData.ts:117-122 | level 8 asked for twelve entries yields four |
| Shuffle.Pick | services/fallbackData.ts:146 | the swap partner for index i lies in [0, i] |
| Shuffle.Swap | services/fallbackData.ts:147 | a swap exchanges two positions, keeps the others and the multiset |
| Shuffle.FisherYates | services/fallbackData.ts:145-148 | the shuffled list is a permutation of the input |
| Shuffle.FisherYatesInPlace | services/fallbackData.ts:142-148 | the array loop on a copy computes the functional shuffle, a permutation of the untouched input |
| Shuffle.SwapKeepsDistinct | services/fallbackData.ts:147 | a swap keeps a list free of repeated keys |
| Shuffle.FisherYatesKeepsDistinct | services/fallbackData.ts:145-148 | shuffling keeps a list free of repeated keys |
| Text.Trim | services/storageService.ts:46 | `trim` leaves neither leading nor trailing whitespace |
| Text.TrimIsInfix | services/storageService.ts:46 | the trimmed string is an infix of the input with only whitespace cut on both sides |
| Text.TrimIdempotent | services/storageService.ts:51 | trimming twice is trimming once |
| Text.TrimEmptyIffAllSpace | App.tsx:58 | the trim is empty exactly when the text is whitespace only |
| Text.NatToString | services/storageService.ts:22 | the decimal rendering is a non-empty digit string ending in the last digit |
| Text.NatToStringInjective | services/fallbackData.ts:156 | different numbers render differently |
| Text.SplitAtLastDash | services/fallbackData.ts:156 | a text `a-x` with a dash-free `x` splits uniquely at its last dash |
| App.HandleCreateSet | App.tsx:57-62 | a blank name changes nothing; otherwise the created list is shown and saved and the name field is cleared |
| App.CreateSetIgnoresBlank | App.tsx:58 | the handler leaves the state alone exactly for names of whitespace only |
| App.SelectedMode | App.tsx:108-109 | the selector's mode, or HANZI_MEANING when it is not on the page |
| App.TakeRound | App.tsx:112 | `slice(0, 12)` keeps the first min(12, n) entries |
| App.HandlePlaySavedSet | App.tsx:101-117 | fewer than four entries only sets the error; otherwise at most twelve of the list's entries, a sub-multiset, are played as an upload round with the list's id in the selected mode |
| App.PlayedEntriesDistinct | App.tsx:112 | a list without repeated ids gives a round without repeated ids |
| App.SmallSetPlayedWhole | App.tsx:112 | a list of four to twelve entries is played whole, reordered |
| App.HandleRestart | App.tsx:127-131 | a restart reorders the current entries and changes nothing else |
| App.RestartKeepsDistinct | App.tsx:128 | a restart keeps a list free of repeated ids |
| App.HandleHSKSelection | App.tsx:41-54 | a fetched list starts an HSK round of that level and mode with the error cleared; a failed fetch only sets the error |
| App.FindSet | App.tsx:143 | `find` by id returns a saved list with that id exactly when one exists, and it is the first list with that id |
| App.NextStepOf | App.tsx:134-148 | no config stays; an HSK round with a non-zero level refetches that level and mode; an upload round replays its list exactly when a list with its id is still saved |
| App.SavedModeSelect | App.tsx:269-275 | the saved-list mode selector is on the page only in the dashboard |
| App.HandleNextLevelAsWritten | App.tsx:134-148 | the handler as written stays without a config, refetches an HSK level in the round's mode, and replays a list with the mode read from the page's selector |
| App.NextLevelAsWrittenDropsMode | App.tsx:108-109 | from the game view, "next" on a list played with pinyin cards switches to meaning cards |
| App.HandleNextLevel | App.tsx:134-148 | "next" stays, refetches the level in the round's mode, or replays the list in the round's mode |
| App.NextLevelKeepsRound | App.tsx:134-148 | "next" keeps the round's source, mode, list id and level |
| App.ReplayDrawsFromSavedSet | App.tsx:142-146 | a replayed round draws its entries from the saved list with the round's id |

## Left out

- Rendering, JSX, styling, the confetti effect, `alert` and `confirm`: presentation only.
- Reading `localStorage` and `JSON.parse` are not modelled as code. The slot is the value `Blob`, and a value that does not parse is `Unreadable`. Data that parses to something other than a list of sets is out of scope.
- The `FileReader` and the XLSX workbook decoding. The rows are the input. Cell values are text, integers or booleans. Fractional numbers are not modelled, so neither is their decimal rendering.
- services/geminiService.ts (a network call to an AI service) is not part of this model. Its answer is the `fetched` input of `App.HandleHSKSelection`.
- `Math.random` and `Date.now` are inputs, as described above. So is the page's mode selector.
- `isLoading`, the `user` record and `handleLogin` are left out: they only drive the display.
- `handleFileChange`, `triggerFileUpload` and `handleDeleteSet` are left out. They are not among the handlers modelled here. The storage operations they call are modelled.
- App.HandleRestart: App.tsx empties the list and restores the reshuffled one ten milliseconds later. The model gives only the final state, not the moment with an empty list.
- Game.TimerFire: it is enabled only while a wrong pair is pending. A timer outliving its round (Game.tsx does not cancel it) is not modelled.
- Game.Click: the clicked card is given by its position in the deck, since the page only offers the cards it shows.
- Game.IsWin is a plain predicate without a contract. Its meaning is stated by `Game.WinIffAllMatched`.
- Game.Blocked (components/Game.tsx:60) is a plain predicate without a contract. Its effect is stated by `Game.Click` (a blocked click changes nothing) and `Game.MatchedCardsFrozen`.
- Excel.Usable (services/excelService.ts:32-37) is a plain predicate without a contract. Its meaning is stated by `Excel.UsableRows`, `Excel.ParseRows` and `Excel.UsableRowImported`.
- Storage.MergeItems (services/storageService.ts:41-66), the merge as the program performs it, has no contract of its own. Its meaning is stated by `Storage.MergeSpec`, `Storage.MergeKeysDistinct` and `Storage.MergeIdempotent`.
- Excel.CellText: a number cell is any integer, rendered in full decimal. JavaScript numbers are doubles, so integers beyond 2^53 are not all representable, and `String()` writes magnitudes of 10^21 and above in exponent form (`1e+21`). Neither is modelled.

## Findings

| source | as written | input that shows it | evidently intended | confidence | as-written member | corrected member |
|---|---|---|---|---|---|---|
| App.tsx:108-109 | `handleNextLevel` replays a saved list through `handlePlaySavedSet`. That handler reads the mode from the dashboard's `saved-mode` selector. The game view, where "next" is pressed, does not render that selector, so the mode falls back to HANZI_MEANING. | A saved list of four words played with pinyin cards, then "next" from the game view. | Keep the round's mode (`gameConfig.mode`), as the HSK branch does at App.tsx:139. | medium; not executed | App.NextLevelAsWrittenDropsMode | App.NextLevelKeepsRound |
