# ukrabular — a Dafny model of the vocabulary store and the practice session

ukrabular is an iOS vocabulary trainer for German–Ukrainian word pairs. This
project models its core and proves properties of the model:

- `WordPair` (`word_pair.dfy`, module `WordPairs`): the translation unit.
  It has an identifier and the German and Ukrainian texts.
- `VocabularyStore` (`vocabulary_store.dfy`, module `Vocabulary`): the
  ordered list of categories (`VocabularyGroup`). Its operations add or
  remove categories and word pairs, and every assignment to the list writes
  the whole list through `didSet { save() }`.
  - The class `Vocabulary.VocabularyStore` performs each operation step by
    step, as the source does.
  - The pure functions `AfterAddGroup`, `AfterAddWord` and `AfterRemoveWord`,
    and `Offsets.RemoveOffsets`, give the list each operation leaves behind.
    The methods' postconditions tie the class to them.
  - Lemmas prove that every operation keeps the store invariant:
    - names and words are trimmed and non-empty;
    - no two identifiers in the store are equal, whether of categories or of
      word pairs;
    - every id is below the identifier supply.
- The practice session (`practice.dfy`, module `Practice`): the `@State` of
  `PracticeView` as the class `PracticeSession`. Its methods are the view's
  actions: start (shuffle and reset), check the answer, next card, and the
  show/hide toggle. `promptText()` and `answerText()` are functions of the
  state. The direction `UkToDe` (the default) shows the Ukrainian text and
  expects the German one; `DeToUk` is the other way round.

Two shared modules model the Foundation and standard-library operations the
core relies on:

- `text.dfy` (module `Text`): `trimmingCharacters(in: .whitespacesAndNewlines)`
  over the characters of `CharacterSet.whitespacesAndNewlines`.
- `offsets.dfy` (module `Offsets`): `remove(atOffsets:)` with an `IndexSet`,
  and `shuffled()`. The shuffle is given the permutation of positions it
  picked.

`wrappers.dfy` holds `Option`, which stands for Swift's optionals.

Identifiers: `UUID()` is modelled by a counter, `nextId`, that the store
owns. Every identifier in the store is below it, so each value it hands out
is fresh. `IdBound` moves it above the identifiers of loaded data.

Persistence: the ghost field `saves` is the log of snapshots written by
`save()`, one entry per assignment to `vocabularyGroups`. `Valid()` states
that the last snapshot is the current list.

## Model

| member | source | states |
|---|---|---|
| WordPairs.NewWordPair | ukrabular/model/WordPair.swift:15-19 | The initialiser stores both texts verbatim, with no trimming or validation. An explicit `id` is used unchanged; without one the pair gets the freshly generated identifier. |
| WordPairs.WordPairEquality | ukrabular/model/WordPair.swift:10-13 | Synthesised `Equatable`: two pairs are equal exactly when id, German and Ukrainian texts are all equal. The `let id` is a field of an immutable value. |
| Text.Trim | ukrabular/persistence/VocabularyStore.swift:43 | `trimmingCharacters(in: .whitespacesAndNewlines)` leaves a text that neither starts nor ends with whitespace. |
| Text.TrimSplit | ukrabular/persistence/VocabularyStore.swift:43 | Trimming only removes whitespace: every text is its trimmed form padded on both sides by whitespace. |
| Text.TrimUnique | ukrabular/persistence/VocabularyStore.swift:43 | Any split of a text into whitespace, a middle that neither starts nor ends with whitespace, and whitespace has the trimmed text as its middle. |
| Text.TrimIgnoresPadding | ukrabular/views/Practice.swift:126-127 | Adding whitespace before or after a text does not change what it trims to. |
| Text.TrimIdempotent | ukrabular/views/Practice.swift:147-152 | Trimming twice is trimming once, so `normalize` re-trimming an already trimmed answer changes nothing. |
| Text.IsBlank | ukrabular/persistence/VocabularyStore.swift:43-44 | The `trimmed.isEmpty` guard holds exactly for the texts that are empty or consist only of whitespace (the same test guards `addWord` at line 51). |
| Text.TrimOfCleanText | ukrabular/persistence/VocabularyStore.swift:49-51 | A non-empty text without surrounding whitespace trims to itself and is not blank. |
| Offsets.KeptIndices | ukrabular/persistence/VocabularyStore.swift:61 | The positions that survive `remove(atOffsets:)` are below the length, are not offsets, and are strictly increasing. |
| Offsets.KeptMembers | ukrabular/persistence/VocabularyStore.swift:61 | A position survives exactly when it is below the length and not one of the offsets. |
| Offsets.RemoveOffsets | ukrabular/persistence/VocabularyStore.swift:61 | The result holds, in order, the elements at the surviving positions and nothing else. |
| Offsets.KeptCount | ukrabular/persistence/VocabularyStore.swift:61 | Removing valid offsets shortens the collection by exactly the number of offsets. |
| Offsets.RemoveNothing | ukrabular/persistence/VocabularyStore.swift:61 | An empty `IndexSet` removes nothing. |
| Offsets.RemoveKeepsDistinct | ukrabular/persistence/VocabularyStore.swift:61 | Elements that differ in a key (a category's id) still differ after a removal. |
| Offsets.RemoveKeepsMembers | ukrabular/persistence/VocabularyStore.swift:61 | Every survivor of a removal was in the collection. |
| Offsets.Permute | ukrabular/views/Practice.swift:103 | The shuffled deck holds, at each position, the word the shuffle picked for it. |
| Offsets.PermutePreservesMultiset | ukrabular/views/Practice.swift:103 | `shuffled()` returns a permutation: every word exactly as often as in the source list. |
| Vocabulary.FirstIndex | ukrabular/persistence/VocabularyStore.swift:53 | `firstIndex(where:)` finds nothing exactly when no category has the id. Otherwise it returns the first category with that id. |
| Vocabulary.IdBound | ukrabular/persistence/VocabularyStore.swift:74-78 | After loading, the identifier supply starts above every category id and every word-pair id of the loaded list. |
| Vocabulary.AfterAddGroup | ukrabular/persistence/VocabularyStore.swift:42-46 | A blank name leaves the list unchanged. Otherwise exactly one category is appended at the end, with the fresh id, an empty word list and the trimmed, non-empty name; the earlier categories are unchanged. |
| Vocabulary.AfterAddWord | ukrabular/persistence/VocabularyStore.swift:48-58 | Either text blank, or no category with the id: no change. Otherwise one pair with the fresh id and both trimmed texts is appended to the first category with that id. That category's id, name and earlier pairs stay, and every other category is unchanged. |
| Vocabulary.AfterRemoveWord | ukrabular/persistence/VocabularyStore.swift:64-68 | An unknown category id leaves the list unchanged. Otherwise only that category's word list changes: it loses exactly the pairs at the offsets and keeps the rest in order. |
| Vocabulary.RemoveGroupEffect | ukrabular/persistence/VocabularyStore.swift:60-62 | Removing categories shortens the list by the number of offsets, and every survivor was in the list. An empty `IndexSet` changes nothing. |
| Vocabulary.AddGroupKeepsInvariant | ukrabular/persistence/VocabularyStore.swift:42-46 | Adding a category keeps the store invariant, and the supply moves one past the fresh id. The invariant: trimmed non-empty texts, pairwise distinct identifiers of categories and word pairs, all identifiers below the supply. |
| Vocabulary.AddWordKeepsInvariant | ukrabular/persistence/VocabularyStore.swift:48-58 | Adding a word keeps the store invariant. |
| Vocabulary.RemoveWordKeepsInvariant | ukrabular/persistence/VocabularyStore.swift:64-68 | Removing words keeps the store invariant. |
| Vocabulary.RemoveGroupKeepsInvariant | ukrabular/persistence/VocabularyStore.swift:60-62 | Removing categories keeps the store invariant. |
| Vocabulary.AddGroupDistinctIds | ukrabular/persistence/VocabularyStore.swift:42-46 | The new category's fresh id differs from every category id and word-pair id already in the store, so all identifiers stay distinct. |
| Vocabulary.AddWordDistinctIds | ukrabular/persistence/VocabularyStore.swift:48-58 | The new pair's fresh id differs from every identifier already in the store, so all identifiers stay distinct. |
| Vocabulary.RemoveWordDistinctIds | ukrabular/persistence/VocabularyStore.swift:64-68 | Removing word pairs keeps all identifiers distinct. |
| Vocabulary.RemoveGroupDistinctIds | ukrabular/persistence/VocabularyStore.swift:60-62 | Removing categories keeps all identifiers distinct. |
| Vocabulary.AddWordIdsBelow | ukrabular/persistence/VocabularyStore.swift:48-58 | After `addWord`, every identifier is still below the advanced supply. |
| Vocabulary.RemoveWordIdsBelow | ukrabular/persistence/VocabularyStore.swift:64-68 | After `removeWord`, every identifier is still below the supply. |
| Vocabulary.RemoveGroupIdsBelow | ukrabular/persistence/VocabularyStore.swift:60-62 | After `removeGroup`, every identifier is still below the supply. |
| Vocabulary.Seeded | ukrabular/persistence/VocabularyStore.swift:27-40 | The defaults are "Begrüßung" with 3 pairs, then "Raum Beschreiben" with 1. Drawing their six identifiers from the supply at `base` yields data that satisfies the store invariant with the supply at `base + 6`. |
| Vocabulary.VocabularyStore.constructor | ukrabular/persistence/VocabularyStore.swift:19-25 | After `init` the store is never empty. A non-empty loaded list is adopted and saved once. With nothing loaded, or an empty list loaded, the groups are exactly the two defaults; each step of the seeding is saved. |
| Vocabulary.VocabularyStore.Save | ukrabular/persistence/VocabularyStore.swift:12-14 | `didSet { save() }` writes the current list as the newest snapshot. |
| Vocabulary.VocabularyStore.FreshId | ukrabular/model/WordPair.swift:15 | `UUID()` yields the current supply value and advances the supply. |
| Vocabulary.VocabularyStore.Load | ukrabular/persistence/VocabularyStore.swift:74-78 | A loaded list is adopted and saved, and the supply moves above its identifiers. Without a loaded list nothing changes. |
| Vocabulary.VocabularyStore.SeedDefaults | ukrabular/persistence/VocabularyStore.swift:27-40 | The two default categories are appended one at a time, each append saving. The supply advances by the six identifiers drawn, and the id bound is kept. |
| Vocabulary.VocabularyStore.AddGroup | ukrabular/persistence/VocabularyStore.swift:42-46 | The new list is `AfterAddGroup` of the old list with the next supply value. A blank name neither saves nor draws an id; otherwise exactly one save happens. |
| Vocabulary.VocabularyStore.AddWord | ukrabular/persistence/VocabularyStore.swift:48-58 | The new list is `AfterAddWord` of the old list. A save and an id draw happen exactly when the pair is added. |
| Vocabulary.VocabularyStore.RemoveGroup | ukrabular/persistence/VocabularyStore.swift:60-62 | The new list is the old one with the offsets removed. It is saved once, even for an empty `IndexSet`, since the assignment fires `didSet`. |
| Vocabulary.VocabularyStore.RemoveWord | ukrabular/persistence/VocabularyStore.swift:64-68 | The new list is `AfterRemoveWord` of the old list. It is saved exactly when the category is found. |
| Practice.PromptOf | ukrabular/views/Practice.swift:114-115 | `.ukToDe` shows the Ukrainian text and `.deToUk` the German text. |
| Practice.AnswerOf | ukrabular/views/Practice.swift:120-121 | `.ukToDe` expects the German text and `.deToUk` the Ukrainian text. |
| Practice.AnswerIsOppositeSide | ukrabular/views/Practice.swift:112-122 | The expected answer is the side the prompt does not show. Prompt and answer together are the pair's two texts. |
| Practice.Normalize | ukrabular/views/Practice.swift:147-152 | `normalize(_:)` ignores whitespace around its argument: for any whitespace padding, folding the trimmed padded text gives the same result, whatever the folding does. |
| Practice.AnswersMatch | ukrabular/views/Practice.swift:126-129 | Two answers that are equal once trimmed always match, whatever `lowercased()` and the folding do. |
| Practice.MatchIgnoresPadding | ukrabular/views/Practice.swift:124-129 | Leading or trailing whitespace in the typed answer never changes the verdict, whatever `lowercased()` and the locale folding do. |
| Practice.PaddedAnswerIsCorrect | ukrabular/views/Practice.swift:124-129 | The expected text, typed with any surrounding whitespace, is judged correct. |
| Practice.Advance | ukrabular/views/Practice.swift:144 | `(currentIndex + 1) % count` stays within the deck. |
| Practice.AdvanceTimes | ukrabular/views/Practice.swift:139-145 | The position after any number of "Next" presses is within the deck. |
| Practice.AdvanceTimesWraps | ukrabular/views/Practice.swift:139-145 | Within one round, "Next" counts up from the start and wraps to 0 once. |
| Practice.CycleReturns | ukrabular/views/Practice.swift:139-145 | After as many presses of "Next" as there are cards, the index is back where it started. |
| Practice.CycleVisitsEachOnce | ukrabular/views/Practice.swift:139-145 | One round of "Next" reaches every card, each after exactly one number of presses below the deck length. |
| Practice.PracticeSession.constructor | ukrabular/views/Practice.swift:13-20 | The declared initial values: `.ukToDe`, index 0, empty deck and answer, no feedback, answer hidden, both counters 0. |
| Practice.PracticeSession.StartPractice | ukrabular/views/Practice.swift:102-110 | The deck is the source words in the shuffled order, a permutation of them. Index, answer, feedback, reveal and both counters are reset; the direction is kept. |
| Practice.PracticeSession.PromptText | ukrabular/views/Practice.swift:112-116 | "—" on an empty deck; otherwise the prompt side of the current pair. |
| Practice.PracticeSession.AnswerText | ukrabular/views/Practice.swift:118-122 | "" on an empty deck; otherwise the answer side of the current pair. |
| Practice.PracticeSession.CheckAnswer | ukrabular/views/Practice.swift:124-137 | An empty deck changes nothing. Otherwise `askedCount` goes up by 1. `correctCount` goes up by 1 exactly when the trimmed, lower-cased and normalised answers are equal. The verdict is recorded, the answer is revealed, and `correctCount <= askedCount` is kept. |
| Practice.PracticeSession.NextCard | ukrabular/views/Practice.swift:139-145 | An empty deck changes nothing. Otherwise the index advances modulo the deck length and stays in bounds. Answer, feedback and reveal are cleared; deck, direction and both counters stay. |
| Practice.PracticeSession.ToggleShowAnswer | ukrabular/views/Practice.swift:66-68 | Flips `showAnswer` and changes nothing else. |
| Practice.PracticeSession.SetUserAnswer | ukrabular/views/Practice.swift:58 | The text field writes the typed text to `userAnswer` and nothing else. |
| Practice.PracticeSession.SetDirection | ukrabular/views/Practice.swift:32-35 | The direction picker writes `direction` and nothing else. |

## Left out

- Persistence I/O. `PersistenceService` (JSON encoding, files, atomic writes) is not part of this model. `load()` becomes the constructor's `Option` parameter; `save()` becomes the ghost snapshot log `saves`. Encoding round trips and write failures are not modelled.
- SwiftUI layout and `@Published` change notification. Only the state the views change is modelled. The text field and the direction picker appear as `SetUserAnswer` and `SetDirection`.
- The flat `WordStore` that supplies `store.words` to the practice view is not part of this model. The deck source is a parameter of `StartPractice`.
- Randomness of `shuffled()`. The chosen permutation is a parameter; only that the deck is a permutation is stated, not fairness.
- `lowercased()` and `folding(options:locale:)`. They are locale- and Unicode-dependent and appear as the uninterpreted function values `lower` and `fold`. What is proved holds for any choice of them.
- Trimming works on Unicode scalars (`char`), not on grapheme clusters. The whitespace set is fixed to the members of `whitespacesAndNewlines`.
- Swift's `String ==` (ukrabular/views/Practice.swift:129) compares by Unicode canonical equivalence, while the model compares `seq<char>` exactly. `fold` is taken to include canonical normalisation, so that the exact comparison of its results agrees with Swift's.
- `UUID()` is a counter-based fresh-id supply. Global uniqueness of random UUIDs across devices and runs is not modelled.
- Vocabulary.VocabularyStore.Valid: keeps only the snapshot and identifier-bound facts, because loaded data is not validated by the source. The stronger store invariant is proved, operation by operation, on the pure functions.
- Vocabulary.VocabularyStore.RemoveGroup: requires valid offsets, because `remove(atOffsets:)` traps on an offset past the end; the trap itself is not modelled.
- Vocabulary.VocabularyStore.RemoveWord: requires valid offsets for the found category, for the same reason.
- Practice.PracticeSession.CheckAnswer: `feedback` records only Correct or Incorrect. The message strings, with their emoji and the embedded `answerText()`, are not modelled.
- Swift `Int` overflow of `correctCount`, `askedCount` and `currentIndex` (a trap at 2^63 - 1) is not modelled; the counters are unbounded naturals.
