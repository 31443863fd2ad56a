/**
  The vocabulary store: an ordered list of categories, each an ordered list
  of word pairs, with add and remove operations and write-through
  persistence. The pure functions `After...` give the list each operation
  leaves behind; the class `VocabularyStore` performs the operations step
  by step, as the source does, and is proved to leave exactly that list.
 */
module Vocabulary {
  import opened Wrappers
  import opened Text
  import opened Offsets
  import opened WordPairs

  /** A category: a name and the word pairs filed under it. */
  datatype VocabularyGroup = VocabularyGroup(id: Id, wordPairs: seq<WordPair>, categoryName: string)

  /** `firstIndex(where: { $0.id == groupId })`. */
  function FirstIndex(groups: seq<VocabularyGroup>, groupId: Id): (r: Option<nat>)
    ensures r.None? <==> forall i :: 0 <= i < |groups| ==> groups[i].id != groupId
    ensures r.Some? ==> r.value < |groups| && groups[r.value].id == groupId
    ensures r.Some? ==> forall i :: 0 <= i < r.value ==> groups[i].id != groupId
  {
    if groups == [] then None
    else if groups[0].id == groupId then Some(0)
    else match FirstIndex(groups[1..], groupId)
      case None => None
      case Some(i) => Some(i + 1)
  }

  // ---------------------------------------------------------------------
  // Identifiers. `UUID()` is modelled by a counter: every identifier in the
  // store lies below the counter, so the next value is fresh.

  predicate PairsBelow(pairs: seq<WordPair>, bound: nat) {
    forall j :: 0 <= j < |pairs| ==> pairs[j].id.raw < bound
  }

  predicate GroupBelow(g: VocabularyGroup, bound: nat) {
    g.id.raw < bound && PairsBelow(g.wordPairs, bound)
  }

  /** Every group id and every word-pair id is below `bound`. */
  predicate IdsBelow(groups: seq<VocabularyGroup>, bound: nat) {
    forall i :: 0 <= i < |groups| ==> GroupBelow(groups[i], bound)
  }

  function Max(a: nat, b: nat): nat {
    if a < b then b else a
  }

  /** A bound above every word-pair id of `pairs`. */
  function PairsBound(pairs: seq<WordPair>): (bound: nat)
    ensures PairsBelow(pairs, bound)
  {
    if pairs == [] then 0
    else Max(PairsBound(pairs[..|pairs| - 1]), pairs[|pairs| - 1].id.raw + 1)
  }

  /** A bound above every identifier in `groups`: where the identifier
      supply starts after loading saved data. */
  function IdBound(groups: seq<VocabularyGroup>): (bound: nat)
    ensures IdsBelow(groups, bound)
  {
    if groups == [] then 0
    else
      var g := groups[|groups| - 1];
      Max(IdBound(groups[..|groups| - 1]), Max(g.id.raw + 1, PairsBound(g.wordPairs)))
  }

  lemma IdsBelowMonotone(groups: seq<VocabularyGroup>, bound: nat, bound': nat)
    requires IdsBelow(groups, bound) && bound <= bound'
    ensures IdsBelow(groups, bound')
  {
  }

  /** No two categories share an identifier, so "the first group with this
      id" is "the group with this id". */
  predicate DistinctGroupIds(groups: seq<VocabularyGroup>) {
    forall i, j :: 0 <= i < j < |groups| ==> groups[i].id != groups[j].id
  }

  // ---------------------------------------------------------------------
  // The validation the store applies: names and words are kept trimmed and
  // non-empty.

  predicate PairWellFormed(p: WordPair) {
    IsCleanText(p.german) && IsCleanText(p.ukrainian)
  }

  predicate GroupWellFormed(g: VocabularyGroup) {
    && IsCleanText(g.categoryName)
    && forall j :: 0 <= j < |g.wordPairs| ==> PairWellFormed(g.wordPairs[j])
  }

  predicate WellFormed(groups: seq<VocabularyGroup>) {
    forall i :: 0 <= i < |groups| ==> GroupWellFormed(groups[i])
  }

  /** No two word pairs anywhere in the store share an identifier. */
  predicate DistinctPairIds(groups: seq<VocabularyGroup>) {
    forall i, j, i', j' ::
      && 0 <= i < |groups| && 0 <= j < |groups[i].wordPairs|
      && 0 <= i' < |groups| && 0 <= j' < |groups[i'].wordPairs|
      && (i != i' || j != j')
      ==> groups[i].wordPairs[j].id != groups[i'].wordPairs[j'].id
  }

  /** No word pair carries the identifier of a category. */
  predicate PairIdsApartFromGroupIds(groups: seq<VocabularyGroup>) {
    forall i, i', j' ::
      && 0 <= i < |groups|
      && 0 <= i' < |groups| && 0 <= j' < |groups[i'].wordPairs|
      ==> groups[i].id != groups[i'].wordPairs[j'].id
  }

  /** Every identifier in the store, of a category or of a word pair, names
      exactly one entry. */
  predicate DistinctIds(groups: seq<VocabularyGroup>) {
    DistinctGroupIds(groups) && DistinctPairIds(groups) && PairIdsApartFromGroupIds(groups)
  }

  /** What every operation of the store keeps: well-formed entries, pairwise
      distinct identifiers, and every identifier below the identifier supply
      `bound`. */
  predicate StoreInvariant(groups: seq<VocabularyGroup>, bound: nat) {
    WellFormed(groups) && DistinctIds(groups) && IdsBelow(groups, bound)
  }

  // ---------------------------------------------------------------------
  // The effect of each operation on the list of categories.

  /** `addGroup(name:)` with `freshId` as the new category's `UUID()`. */
  function AfterAddGroup(groups: seq<VocabularyGroup>, name: string, freshId: Id): (r: seq<VocabularyGroup>)
    ensures IsBlank(name) ==> r == groups
    ensures !IsBlank(name) ==>
      && |r| == |groups| + 1
      && r[..|groups|] == groups
      && r[|groups|].id == freshId
      && r[|groups|].wordPairs == []
      && r[|groups|].categoryName == Trim(name)
      && IsCleanText(r[|groups|].categoryName)
  {
    var trimmed := Trim(name);
    if trimmed == [] then groups
    else groups + [VocabularyGroup(freshId, [], trimmed)]
  }

  /** `addWord(to:german:ukrainian:)` with `freshId` as the new pair's
      `UUID()`. */
  function AfterAddWord(groups: seq<VocabularyGroup>, groupId: Id, german: string, ukrainian: string,
                        freshId: Id): (r: seq<VocabularyGroup>)
    ensures IsBlank(german) || IsBlank(ukrainian) || FirstIndex(groups, groupId).None? ==> r == groups
    ensures !IsBlank(german) && !IsBlank(ukrainian) && FirstIndex(groups, groupId).Some? ==>
      var i := FirstIndex(groups, groupId).value;
      && |r| == |groups|
      && (forall k :: 0 <= k < |r| && k != i ==> r[k] == groups[k])
      && r[i].id == groups[i].id
      && r[i].categoryName == groups[i].categoryName
      && r[i].wordPairs == groups[i].wordPairs + [WordPair(freshId, Trim(german), Trim(ukrainian))]
  {
    var trimmedG := Trim(german);
    var trimmedU := Trim(ukrainian);
    if trimmedG == [] || trimmedU == [] then groups
    else match FirstIndex(groups, groupId)
      case None => groups
      case Some(i) =>
        groups[i := groups[i].(wordPairs := groups[i].wordPairs + [WordPair(freshId, trimmedG, trimmedU)])]
  }

  /** The offsets name positions of the word list they are applied to, when
      that list exists. */
  predicate WordOffsetsValid(groups: seq<VocabularyGroup>, groupId: Id, offsets: set<nat>) {
    var found := FirstIndex(groups, groupId);
    found.Some? ==> ValidOffsets(offsets, |groups[found.value].wordPairs|)
  }

  /** `removeWord(from:at:)`. */
  function AfterRemoveWord(groups: seq<VocabularyGroup>, groupId: Id, offsets: set<nat>): (r: seq<VocabularyGroup>)
    requires WordOffsetsValid(groups, groupId, offsets)
    ensures FirstIndex(groups, groupId).None? ==> r == groups
    ensures FirstIndex(groups, groupId).Some? ==>
      var i := FirstIndex(groups, groupId).value;
      && |r| == |groups|
      && (forall k :: 0 <= k < |r| && k != i ==> r[k] == groups[k])
      && r[i].id == groups[i].id
      && r[i].categoryName == groups[i].categoryName
      && r[i].wordPairs == RemoveOffsets(groups[i].wordPairs, offsets)
      && |r[i].wordPairs| == |groups[i].wordPairs| - |offsets|
  {
    match FirstIndex(groups, groupId)
    case None => groups
    case Some(i) =>
      KeptCount(|groups[i].wordPairs|, offsets);
      groups[i := groups[i].(wordPairs := RemoveOffsets(groups[i].wordPairs, offsets))]
  }

  /** `removeGroup(at:)`: exactly the categories at `offsets` go, the others
      stay in their order. */
  lemma RemoveGroupEffect(groups: seq<VocabularyGroup>, offsets: set<nat>)
    requires ValidOffsets(offsets, |groups|)
    ensures var r := RemoveOffsets(groups, offsets);
      && |r| == |groups| - |offsets|
      && (forall g :: g in r ==> g in groups)
      && (|offsets| == 0 ==> r == groups)
  {
    KeptCount(|groups|, offsets);
    forall g | g in RemoveOffsets(groups, offsets) ensures g in groups {
      RemoveKeepsMembers(groups, offsets, g);
    }
    if |offsets| == 0 {
      assert offsets == {};
      RemoveNothing(groups);
    }
  }

  // ---------------------------------------------------------------------
  // Every operation keeps the store invariant.

  lemma AddGroupKeepsInvariant(groups: seq<VocabularyGroup>, name: string, freshId: Id)
    requires StoreInvariant(groups, freshId.raw)
    ensures StoreInvariant(AfterAddGroup(groups, name, freshId), freshId.raw + 1)
  {
    var r := AfterAddGroup(groups, name, freshId);
    IdsBelowMonotone(groups, freshId.raw, freshId.raw + 1);
    AddGroupDistinctIds(groups, name, freshId);
    if !IsBlank(name) {
      assert forall i :: 0 <= i < |groups| ==> r[i] == groups[i];
    }
  }

  lemma AddWordKeepsInvariant(groups: seq<VocabularyGroup>, groupId: Id, german: string, ukrainian: string,
                              freshId: Id)
    requires StoreInvariant(groups, freshId.raw)
    ensures StoreInvariant(AfterAddWord(groups, groupId, german, ukrainian, freshId), freshId.raw + 1)
  {
    var r := AfterAddWord(groups, groupId, german, ukrainian, freshId);
    AddWordIdsBelow(groups, groupId, german, ukrainian, freshId);
    AddWordDistinctIds(groups, groupId, german, ukrainian, freshId);
    if !IsBlank(german) && !IsBlank(ukrainian) && FirstIndex(groups, groupId).Some? {
      var i := FirstIndex(groups, groupId).value;
      var pairs := r[i].wordPairs;
      var old_pairs := groups[i].wordPairs;
      forall j | 0 <= j < |pairs| ensures PairWellFormed(pairs[j]) {
        if j < |old_pairs| {
          assert pairs[j] == old_pairs[j];
        }
      }
      assert GroupWellFormed(r[i]);
    }
  }

  lemma RemoveWordKeepsInvariant(groups: seq<VocabularyGroup>, groupId: Id, offsets: set<nat>, bound: nat)
    requires StoreInvariant(groups, bound)
    requires WordOffsetsValid(groups, groupId, offsets)
    ensures StoreInvariant(AfterRemoveWord(groups, groupId, offsets), bound)
  {
    var r := AfterRemoveWord(groups, groupId, offsets);
    RemoveWordIdsBelow(groups, groupId, offsets, bound);
    RemoveWordDistinctIds(groups, groupId, offsets);
    if FirstIndex(groups, groupId).Some? {
      var i := FirstIndex(groups, groupId).value;
      var pairs := r[i].wordPairs;
      var old_pairs := groups[i].wordPairs;
      var ks := KeptIndices(|old_pairs|, offsets);
      assert GroupWellFormed(groups[i]);
      forall j | 0 <= j < |pairs| ensures PairWellFormed(pairs[j]) {
        assert pairs[j] == old_pairs[ks[j]];
      }
      assert GroupWellFormed(r[i]);
    }
  }

  lemma RemoveGroupKeepsInvariant(groups: seq<VocabularyGroup>, offsets: set<nat>, bound: nat)
    requires StoreInvariant(groups, bound)
    ensures StoreInvariant(RemoveOffsets(groups, offsets), bound)
  {
    var r := RemoveOffsets(groups, offsets);
    var ks := KeptIndices(|groups|, offsets);
    RemoveGroupIdsBelow(groups, offsets, bound);
    RemoveGroupDistinctIds(groups, offsets);
    forall i | 0 <= i < |r| ensures GroupWellFormed(r[i]) {
      assert r[i] == groups[ks[i]];
    }
  }

  // ---------------------------------------------------------------------
  // Fresh identifiers keep every identifier in the store unique.

  lemma AddGroupDistinctIds(groups: seq<VocabularyGroup>, name: string, freshId: Id)
    requires DistinctIds(groups) && IdsBelow(groups, freshId.raw)
    ensures DistinctIds(AfterAddGroup(groups, name, freshId))
  {
    var r := AfterAddGroup(groups, name, freshId);
    if !IsBlank(name) {
      var n := |groups|;
      assert forall i :: 0 <= i < n ==> r[i] == groups[i];
      forall i, j | 0 <= i < j < |r| ensures r[i].id != r[j].id {
        if j == n {
          assert GroupBelow(groups[i], freshId.raw);
        }
      }
      forall i, j, i', j' |
        && 0 <= i < |r| && 0 <= j < |r[i].wordPairs|
        && 0 <= i' < |r| && 0 <= j' < |r[i'].wordPairs|
        && (i != i' || j != j')
        ensures r[i].wordPairs[j].id != r[i'].wordPairs[j'].id
      {
        assert i < n && i' < n;
      }
      forall i, i', j' | 0 <= i < |r| && 0 <= i' < |r| && 0 <= j' < |r[i'].wordPairs|
        ensures r[i].id != r[i'].wordPairs[j'].id
      {
        assert i' < n;
        if i == n {
          assert GroupBelow(groups[i'], freshId.raw);
        }
      }
    }
  }

  lemma AddWordDistinctIds(groups: seq<VocabularyGroup>, groupId: Id, german: string, ukrainian: string,
                           freshId: Id)
    requires DistinctIds(groups) && IdsBelow(groups, freshId.raw)
    ensures DistinctIds(AfterAddWord(groups, groupId, german, ukrainian, freshId))
  {
    var r := AfterAddWord(groups, groupId, german, ukrainian, freshId);
    if !IsBlank(german) && !IsBlank(ukrainian) && FirstIndex(groups, groupId).Some? {
      var g := FirstIndex(groups, groupId).value;
      var n := |groups[g].wordPairs|;
      // Every entry but the new pair sits where it sat before.
      forall i | 0 <= i < |r| ensures r[i].id == groups[i].id {
        if i != g {
          assert r[i] == groups[i];
        }
      }
      forall i, j | 0 <= i < |r| && 0 <= j < |r[i].wordPairs| && (i != g || j != n)
        ensures j < |groups[i].wordPairs| && r[i].wordPairs[j] == groups[i].wordPairs[j]
      {
        if i != g {
          assert r[i] == groups[i];
        }
      }
      forall i, j, i', j' |
        && 0 <= i < |r| && 0 <= j < |r[i].wordPairs|
        && 0 <= i' < |r| && 0 <= j' < |r[i'].wordPairs|
        && (i != i' || j != j')
        ensures r[i].wordPairs[j].id != r[i'].wordPairs[j'].id
      {
        if i == g && j == n {
          assert GroupBelow(groups[i'], freshId.raw);
        } else if i' == g && j' == n {
          assert GroupBelow(groups[i], freshId.raw);
        }
      }
      forall i, i', j' | 0 <= i < |r| && 0 <= i' < |r| && 0 <= j' < |r[i'].wordPairs|
        ensures r[i].id != r[i'].wordPairs[j'].id
      {
        if i' == g && j' == n {
          assert GroupBelow(groups[i], freshId.raw);
        }
      }
    }
  }

  lemma RemoveWordDistinctIds(groups: seq<VocabularyGroup>, groupId: Id, offsets: set<nat>)
    requires DistinctIds(groups)
    requires WordOffsetsValid(groups, groupId, offsets)
    ensures DistinctIds(AfterRemoveWord(groups, groupId, offsets))
  {
    var r := AfterRemoveWord(groups, groupId, offsets);
    if FirstIndex(groups, groupId).Some? {
      var g := FirstIndex(groups, groupId).value;
      var ks := KeptIndices(|groups[g].wordPairs|, offsets);
      forall i | 0 <= i < |r| ensures r[i].id == groups[i].id {
        if i != g {
          assert r[i] == groups[i];
        }
      }
      // Each pair left behind is the pair at its kept position.
      forall i, j | 0 <= i < |r| && 0 <= j < |r[i].wordPairs|
        ensures var o := if i == g then ks[j] else j;
                o < |groups[i].wordPairs| && r[i].wordPairs[j] == groups[i].wordPairs[o]
      {
        if i != g {
          assert r[i] == groups[i];
        }
      }
      forall i, j, i', j' |
        && 0 <= i < |r| && 0 <= j < |r[i].wordPairs|
        && 0 <= i' < |r| && 0 <= j' < |r[i'].wordPairs|
        && (i != i' || j != j')
        ensures r[i].wordPairs[j].id != r[i'].wordPairs[j'].id
      {
        var o := if i == g then ks[j] else j;
        var o' := if i' == g then ks[j'] else j';
        assert r[i].wordPairs[j] == groups[i].wordPairs[o];
        assert r[i'].wordPairs[j'] == groups[i'].wordPairs[o'];
        if i == g && i' == g {
          assert o != o' by {
            if j < j' {
              assert ks[j] < ks[j'];
            } else {
              assert ks[j'] < ks[j];
            }
          }
        }
      }
      forall i, i', j' | 0 <= i < |r| && 0 <= i' < |r| && 0 <= j' < |r[i'].wordPairs|
        ensures r[i].id != r[i'].wordPairs[j'].id
      {
        var o' := if i' == g then ks[j'] else j';
        assert r[i'].wordPairs[j'] == groups[i'].wordPairs[o'];
      }
    }
  }

  lemma RemoveGroupDistinctIds(groups: seq<VocabularyGroup>, offsets: set<nat>)
    requires DistinctIds(groups)
    ensures DistinctIds(RemoveOffsets(groups, offsets))
  {
    var r := RemoveOffsets(groups, offsets);
    var ks := KeptIndices(|groups|, offsets);
    RemoveKeepsDistinct(groups, offsets, (g: VocabularyGroup) => g.id);
    forall i, j, i', j' |
      && 0 <= i < |r| && 0 <= j < |r[i].wordPairs|
      && 0 <= i' < |r| && 0 <= j' < |r[i'].wordPairs|
      && (i != i' || j != j')
      ensures r[i].wordPairs[j].id != r[i'].wordPairs[j'].id
    {
      assert r[i] == groups[ks[i]] && r[i'] == groups[ks[i']];
      if i < i' {
        assert ks[i] < ks[i'];
      } else if i' < i {
        assert ks[i'] < ks[i];
      }
    }
    forall i, i', j' | 0 <= i < |r| && 0 <= i' < |r| && 0 <= j' < |r[i'].wordPairs|
      ensures r[i].id != r[i'].wordPairs[j'].id
    {
      assert r[i] == groups[ks[i]] && r[i'] == groups[ks[i']];
    }
  }

  // ---------------------------------------------------------------------
  // The first-run seed data.

  /** The two default categories `seedDefaults()` appends, with identifiers
      drawn from the supply starting at `base` in the order the source
      creates them (the three greeting pairs, their category, the room pair,
      its category): "Begrüßung" with three pairs, then "Raum Beschreiben"
      with one, satisfying the store invariant. */
  function Seeded(base: nat): (s: seq<VocabularyGroup>)
    ensures |s| == 2
    ensures s[0].categoryName == "Begrüßung" && |s[0].wordPairs| == 3
    ensures s[1].categoryName == "Raum Beschreiben" && |s[1].wordPairs| == 1
    ensures StoreInvariant(s, base + 6)
  {
    GreetingsWellFormed(base);
    RoomWellFormed(base);
    SeededIds(base);
    [Greetings(base), Room(base)]
  }

  function Greetings(base: nat): VocabularyGroup {
    VocabularyGroup(Id(base + 3),
                    [ WordPair(Id(base), "Hallo", "Привіт"),
                      WordPair(Id(base + 1), "Danke", "Дякую"),
                      WordPair(Id(base + 2), "Bitte", "Будь ласка") ],
                    "Begrüßung")
  }

  function Room(base: nat): VocabularyGroup {
    VocabularyGroup(Id(base + 5), [ WordPair(Id(base + 4), "Fenster", "Вікно") ], "Raum Beschreiben")
  }

  /** The seed's six identifiers are the six values of the supply it drew,
      so they are distinct and below `base + 6`. */
  lemma SeededIds(base: nat)
    ensures var s := [Greetings(base), Room(base)];
            DistinctIds(s) && IdsBelow(s, base + 6)
  {
    var s := [Greetings(base), Room(base)];
    // Word pair `j` of the greetings holds `base + j`; the room's pair
    // holds `base + 4`.
    forall i, j | 0 <= i < |s| && 0 <= j < |s[i].wordPairs|
      ensures s[i].wordPairs[j].id.raw == if i == 0 then base + j else base + 4
    {
      if i == 0 {
        assert j == 0 || j == 1 || j == 2;
      }
    }
    assert s[0].id.raw == base + 3 && s[1].id.raw == base + 5;
  }

  lemma GreetingsWellFormed(base: nat)
    ensures GroupWellFormed(Greetings(base))
  {
    var g := Greetings(base);
    assert IsCleanText("Begrüßung");
    assert PairWellFormed(g.wordPairs[0]);
    assert PairWellFormed(g.wordPairs[1]);
    assert PairWellFormed(g.wordPairs[2]);
  }

  lemma RoomWellFormed(base: nat)
    ensures GroupWellFormed(Room(base))
  {
    var g := Room(base);
    assert IsCleanText("Raum Beschreiben");
    assert PairWellFormed(g.wordPairs[0]);
  }

  // ---------------------------------------------------------------------

  /**
    `VocabularyStore`. Every assignment to `vocabularyGroups` fires its
    `didSet` observer, which saves the whole list; `saves` records each
    snapshot so written, oldest first. `nextId` is the identifier supply
    that stands in for `UUID()`.
   */
  class VocabularyStore {
    var vocabularyGroups: seq<VocabularyGroup>
    var nextId: nat
    ghost var saves: seq<seq<VocabularyGroup>>

    /** The last snapshot saved is the current list, and the identifier
        supply is above every identifier in it. */
    ghost predicate Valid()
      reads this
    {
      && saves != []
      && saves[|saves| - 1] == vocabularyGroups
      && IdsBelow(vocabularyGroups, nextId)
    }

    /** `init(persistenceService:)`: loads the saved list, if any (`loaded`
        is what the persistence service returned), and seeds the defaults
        when the list is then empty. */
    constructor (loaded: Option<seq<VocabularyGroup>>)
      ensures Valid()
      ensures vocabularyGroups != []
      ensures loaded.Some? && loaded.value != [] ==>
        vocabularyGroups == loaded.value && saves == [loaded.value]
      ensures loaded.None? ==>
        vocabularyGroups == Seeded(0) && saves == [Seeded(0)[..1], Seeded(0)]
      ensures loaded == Some([]) ==>
        vocabularyGroups == Seeded(0) && saves == [[], Seeded(0)[..1], Seeded(0)]
    {
      vocabularyGroups := [];
      nextId := 0;
      saves := [];
      new;
      Load(loaded);
      if vocabularyGroups == [] {
        SeedDefaults();
        assert [] + Seeded(0) == Seeded(0);
        assert [] + Seeded(0)[..1] == Seeded(0)[..1];
      }
    }

    /** The `didSet` observer's `save()`: writes the whole list. */
    ghost method Save()
      modifies this`saves
      ensures saves == old(saves) + [vocabularyGroups]
    {
      saves := saves + [vocabularyGroups];
    }

    /** Draws a fresh identifier, as `UUID()` does. */
    method FreshId() returns (id: Id)
      modifies this`nextId
      ensures id == Id(old(nextId)) && nextId == old(nextId) + 1
    {
      id := Id(nextId);
      nextId := nextId + 1;
    }

    /** `load()`: adopts the loaded list, if there is one, and moves the
        identifier supply above every identifier in it. */
    method Load(loaded: Option<seq<VocabularyGroup>>)
      requires vocabularyGroups == [] && nextId == 0 && saves == []
      modifies this
      ensures loaded.None? ==> vocabularyGroups == [] && nextId == 0 && saves == []
      ensures loaded.Some? ==>
        vocabularyGroups == loaded.value && nextId == IdBound(loaded.value) && saves == [loaded.value]
    {
      if loaded.Some? {
        vocabularyGroups := loaded.value;
        Save();
        nextId := IdBound(loaded.value);
      }
    }

    /** `seedDefaults()`: appends the two default categories one at a time,
        each append saving. */
    method SeedDefaults()
      requires IdsBelow(vocabularyGroups, nextId)
      modifies this
      ensures vocabularyGroups == old(vocabularyGroups) + Seeded(old(nextId))
      ensures saves == old(saves) + [old(vocabularyGroups) + Seeded(old(nextId))[..1], vocabularyGroups]
      ensures nextId == old(nextId) + 6
      ensures IdsBelow(vocabularyGroups, nextId)
    {
      var base := nextId;
      var hallo := FreshId();
      var danke := FreshId();
      var bitte := FreshId();
      var greetings := [ NewWordPair(None, "Hallo", "Привіт", hallo),
                         NewWordPair(None, "Danke", "Дякую", danke),
                         NewWordPair(None, "Bitte", "Будь ласка", bitte) ];
      var greetingsId := FreshId();
      vocabularyGroups := vocabularyGroups + [VocabularyGroup(greetingsId, greetings, "Begrüßung")];
      Save();
      var fenster := FreshId();
      var initialRoom := [ NewWordPair(None, "Fenster", "Вікно", fenster) ];
      var roomId := FreshId();
      vocabularyGroups := vocabularyGroups + [VocabularyGroup(roomId, initialRoom, "Raum Beschreiben")];
      Save();
      assert Seeded(base)[..1] == [Seeded(base)[0]];
      IdsBelowMonotone(old(vocabularyGroups), base, nextId);
    }

    /** `addGroup(name:)`. */
    method AddGroup(name: string)
      requires Valid()
      modifies this
      ensures Valid()
      ensures vocabularyGroups == AfterAddGroup(old(vocabularyGroups), name, Id(old(nextId)))
      ensures IsBlank(name) ==> saves == old(saves) && nextId == old(nextId)
      ensures !IsBlank(name) ==> saves == old(saves) + [vocabularyGroups] && nextId == old(nextId) + 1
    {
      var trimmed := Trim(name);
      if trimmed == [] {
        return;
      }
      var id := FreshId();
      vocabularyGroups := vocabularyGroups + [VocabularyGroup(id, [], trimmed)];
      Save();
      IdsBelowMonotone(old(vocabularyGroups), old(nextId), nextId);
    }

    /** `addWord(to:german:ukrainian:)`. */
    method AddWord(groupId: Id, german: string, ukrainian: string)
      requires Valid()
      modifies this
      ensures Valid()
      ensures vocabularyGroups == AfterAddWord(old(vocabularyGroups), groupId, german, ukrainian, Id(old(nextId)))
      ensures var added := !IsBlank(german) && !IsBlank(ukrainian) && FirstIndex(old(vocabularyGroups), groupId).Some?;
        && (added ==> saves == old(saves) + [vocabularyGroups] && nextId == old(nextId) + 1)
        && (!added ==> saves == old(saves) && nextId == old(nextId))
    {
      var trimmedG := Trim(german);
      var trimmedU := Trim(ukrainian);
      if trimmedG == [] || trimmedU == [] {
        return;
      }
      var found := FirstIndex(vocabularyGroups, groupId);
      if found.Some? {
        var index := found.value;
        var id := FreshId();
        var pair := NewWordPair(None, trimmedG, trimmedU, id);
        vocabularyGroups := vocabularyGroups[index := vocabularyGroups[index].(wordPairs := vocabularyGroups[index].wordPairs + [pair])];
        Save();
        AddWordIdsBelow(old(vocabularyGroups), groupId, german, ukrainian, Id(old(nextId)));
      }
    }

    /** `removeGroup(at:)`. The assignment fires `didSet` even when
        `offsets` is empty. */
    method RemoveGroup(offsets: set<nat>)
      requires Valid()
      requires ValidOffsets(offsets, |vocabularyGroups|)
      modifies this
      ensures Valid()
      ensures vocabularyGroups == RemoveOffsets(old(vocabularyGroups), offsets)
      ensures saves == old(saves) + [vocabularyGroups] && nextId == old(nextId)
    {
      vocabularyGroups := RemoveOffsets(vocabularyGroups, offsets);
      Save();
      RemoveGroupIdsBelow(old(vocabularyGroups), offsets, nextId);
    }

    /** `removeWord(from:at:)`. */
    method RemoveWord(groupId: Id, offsets: set<nat>)
      requires Valid()
      requires WordOffsetsValid(vocabularyGroups, groupId, offsets)
      modifies this
      ensures Valid()
      ensures vocabularyGroups == AfterRemoveWord(old(vocabularyGroups), groupId, offsets)
      ensures FirstIndex(old(vocabularyGroups), groupId).Some? ==> saves == old(saves) + [vocabularyGroups]
      ensures FirstIndex(old(vocabularyGroups), groupId).None? ==> saves == old(saves)
      ensures nextId == old(nextId)
    {
      var found := FirstIndex(vocabularyGroups, groupId);
      if found.Some? {
        var index := found.value;
        vocabularyGroups := vocabularyGroups[index := vocabularyGroups[index].(wordPairs := RemoveOffsets(vocabularyGroups[index].wordPairs, offsets))];
        Save();
        RemoveWordIdsBelow(old(vocabularyGroups), groupId, offsets, nextId);
      }
    }
  }

  // ---------------------------------------------------------------------
  // The identifier bound alone, as the class keeps it (loaded data need not
  // be well formed, so the class does not keep the whole store invariant).

  lemma AddWordIdsBelow(groups: seq<VocabularyGroup>, groupId: Id, german: string, ukrainian: string, freshId: Id)
    requires IdsBelow(groups, freshId.raw)
    ensures IdsBelow(AfterAddWord(groups, groupId, german, ukrainian, freshId), freshId.raw + 1)
  {
    var r := AfterAddWord(groups, groupId, german, ukrainian, freshId);
    if !IsBlank(german) && !IsBlank(ukrainian) && FirstIndex(groups, groupId).Some? {
      var i := FirstIndex(groups, groupId).value;
      assert GroupBelow(groups[i], freshId.raw);
      forall j | 0 <= j < |r[i].wordPairs| ensures r[i].wordPairs[j].id.raw < freshId.raw + 1 {
        if j < |groups[i].wordPairs| {
          assert r[i].wordPairs[j] == groups[i].wordPairs[j];
        }
      }
    }
  }

  lemma RemoveWordIdsBelow(groups: seq<VocabularyGroup>, groupId: Id, offsets: set<nat>, bound: nat)
    requires IdsBelow(groups, bound)
    requires WordOffsetsValid(groups, groupId, offsets)
    ensures IdsBelow(AfterRemoveWord(groups, groupId, offsets), bound)
  {
    var r := AfterRemoveWord(groups, groupId, offsets);
    if FirstIndex(groups, groupId).Some? {
      var i := FirstIndex(groups, groupId).value;
      var ks := KeptIndices(|groups[i].wordPairs|, offsets);
      assert GroupBelow(groups[i], bound);
      forall j | 0 <= j < |r[i].wordPairs| ensures r[i].wordPairs[j].id.raw < bound {
        assert r[i].wordPairs[j] == groups[i].wordPairs[ks[j]];
      }
    }
  }

  lemma RemoveGroupIdsBelow(groups: seq<VocabularyGroup>, offsets: set<nat>, bound: nat)
    requires IdsBelow(groups, bound)
    ensures IdsBelow(RemoveOffsets(groups, offsets), bound)
  {
    var r := RemoveOffsets(groups, offsets);
    var ks := KeptIndices(|groups|, offsets);
    forall i | 0 <= i < |r| ensures GroupBelow(r[i], bound) {
      assert r[i] == groups[ks[i]];
    }
  }
}
