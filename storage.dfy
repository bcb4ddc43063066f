/**
 * The per-user document store of src/utils/storage.js: card metadata, favorites, the game
 * record and the review history, with an in-memory object in place of Firestore.
 */
module Storage {
  import opened Wrappers
  import opened Seqs
  import opened Catalog
  import opened Game

  /** A stored card document; every field may be missing. */
  datatype Meta = Meta(
    repetitions: Option<int>,
    interval: Option<int>,
    easiness: Option<real>,
    nextReview: Option<Day>,
    notes: Option<string>)

  /** `{}`: the document of a card that has none. */
  const EmptyMeta: Meta := Meta(None, None, None, None, None)

  function Pick<T>(patch: Option<T>, stored: Option<T>): Option<T> {
    if patch.Some? then patch else stored
  }

  /** `setDoc(ref, patch, {merge: true})` on a card document. */
  function MergeMeta(stored: Meta, patch: Meta): (r: Meta)
    ensures patch.repetitions.Some? ==> r.repetitions == patch.repetitions
    ensures patch.repetitions.None? ==> r.repetitions == stored.repetitions
    ensures patch.interval.Some? ==> r.interval == patch.interval
    ensures patch.interval.None? ==> r.interval == stored.interval
    ensures patch.easiness.Some? ==> r.easiness == patch.easiness
    ensures patch.easiness.None? ==> r.easiness == stored.easiness
    ensures patch.nextReview.Some? ==> r.nextReview == patch.nextReview
    ensures patch.nextReview.None? ==> r.nextReview == stored.nextReview
    ensures patch.notes.Some? ==> r.notes == patch.notes
    ensures patch.notes.None? ==> r.notes == stored.notes
  {
    Meta(Pick(patch.repetitions, stored.repetitions), Pick(patch.interval, stored.interval),
         Pick(patch.easiness, stored.easiness), Pick(patch.nextReview, stored.nextReview),
         Pick(patch.notes, stored.notes))
  }

  /**
   * Two merges in a row are one merge of the combined patch; the empty document is an
   * identity on both sides.
   */
  lemma MergeLaws(stored: Meta, p: Meta, q: Meta)
    ensures MergeMeta(MergeMeta(stored, p), q) == MergeMeta(stored, MergeMeta(p, q))
    ensures MergeMeta(EmptyMeta, p) == p
    ensures MergeMeta(stored, EmptyMeta) == stored
    ensures MergeMeta(MergeMeta(stored, p), p) == MergeMeta(stored, p)
  {
  }

  /** The document of a card, or `{}` when it has none (`loadCardMeta`). */
  function StoredOrEmpty(cards: map<string, Meta>, key: string): (m: Meta)
    ensures key !in cards ==> m == EmptyMeta
    ensures key in cards ==> m == cards[key]
  {
    if key in cards then cards[key] else EmptyMeta
  }

  /** The fields a reset writes for a catalog card: its SM-2 defaults and notes or ''. */
  function ResetRecord(c: Card): (m: Meta)
    ensures m.repetitions == Some(c.repetitions) && m.interval == Some(c.interval)
    ensures m.easiness == Some(c.easiness) && m.nextReview == Some(c.nextReview)
    ensures m.notes == Some(if c.notes.Some? then c.notes.value else "")
  {
    Meta(Some(c.repetitions), Some(c.interval), Some(c.easiness), Some(c.nextReview),
         Some(c.notes.GetOr("")))
  }

  /** A reset record has every field, so merging it replaces the stored document. */
  lemma MergeResetRecord(stored: Meta, c: Card)
    ensures MergeMeta(stored, ResetRecord(c)) == ResetRecord(c)
  {
  }

  predicate InScope(c: Card, unitName: Option<string>) {
    unitName.None? || c.unit == unitName.value
  }

  /**
   * The `defaults` object built by the `cardsData.forEach` loop: for each catalog card in
   * scope (in the unit, or every card when `unitName` is None), its key maps to its reset
   * record; a later card with the same key overwrites an earlier one.
   */
  function DefaultsFor(catalog: seq<Card>, unitName: Option<string>): map<string, Meta>
  {
    if catalog == [] then map[]
    else
      var c := catalog[|catalog| - 1];
      var m := DefaultsFor(catalog[..|catalog| - 1], unitName);
      if InScope(c, unitName) then m[IdString(c.id) := ResetRecord(c)] else m
  }

  /** A key has defaults exactly when some catalog card in scope has that key. */
  lemma {:induction false} DefaultsKeys(catalog: seq<Card>, unitName: Option<string>, key: string)
    ensures key in DefaultsFor(catalog, unitName) <==>
      exists i :: 0 <= i < |catalog| && IdString(catalog[i].id) == key && InScope(catalog[i], unitName)
  {
    if catalog != [] {
      var init := catalog[..|catalog| - 1];
      DefaultsKeys(init, unitName, key);
      if key in DefaultsFor(init, unitName) {
        var i :| 0 <= i < |init| && IdString(init[i].id) == key && InScope(init[i], unitName);
        assert catalog[i] == init[i];
      }
      if exists i :: 0 <= i < |catalog| && IdString(catalog[i].id) == key && InScope(catalog[i], unitName) {
        var i :| 0 <= i < |catalog| && IdString(catalog[i].id) == key && InScope(catalog[i], unitName);
        if i < |init| {
          assert init[i] == catalog[i];
        }
      }
    }
  }

  /** With unique keys, a card in scope gets its own reset record. */
  lemma {:induction false} DefaultsValue(catalog: seq<Card>, unitName: Option<string>, i: int)
    requires UniqueKeys(catalog)
    requires 0 <= i < |catalog| && InScope(catalog[i], unitName)
    ensures IdString(catalog[i].id) in DefaultsFor(catalog, unitName)
    ensures DefaultsFor(catalog, unitName)[IdString(catalog[i].id)] == ResetRecord(catalog[i])
  {
    var init := catalog[..|catalog| - 1];
    assert UniqueKeys(init) by {
      forall a, b | 0 <= a < b < |init| ensures IdString(init[a].id) != IdString(init[b].id) {
        assert init[a] == catalog[a] && init[b] == catalog[b];
      }
    }
    if i < |init| {
      assert init[i] == catalog[i];
      DefaultsValue(init, unitName, i);
    }
  }

  /** The loop of `resetUnitSM2`/`resetAllSM2` that fills `defaults` from the catalog. */
  method BuildDefaults(catalog: seq<Card>, unitName: Option<string>) returns (defaults: map<string, Meta>)
    ensures defaults == DefaultsFor(catalog, unitName)
  {
    defaults := map[];
    var i := 0;
    while i < |catalog|
      invariant 0 <= i <= |catalog|
      invariant defaults == DefaultsFor(catalog[..i], unitName)
    {
      var c := catalog[i];
      assert catalog[..i + 1][..i] == catalog[..i];
      if InScope(c, unitName) {
        defaults := defaults[IdString(c.id) := ResetRecord(c)];
      }
      i := i + 1;
    }
    assert catalog[..i] == catalog;
  }

  /** Every stored document with defaults is merged with them; the others stay as they are. */
  function ResetStored(cards: map<string, Meta>, defaults: map<string, Meta>): (r: map<string, Meta>)
    ensures r.Keys == cards.Keys
  {
    map k | k in cards :: if k in defaults then MergeMeta(cards[k], defaults[k]) else cards[k]
  }

  /**
   * `resetUnitSM2`: a stored card of the unit goes back to its catalog defaults; stored cards
   * of other units, and stored documents of no catalog card, are untouched; nothing is added.
   */
  lemma ResetUnitEffect(catalog: seq<Card>, unitName: string, cards: map<string, Meta>, key: string)
    requires UniqueKeys(catalog)
    requires key in cards
    ensures var r := ResetStored(cards, DefaultsFor(catalog, Some(unitName)));
      && key in r
      && (forall i :: 0 <= i < |catalog| && IdString(catalog[i].id) == key && catalog[i].unit == unitName
            ==> r[key] == ResetRecord(catalog[i]))
      && ((forall i :: 0 <= i < |catalog| && IdString(catalog[i].id) == key ==> catalog[i].unit != unitName)
            ==> r[key] == cards[key])
  {
    var defaults := DefaultsFor(catalog, Some(unitName));
    DefaultsKeys(catalog, Some(unitName), key);
    forall i | 0 <= i < |catalog| && IdString(catalog[i].id) == key && catalog[i].unit == unitName
      ensures ResetStored(cards, defaults)[key] == ResetRecord(catalog[i])
    {
      DefaultsValue(catalog, Some(unitName), i);
      MergeResetRecord(cards[key], catalog[i]);
    }
  }

  /** What `toggleFavorite` does to the list: remove every copy of the id, or append it; then `String` each entry. */
  function ToggleIds(ids: seq<Id>, strId: string): (r: seq<string>)
  {
    var next := if StrId(strId) in ids then Filter(ids, (id: Id) => id != StrId(strId)) else ids + [StrId(strId)];
    seq(|next|, i requires 0 <= i < |next| => IdString(next[i]))
  }

  function AsIds(ss: seq<string>): (r: seq<Id>)
    ensures |r| == |ss| && forall i :: 0 <= i < |ss| ==> r[i] == StrId(ss[i])
  {
    seq(|ss|, i requires 0 <= i < |ss| => StrId(ss[i]))
  }

  lemma {:induction false} AsIdsFilter(ss: seq<string>, s: string)
    ensures Filter(AsIds(ss), (id: Id) => id != StrId(s)) == AsIds(Filter(ss, x => x != s))
  {
    if ss != [] {
      assert AsIds(ss)[1..] == AsIds(ss[1..]);
      AsIdsFilter(ss[1..], s);
      assert AsIds(Filter(ss, x => x != s)) == (if ss[0] != s then [StrId(ss[0])] else []) + AsIds(Filter(ss[1..], x => x != s));
    }
  }

  lemma AsIdsBack(ids: seq<Id>, ss: seq<string>)
    requires ids == AsIds(ss)
    ensures seq(|ids|, i requires 0 <= i < |ids| => IdString(ids[i])) == ss
  {
  }

  lemma AsIdsMember(ss: seq<string>, s: string)
    ensures StrId(s) in AsIds(ss) <==> s in ss
  {
    if s in ss {
      var k :| 0 <= k < |ss| && ss[k] == s;
      assert AsIds(ss)[k] == StrId(s);
    }
  }

  /** On a list of strings, toggling removes every copy of a present id and appends an absent one. */
  lemma {:induction false} ToggleStrings(ss: seq<string>, s: string)
    ensures ToggleIds(AsIds(ss), s) == if s in ss then Filter(ss, x => x != s) else ss + [s]
  {
    AsIdsMember(ss, s);
    if s in ss {
      AsIdsFilter(ss, s);
      AsIdsBack(Filter(AsIds(ss), (id: Id) => id != StrId(s)), Filter(ss, x => x != s));
    } else {
      assert AsIds(ss) + [StrId(s)] == AsIds(ss + [s]);
      AsIdsBack(AsIds(ss + [s]), ss + [s]);
    }
  }

  /** Toggling never disturbs the other ids: they keep their places relative to each other. */
  lemma ToggleKeepsOthers(ss: seq<string>, s: string)
    ensures Filter(ToggleIds(AsIds(ss), s), x => x != s) == Filter(ss, x => x != s)
    ensures s in ToggleIds(AsIds(ss), s) <==> s !in ss
  {
    ToggleStrings(ss, s);
    var others := Filter(ss, x => x != s);
    if s in ss {
      FilterFilterSame(ss, s);
      FilterMembership(ss, x => x != s, s);
    } else {
      FilterAppend(ss, [s], x => x != s);
      assert Filter([s], x => x != s) == [];
    }
  }

  lemma {:induction false} FilterFilterSame(ss: seq<string>, s: string)
    ensures Filter(Filter(ss, x => x != s), x => x != s) == Filter(ss, x => x != s)
  {
    if ss != [] {
      FilterFilterSame(ss[1..], s);
      var head := if ss[0] != s then [ss[0]] else [];
      FilterAppend(head, Filter(ss[1..], x => x != s), x => x != s);
    }
  }

  /**
   * Toggling an absent id twice gives back the original list. Toggling a present id twice
   * restores the membership of a list without duplicates, with that id moved to the end.
   */
  lemma ToggleTwice(ss: seq<string>, s: string)
    requires NoDup(ss)
    ensures s !in ss ==> ToggleIds(AsIds(ToggleIds(AsIds(ss), s)), s) == ss
    ensures s in ss ==> ToggleIds(AsIds(ToggleIds(AsIds(ss), s)), s) == Filter(ss, x => x != s) + [s]
    ensures multiset(ToggleIds(AsIds(ToggleIds(AsIds(ss), s)), s)) == multiset(ss)
  {
    ToggleStrings(ss, s);
    var once := ToggleIds(AsIds(ss), s);
    ToggleStrings(once, s);
    if s !in ss {
      assert s in once;
      FilterAppend(ss, [s], x => x != s);
      assert Filter([s], x => x != s) == [];
      FilterAllKept(ss, s);
    } else {
      FilterMembership(ss, x => x != s, s);
      FilterRemovesOne(ss, s);
    }
  }

  lemma {:induction false} FilterAllKept(ss: seq<string>, s: string)
    requires s !in ss
    ensures Filter(ss, x => x != s) == ss
  {
    if ss != [] {
      FilterAllKept(ss[1..], s);
      assert ss == [ss[0]] + ss[1..];
    }
  }

  lemma {:induction false} FilterRemovesOne(ss: seq<string>, s: string)
    requires NoDup(ss) && s in ss
    ensures multiset(Filter(ss, x => x != s)) + multiset{s} == multiset(ss)
  {
    assert ss == [ss[0]] + ss[1..];
    var rest := ss[1..];
    assert NoDup(rest) by {
      forall i, j | 0 <= i < j < |rest| ensures rest[i] != rest[j] {
        assert rest[i] == ss[i + 1] && rest[j] == ss[j + 1];
      }
    }
    if ss[0] == s {
      assert s !in rest by {
        forall k | 0 <= k < |rest| ensures rest[k] != s { assert rest[k] == ss[k + 1]; }
      }
      FilterAllKept(rest, s);
    } else {
      FilterRemovesOne(rest, s);
    }
  }

  /** The user document's game fields; every one may be missing. */
  datatype GameDoc = GameDoc(
    xp: Option<int>,
    level: Option<int>,
    streak: Option<int>,
    lastDate: Option<Day>,
    badges: Option<seq<string>>)

  const MissingGameDoc: GameDoc := GameDoc(None, None, None, None, None)

  /** `loadGameMeta`: each missing field takes its default. */
  function LoadGame(doc: GameDoc): (g: GameMeta)
    ensures doc == MissingGameDoc ==> g == GameMeta(0, 1, 0, None, [])
    ensures doc.xp.Some? ==> g.xp == doc.xp.value
    ensures doc.xp.None? ==> g.xp == 0
    ensures doc.level.Some? ==> g.level == doc.level.value
    ensures doc.level.None? ==> g.level == 1
    ensures doc.streak.Some? ==> g.streak == doc.streak.value
    ensures doc.streak.None? ==> g.streak == 0
    ensures g.lastDate == doc.lastDate
    ensures doc.badges.Some? ==> g.badges == doc.badges.value
    ensures doc.badges.None? ==> g.badges == []
  {
    GameMeta(doc.xp.GetOr(0), doc.level.GetOr(1), doc.streak.GetOr(0), doc.lastDate, doc.badges.GetOr([]))
  }

  /** `saveGameMeta`: all five fields are written (a null lastDate as null). */
  function SaveGame(g: GameMeta): (doc: GameDoc)
    ensures LoadGame(doc) == g
  {
    GameDoc(Some(g.xp), Some(g.level), Some(g.streak), g.lastDate, Some(g.badges))
  }

  /** A logged review: the card id as a string, the rating and an ISO timestamp. */
  datatype ReviewEvent = ReviewEvent(cardId: Id, quality: int, timestamp: string)

  /** One user's documents. */
  class Store {
    var cards: map<string, Meta>
    var favorites: Option<seq<Id>>
    var user: GameDoc
    var history: seq<ReviewEvent>

    /** A user with no documents yet. */
    constructor ()
      ensures cards == map[] && favorites == None && user == MissingGameDoc && history == []
    {
      cards := map[];
      favorites := None;
      user := MissingGameDoc;
      history := [];
    }

    /** `loadAllMeta`: every stored card document by key. */
    method LoadAllMeta() returns (meta: map<string, Meta>)
      ensures meta == cards
    {
      meta := cards;
    }

    /** `loadCardMeta`: the card's document, or `{}`. */
    method LoadCardMeta(cardId: Id) returns (m: Meta)
      ensures IdString(cardId) in cards ==> m == cards[IdString(cardId)]
      ensures IdString(cardId) !in cards ==> m == EmptyMeta
    {
      m := StoredOrEmpty(cards, IdString(cardId));
    }

    /** `saveCardMeta`: merge `data` into the card's document, creating it if needed. */
    method SaveCardMeta(cardId: Id, data: Meta)
      modifies this
      ensures cards == old(cards)[IdString(cardId) := MergeMeta(StoredOrEmpty(old(cards), IdString(cardId)), data)]
      ensures favorites == old(favorites) && user == old(user) && history == old(history)
    {
      var key := IdString(cardId);
      cards := cards[key := MergeMeta(StoredOrEmpty(cards, key), data)];
    }

    /** `loadFavorites`: the stored id list, or `[]`. */
    method LoadFavorites() returns (ids: seq<Id>)
      ensures favorites.Some? ==> ids == favorites.value
      ensures favorites.None? ==> ids == []
    {
      ids := if favorites.Some? then favorites.value else [];
    }

    /** `toggleFavorite`: flip the card in the stored list, save and return the new list. */
    method ToggleFavorite(cardId: Id) returns (ids: seq<string>)
      modifies this
      ensures ids == ToggleIds(if old(favorites).Some? then old(favorites).value else [], IdString(cardId))
      ensures favorites == Some(AsIds(ids))
      ensures cards == old(cards) && user == old(user) && history == old(history)
    {
      var stored := LoadFavorites();
      ids := ToggleIds(stored, IdString(cardId));
      favorites := Some(AsIds(ids));
    }

    /** `loadGameMeta`. */
    method LoadGameMeta() returns (g: GameMeta)
      ensures g == LoadGame(user)
    {
      g := LoadGame(user);
    }

    /** `saveGameMeta`. */
    method SaveGameMeta(g: GameMeta)
      modifies this
      ensures user == SaveGame(g)
      ensures cards == old(cards) && favorites == old(favorites) && history == old(history)
    {
      user := SaveGame(g);
    }

    /** `logReviewEvent`: append an event; the clock reading is the `timestamp` parameter. */
    method LogReviewEvent(cardId: Id, quality: int, timestamp: string)
      modifies this
      ensures history == old(history) + [ReviewEvent(StrId(IdString(cardId)), quality, timestamp)]
      ensures cards == old(cards) && favorites == old(favorites) && user == old(user)
    {
      history := history + [ReviewEvent(StrId(IdString(cardId)), quality, timestamp)];
    }

    /** `loadReviewHistory`: every logged event, in an order this model leaves open. */
    method LoadReviewHistory() returns (h: seq<ReviewEvent>)
      ensures multiset(h) == multiset(history)
    {
      h :| multiset(h) == multiset(history);
    }

    /** `resetUnitSM2`: reset the stored cards of one unit to their catalog defaults. */
    method ResetUnitSM2(catalog: seq<Card>, unitName: string)
      modifies this
      ensures cards == ResetStored(old(cards), DefaultsFor(catalog, Some(unitName)))
      ensures favorites == old(favorites) && user == old(user) && history == old(history)
    {
      var defaults := BuildDefaults(catalog, Some(unitName));
      ghost var before := cards;
      ghost var target := ResetStored(before, defaults);
      var pending := cards.Keys;
      while pending != {}
        invariant pending <= cards.Keys && cards.Keys == before.Keys
        invariant forall k :: k in cards && k in pending ==> cards[k] == before[k]
        invariant forall k :: k in cards && k !in pending ==> cards[k] == target[k]
        invariant favorites == old(favorites) && user == old(user) && history == old(history)
        decreases pending
      {
        var id :| id in pending;
        if id in defaults {
          cards := cards[id := MergeMeta(cards[id], defaults[id])];
        }
        pending := pending - {id};
      }
      assert cards == target;
    }

    /**
     * `resetAllSM2`: reset every stored card. A stored document with no catalog card has no
     * defaults, and writing `undefined` throws; the operation then fails, with some of the
     * other documents already reset.
     */
    method ResetAllSM2(catalog: seq<Card>) returns (ok: bool)
      modifies this
      ensures ok <==> old(cards).Keys <= DefaultsFor(catalog, None).Keys
      ensures ok ==> cards == ResetStored(old(cards), DefaultsFor(catalog, None))
      ensures cards.Keys == old(cards).Keys
      ensures forall k :: k in cards ==>
        cards[k] == old(cards)[k] || cards[k] == ResetStored(old(cards), DefaultsFor(catalog, None))[k]
      ensures favorites == old(favorites) && user == old(user) && history == old(history)
    {
      var defaults := BuildDefaults(catalog, None);
      ghost var before := cards;
      ghost var target := ResetStored(before, defaults);
      var pending := cards.Keys;
      while pending != {}
        invariant pending <= cards.Keys && cards.Keys == before.Keys
        invariant forall k :: k in cards && k in pending ==> cards[k] == before[k]
        invariant forall k :: k in cards && k !in pending ==> k in defaults && cards[k] == target[k]
        invariant favorites == old(favorites) && user == old(user) && history == old(history)
        decreases pending
      {
        var id :| id in pending;
        if id !in defaults {
          assert id in before.Keys && id !in defaults.Keys;
          return false;
        }
        cards := cards[id := MergeMeta(cards[id], defaults[id])];
        pending := pending - {id};
      }
      assert cards == target;
      ok := true;
    }
  }
}
