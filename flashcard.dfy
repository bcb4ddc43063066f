/** The study card of src/components/Flashcard.jsx: loading a card's state, rating it, notes. */
module Flashcard {
  import opened Wrappers
  import opened Seqs
  import opened Catalog
  import opened Sm2
  import opened Game
  import opened Storage
  import opened App

  /** The scheduling fields and notes the card view shows. */
  datatype CardState = CardState(
    repetitions: int,
    interval: int,
    easiness: real,
    nextReview: Day,
    notes: string)

  /** The view's state from the catalog card alone. */
  function CatalogState(card: Card): CardState {
    CardState(card.repetitions, card.interval, card.easiness, card.nextReview, card.notes.GetOr(""))
  }

  /** Each field: the stored value when there is one, else the card's (and '' for absent notes). */
  function EffectiveState(data: Meta, card: Card): (s: CardState)
  {
    CardState(
      data.repetitions.GetOr(card.repetitions),
      data.interval.GetOr(card.interval),
      data.easiness.GetOr(card.easiness),
      data.nextReview.GetOr(card.nextReview),
      data.notes.GetOr(card.notes.GetOr("")))
  }

  /** A stored field always wins over the catalog's, and a missing one falls back to it. */
  lemma EffectiveStateFields(data: Meta, card: Card)
    ensures var s := EffectiveState(data, card);
      && (data.repetitions.Some? ==> s.repetitions == data.repetitions.value)
      && (data.repetitions.None? ==> s.repetitions == card.repetitions)
      && (data.interval.Some? ==> s.interval == data.interval.value)
      && (data.interval.None? ==> s.interval == card.interval)
      && (data.easiness.Some? ==> s.easiness == data.easiness.value)
      && (data.easiness.None? ==> s.easiness == card.easiness)
      && (data.nextReview.Some? ==> s.nextReview == data.nextReview.value)
      && (data.nextReview.None? ==> s.nextReview == card.nextReview)
      && (data.notes.Some? ==> s.notes == data.notes.value)
      && (data.notes.None? && card.notes.Some? ==> s.notes == card.notes.value)
      && (data.notes.None? && card.notes.None? ==> s.notes == "")
  {
  }

  /** A card with no document, and a card just reset, both show the catalog's state. */
  lemma UnstoredAndResetShowCatalog(card: Card, stored: Meta)
    ensures EffectiveState(EmptyMeta, card) == CatalogState(card)
    ensures EffectiveState(MergeMeta(stored, ResetRecord(card)), card) == CatalogState(card)
  {
    MergeResetRecord(stored, card);
  }

  /** `{ ...updated, notes }`: the document saved after a rating. */
  function SavedMeta(updated: Scheduled<()>, notes: string): (m: Meta)
    ensures m.repetitions == Some(updated.repetitions) && m.interval == Some(updated.interval)
    ensures m.easiness == Some(updated.easiness) && m.nextReview == Some(updated.nextReview)
    ensures m.notes == Some(notes)
  {
    Meta(Some(updated.repetitions), Some(updated.interval), Some(updated.easiness),
         Some(updated.nextReview), Some(notes))
  }

  /** Loading the card again after a rating shows the SM-2 result and the notes. */
  lemma ReloadAfterRating(stored: Meta, card: Card, updated: Scheduled<()>, notes: string)
    ensures EffectiveState(MergeMeta(stored, SavedMeta(updated, notes)), card) ==
      CardState(updated.repetitions, updated.interval, updated.easiness, updated.nextReview, notes)
  {
  }

  /** After a rating from a valid state, the card is no longer in today's due set. */
  lemma RatedCardLeavesDueSet(catalog: seq<Card>, meta: map<string, Meta>, card: Card,
                              current: Scheduled<()>, notes: string, quality: int, today: Day)
    requires ValidSchedule(current)
    ensures var key := IdString(card.id);
      var meta' := meta[key := MergeMeta(StoredOrEmpty(meta, key), SavedMeta(ApplySM2(current, quality, today), notes))];
      card !in DueCards(catalog, meta', today)
  {
    var key := IdString(card.id);
    var meta' := meta[key := MergeMeta(StoredOrEmpty(meta, key), SavedMeta(ApplySM2(current, quality, today), notes))];
    NextReviewAfterToday(current, quality, today);
    DueCardsSelection(catalog, meta', today);
  }

  /** `text` saved alone: the notes field and nothing else changes. */
  function NotesPatch(text: string): Meta {
    Meta(None, None, None, None, Some(text))
  }

  lemma NotesPatchOnlyNotes(stored: Meta, text: string)
    ensures MergeMeta(stored, NotesPatch(text)) == stored.(notes := Some(text))
  {
  }

  /** The labels of the rating buttons; a button's index is the rating it sends. */
  const RatingLabels: seq<string> := ["Again", "Hard", "Still Struggling", "Easy", "Very Easy", "Mastered"]

  /** `level-<n>`. */
  function LevelBadge(level: int): string {
    "level-" + IntToString(level)
  }

  /** The xp, level and badge update of one review. */
  function Reward(g: GameMeta, quality: int): (r: GameMeta)
    ensures r.xp == g.xp + (if quality >= 4 then 15 else 10)
    ensures r.streak == g.streak && r.lastDate == g.lastDate
    ensures r.level == g.level || r.level == g.level + 1
    ensures r.level == g.level + 1 <==> Threshold(g.level).Some? && r.xp >= Threshold(g.level).value
    ensures r.level == g.level + 1 ==> r.badges == g.badges + [LevelBadge(r.level)]
    ensures r.level == g.level ==> r.badges == g.badges
  {
    var earned := 10 + (if quality >= 4 then 5 else 0);
    var xp := g.xp + earned;
    var nextThr := Threshold(g.level);
    if nextThr.Some? && xp >= nextThr.value then
      g.(xp := xp, level := g.level + 1, badges := g.badges + [LevelBadge(g.level + 1)])
    else
      g.(xp := xp)
  }

  /** Past the last threshold the next one is Infinity: the level stays put. */
  lemma NoLevelBeyondTable(g: GameMeta, quality: int)
    ensures g.level <= |LevelThresholds| ==> Reward(g, quality).level <= |LevelThresholds|
    ensures g.level >= |LevelThresholds| ==> Reward(g, quality).level == g.level
  {
  }

  /** A review keeps the level in line with the xp: each gain is smaller than any gap between thresholds. */
  lemma RewardKeepsLevelMatch(g: GameMeta, quality: int)
    requires LevelMatchesXp(g)
    ensures LevelMatchesXp(Reward(g, quality))
  {
    var r := Reward(g, quality);
    if r.level == g.level + 1 {
      assert g.level < |LevelThresholds|;
      assert r.xp < LevelThresholds[g.level] + 15;
      if r.level < |LevelThresholds| {
        assert LevelThresholds[g.level] + 15 <= LevelThresholds[r.level];
      }
    } else {
      if g.level < |LevelThresholds| {
        assert r.xp < LevelThresholds[g.level];
      }
    }
  }

  /**
   * The default record keeps the level invariant, and a rewarded record still yields a
   * progress share within 0..100 when the header's formula is applied to it.
   */
  lemma RewardedRecordFitsBar(g: GameMeta, quality: int)
    requires LevelMatchesXp(g)
    ensures LevelMatchesXp(LoadGame(MissingGameDoc))
    ensures var p := ProgressPct(Reward(g, quality)); p.Some? && 0 <= p.value <= 100
  {
    RewardKeepsLevelMatch(g, quality);
    ProgressWithinBar(Reward(g, quality));
  }

  /** The in-place update of the loaded game record in `rateRecall`. */
  method AwardReview(loaded: GameMeta, quality: int) returns (gm: GameMeta)
    ensures gm == Reward(loaded, quality)
  {
    gm := loaded;
    var earned := 10 + (if quality >= 4 then 5 else 0);
    gm := gm.(xp := gm.xp + earned);
    var nextThr := Threshold(gm.level);
    if nextThr.Some? && gm.xp >= nextThr.value {
      gm := gm.(level := gm.level + 1);
      gm := gm.(badges := gm.badges + [LevelBadge(gm.level)]);
    }
  }

  /** What the view is left with once the saves are done. */
  datatype AfterRating = AfterRating(showSolution: bool, advanced: bool)

  /**
   * As written: `onUpdateGameMeta(gm)` comes before closing the solution and advancing; when
   * the prop is missing the call throws and both are skipped.
   */
  function FinishRatingAsWritten(hasOnUpdateGameMeta: bool, showSolution: bool): AfterRating {
    if hasOnUpdateGameMeta then AfterRating(false, true) else AfterRating(showSolution, false)
  }

  /** The app renders the card with `card`, `index`, `total`, `onNext`, `onPrev` only. */
  const AppPassesOnUpdateGameMeta: bool := false

  /** As written, rating a card inside the app never closes its solution or moves on. */
  lemma RatingInAppNeverAdvances(showSolution: bool)
    ensures FinishRatingAsWritten(AppPassesOnUpdateGameMeta, showSolution) == AfterRating(showSolution, false)
  {
  }

  /** With the callback treated as optional: the solution closes and the next card comes. */
  function FinishRating(hasOnUpdateGameMeta: bool, showSolution: bool): (r: AfterRating)
    ensures !r.showSolution && r.advanced
    ensures hasOnUpdateGameMeta ==> r == FinishRatingAsWritten(hasOnUpdateGameMeta, showSolution)
  {
    AfterRating(false, true)
  }

  /** The component's state for one card. */
  class CardScreen {
    const card: Card
    var reps: int
    var interval: int
    var easy: real
    var nextReview: Day
    var notes: string
    var showSol: bool
    var isFav: bool

    function Current(): Scheduled<()>
      reads this
    {
      Scheduled(reps, interval, easy, nextReview, ())
    }

    function State(): CardState
      reads this
    {
      CardState(reps, interval, easy, nextReview, notes)
    }

    /** The initial state hooks: the catalog card's fields, notes or ''. */
    constructor (c: Card)
      ensures card == c && State() == CatalogState(c) && !showSol && !isFav
    {
      card := c;
      reps := c.repetitions;
      interval := c.interval;
      easy := c.easiness;
      nextReview := c.nextReview;
      notes := c.notes.GetOr("");
      showSol := false;
      isFav := false;
    }

    /** The card's stored document has been loaded. */
    method ApplyStored(data: Meta)
      modifies this
      ensures State() == EffectiveState(data, card)
      ensures showSol == old(showSol) && isFav == old(isFav)
    {
      reps := data.repetitions.GetOr(card.repetitions);
      interval := data.interval.GetOr(card.interval);
      easy := data.easiness.GetOr(card.easiness);
      nextReview := data.nextReview.GetOr(card.nextReview);
      notes := data.notes.GetOr(card.notes.GetOr(""));
    }

    /**
     * The favorites have been loaded: the star is lit when the list holds the card's
     * id as a string (a number stored in the list does not match).
     */
    method LoadFavoriteStatus(store: Store)
      modifies this
      ensures isFav <==> StrId(IdString(card.id)) in (if store.favorites.Some? then store.favorites.value else [])
      ensures State() == old(State()) && showSol == old(showSol)
    {
      var arr := store.LoadFavorites();
      isFav := StrId(IdString(card.id)) in arr;
    }

    /** `handleToggleFav`: toggle in the store and show whether the card is now a favorite. */
    method HandleToggleFav(store: Store)
      modifies this, store
      ensures isFav <==> IdString(card.id) in ToggleIds(
        if old(store.favorites).Some? then old(store.favorites).value else [], IdString(card.id))
      ensures State() == old(State()) && showSol == old(showSol)
      ensures store.cards == old(store.cards) && store.user == old(store.user) && store.history == old(store.history)
    {
      var updatedIds := store.ToggleFavorite(card.id);
      isFav := IdString(card.id) in updatedIds;
    }

    /**
     * `rateRecall`: schedule with SM-2, save the result with the notes, log the review,
     * award xp and save the game record; then call `onUpdateGameMeta`, close the solution
     * and advance the deck. `hasOnUpdateGameMeta` says whether the parent passed that
     * callback: without it the call throws after the saves, and the view neither closes
     * the solution nor moves on. The app renders the card with `AppPassesOnUpdateGameMeta`.
     */
    method RateRecall(store: Store, app: AppScreen, quality: int, today: Day, timestamp: string,
                      hasOnUpdateGameMeta: bool)
      requires 0 <= quality < |RatingLabels|
      modifies this, store, app
      ensures var updated := ApplySM2(old(Current()), quality, today);
        && Current() == updated
        && notes == old(notes) && isFav == old(isFav)
        && store.cards == old(store.cards)[IdString(card.id) :=
             MergeMeta(StoredOrEmpty(old(store.cards), IdString(card.id)), SavedMeta(updated, old(notes)))]
      ensures store.history == old(store.history) + [ReviewEvent(StrId(IdString(card.id)), quality, timestamp)]
      ensures store.user == SaveGame(Reward(LoadGame(old(store.user)), quality))
      ensures store.favorites == old(store.favorites)
      ensures hasOnUpdateGameMeta ==>
        !showSol && app.viewing == Some(NextIndex(old(app.viewing).GetOr(0), |app.deck|))
      ensures !hasOnUpdateGameMeta ==> showSol == old(showSol) && app.viewing == old(app.viewing)
      ensures app.deck == old(app.deck) && app.view == old(app.view)
    {
      var updated := ApplySM2(Current(), quality, today);
      reps := updated.repetitions;
      interval := updated.interval;
      easy := updated.easiness;
      nextReview := updated.nextReview;
      store.SaveCardMeta(card.id, SavedMeta(updated, notes));

      store.LogReviewEvent(card.id, quality, timestamp);

      var loaded := store.LoadGameMeta();
      var gm := AwardReview(loaded, quality);
      store.SaveGameMeta(gm);

      var after := FinishRatingAsWritten(hasOnUpdateGameMeta, showSol);
      showSol := after.showSolution;
      if after.advanced {
        app.HandleNext();
      }
    }

    /** `onChangeNotes`: show the text and save the notes field alone. */
    method OnChangeNotes(store: Store, text: string)
      modifies this, store
      ensures notes == text && Current() == old(Current())
      ensures store.cards == old(store.cards)[IdString(card.id) :=
        MergeMeta(StoredOrEmpty(old(store.cards), IdString(card.id)), NotesPatch(text))]
      ensures store.favorites == old(store.favorites) && store.user == old(store.user)
      ensures store.history == old(store.history)
    {
      notes := text;
      store.SaveCardMeta(card.id, NotesPatch(text));
    }
  }
}
