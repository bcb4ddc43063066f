/** The top-level component of src/App.jsx: streak on mount, the due set, navigation, the header bar. */
module App {
  import opened Wrappers
  import opened Seqs
  import opened Catalog
  import opened Game
  import opened Storage

  /** `meta[card.id]?.nextReview || card.nextReview`: the stored date, else the catalog's. */
  function EffectiveNextReview(card: Card, meta: map<string, Meta>): Day {
    var key := IdString(card.id);
    if key in meta && meta[key].nextReview.Some? then meta[key].nextReview.value else card.nextReview
  }

  /** A card is due when its stored date has come, or, with no stored date, its catalog date has. */
  predicate IsDue(card: Card, meta: map<string, Meta>, today: Day) {
    var key := IdString(card.id);
    || (key in meta && meta[key].nextReview.Some? && meta[key].nextReview.value <= today)
    || ((key !in meta || meta[key].nextReview.None?) && card.nextReview <= today)
  }

  function DueTest(meta: map<string, Meta>, today: Day): Card -> bool {
    (c: Card) => EffectiveNextReview(c, meta) <= today
  }

  /** `dueCards`: the catalog cards whose effective next-review date is today or earlier. */
  function DueCards(catalog: seq<Card>, meta: map<string, Meta>, today: Day): (due: seq<Card>)
    ensures |due| <= |catalog|
  {
    Filter(catalog, DueTest(meta, today))
  }

  /**
   * The due set keeps catalog order, holds exactly the due cards, and repeats none when
   * catalog keys are unique.
   */
  lemma DueCardsSelection(catalog: seq<Card>, meta: map<string, Meta>, today: Day)
    ensures IsSubsequence(DueCards(catalog, meta, today), catalog)
    ensures forall c :: c in DueCards(catalog, meta, today) <==> c in catalog && IsDue(c, meta, today)
    ensures UniqueKeys(catalog) ==> NoDup(DueCards(catalog, meta, today))
  {
    var p := DueTest(meta, today);
    FilterIsSubsequence(catalog, p);
    forall c ensures c in DueCards(catalog, meta, today) <==> c in catalog && IsDue(c, meta, today) {
      FilterMembership(catalog, p, c);
    }
    if UniqueKeys(catalog) {
      FilterNoDup(catalog, p);
    }
  }

  /** A stored date in the future keeps a card out, however old its catalog date. */
  lemma FutureStoredDateExcludes(catalog: seq<Card>, meta: map<string, Meta>, today: Day, c: Card)
    requires IdString(c.id) in meta
    requires meta[IdString(c.id)].nextReview.Some? && meta[IdString(c.id)].nextReview.value > today
    ensures c !in DueCards(catalog, meta, today)
  {
    DueCardsSelection(catalog, meta, today);
  }

  /** A card never reviewed is due as soon as its catalog date has passed. */
  lemma UnreviewedCardDue(catalog: seq<Card>, meta: map<string, Meta>, today: Day, c: Card)
    requires c in catalog && IdString(c.id) !in meta && c.nextReview <= today
    ensures c in DueCards(catalog, meta, today)
  {
    DueCardsSelection(catalog, meta, today);
  }

  /** The day-to-day streak rule of the mount effect. */
  function StreakStep(g: GameMeta, today: Day): (r: GameMeta)
    ensures r.xp == g.xp && r.level == g.level
    ensures g.lastDate == Some(today) ==> r == g
    ensures g.lastDate != Some(today) ==> r.lastDate == Some(today)
    ensures g.lastDate == Some(today - 1) ==> r.streak == g.streak + 1
    ensures g.lastDate != Some(today - 1) && g.lastDate != Some(today) ==> r.streak == 1
  {
    if g.lastDate == Some(today) then g
    else
      var streak := if g.lastDate == Some(today - 1) then g.streak + 1 else 1;
      var badges := if streak == 7 && "streak-7" !in g.badges then g.badges + ["streak-7"] else g.badges;
      g.(streak := streak, lastDate := Some(today), badges := badges)
  }

  /**
   * The mount effect, step by step on the loaded record; `saved` tells whether
   * `saveGameMeta` is called.
   */
  method UpdateStreakOnMount(loaded: GameMeta, today: Day) returns (gm: GameMeta, saved: bool)
    ensures gm == StreakStep(loaded, today)
    ensures saved <==> loaded.lastDate != Some(today)
  {
    gm := loaded;
    saved := false;
    if gm.lastDate != Some(today) {
      var yesterday := today - 1;
      gm := gm.(streak := if gm.lastDate == Some(yesterday) then gm.streak + 1 else 1);
      gm := gm.(lastDate := Some(today));
      if gm.streak == 7 && "streak-7" !in gm.badges {
        gm := gm.(badges := gm.badges + ["streak-7"]);
      }
      saved := true;
    }
  }

  /** The badge list only ever gains `streak-7`, once, when the streak reaches 7. */
  lemma StreakBadge(g: GameMeta, today: Day)
    ensures var r := StreakStep(g, today);
      && ("streak-7" in r.badges <==> "streak-7" in g.badges || (g.lastDate != Some(today) && r.streak == 7))
      && (r.badges == g.badges || r.badges == g.badges + ["streak-7"])
      && (NoDup(g.badges) ==> NoDup(r.badges))
  {
    var r := StreakStep(g, today);
    if r.badges != g.badges {
      assert "streak-7" !in g.badges;
      assert NoDup(g.badges) ==> NoDup(r.badges) by {
        if NoDup(g.badges) {
          forall i, j | 0 <= i < j < |r.badges| ensures r.badges[i] != r.badges[j] {
            if j == |g.badges| {
              assert r.badges[i] == g.badges[i];
            }
          }
        }
      }
    }
  }

  /** Running the effect twice on one day changes nothing more. */
  lemma StreakIdempotent(g: GameMeta, today: Day)
    ensures StreakStep(StreakStep(g, today), today) == StreakStep(g, today)
  {
  }

  /** Opening the app on the next day extends the streak by one. */
  lemma StreakConsecutiveDays(g: GameMeta, today: Day)
    ensures StreakStep(StreakStep(g, today), today + 1).streak == StreakStep(g, today).streak + 1
  {
  }

  /** `handleNext`: one card on, stopping at the last. */
  function NextIndex(viewing: int, deckLength: int): int {
    Min(viewing + 1, deckLength - 1)
  }

  /** `handlePrev`: one card back, stopping at the first. */
  function PrevIndex(viewing: int): int {
    Max(viewing - 1, 0)
  }

  /** In a non-empty deck both buttons keep the index on a card, moving by at most one. */
  lemma NavigationStaysInDeck(viewing: int, deckLength: int)
    requires 0 <= viewing < deckLength
    ensures 0 <= NextIndex(viewing, deckLength) < deckLength
    ensures 0 <= PrevIndex(viewing) < deckLength
    ensures NextIndex(viewing, deckLength) == if viewing + 1 < deckLength then viewing + 1 else viewing
    ensures PrevIndex(viewing) == if viewing > 0 then viewing - 1 else 0
  {
  }

  /**
   * The header's progress `pct`: the share of the way from this level's threshold to the
   * next (or to 100 xp beyond, past the table), capped at 100. None stands for the width
   * JavaScript computes as NaN or -Infinity when the two bounds coincide.
   */
  function ProgressPct(g: GameMeta): (pct: Option<int>)
    ensures pct.Some? ==> pct.value <= 100
  {
    var minXp := Threshold(g.level - 1).GetOr(0);
    var maxXp := Threshold(g.level).GetOr(minXp + 100);
    if maxXp == minXp then
      (if g.xp - minXp > 0 then Some(100) else None)
    else
      Some(Min(100, (((g.xp - minXp) as real / (maxXp - minXp) as real) * 100.0).Floor))
  }

  lemma ShareBounds(a: int, b: int)
    requires 0 <= a < b
    ensures 0 <= ((a as real / b as real) * 100.0).Floor < 100
  {
    var q := a as real / b as real;
    assert q * b as real == a as real;
    assert 0.0 <= q < 1.0;
  }

  /** For a record whose level agrees with its xp the bar has a width between 0 and 100, below 100 until the last level. */
  lemma ProgressWithinBar(g: GameMeta)
    requires LevelMatchesXp(g)
    ensures ProgressPct(g).Some? && 0 <= ProgressPct(g).value <= 100
    ensures g.level < |LevelThresholds| ==> ProgressPct(g).value < 100
  {
    var minXp := LevelThresholds[g.level - 1];
    if g.level < |LevelThresholds| {
      ShareBounds(g.xp - minXp, LevelThresholds[g.level] - minXp);
    } else {
      var q := (g.xp - minXp) as real / 100.0;
      assert q >= 0.0;
    }
  }

  datatype View = Config | Study | AnalyticsView

  /** The component's state: the current view, the deck and the index of the shown card. */
  class AppScreen {
    var view: View
    var deck: seq<Card>
    var viewing: Option<int>

    constructor ()
      ensures view == Config && deck == [] && viewing == None
    {
      view := Config;
      deck := [];
      viewing := None;
    }

    /** `handleStart`: show the first card of the chosen deck. */
    method HandleStart(selected: seq<Card>)
      modifies this
      ensures deck == selected && viewing == Some(0) && view == Study
    {
      deck := selected;
      viewing := Some(0);
      view := Study;
    }

    /** `handleNext`; a `null` index counts as 0 in the arithmetic, as in JavaScript. */
    method HandleNext()
      modifies this
      ensures viewing == Some(NextIndex(old(viewing).GetOr(0), |deck|))
      ensures deck == old(deck) && view == old(view)
    {
      viewing := Some(NextIndex(viewing.GetOr(0), |deck|));
    }

    /** `handlePrev`; a `null` index counts as 0 here too. */
    method HandlePrev()
      modifies this
      ensures viewing == Some(PrevIndex(old(viewing).GetOr(0)))
      ensures deck == old(deck) && view == old(view)
    {
      viewing := Some(PrevIndex(viewing.GetOr(0)));
    }
  }
}
