/** The aggregations of src/components/Analytics.jsx over the review history and the catalog. */
module Analytics {
  import opened Seqs
  import opened Catalog
  import opened Storage
  import opened ConfigForm

  /** One label per rating 0..5, in rating order. */
  const QualityLabels: seq<string> := ["Again", "Hard", "Still Struggling", "Easy", "Very Easy", "Mastered"]

  // ---------------------------------------------------------------- quality distribution

  function HasQuality(q: int): ReviewEvent -> bool {
    (ev: ReviewEvent) => ev.quality == q
  }

  /** `history.filter(ev => ev.quality === q).length`. */
  function CountQuality(history: seq<ReviewEvent>, q: int): nat {
    |Filter(history, HasQuality(q))|
  }

  datatype QualityBar = QualityBar(caption: string, count: nat)

  /** `qualityCounts`: one bar per label, the bar at position q counting the ratings q. */
  function QualityCounts(history: seq<ReviewEvent>): (bars: seq<QualityBar>)
    ensures |bars| == |QualityLabels| == 6
    ensures forall q :: 0 <= q < |bars| ==> bars[q] == QualityBar(QualityLabels[q], CountQuality(history, q))
  {
    seq(|QualityLabels|, q requires 0 <= q < |QualityLabels| => QualityBar(QualityLabels[q], CountQuality(history, q)))
  }

  function SumBars(bars: seq<QualityBar>): nat {
    if bars == [] then 0 else bars[0].count + SumBars(bars[1..])
  }

  /** The events whose rating is outside 0..5: no bar counts them. */
  function CountUnrated(history: seq<ReviewEvent>): nat {
    if history == [] then 0
    else (if 0 <= history[0].quality <= 5 then 0 else 1) + CountUnrated(history[1..])
  }

  lemma SumOfSixBars(history: seq<ReviewEvent>)
    ensures SumBars(QualityCounts(history)) ==
      CountQuality(history, 0) + CountQuality(history, 1) + CountQuality(history, 2) +
      CountQuality(history, 3) + CountQuality(history, 4) + CountQuality(history, 5)
  {
    var b := QualityCounts(history);
    assert b[5..][1..] == [];
    assert SumBars(b[5..]) == b[5].count;
    assert b[4..][1..] == b[5..];
    assert SumBars(b[4..]) == b[4].count + SumBars(b[5..]);
    assert b[3..][1..] == b[4..];
    assert SumBars(b[3..]) == b[3].count + SumBars(b[4..]);
    assert b[2..][1..] == b[3..];
    assert SumBars(b[2..]) == b[2].count + SumBars(b[3..]);
    assert b[1..][1..] == b[2..];
    assert SumBars(b[1..]) == b[1].count + SumBars(b[2..]);
  }

  lemma {:induction false} BarsAndUnratedCoverHistory(history: seq<ReviewEvent>)
    ensures CountQuality(history, 0) + CountQuality(history, 1) + CountQuality(history, 2) +
      CountQuality(history, 3) + CountQuality(history, 4) + CountQuality(history, 5) +
      CountUnrated(history) == |history|
  {
    if history != [] {
      BarsAndUnratedCoverHistory(history[1..]);
    }
  }

  lemma {:induction false} NoUnrated(history: seq<ReviewEvent>)
    ensures CountUnrated(history) == 0 <==> forall i :: 0 <= i < |history| ==> 0 <= history[i].quality <= 5
  {
    if history != [] {
      NoUnrated(history[1..]);
      if CountUnrated(history) == 0 {
        forall i | 0 <= i < |history| ensures 0 <= history[i].quality <= 5 {
          if i > 0 { assert history[i] == history[1..][i - 1]; }
        }
      } else if 0 <= history[0].quality <= 5 {
        var i :| 0 <= i < |history[1..]| && !(0 <= history[1..][i].quality <= 5);
        assert history[i + 1] == history[1..][i];
      }
    }
  }

  /** The bars never count more events than there are, and count all of them exactly when every rating is in 0..5. */
  lemma QualityCountsCoverHistory(history: seq<ReviewEvent>)
    ensures SumBars(QualityCounts(history)) + CountUnrated(history) == |history|
    ensures SumBars(QualityCounts(history)) <= |history|
    ensures SumBars(QualityCounts(history)) == |history| <==>
      forall i :: 0 <= i < |history| ==> 0 <= history[i].quality <= 5
  {
    SumOfSixBars(history);
    BarsAndUnratedCoverHistory(history);
    NoUnrated(history);
  }

  // ---------------------------------------------------------------- attempted cards

  /** `attemptedIds`: the card ids of the events, as strings. */
  function AttemptedIds(history: seq<ReviewEvent>): set<string> {
    set i | 0 <= i < |history| :: IdString(history[i].cardId)
  }

  predicate IsAttempted(history: seq<ReviewEvent>, card: Card) {
    IdString(card.id) in AttemptedIds(history)
  }

  /** A card is attempted exactly when some event names it, ids compared as strings. */
  lemma AttemptedExactly(history: seq<ReviewEvent>, card: Card)
    ensures IsAttempted(history, card) <==>
      exists i :: 0 <= i < |history| && IdString(history[i].cardId) == IdString(card.id)
  {
  }

  /** Logging a review of a card, numeric id or not, makes it attempted; other cards keep their status unless they share its key. */
  lemma LoggedCardIsAttempted(history: seq<ReviewEvent>, card: Card, other: Card, quality: int, timestamp: string)
    ensures IsAttempted(history + [ReviewEvent(StrId(IdString(card.id)), quality, timestamp)], card)
    ensures IdString(other.id) != IdString(card.id) ==>
      (IsAttempted(history + [ReviewEvent(StrId(IdString(card.id)), quality, timestamp)], other) <==>
       IsAttempted(history, other))
  {
    var h' := history + [ReviewEvent(StrId(IdString(card.id)), quality, timestamp)];
    assert IdString(h'[|history|].cardId) == IdString(card.id);
    if IdString(other.id) != IdString(card.id) && IsAttempted(h', other) {
      var i :| 0 <= i < |h'| && IdString(h'[i].cardId) == IdString(other.id);
      assert h'[i] == history[i];
    }
    if IsAttempted(history, other) {
      var i :| 0 <= i < |history| && IdString(history[i].cardId) == IdString(other.id);
      assert h'[i] == history[i];
    }
  }

  // ---------------------------------------------------------------- per-unit progress

  /** The cards of the catalog in unit `u`. */
  function CountUnit(catalog: seq<Card>, u: string): nat {
    if catalog == [] then 0
    else CountUnit(catalog[..|catalog| - 1], u) + (if catalog[|catalog| - 1].unit == u then 1 else 0)
  }

  /** The cards of the catalog in unit `u` whose id is among `ids`. */
  function CountAttemptedIn(catalog: seq<Card>, ids: set<string>, u: string): nat {
    if catalog == [] then 0
    else
      var c := catalog[|catalog| - 1];
      CountAttemptedIn(catalog[..|catalog| - 1], ids, u) + (if c.unit == u && IdString(c.id) in ids then 1 else 0)
  }

  lemma {:induction false} AttemptedWithinTotal(catalog: seq<Card>, ids: set<string>, u: string)
    ensures CountAttemptedIn(catalog, ids, u) <= CountUnit(catalog, u)
  {
    if catalog != [] {
      AttemptedWithinTotal(catalog[..|catalog| - 1], ids, u);
    }
  }

  lemma {:induction false} AbsentUnitCountsZero(catalog: seq<Card>, ids: set<string>, u: string)
    requires forall j :: 0 <= j < |catalog| ==> catalog[j].unit != u
    ensures CountUnit(catalog, u) == 0 && CountAttemptedIn(catalog, ids, u) == 0
  {
    if catalog != [] {
      var init := catalog[..|catalog| - 1];
      assert forall j :: 0 <= j < |init| ==> init[j] == catalog[j];
      AbsentUnitCountsZero(init, ids, u);
    }
  }

  datatype UnitRow = UnitRow(unit: string, attempted: int, unattempted: int)

  function Row(catalog: seq<Card>, ids: set<string>, u: string): UnitRow {
    UnitRow(u, CountAttemptedIn(catalog, ids, u), CountUnit(catalog, u) - CountAttemptedIn(catalog, ids, u))
  }

  /** The rows of the listed units, in their order. */
  function RowsFor(units: seq<string>, catalog: seq<Card>, ids: set<string>): (rows: seq<UnitRow>)
    ensures |rows| == |units|
    ensures forall k :: 0 <= k < |units| ==> rows[k] == Row(catalog, ids, units[k])
  {
    if units == [] then [] else [Row(catalog, ids, units[0])] + RowsFor(units[1..], catalog, ids)
  }

  /** `perUnit`: one row per catalog unit, in order of first appearance. */
  function UnitRows(catalog: seq<Card>, ids: set<string>): seq<UnitRow> {
    RowsFor(Units(catalog), catalog, ids)
  }

  /** Each catalog unit has exactly one row, and rows are only for catalog units. */
  lemma UnitRowsOnePerUnit(catalog: seq<Card>, ids: set<string>)
    ensures var rows := UnitRows(catalog, ids);
      && (forall k, l :: 0 <= k < l < |rows| ==> rows[k].unit != rows[l].unit)
      && (set k | 0 <= k < |rows| :: rows[k].unit) == (set i | 0 <= i < |catalog| :: catalog[i].unit)
  {
    var rows := UnitRows(catalog, ids);
    var units := Units(catalog);
    UnitsListing(catalog);
    assert forall k :: 0 <= k < |rows| ==> rows[k].unit == units[k];
    forall i | 0 <= i < |catalog| ensures catalog[i].unit in (set k | 0 <= k < |rows| :: rows[k].unit) {
      var u := catalog[i].unit;
      assert u in units;
      var k :| 0 <= k < |units| && units[k] == u;
      assert rows[k].unit == u;
    }
  }

  /** Each row splits its unit's cards into attempted and not attempted ones. */
  lemma UnitRowsSplitUnits(catalog: seq<Card>, ids: set<string>)
    ensures var rows := UnitRows(catalog, ids);
      forall k :: 0 <= k < |rows| ==>
        && 0 <= rows[k].attempted
        && 0 <= rows[k].unattempted
        && rows[k].attempted + rows[k].unattempted == CountUnit(catalog, rows[k].unit)
        && rows[k].attempted == CountAttemptedIn(catalog, ids, rows[k].unit)
  {
    var rows := UnitRows(catalog, ids);
    forall k | 0 <= k < |rows| ensures 0 <= rows[k].unattempted {
      AttemptedWithinTotal(catalog, ids, rows[k].unit);
    }
  }

  /** How often `x` is listed. */
  function Occurrences(units: seq<string>, x: string): nat {
    if units == [] then 0 else (if units[0] == x then 1 else 0) + Occurrences(units[1..], x)
  }

  lemma {:induction false} OccursOnce(units: seq<string>, x: string)
    requires NoDup(units) && x in units
    ensures Occurrences(units, x) == 1
  {
    if units[0] == x {
      assert x !in units[1..] by {
        forall k | 0 <= k < |units[1..]| ensures units[1..][k] != x {
          assert units[1..][k] == units[k + 1];
        }
      }
      OccursNot(units[1..], x);
    } else {
      assert NoDup(units[1..]) by {
        forall i, j | 0 <= i < j < |units[1..]| ensures units[1..][i] != units[1..][j] {
          assert units[1..][i] == units[i + 1] && units[1..][j] == units[j + 1];
        }
      }
      OccursOnce(units[1..], x);
    }
  }

  lemma {:induction false} OccursNot(units: seq<string>, x: string)
    requires x !in units
    ensures Occurrences(units, x) == 0
  {
    if units != [] {
      OccursNot(units[1..], x);
    }
  }

  /** The card counts of the listed units, added up. */
  function UnitSum(units: seq<string>, catalog: seq<Card>): nat {
    if units == [] then 0 else CountUnit(catalog, units[0]) + UnitSum(units[1..], catalog)
  }

  lemma {:induction false} UnitSumEmpty(units: seq<string>)
    ensures UnitSum(units, []) == 0
  {
    if units != [] { UnitSumEmpty(units[1..]); }
  }

  lemma {:induction false} UnitSumExtend(units: seq<string>, init: seq<Card>, c: Card)
    ensures UnitSum(units, init + [c]) == UnitSum(units, init) + Occurrences(units, c.unit)
  {
    assert (init + [c])[..|init + [c]| - 1] == init;
    if units != [] { UnitSumExtend(units[1..], init, c); }
  }

  lemma {:induction false} UnitSumCoversCatalog(units: seq<string>, catalog: seq<Card>)
    requires NoDup(units)
    requires forall i :: 0 <= i < |catalog| ==> catalog[i].unit in units
    ensures UnitSum(units, catalog) == |catalog|
  {
    if catalog == [] {
      UnitSumEmpty(units);
    } else {
      var init := catalog[..|catalog| - 1];
      var c := catalog[|catalog| - 1];
      assert catalog == init + [c];
      assert forall i :: 0 <= i < |init| ==> init[i] == catalog[i];
      UnitSumCoversCatalog(units, init);
      UnitSumExtend(units, init, c);
      OccursOnce(units, c.unit);
    }
  }

  function SumRowTotals(rows: seq<UnitRow>): int {
    if rows == [] then 0 else rows[0].attempted + rows[0].unattempted + SumRowTotals(rows[1..])
  }

  lemma {:induction false} RowTotalsAreUnitSum(units: seq<string>, catalog: seq<Card>, ids: set<string>)
    ensures SumRowTotals(RowsFor(units, catalog, ids)) == UnitSum(units, catalog)
  {
    if units != [] {
      RowTotalsAreUnitSum(units[1..], catalog, ids);
    }
  }

  /** Every catalog card is counted in exactly one row. */
  lemma UnitTotalsCoverCatalog(catalog: seq<Card>, ids: set<string>)
    ensures SumRowTotals(UnitRows(catalog, ids)) == |catalog|
  {
    UnitsListing(catalog);
    RowTotalsAreUnitSum(Units(catalog), catalog, ids);
    UnitSumCoversCatalog(Units(catalog), catalog);
  }

  /** One more card: the counts of its unit go up, the others stay. */
  lemma CountsExtend(prefix: seq<Card>, card: Card, ids: set<string>, u: string)
    ensures CountUnit(prefix + [card], u) == CountUnit(prefix, u) + (if card.unit == u then 1 else 0)
    ensures CountAttemptedIn(prefix + [card], ids, u) ==
      CountAttemptedIn(prefix, ids, u) + (if card.unit == u && IdString(card.id) in ids then 1 else 0)
  {
    assert (prefix + [card])[..|prefix|] == prefix;
  }

  lemma DistinctExtend(s: seq<string>, x: string)
    ensures Distinct(s + [x]) == if x in Distinct(s) then Distinct(s) else Distinct(s) + [x]
  {
    assert (s + [x])[..|s|] == s;
  }

  /** A unit not yet listed has no cards in the prefix. */
  lemma UnlistedUnitEmpty(prefix: seq<Card>, ids: set<string>, u: string)
    requires u !in Distinct(UnitsOf(prefix))
    ensures CountUnit(prefix, u) == 0 && CountAttemptedIn(prefix, ids, u) == 0
  {
    DistinctMembership(UnitsOf(prefix), u);
    forall j | 0 <= j < |prefix| ensures prefix[j].unit != u {
      assert UnitsOf(prefix)[j] == prefix[j].unit;
    }
    AbsentUnitCountsZero(prefix, ids, u);
  }

  datatype Tally = Tally(total: nat, attempted: nat, unit: string)

  /** `unitMap` and its key order after the cards of `prefix`. */
  ghost predicate Tallied(prefix: seq<Card>, ids: set<string>, unitMap: map<string, Tally>, order: seq<string>) {
    && order == Distinct(UnitsOf(prefix))
    && (forall u :: u in unitMap <==> u in order)
    && (forall u :: u in unitMap ==>
          unitMap[u] == Tally(CountUnit(prefix, u), CountAttemptedIn(prefix, ids, u), u))
  }

  /** One `forEach` step: create the unit's entry if it is missing, then count the card. */
  function AddCard(unitMap: map<string, Tally>, card: Card, ids: set<string>): map<string, Tally> {
    var t := if card.unit in unitMap then unitMap[card.unit] else Tally(0, 0, card.unit);
    unitMap[card.unit := Tally(t.total + 1, t.attempted + (if IdString(card.id) in ids then 1 else 0), card.unit)]
  }

  lemma TallyStep(prefix: seq<Card>, card: Card, ids: set<string>, unitMap: map<string, Tally>, order: seq<string>,
                  prefix': seq<Card>, unitMap': map<string, Tally>, order': seq<string>)
    requires Tallied(prefix, ids, unitMap, order)
    requires prefix' == prefix + [card]
    requires unitMap' == AddCard(unitMap, card, ids)
    requires order' == if card.unit in unitMap then order else order + [card.unit]
    ensures Tallied(prefix', ids, unitMap', order')
  {
    assert prefix'[..|prefix|] == prefix;
    assert UnitsOf(prefix') == UnitsOf(prefix) + [card.unit];
    DistinctExtend(UnitsOf(prefix), card.unit);
    assert order' == Distinct(UnitsOf(prefix'));
    forall u | u in unitMap'
      ensures unitMap'[u] == Tally(CountUnit(prefix', u), CountAttemptedIn(prefix', ids, u), u)
    {
      CountsExtend(prefix, card, ids, u);
      if u == card.unit && card.unit !in unitMap {
        UnlistedUnitEmpty(prefix, ids, u);
      }
    }
  }

  /** `Object.values(unitMap).map(...)`, the keys taken in insertion order. */
  function TallyRows(unitMap: map<string, Tally>, order: seq<string>): seq<UnitRow>
    requires forall u :: u in order ==> u in unitMap
  {
    seq(|order|, k requires 0 <= k < |order| =>
      UnitRow(unitMap[order[k]].unit, unitMap[order[k]].attempted, unitMap[order[k]].total - unitMap[order[k]].attempted))
  }

  lemma TallyRowsAreUnitRows(catalog: seq<Card>, ids: set<string>, unitMap: map<string, Tally>, order: seq<string>)
    requires Tallied(catalog, ids, unitMap, order)
    ensures forall u :: u in order ==> u in unitMap
    ensures TallyRows(unitMap, order) == UnitRows(catalog, ids)
  {
    var rows := TallyRows(unitMap, order);
    assert forall k :: 0 <= k < |order| ==> rows[k] == Row(catalog, ids, order[k]);
  }

  /** The `forEach` that fills `unitMap`, then its values as rows. */
  method PerUnit(catalog: seq<Card>, history: seq<ReviewEvent>) returns (rows: seq<UnitRow>)
    ensures rows == UnitRows(catalog, AttemptedIds(history))
  {
    var ids := AttemptedIds(history);
    var unitMap: map<string, Tally> := map[];
    var order: seq<string> := [];
    var i := 0;
    while i < |catalog|
      invariant 0 <= i <= |catalog|
      invariant Tallied(catalog[..i], ids, unitMap, order)
    {
      var card := catalog[i];
      ghost var before, beforeOrder := unitMap, order;
      var t: Tally;
      if card.unit !in unitMap {
        t := Tally(0, 0, card.unit);
        order := order + [card.unit];
      } else {
        t := unitMap[card.unit];
      }
      t := t.(total := t.total + 1);
      if IdString(card.id) in ids {
        t := t.(attempted := t.attempted + 1);
      }
      unitMap := unitMap[card.unit := t];
      TallyStep(catalog[..i], card, ids, before, beforeOrder, catalog[..i + 1], unitMap, order);
      i := i + 1;
    }
    assert catalog[..i] == catalog;
    TallyRowsAreUnitRows(catalog, ids, unitMap, order);
    rows := TallyRows(unitMap, order);
  }
}
