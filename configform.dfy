/** The deck settings form of src/components/ConfigForm.jsx. */
module ConfigForm {
  import opened Wrappers
  import opened Seqs
  import opened Catalog

  /** `data.map(c => c.unit)`. */
  function UnitsOf(data: seq<Card>): (r: seq<string>)
    ensures |r| == |data| && forall i :: 0 <= i < |data| ==> r[i] == data[i].unit
  {
    seq(|data|, i requires 0 <= i < |data| => data[i].unit)
  }

  /** `units`: the distinct units of the offered cards. */
  function Units(data: seq<Card>): seq<string> {
    Distinct(UnitsOf(data))
  }

  /** Every unit of the offered cards is listed once, in order of its first occurrence. */
  lemma UnitsListing(data: seq<Card>)
    ensures NoDup(Units(data))
    ensures forall u :: u in Units(data) <==> exists i :: 0 <= i < |data| && data[i].unit == u
    ensures InFirstOccurrenceOrder(Units(data), UnitsOf(data))
  {
    DistinctNoDup(UnitsOf(data));
    forall u ensures u in Units(data) <==> exists i :: 0 <= i < |data| && data[i].unit == u {
      DistinctMembership(UnitsOf(data), u);
      if u in UnitsOf(data) {
        var i :| 0 <= i < |data| && UnitsOf(data)[i] == u;
      }
    }
    DistinctInFirstOccurrenceOrder(UnitsOf(data));
  }

  /** The initial unit selection: every listed unit. */
  function InitialUnitSelection(data: seq<Card>): set<string> {
    set u | u in Units(data)
  }

  /** The initial difficulty selection. */
  const AllDifficulties: set<string> := {"standard", "advanced"}

  /** At the start no offered card is excluded by its unit. */
  lemma InitialSelectionCoversData(data: seq<Card>, c: Card)
    requires c in data
    ensures c.unit in InitialUnitSelection(data)
  {
    UnitsListing(data);
    var i :| 0 <= i < |data| && data[i] == c;
  }

  /** `toggle`: add the item if absent, remove it if present. */
  function Toggle<T>(s: set<T>, item: T): (r: set<T>)
  {
    if item in s then s - {item} else s + {item}
  }

  /** Toggling flips the item and no other. */
  lemma ToggleFlipsOne<T>(s: set<T>, item: T, x: T)
    ensures item in Toggle(s, item) <==> item !in s
    ensures x != item ==> (x in Toggle(s, item) <==> x in s)
  {
  }

  /** Toggling the same item twice restores the set. */
  lemma ToggleTwice<T>(s: set<T>, item: T)
    ensures Toggle(Toggle(s, item), item) == s
  {
  }

  /** `favSet.has(c.id)` as written: the raw id against a set of string ids. */
  predicate IsFavoriteAsWritten(favs: set<string>, c: Card) {
    c.id.StrId? && c.id.s in favs
  }

  /** The card's string id against the set of string ids. */
  predicate IsFavorite(favs: set<string>, c: Card) {
    IdString(c.id) in favs
  }

  function FavoriteTestAsWritten(favs: set<string>): Card -> bool {
    (c: Card) => IsFavoriteAsWritten(favs, c)
  }

  function FavoriteTest(favs: set<string>): Card -> bool {
    (c: Card) => IsFavorite(favs, c)
  }

  /** The unit and difficulty test of `filtered`. */
  function SelectionTest(units: set<string>, difficulty: set<string>): Card -> bool {
    (c: Card) => c.unit in units && c.difficulty in difficulty
  }

  /** `initial` then `filtered`, given the favorites test in use. */
  function FilteredWith(data: seq<Card>, onlyFavs: bool, isFav: Card -> bool,
                        units: set<string>, difficulty: set<string>): seq<Card>
  {
    var initial := if onlyFavs then Filter(data, isFav) else data;
    Filter(initial, SelectionTest(units, difficulty))
  }

  /** The filter exactly as written. */
  function FilteredAsWritten(data: seq<Card>, onlyFavs: bool, favs: set<string>,
                             units: set<string>, difficulty: set<string>): seq<Card>
  {
    FilteredWith(data, onlyFavs, FavoriteTestAsWritten(favs), units, difficulty)
  }

  /** The filter with ids compared as strings. */
  function Filtered(data: seq<Card>, onlyFavs: bool, favs: set<string>,
                    units: set<string>, difficulty: set<string>): seq<Card>
  {
    FilteredWith(data, onlyFavs, FavoriteTest(favs), units, difficulty)
  }

  /**
   * `filtered` keeps input order and holds exactly the offered cards of a selected unit and
   * difficulty that are, when `onlyFavs` is set, favorites.
   */
  lemma FilteredSelection(data: seq<Card>, onlyFavs: bool, favs: set<string>,
                          units: set<string>, difficulty: set<string>, c: Card)
    ensures IsSubsequence(Filtered(data, onlyFavs, favs, units, difficulty), data)
    ensures c in Filtered(data, onlyFavs, favs, units, difficulty) <==>
      c in data && c.unit in units && c.difficulty in difficulty && (onlyFavs ==> IsFavorite(favs, c))
  {
    var isFav := FavoriteTest(favs);
    var sel := SelectionTest(units, difficulty);
    if onlyFavs {
      FilterCommutes(data, isFav, sel);
      FilterIsSubsequence(Filter(data, sel), isFav);
      FilterIsSubsequence(data, sel);
      SubsequenceTransitive(Filter(Filter(data, sel), isFav), Filter(data, sel), data);
      FilterMembership(data, isFav, c);
      FilterMembership(Filter(data, isFav), sel, c);
    } else {
      FilterIsSubsequence(data, sel);
      FilterMembership(data, sel, c);
    }
  }

  /** With `onlyFavs` the deck pool is the favorites among the pool without it. */
  lemma FavoritesNarrowPool(data: seq<Card>, favs: set<string>, units: set<string>, difficulty: set<string>)
    ensures Filtered(data, true, favs, units, difficulty) ==
      Filter(Filtered(data, false, favs, units, difficulty), FavoriteTest(favs))
    ensures IsSubsequence(Filtered(data, true, favs, units, difficulty), Filtered(data, false, favs, units, difficulty))
  {
    var isFav := FavoriteTest(favs);
    var sel := SelectionTest(units, difficulty);
    FilterCommutes(data, isFav, sel);
    FilterIsSubsequence(Filter(data, sel), isFav);
  }

  lemma {:induction false} SubsequenceTransitive<T>(a: seq<T>, b: seq<T>, c: seq<T>)
    requires IsSubsequence(a, b) && IsSubsequence(b, c)
    ensures IsSubsequence(a, c)
    decreases |c|
  {
    if c != [] {
      if b != [] && b[0] == c[0] && IsSubsequence(b[1..], c[1..]) {
        if a != [] && a[0] == b[0] && IsSubsequence(a[1..], b[1..]) {
          SubsequenceTransitive(a[1..], b[1..], c[1..]);
        } else {
          SubsequenceTransitive(a, b[1..], c[1..]);
        }
      } else {
        SubsequenceTransitive(a, b, c[1..]);
      }
    }
  }

  /** With string ids both favorites tests agree. */
  lemma AsWrittenAgreesOnStringIds(data: seq<Card>, onlyFavs: bool, favs: set<string>,
                                   units: set<string>, difficulty: set<string>)
    requires forall i :: 0 <= i < |data| ==> data[i].id.StrId?
    ensures FilteredAsWritten(data, onlyFavs, favs, units, difficulty) == Filtered(data, onlyFavs, favs, units, difficulty)
  {
    FilterCongruent(data, FavoriteTestAsWritten(favs), FavoriteTest(favs));
  }

  /** As written, a favorite card with a numeric id never makes it into the pool. */
  lemma NumericFavoriteMissed()
    ensures var c := Card(NumId(3), "Unit 1", "standard", 0, 1, 2.5, 0, None);
      && FilteredAsWritten([c], true, {"3"}, {"Unit 1"}, AllDifficulties) == []
      && Filtered([c], true, {"3"}, {"Unit 1"}, AllDifficulties) == [c]
  {
    var c := Card(NumId(3), "Unit 1", "standard", 0, 1, 2.5, 0, None);
    assert IdString(c.id) == "3";
    assert [c][1..] == [];
    assert !FavoriteTestAsWritten({"3"})(c);
    assert Filter([c], FavoriteTestAsWritten({"3"})) == [];
    assert FavoriteTest({"3"})(c);
    assert Filter([c], FavoriteTest({"3"})) == [c];
    assert SelectionTest({"Unit 1"}, AllDifficulties)(c);
    assert Filter([c], SelectionTest({"Unit 1"}, AllDifficulties)) == [c];
  }

  /** `Array.prototype.slice(0, end)`: a negative end counts from the back. */
  function SlicePrefix<T>(s: seq<T>, end: int): (r: seq<T>)
    ensures r <= s
    ensures end >= 0 ==> |r| == Min(end, |s|)
    ensures end < 0 ==> |r| == Max(|s| + end, 0)
  {
    var stop := if end < 0 then Max(|s| + end, 0) else Min(end, |s|);
    s[..stop]
  }

  /**
   * `handleSubmit`: shuffle `filtered` (any order the random sort may produce) and take the
   * first `count` cards.
   */
  method HandleSubmit(filtered: seq<Card>, count: int) returns (deck: seq<Card>)
    ensures count >= 0 ==> |deck| == Min(count, |filtered|)
    ensures multiset(deck) <= multiset(filtered)
    ensures forall c :: c in deck ==> c in filtered
    ensures NoDup(filtered) ==> NoDup(deck)
    ensures count >= |filtered| ==> multiset(deck) == multiset(filtered)
  {
    var shuffled :| multiset(shuffled) == multiset(filtered);
    assert |shuffled| == |filtered| by {
      assert |multiset(shuffled)| == |shuffled| && |multiset(filtered)| == |filtered|;
    }
    deck := SlicePrefix(shuffled, count);
    assert shuffled == deck + shuffled[|deck|..];
    assert multiset(shuffled) == multiset(deck) + multiset(shuffled[|deck|..]);
    forall c | c in deck ensures c in filtered {
      assert multiset(deck)[c] > 0;
      assert multiset(filtered)[c] > 0;
    }
    if NoDup(filtered) {
      PermutationNoDup(filtered, shuffled);
    }
    if count >= |filtered| {
      assert deck == shuffled;
    }
  }

  /** What submitting the form leads to. */
  datatype Outcome = NoCardsMessage | Started(deck: seq<Card>)

  /**
   * With nothing matching the filters only the message is shown and no session starts;
   * otherwise the shuffled deck is handed to the app.
   */
  method Submit(filtered: seq<Card>, count: int) returns (outcome: Outcome)
    ensures outcome.NoCardsMessage? <==> filtered == []
    ensures outcome.Started? ==> multiset(outcome.deck) <= multiset(filtered)
    ensures outcome.Started? && count >= 0 ==> |outcome.deck| == Min(count, |filtered|)
    ensures outcome.Started? && count >= 1 ==> |outcome.deck| >= 1
    ensures outcome.Started? && NoDup(filtered) ==> NoDup(outcome.deck)
  {
    if |filtered| == 0 {
      return NoCardsMessage;
    }
    var deck := HandleSubmit(filtered, count);
    outcome := Started(deck);
  }
}
