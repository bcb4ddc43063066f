/** The SM-2 spaced-repetition step (src/utils/sm2.js). */
module Sm2 {
  import opened Catalog

  /** The floor under the easiness factor. */
  const MinEasiness: real := 1.3

  /**
   * A card as `applySM2` sees it: the four scheduling fields and whatever else the object
   * carries (`rest`), which the spread `...card` copies into the result.
   */
  datatype Scheduled<R> = Scheduled(
    repetitions: int,
    interval: int,
    easiness: real,
    nextReview: Day,
    rest: R)

  function RealMax(a: real, b: real): real { if a >= b then a else b }

  /** `Math.round`: the nearest integer, halves rounded up. */
  function Round(x: real): (r: int)
    ensures r as real - 0.5 <= x < r as real + 0.5
  {
    (x + 0.5).Floor
  }

  /** The easiness adjustment for a quality rating, before the floor is applied. */
  function EasinessDelta(quality: int): real {
    var d := (5 - quality) as real;
    0.1 - d * (0.08 + d * 0.02)
  }

  /**
   * One review with rating `quality`, processed on day `today`. A failed recall (quality
   * below 3) restarts the repetitions; a successful one counts up and grows the interval
   * 1, 6, then by the previous interval times the previous easiness.
   */
  function ApplySM2<R>(card: Scheduled<R>, quality: int, today: Day): (r: Scheduled<R>)
    ensures quality < 3 ==> r.repetitions == 0 && r.interval == 1
    ensures quality >= 3 ==> r.repetitions == card.repetitions + 1
    ensures r.easiness >= MinEasiness
    ensures r.nextReview == today + r.interval
    ensures r.rest == card.rest
  {
    var repetitions := if quality < 3 then 0 else card.repetitions + 1;
    var interval :=
      if quality < 3 then 1
      else if repetitions == 1 then 1
      else if repetitions == 2 then 6
      else Round(card.interval as real * card.easiness);
    var easiness := RealMax(MinEasiness, card.easiness + EasinessDelta(quality));
    card.(repetitions := repetitions, interval := interval, easiness := easiness,
          nextReview := today + interval)
  }

  /** On success the interval follows the repetition count: 1, then 6, then grows. */
  lemma SuccessInterval<R>(card: Scheduled<R>, quality: int, today: Day)
    requires quality >= 3
    ensures var r := ApplySM2(card, quality, today);
      && (r.repetitions == 1 ==> r.interval == 1)
      && (r.repetitions == 2 ==> r.interval == 6)
      && (r.repetitions != 1 && r.repetitions != 2 ==>
            r.interval == Round(card.interval as real * card.easiness))
  {
  }

  /** The new easiness is the old one plus the adjustment, floored at 1.3. */
  lemma EasinessUpdate<R>(card: Scheduled<R>, quality: int, today: Day)
    ensures var e := card.easiness + EasinessDelta(quality);
      ApplySM2(card, quality, today).easiness == if e >= MinEasiness then e else MinEasiness
  {
  }

  /** The adjustment for each rating 0..5. */
  lemma EasinessDeltaTable()
    ensures EasinessDelta(5) == 0.1
    ensures EasinessDelta(4) == 0.0
    ensures EasinessDelta(3) == -0.14
    ensures EasinessDelta(2) == -0.32
    ensures EasinessDelta(1) == -0.54
    ensures EasinessDelta(0) == -0.8
  {
  }

  /** A better rating never lowers the adjustment (for every rating up to 5). */
  lemma EasinessDeltaMonotone(q1: int, q2: int)
    requires q1 <= q2 <= 5
    ensures EasinessDelta(q1) <= EasinessDelta(q2)
  {
    var d1 := (5 - q1) as real;
    var d2 := (5 - q2) as real;
    assert d1 >= d2 >= 0.0;
    assert EasinessDelta(q2) - EasinessDelta(q1) == (d1 - d2) * (0.08 + 0.02 * (d1 + d2));
    assert (d1 - d2) * (0.08 + 0.02 * (d1 + d2)) >= 0.0;
  }

  /** The new easiness is non-decreasing in the rating. */
  lemma EasinessMonotoneInQuality<R>(card: Scheduled<R>, q1: int, q2: int, today: Day)
    requires q1 <= q2 <= 5
    ensures ApplySM2(card, q1, today).easiness <= ApplySM2(card, q2, today).easiness
  {
    EasinessDeltaMonotone(q1, q2);
  }

  /** Rating 4 leaves a valid easiness as it was. */
  lemma QualityFourKeepsEasiness<R>(card: Scheduled<R>, today: Day)
    requires card.easiness >= MinEasiness
    ensures ApplySM2(card, 4, today).easiness == card.easiness
  {
    EasinessDeltaTable();
  }

  /** The interval product: an interval of at least 1 day times an easiness of at least 1.3. */
  lemma GrownInterval(interval: int, easiness: real)
    requires interval >= 1 && easiness >= MinEasiness
    ensures Round(interval as real * easiness) >= interval
    ensures Round(interval as real * easiness) >= 1
  {
    var i := interval as real;
    assert i * easiness >= i * MinEasiness;
    assert i * MinEasiness >= i;
  }

  /** The state invariant: repetitions never negative, interval at least a day, easiness floored. */
  predicate ValidSchedule<R>(card: Scheduled<R>) {
    card.repetitions >= 0 && card.interval >= 1 && card.easiness >= MinEasiness
  }

  /** Reviews keep the invariant, whatever the rating. */
  lemma ApplyPreservesValid<R>(card: Scheduled<R>, quality: int, today: Day)
    requires ValidSchedule(card)
    ensures ValidSchedule(ApplySM2(card, quality, today))
  {
    if quality >= 3 && card.repetitions + 1 > 2 {
      GrownInterval(card.interval, card.easiness);
    }
  }

  /** From a valid state the next review is never scheduled for today or earlier. */
  lemma NextReviewAfterToday<R>(card: Scheduled<R>, quality: int, today: Day)
    requires ValidSchedule(card)
    ensures ApplySM2(card, quality, today).nextReview > today
  {
    ApplyPreservesValid(card, quality, today);
  }

  /** Past the second repetition a successful review never shortens the interval. */
  lemma SuccessNeverShortens<R>(card: Scheduled<R>, quality: int, today: Day)
    requires ValidSchedule(card) && card.repetitions >= 2 && quality >= 3
    ensures ApplySM2(card, quality, today).interval >= card.interval
  {
    GrownInterval(card.interval, card.easiness);
  }
}
