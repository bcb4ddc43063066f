/**
 * The static card catalog (the merged `flashcards.json`) and the identifiers shared by every
 * component. Calendar dates are day numbers; comparing `YYYY-MM-DD` strings is comparing them.
 */
module Catalog {
  import opened Wrappers

  /** A calendar date as a day number. */
  type Day = int

  /** A card id as it appears in JSON: a number or a string. */
  datatype Id = NumId(n: int) | StrId(s: string)

  /** A catalog card. Question and solution text are not modelled. */
  datatype Card = Card(
    id: Id,
    unit: string,
    difficulty: string,
    repetitions: int,
    interval: int,
    easiness: real,
    nextReview: Day,
    notes: Option<string>)

  predicate IsDigit(c: char) { '0' <= c <= '9' }

  predicate AllDigits(s: string) { forall i :: 0 <= i < |s| ==> IsDigit(s[i]) }

  function DigitChar(d: nat): (c: char)
    requires d < 10
    ensures IsDigit(c) && (c as int) - ('0' as int) == d
  {
    (('0' as int) + d) as char
  }

  /** Decimal notation of a natural number, as JavaScript's `String(n)` writes it. */
  function NatToString(n: nat): (r: string)
    ensures |r| >= 1 && AllDigits(r)
    ensures |r| > 1 ==> r[0] != '0'
  {
    if n < 10 then [DigitChar(n)] else NatToString(n / 10) + [DigitChar(n % 10)]
  }

  /** The value of a string of decimal digits. */
  function DigitsValue(s: string): nat
    requires AllDigits(s)
  {
    if s == [] then 0 else 10 * DigitsValue(s[..|s| - 1]) + ((s[|s| - 1] as int) - ('0' as int))
  }

  /** Reading back what NatToString wrote gives the number again. */
  lemma {:induction false} NatToStringRoundTrip(n: nat)
    ensures DigitsValue(NatToString(n)) == n
  {
    if n >= 10 {
      NatToStringRoundTrip(n / 10);
      var r := NatToString(n);
      assert r[..|r| - 1] == NatToString(n / 10);
    }
  }

  /** JavaScript's `String(i)` for an integer. */
  function IntToString(i: int): string {
    if i < 0 then "-" + NatToString(-i) else NatToString(i)
  }

  /** `String(id)`: the document key under which a card is stored. */
  function IdString(id: Id): string {
    match id
    case NumId(n) => IntToString(n)
    case StrId(s) => s
  }

  /** Only negative numbers are written with a leading `-`. */
  lemma SignFirst(i: int)
    ensures |IntToString(i)| >= 1
    ensures IntToString(i)[0] == '-' <==> i < 0
  {
    if i >= 0 {
      assert IsDigit(NatToString(i)[0]);
    }
  }

  /** Different numbers are never written the same way. */
  lemma IntToStringInjective(i: int, j: int)
    requires IntToString(i) == IntToString(j)
    ensures i == j
  {
    SignFirst(i);
    SignFirst(j);
    if i >= 0 && j >= 0 {
      NatToStringRoundTrip(i);
      NatToStringRoundTrip(j);
    } else if i < 0 && j < 0 {
      assert NatToString(-i) == IntToString(i)[1..];
      assert NatToString(-j) == IntToString(j)[1..];
      NatToStringRoundTrip(-i);
      NatToStringRoundTrip(-j);
    }
  }

  /** The catalog holds no two cards with the same document key. */
  predicate UniqueKeys(catalog: seq<Card>) {
    forall i, j :: 0 <= i < j < |catalog| ==> IdString(catalog[i].id) != IdString(catalog[j].id)
  }
}
