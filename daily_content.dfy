/**
 * The home screen's daily picks: the quote of the day and the productivity
 * tip of the day are both chosen by the day of the month modulo the length
 * of their catalogue. Only the catalogues' lengths matter here.
 */
module DailyContent {

  /** What `new Date().getDate()` can return. */
  type DayOfMonth = d: int | 1 <= d <= 31 witness 1

  /** `motivationalQuotes.length`. */
  const QuoteCount: nat := 5

  /** `productivityTips.length`. */
  const TipCount: nat := 5

  /** `today % catalogue.length`: always a valid position; the day itself while it is one. */
  function DailyIndex(day: DayOfMonth, count: nat): (i: nat)
    requires count > 0
    ensures i < count
    ensures day < count ==> i == day
  {
    day % count
  }

  function DailyQuoteIndex(day: DayOfMonth): (i: nat)
    ensures i < QuoteCount
  {
    DailyIndex(day, QuoteCount)
  }

  function DailyTipIndex(day: DayOfMonth): (i: nat)
    ensures i < TipCount
  {
    DailyIndex(day, TipCount)
  }

  /**
   * Every entry of a catalogue of at most 31 items is picked on some day no later
   * than the catalogue's length, so, for up to 28 items, on some day of every month.
   */
  lemma EveryEntryHasADay(count: nat, i: nat)
    requires 0 < count <= 31 && i < count
    ensures exists day: DayOfMonth :: day <= count && DailyIndex(day, count) == i
  {
    var day: DayOfMonth := if i == 0 then count else i;
    assert DailyIndex(day, count) == i;
  }

  /** For the same day of the month, equal lengths give the quote and the tip the same position. */
  lemma QuoteAndTipAgree(day: DayOfMonth)
    ensures DailyQuoteIndex(day) == DailyTipIndex(day)
  {
  }

  /** Five days later the same quote comes back, within the month. */
  lemma FiveDayCycle(day: DayOfMonth)
    requires day + QuoteCount <= 31
    ensures DailyQuoteIndex((day + QuoteCount) as DayOfMonth) == DailyQuoteIndex(day)
  {
  }
}
