/**
 * A journal entry as the server receives it in a request body.
 */
module Journal {
  import opened Wrappers
  import Js

  /**
   * A calendar month as `Date.prototype.getFullYear` and `getMonth` report it
   * (months count from 0).
   */
  datatype YearMonth = YearMonth(year: int, month: int)

  /**
   * The `sentiment` field: `Missing` when it is absent or holds anything other
   * than a JavaScript number (`typeof` is not `'number'`); otherwise the number,
   * which is infinite when the literal overflows a double (`1e999`); `NaN`
   * cannot come from JSON and is kept only for generality.
   */
  datatype Sentiment = Missing | Value(n: Js.Number)

  /**
   * One entry of `recentEntries` or `entries`.
   * `calendar` is what `new Date(date)` yields in the server's time zone:
   * `None` when the date string does not parse (an Invalid Date, whose month
   * and year are `NaN` and compare unequal to everything).
   * A missing `themes` field is the empty list (`e.themes || []`).
   */
  datatype Entry = Entry(
    date: string,
    calendar: Option<YearMonth>,
    text: string,
    sentiment: Sentiment,
    themes: seq<string>)
}
