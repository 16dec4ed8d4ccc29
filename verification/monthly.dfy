/**
 * The decisions of the monthly-reflection route (`POST /api/monthly-reflection`):
 * which entries belong to the current month, the compact view handed to the
 * generator, and the reflection and `source` tag each outcome produces,
 * including the local aggregation used when the generator fails.
 */
module MonthlyRoute {
  import opened Wrappers
  import opened Js
  import opened Journal
  import opened Provenance
  import opened ThemeTally

  // ---------------------------------------------------------------------------
  // The current month
  // ---------------------------------------------------------------------------

  /** `d.getMonth() === now.getMonth() && d.getFullYear() === now.getFullYear()` */
  predicate InMonth(e: Entry, now: YearMonth) {
    e.calendar == Some(now)
  }

  /**
   * The entries dated in `now`'s month and year, in their original order:
   * each such entry kept as often as it is given, every other one dropped.
   */
  function ThisMonth(entries: seq<Entry>, now: YearMonth): (r: seq<Entry>)
    ensures |r| <= |entries|
    ensures forall e :: e in r <==> e in entries && InMonth(e, now)
  {
    if |entries| == 0 then []
    else
      var init, last := entries[..|entries| - 1], entries[|entries| - 1];
      assert entries == init + [last];
      var kept := ThisMonth(init, now);
      if InMonth(last, now) then kept + [last] else kept
  }

  /** Each entry of the month is kept as many times as it is given; every other entry is dropped. */
  lemma {:induction false} ThisMonthCounts(entries: seq<Entry>, now: YearMonth, e: Entry)
    ensures multiset(ThisMonth(entries, now))[e] == if InMonth(e, now) then multiset(entries)[e] else 0
  {
    if |entries| > 0 {
      var init, last := entries[..|entries| - 1], entries[|entries| - 1];
      assert entries == init + [last];
      ThisMonthCounts(init, now, e);
    }
  }

  /** Filtering a concatenation filters each part and keeps them in order. */
  lemma {:induction false} ThisMonthAppend(a: seq<Entry>, b: seq<Entry>, now: YearMonth)
    ensures ThisMonth(a + b, now) == ThisMonth(a, now) + ThisMonth(b, now)
  {
    if |b| == 0 {
      assert a + b == a;
    } else {
      var init := b[..|b| - 1];
      assert (a + b)[..|a + b| - 1] == a + init;
      assert (a + b)[|a + b| - 1] == b[|b| - 1];
      ThisMonthAppend(a, init, now);
    }
  }

  /** A list dated entirely in the month comes back as it is, order included. */
  lemma {:induction false} ThisMonthKeepsAll(entries: seq<Entry>, now: YearMonth)
    requires forall i :: 0 <= i < |entries| ==> InMonth(entries[i], now)
    ensures ThisMonth(entries, now) == entries
  {
    if |entries| > 0 {
      var init, last := entries[..|entries| - 1], entries[|entries| - 1];
      ThisMonthKeepsAll(init, now);
      assert ThisMonth(entries, now) == ThisMonth(init, now) + [last];
      assert entries == init + [last];
    }
  }

  /** A list dated entirely outside the month is dropped. */
  lemma {:induction false} ThisMonthDropsAll(entries: seq<Entry>, now: YearMonth)
    requires forall i :: 0 <= i < |entries| ==> !InMonth(entries[i], now)
    ensures ThisMonth(entries, now) == []
  {
    if |entries| > 0 {
      ThisMonthDropsAll(entries[..|entries| - 1], now);
    }
  }

  // ---------------------------------------------------------------------------
  // The compact view sent to the generator
  // ---------------------------------------------------------------------------

  const CompactWindow := 40
  const CompactTextLimit := 350
  const CompactThemeLimit := 6

  /** `{date, txt, s, t}` */
  datatype CompactEntry = CompactEntry(date: string, txt: string, s: Number, t: seq<string>)

  /** `typeof e.sentiment === 'number' ? e.sentiment : 0`: a number is kept even when it is not finite. */
  function CompactSentiment(s: Sentiment): Number {
    match s
    case Value(n) => n
    case Missing => Finite(0.0)
  }

  /** `c` is the compact form of `e`. */
  predicate CompactOf(c: CompactEntry, e: Entry) {
    && c.date == e.date
    && c.txt == Prefix(e.text, CompactTextLimit)
    && c.s == CompactSentiment(e.sentiment)
    && c.t == Prefix(e.themes, CompactThemeLimit)
  }

  function CompactAll(entries: seq<Entry>): (r: seq<CompactEntry>)
    ensures |r| == |entries|
    ensures forall i :: 0 <= i < |r| ==> CompactOf(r[i], entries[i])
  {
    if |entries| == 0 then []
    else
      var e := entries[0];
      [CompactEntry(e.date, Prefix(e.text, CompactTextLimit), CompactSentiment(e.sentiment), Prefix(e.themes, CompactThemeLimit))]
      + CompactAll(entries[1..])
  }

  /**
   * `thisMonth.slice(-40).map(…)`: the last forty entries of the month in
   * order, text cut to 350 characters, themes to six, and a sentiment that
   * is not a number replaced by 0.
   */
  function Compact(month: seq<Entry>): (r: seq<CompactEntry>)
    ensures |r| == Min(|month|, CompactWindow)
    ensures forall i :: 0 <= i < |r| ==> CompactOf(r[i], month[|month| - |r| + i])
    ensures forall i :: 0 <= i < |r| ==> |r[i].txt| <= CompactTextLimit && |r[i].t| <= CompactThemeLimit
    ensures forall i :: 0 <= i < |r| && month[|month| - |r| + i].sentiment.Missing? ==> r[i].s == Finite(0.0)
  {
    CompactAll(Suffix(month, CompactWindow))
  }

  // ---------------------------------------------------------------------------
  // Average mood
  // ---------------------------------------------------------------------------

  /** `Number.isFinite(e.sentiment) ? e.sentiment : 0` */
  function Effective(e: Entry): real {
    match e.sentiment
    case Value(Finite(v)) => v
    case _ => 0.0
  }

  function SentimentSum(entries: seq<Entry>): real {
    if |entries| == 0 then 0.0 else SentimentSum(entries[..|entries| - 1]) + Effective(entries[|entries| - 1])
  }

  /** `sum / length || 0`, unrounded: the mean of the effective sentiments, 0 for no entries. */
  function Average(entries: seq<Entry>): (r: real)
    ensures |entries| == 0 ==> r == 0.0
    ensures |entries| > 0 ==> r * (|entries| as real) == SentimentSum(entries)
  {
    if |entries| == 0 then 0.0 else SentimentSum(entries) / (|entries| as real)
  }

  lemma {:induction false} SumWithin(entries: seq<Entry>, lo: real, hi: real)
    requires forall i :: 0 <= i < |entries| ==> lo <= Effective(entries[i]) <= hi
    ensures lo * (|entries| as real) <= SentimentSum(entries) <= hi * (|entries| as real)
  {
    if |entries| > 0 {
      SumWithin(entries[..|entries| - 1], lo, hi);
    }
  }

  /** The mean lies between any bounds that every effective sentiment respects. */
  lemma AverageWithin(entries: seq<Entry>, lo: real, hi: real)
    requires |entries| > 0
    requires forall i :: 0 <= i < |entries| ==> lo <= Effective(entries[i]) <= hi
    ensures lo <= Average(entries) <= hi
  {
    SumWithin(entries, lo, hi);
    var n := |entries| as real;
    var a := Average(entries);
    assert lo * n <= a * n <= hi * n;
  }

  // ---------------------------------------------------------------------------
  // The route
  // ---------------------------------------------------------------------------

  /** `MonthlyReflection` */
  datatype Reflection = Reflection(summary: string, avg: real, themes: seq<ThemeCount>, suggestions: seq<string>)

  /** How the call to the generator ended. */
  datatype MonthlyCall =
    | HttpError                     // a response with a non-2xx status
    | Threw                         // the request, or reading its body, threw
    | ParseFailed                   // a 2xx response whose content is not valid JSON
    | Parsed(reflection: Reflection) // a 2xx response whose content parsed, passed on as it is

  /** The JSON reply `{source, reflection}`. */
  datatype MonthlyReply = MonthlyReply(source: Source, reflection: Reflection)

  const NoEntriesReflection := Reflection(
    "No entries this month yet. A two-minute check-in can start a streak.", 0.0, [],
    ["Schedule a tiny daily ritual you can keep for 2 minutes."])

  const ParseErrorReflection := Reflection(
    "Couldn’t parse AI response. Here’s a simple local snapshot.", 0.0, [],
    ["Capture one meaningful moment from today."])

  const ExceptionReflection := Reflection(
    "We hit a network hiccup. Showing a basic local summary.", 0.0, [],
    ["Try a 2-minute check-in tonight."])

  const LocalSummary := "Here’s a light local summary based on this month’s entries."
  const LocalSuggestions := ["Note one thing that lifted your energy.", "Repeat a small habit from a good day."]

  /** The reflection computed on the spot when the generator answers with an error status. */
  function LocalReflection(month: seq<Entry>): Reflection {
    Reflection(LocalSummary, Average(month), LocalThemes(month), LocalSuggestions)
  }

  /**
   * The reply of `/api/monthly-reflection`. An empty month is answered
   * before the generator is called, so `call` is irrelevant then.
   */
  function MonthlyReflection(entries: seq<Entry>, now: YearMonth, call: MonthlyCall): (r: MonthlyReply)
    ensures r.source == NoEntries <==> |ThisMonth(entries, now)| == 0
    ensures r.source == GeneratorError <==> |ThisMonth(entries, now)| > 0 && call.HttpError?
    ensures r.source == Exception <==> |ThisMonth(entries, now)| > 0 && call.Threw?
    ensures r.source == ParseError <==> |ThisMonth(entries, now)| > 0 && call.ParseFailed?
    ensures r.source == Generated <==> |ThisMonth(entries, now)| > 0 && call.Parsed?
    ensures r.source != MissingKey
    ensures r.source == Generated ==> r.reflection == call.reflection
    ensures r.source in {NoEntries, ParseError, Exception} ==>
      r.reflection.avg == 0.0 && r.reflection.themes == [] && |r.reflection.suggestions| == 1
    ensures r.source == GeneratorError ==>
      && r.reflection.avg == Average(ThisMonth(entries, now))
      && r.reflection.themes == LocalThemes(ThisMonth(entries, now))
      && |r.reflection.suggestions| == 2
  {
    var month := ThisMonth(entries, now);
    if |month| == 0 then MonthlyReply(NoEntries, NoEntriesReflection)
    else
      match call
      case HttpError => MonthlyReply(GeneratorError, LocalReflection(month))
      case Parsed(reflection) => MonthlyReply(Generated, reflection)
      case ParseFailed => MonthlyReply(ParseError, ParseErrorReflection)
      case Threw => MonthlyReply(Exception, ExceptionReflection)
  }

  /** An empty month gets the same reply whatever the generator would have done. */
  lemma NoEntriesIgnoresGenerator(entries: seq<Entry>, now: YearMonth, c1: MonthlyCall, c2: MonthlyCall)
    requires |ThisMonth(entries, now)| == 0
    ensures MonthlyReflection(entries, now, c1) == MonthlyReflection(entries, now, c2)
  {
  }

  /**
   * A month of two entries, both dated in `now`'s month: sentiments -1 and 1,
   * themes `sleep` and `sleep, focus`. Dates and texts are arbitrary.
   */
  predicate SleepFocusMonth(es: seq<Entry>, now: YearMonth) {
    && |es| == 2
    && es[0].calendar == Some(now) && es[1].calendar == Some(now)
    && es[0].sentiment == Value(Finite(-1.0)) && es[1].sentiment == Value(Finite(1.0))
    && es[0].themes == ["sleep"] && es[1].themes == ["sleep", "focus"]
  }

  /** In such a month `sleep` occurs twice, `focus` once, and nothing else occurs. */
  lemma SleepFocusOccurrences(es: seq<Entry>, now: YearMonth)
    requires SleepFocusMonth(es, now)
    ensures Occurrences("sleep", es) == 2
    ensures Occurrences("focus", es) == 1
    ensures forall x :: Occurrences(x, es) > 0 ==> x == "sleep" || x == "focus"
  {
    var e1, e2 := es[0], es[1];
    assert "sleep" != "focus";
    assert es[1..] == [e2] && es[1..][1..] == [];
    assert e1.themes[1..] == [];
    assert e2.themes[1..] == ["focus"] && e2.themes[1..][1..] == [];
    assert CountIn("sleep", e1.themes) == 1 && CountIn("focus", e1.themes) == 0;
    assert CountIn("sleep", e2.themes[1..]) == 0 && CountIn("focus", e2.themes[1..]) == 1;
    assert CountIn("sleep", e2.themes) == 1 && CountIn("focus", e2.themes) == 1;
    assert Occurrences("sleep", es[1..]) == 1 && Occurrences("focus", es[1..]) == 1;
    forall x | Occurrences(x, es) > 0
      ensures x == "sleep" || x == "focus"
    {
      OccurrenceWitness(x, es);
    }
  }

  /** The label at position `i`, or the empty string past the end. */
  function ThemeAt(t: seq<ThemeCount>, i: int): string {
    if 0 <= i < |t| then t[i].theme else ""
  }

  /** A list pinned down by its labels, their counts and its order. */
  lemma PinnedTwo(t: seq<ThemeCount>, a: string, ca: nat, b: string, cb: nat)
    requires a != b && ca > cb
    requires DistinctThemes(t) && NonIncreasing(t)
    requires forall i :: 0 <= i < |t| ==> t[i] == ThemeCount(a, ca) || t[i] == ThemeCount(b, cb)
    requires !Lists(t, a) ==> |t| == TopThemeLimit
    requires !Lists(t, b) ==> |t| == TopThemeLimit
    ensures t == [ThemeCount(a, ca), ThemeCount(b, cb)]
  {
    assert |t| > 2 ==> ThemeAt(t, 0) != ThemeAt(t, 1) && ThemeAt(t, 0) != ThemeAt(t, 2) && ThemeAt(t, 1) != ThemeAt(t, 2);
    assert |t| <= 2;
    assert Lists(t, a) && Lists(t, b);
    var i :| 0 <= i < |t| && t[i].theme == a;
    var j :| 0 <= j < |t| && t[j].theme == b;
    assert |t| == 2;
  }

  /**
   * When exactly two labels occur, with different counts, the tally's
   * specification leaves exactly one possible list: the more frequent first.
   */
  lemma TwoLabelTop(t: seq<ThemeCount>, es: seq<Entry>, a: string, b: string)
    requires Occurrences(a, es) > Occurrences(b, es) > 0
    requires forall x :: Occurrences(x, es) > 0 ==> x == a || x == b
    requires forall i :: 0 <= i < |t| ==> Faithful(t[i], es)
    requires DistinctThemes(t) && NonIncreasing(t)
    requires forall x :: Occurrences(x, es) > 0 && !Lists(t, x) ==> |t| == TopThemeLimit
    ensures t == [ThemeCount(a, Occurrences(a, es)), ThemeCount(b, Occurrences(b, es))]
  {
    var ca, cb := Occurrences(a, es), Occurrences(b, es);
    forall i | 0 <= i < |t|
      ensures t[i] == ThemeCount(a, ca) || t[i] == ThemeCount(b, cb)
    {
      assert Faithful(t[i], es);
    }
    assert a != b;
    assert !Lists(t, a) ==> |t| == TopThemeLimit;
    assert !Lists(t, b) ==> |t| == TopThemeLimit;
    PinnedTwo(t, a, ca, b, cb);
  }

  /** The local themes when exactly two labels occur, with different counts. */
  lemma TwoLabelThemes(es: seq<Entry>, a: string, b: string)
    requires Occurrences(a, es) > Occurrences(b, es) > 0
    requires forall x :: Occurrences(x, es) > 0 ==> x == a || x == b
    ensures LocalThemes(es) == [ThemeCount(a, Occurrences(a, es)), ThemeCount(b, Occurrences(b, es))]
  {
    LocalThemesSpec(es);
    TwoLabelTop(LocalThemes(es), es, a, b);
  }

  /** Both entries of such a month are kept, and their sentiments sum to 0. */
  lemma SleepFocusMonthAndSum(es: seq<Entry>, now: YearMonth)
    requires SleepFocusMonth(es, now)
    ensures ThisMonth(es, now) == es
    ensures SentimentSum(es) == 0.0
  {
    var e1, e2 := es[0], es[1];
    assert es[..1] == [e1] && es[..1][..0] == [];
    assert es == es[..1] + [e2];
    assert Effective(e1) == -1.0 && Effective(e2) == 1.0;
    assert SentimentSum(es[..1]) == -1.0 by {
      assert SentimentSum(es[..1][..0]) == 0.0;
    }
  }

  /**
   * Such a month with the generator answering an error status: the local
   * reflection averages 0 and lists `sleep` twice, then `focus` once.
   */
  lemma SleepFocusScenario(es: seq<Entry>, now: YearMonth)
    requires SleepFocusMonth(es, now)
    ensures var r := MonthlyReflection(es, now, HttpError);
      && r.source == GeneratorError
      && r.reflection.avg == 0.0
      && r.reflection.themes == [ThemeCount("sleep", 2), ThemeCount("focus", 1)]
  {
    SleepFocusMonthAndSum(es, now);
    SleepFocusOccurrences(es, now);
    TwoLabelThemes(es, "sleep", "focus");
  }
}
