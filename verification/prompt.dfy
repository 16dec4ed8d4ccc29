/**
 * The decisions of the daily-prompt route (`POST /api/generate-prompt`): the
 * deterministic fallback question, the numbered recent-history context handed
 * to the generator, and which `source` tag and prompt each outcome of the
 * generator call produces.
 */
module PromptRoute {
  import opened Wrappers
  import opened Js
  import opened Journal
  import opened Provenance

  /** How the call to the generator ended. */
  datatype CallOutcome =
    | HttpError                          // a response with a non-2xx status
    | Threw                              // the request, or reading its body, threw
    | Completed(content: Option<string>) // a 2xx response; the first choice's message content, if any

  /** The JSON reply `{prompt, source}`. */
  datatype PromptReply = PromptReply(prompt: string, source: Source)

  const GoalsInFallback := 3
  const ListSeparator := ", "

  // The openings are split after their fifth character, where they first differ,
  // so that the verifier can read those characters off the literal.
  const MeaningfulOpening := "What " + "felt most meaningful about that experience, and what small action could you repeat"
  const MeaningfulClosing := " tomorrow?"
  const SmallWinOpening := "What'" + "s one small win today, and what made it possible"
  const SmallWinClosing := "?"

  // ---------------------------------------------------------------------------
  // Fallback prompt
  // ---------------------------------------------------------------------------

  /** The ` around g1, g2, g3` clause: present exactly when there are goals. */
  function GoalClause(goals: seq<string>): (r: string)
    ensures r == "" <==> |goals| == 0
    ensures |goals| == 1 ==> r == " around " + goals[0]
    ensures |goals| == 2 ==> r == " around " + goals[0] + ", " + goals[1]
    ensures |goals| >= 3 ==> r == " around " + goals[0] + ", " + goals[1] + ", " + goals[2]
  {
    if |goals| == 0 then ""
    else
      var named := Prefix(goals, GoalsInFallback);
      assert |goals| == 1 ==> named == [goals[0]];
      assert |goals| == 2 ==> named == [goals[0], goals[1]];
      assert |goals| >= 3 ==> named == [goals[0], goals[1], goals[2]];
      JoinTwo(Get(goals, 0), Get(goals, 1), ListSeparator);
      JoinThree(Get(goals, 0), Get(goals, 1), Get(goals, 2), ListSeparator);
      " around " + Join(named, ListSeparator)
  }

  /** The goal at position `i`, or the empty string past the end. */
  function Get(goals: seq<string>, i: nat): string {
    if i < |goals| then goals[i] else ""
  }

  /** Goals after the third never influence the clause. */
  lemma GoalClauseIgnoresLaterGoals(g1: seq<string>, g2: seq<string>)
    requires Prefix(g1, GoalsInFallback) == Prefix(g2, GoalsInFallback)
    ensures GoalClause(g1) == GoalClause(g2)
  {
  }

  /** `recentEntries[recentEntries.length - 1]?.text || ''` */
  function LastText(entries: seq<Entry>): string {
    if |entries| == 0 then "" else entries[|entries| - 1].text
  }

  /** The opening the fallback question uses for this history. */
  function Opening(entries: seq<Entry>): string {
    if LastText(entries) != "" then MeaningfulOpening else SmallWinOpening
  }

  /**
   * `fallbackPrompt(goals, recentEntries)`: a question about the latest entry
   * when it has text, otherwise a question about today's small win; either
   * carries the goal clause right after its opening.
   */
  function FallbackPrompt(goals: seq<string>, entries: seq<Entry>): (r: string)
    ensures |r| > 0 && r[0] == 'W' && r[|r| - 1] == '?'
    ensures MeaningfulOpening <= r <==> LastText(entries) != ""
    ensures SmallWinOpening <= r <==> LastText(entries) == ""
    ensures |Opening(entries)| + |GoalClause(goals)| < |r|
    ensures r[|Opening(entries)|..|Opening(entries)| + |GoalClause(goals)|] == GoalClause(goals)
  {
    var clause := GoalClause(goals);
    if LastText(entries) != "" then
      var r := MeaningfulOpening + clause + MeaningfulClosing;
      assert r[0] == MeaningfulOpening[0];
      assert r[4] == MeaningfulOpening[4] != SmallWinOpening[4];
      assert r[|MeaningfulOpening|..|MeaningfulOpening| + |clause|] == clause;
      r
    else
      var r := SmallWinOpening + clause + SmallWinClosing;
      assert r[0] == SmallWinOpening[0];
      assert r[4] == SmallWinOpening[4] != MeaningfulOpening[4];
      assert r[|SmallWinOpening|..|SmallWinOpening| + |clause|] == clause;
      r
  }

  /** Of the history, the fallback looks at nothing but the latest entry's text. */
  lemma FallbackReadsOnlyLastText(goals: seq<string>, a: seq<Entry>, b: seq<Entry>)
    requires LastText(a) == LastText(b)
    ensures FallbackPrompt(goals, a) == FallbackPrompt(goals, b)
  {
  }

  // ---------------------------------------------------------------------------
  // Recent-history context
  // ---------------------------------------------------------------------------

  const RecentWindow := 7
  const LineTextLimit := 180
  const LineThemeLimit := 4
  const LineSeparator := "\n"
  const NoHistory := "No previous entries."

  /** One line of the history: `n. date: text (themes: t1, t2)`. */
  datatype ContextLine = ContextLine(number: nat, date: string, text: string, themes: seq<string>)

  /** `line` is the shaped form of entry `e` at position `number`. */
  predicate Describes(line: ContextLine, e: Entry, number: nat) {
    && line.number == number
    && line.date == e.date
    && line.text == Prefix(e.text, LineTextLimit)
    && line.themes == Prefix(e.themes, LineThemeLimit)
  }

  function ShapeLine(e: Entry, number: nat): (line: ContextLine)
    ensures Describes(line, e, number)
  {
    ContextLine(number, e.date, Prefix(e.text, LineTextLimit), Prefix(e.themes, LineThemeLimit))
  }

  /** Shapes `window` into lines numbered consecutively from `first`. */
  function NumberLines(window: seq<Entry>, first: nat): (r: seq<ContextLine>)
    ensures |r| == |window|
    ensures forall i :: 0 <= i < |r| ==> Describes(r[i], window[i], first + i)
    decreases |window|
  {
    if |window| == 0 then [] else [ShapeLine(window[0], first)] + NumberLines(window[1..], first + 1)
  }

  /**
   * The last seven entries, oldest first, numbered from 1, each with its text
   * cut to 180 characters and its themes to the first four.
   */
  function RecentLines(entries: seq<Entry>): (r: seq<ContextLine>)
    ensures |r| == Min(|entries|, RecentWindow)
    ensures forall i :: 0 <= i < |r| ==> Describes(r[i], entries[|entries| - |r| + i], i + 1)
    ensures forall i :: 0 <= i < |r| ==> |r[i].text| <= LineTextLimit && |r[i].themes| <= LineThemeLimit
  {
    var window := Suffix(entries, RecentWindow);
    assert forall i :: 0 <= i < |window| ==> window[i] == entries[|entries| - |window| + i];
    NumberLines(window, 1)
  }

  /** ` (themes: …)`, or nothing when the joined themes are empty. */
  function ThemeSuffix(themes: seq<string>): string {
    var t := Join(themes, ListSeparator);
    if t == "" then "" else " (themes: " + t + ")"
  }

  /**
   * The themes suffix is dropped exactly when the entry has no themes or its
   * only theme is the empty string.
   */
  lemma ThemeSuffixAbsentIff(e: Entry)
    ensures ThemeSuffix(Prefix(e.themes, LineThemeLimit)) == ""
      <==> |e.themes| == 0 || (|e.themes| == 1 && e.themes[0] == "")
  {
    JoinEmptyIff(Prefix(e.themes, LineThemeLimit), ListSeparator);
  }

  function RenderLine(line: ContextLine): string {
    NatToString(line.number) + ". " + line.date + ": " + line.text + ThemeSuffix(line.themes)
  }

  function RenderLines(lines: seq<ContextLine>): (r: seq<string>)
    ensures |r| == |lines|
    ensures forall i :: 0 <= i < |r| ==> r[i] == RenderLine(lines[i])
  {
    if |lines| == 0 then [] else [RenderLine(lines[0])] + RenderLines(lines[1..])
  }

  /**
   * The history block of the generator request, with its placeholder: the
   * placeholder stands exactly when there are no entries.
   */
  function HistoryText(entries: seq<Entry>): (r: string)
    ensures r == NoHistory <==> |entries| == 0
    ensures |entries| > 0 ==> RenderLine(RecentLines(entries)[0]) <= r
  {
    var block := Join(RenderLines(RecentLines(entries)), LineSeparator);
    if block == "" then NoHistory
    else
      assert |entries| > 0 ==> block[0] == '1' by {
        if |entries| > 0 {
          assert NatToString(1) == "1";
        }
      }
      block
  }

  /** A non-empty history block ends with the newest entry's line. */
  lemma HistoryEndsWithNewest(entries: seq<Entry>)
    requires |entries| > 0
    ensures EndsWith(HistoryText(entries), RenderLine(ShapeLine(entries[|entries| - 1], Min(|entries|, RecentWindow))))
  {
    var lines := RecentLines(entries);
    var rendered := RenderLines(lines);
    JoinEndsWith(rendered, LineSeparator);
    JoinEmptyIff(rendered, LineSeparator);
    assert rendered[0] != "" by {
      assert NatToString(1) == "1";
    }
    assert Describes(lines[|lines| - 1], entries[|entries| - 1], |lines|);
    assert lines[|lines| - 1] == ShapeLine(entries[|entries| - 1], |lines|);
  }

  /** `s` ends with `t`. */
  predicate EndsWith(s: string, t: string) {
    |t| <= |s| && s[|s| - |t|..] == t
  }

  /**
   * While the history is shorter than the window, one more entry appends a
   * line separator and that entry's line, numbered next, to the block.
   */
  lemma HistoryGrows(entries: seq<Entry>, e: Entry)
    requires 0 < |entries| < RecentWindow
    ensures HistoryText(entries + [e]) == HistoryText(entries) + LineSeparator + RenderLine(ShapeLine(e, |entries| + 1))
  {
    var more := entries + [e];
    var lines, moreLines := RecentLines(entries), RecentLines(more);
    var line := ShapeLine(e, |entries| + 1);
    assert moreLines == lines + [line] by {
      forall i | 0 <= i < |moreLines|
        ensures moreLines[i] == (lines + [line])[i]
      {
        assert Describes(moreLines[i], more[i], i + 1);
        if i < |lines| {
          assert Describes(lines[i], entries[i], i + 1);
          assert more[i] == entries[i];
        }
      }
    }
    assert RenderLines(moreLines) == RenderLines(lines) + [RenderLine(line)];
    JoinSnoc(RenderLines(lines), RenderLine(line), LineSeparator);
    JoinEmptyIff(RenderLines(lines), LineSeparator);
    JoinEmptyIff(RenderLines(moreLines), LineSeparator);
    assert RenderLines(lines)[0] != "" by {
      assert NatToString(1) == "1";
    }
    assert RenderLines(moreLines)[0] != "";
  }

  // ---------------------------------------------------------------------------
  // The route
  // ---------------------------------------------------------------------------

  /**
   * The reply of `/api/generate-prompt`. Without an API key the generator is
   * never called and `call` is irrelevant. A 2xx answer is tagged as generated
   * even when its content trims to nothing and the fallback text stands in.
   */
  function GeneratePrompt(keySet: bool, goals: seq<string>, entries: seq<Entry>, call: CallOutcome): (r: PromptReply)
    ensures |r.prompt| > 0
    ensures !keySet ==> r.source == MissingKey
    ensures keySet ==> (r.source == GeneratorError <==> call.HttpError?)
    ensures keySet ==> (r.source == Exception <==> call.Threw?)
    ensures r.source == Generated <==> keySet && call.Completed?
    ensures r.source in {Generated, MissingKey, GeneratorError, Exception}
    ensures r.source.IsFallback() ==> r.prompt == FallbackPrompt(goals, entries)
    ensures r.source == Generated && Trim(call.content.GetOr("")) != "" ==> r.prompt == Trim(call.content.value)
    ensures r.source == Generated && Trim(call.content.GetOr("")) == "" ==> r.prompt == FallbackPrompt(goals, entries)
  {
    if !keySet then PromptReply(FallbackPrompt(goals, entries), MissingKey)
    else
      match call
      case HttpError => PromptReply(FallbackPrompt(goals, entries), GeneratorError)
      case Threw => PromptReply(FallbackPrompt(goals, entries), Exception)
      case Completed(content) =>
        var t := Trim(content.GetOr(""));
        PromptReply(if t != "" then t else FallbackPrompt(goals, entries), Generated)
  }

  /** A string whose ends are not white space is left alone by `trim`. */
  lemma TrimKeepsTrimmed(s: string)
    requires |s| > 0 && !IsWhiteSpace(s[0]) && !IsWhiteSpace(s[|s| - 1])
    ensures Trim(s) == s
  {
    assert TrimStart(s) == s;
    assert TrimEnd(s) == s;
  }

  /** Every prompt the route replies with is already trimmed, whichever branch produced it. */
  lemma PromptIsTrimmed(keySet: bool, goals: seq<string>, entries: seq<Entry>, call: CallOutcome)
    ensures Trim(GeneratePrompt(keySet, goals, entries, call).prompt) == GeneratePrompt(keySet, goals, entries, call).prompt
  {
    var r := GeneratePrompt(keySet, goals, entries, call);
    var fb := FallbackPrompt(goals, entries);
    TrimKeepsTrimmed(fb);
    if r.prompt != fb {
      TrimIdempotent(call.content.value);
    }
  }

  /** When the generator is not reached or fails, the reply is a fallback with a usable prompt. */
  lemma UnavailableGeneratorFallsBack(keySet: bool, goals: seq<string>, entries: seq<Entry>, call: CallOutcome)
    requires !keySet || !call.Completed?
    ensures GeneratePrompt(keySet, goals, entries, call).source.IsFallback()
    ensures FallbackPrefix <= GeneratePrompt(keySet, goals, entries, call).source.Tag()
    ensures |GeneratePrompt(keySet, goals, entries, call).prompt| > 0
  {
  }
}
