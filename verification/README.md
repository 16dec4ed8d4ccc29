# Reflect server decisions in Dafny

Reflect is a private journaling app. Its Express server has two routes that
ask a language-model generator for help and fall back to local answers when
the generator cannot be used:

- `POST /api/generate-prompt` asks for one journaling question. It sends the
  user's goals and their recent entries as context. Without an API key, or
  when the call fails, it returns a deterministic fallback question.
- `POST /api/monthly-reflection` asks for a reflection on the current
  calendar month. An empty month gets a fixed reply. An error status from
  the generator gets a reflection computed locally: the average mood and the
  six most frequent themes. A reply that does not parse, or a call that
  throws, gets a fixed reflection.

Every reply carries a `source` tag. The tag says whether the payload came
from the generator (`openai`) or from a fallback (`fallback:<reason>`).

The model covers the pure decisions of these two handlers. The generator
call becomes an input value saying how the call ended. Each entry's date
arrives already resolved to a (year, month) pair, or to nothing when the
date does not parse.

Modules:

- `Wrappers`: `Option`.
- `Js`: the JavaScript semantics the handlers rely on: numbers that may be
  infinite (an overflowing literal such as `1e999`; `NaN` is included for
  generality, since JSON cannot carry it), `slice` from either end, `join`, `trim`, and the decimal
  rendering of a line number.
- `Journal`: the entry record.
- `Provenance`: the `source` tags.
- `PromptRoute`: the fallback question, the recent-history context and the
  prompt route.
- `ThemeTally`: the local theme aggregation.
- `Seqs`: facts about repetition-free sequences that the aggregation uses.
- `MonthlyRoute`: the month filter, the compact view, the average and the
  monthly route.

## Model

| member | source | states |
|---|---|---|
| PromptRoute.GoalClause | server/index.ts:24 | the goal clause is empty exactly when there are no goals; otherwise it is ` around ` followed by the first one, two or three goals separated by `, `, so a fourth goal never appears |
| PromptRoute.GoalClauseIgnoresLaterGoals | server/index.ts:24 | two goal lists that agree on their first three goals give the same clause, so a fourth goal never appears |
| PromptRoute.FallbackPrompt | server/index.ts:23-30 | the fallback is a non-empty question starting with `W` and ending with `?`; it opens with the "most meaningful" wording exactly when the last entry's text is non-empty and with the "small win" wording exactly when it is empty or there are no entries; the goal clause follows the opening directly |
| PromptRoute.FallbackReadsOnlyLastText | server/index.ts:25-29 | two histories whose last entries have the same text (an empty history counting as empty text) get the same fallback |
| PromptRoute.RecentLines | server/index.ts:57-62 | the context has min(n, 7) lines; line i describes entry n - len + i, so the lines are the last seven entries in order; they are numbered 1.. upward, text is cut to 180 characters and the themes to the first four |
| PromptRoute.ThemeSuffixAbsentIff | server/index.ts:60-61 | the ` (themes: …)` suffix is missing exactly when the entry has no themes or its only theme is the empty string |
| PromptRoute.HistoryText | server/index.ts:57-70 | the history block is the placeholder `No previous entries.` exactly when there are no entries; otherwise it starts with the first rendered line |
| PromptRoute.GeneratePrompt | server/index.ts:35-114 | no key gives `MissingKey`; with a key, an error status gives `GeneratorError`, a throw gives `Exception`, and a completed call gives `Generated` even when its trimmed content is empty; every fallback carries the fallback question, and a completed call carries the trimmed content or the fallback question when that is empty; the prompt is never empty |
| PromptRoute.HistoryEndsWithNewest | server/index.ts:57-63 | a non-empty history block ends with the newest entry's line, numbered with the window's size |
| PromptRoute.HistoryGrows | server/index.ts:57-63 | while there are fewer than seven entries, one more entry adds a newline and that entry's line, numbered next, to the end of the block; the earlier lines are unchanged |
| Js.JoinSnoc | server/index.ts:63 | joining a list with one more element appends the separator and that element to the join |
| PromptRoute.PromptIsTrimmed | server/index.ts:105-110 | every prompt the route returns is unchanged by `trim`, whatever branch produced it |
| PromptRoute.UnavailableGeneratorFallsBack | server/index.ts:35-38 | without a key, or when the call does not complete, the tag starts with `fallback:` and the prompt is non-empty |
| Provenance.Source.Tag | server/index.ts:35-250 | every `source` string is non-empty, and it starts with `fallback:` exactly when the provenance is a fallback |
| Js.Prefix | server/index.ts:60-61 | `slice(0, n)` yields the first min(len, n) elements of the list, unchanged; the same slice picks the goals at line 24, cuts the compact fields at lines 151-153 and keeps the top six at line 210 |
| Js.Suffix | server/index.ts:57-58 | `slice(-n)` yields the last min(len, n) elements of the list, in order; the same slice keeps the last forty month entries at line 149 |
| Js.Join | server/index.ts:60-63 | joining nothing gives the empty string, and a join of a non-empty list starts with its first element; the same join lists the goals at line 24 |
| Js.Trim | server/index.ts:107 | `trim` yields a contiguous middle of the string that neither starts nor ends with white space; everything cut away on either side is white space |
| Js.NatToString | server/index.ts:61 | the rendering of a line number is a non-empty run of decimal digits, with a leading `0` only for zero itself |
| Provenance.TagInjective | server/index.ts:37-113 | different provenances never share a tag |
| Js.JoinEmptyIff | server/index.ts:60-61 | a join with `, ` is empty exactly when the list is empty or is a single empty string |
| Js.TrimIdempotent | server/index.ts:107 | trimming a trimmed string changes nothing |
| Js.DecimalRoundTrip | server/index.ts:61 | reading the digits that render a line number gives back the number |
| MonthlyRoute.ThisMonth | server/index.ts:131-135 | an entry is in the result exactly when it is in the input and its (year, month) is the current one; the result is no longer than the input |
| MonthlyRoute.ThisMonthCounts | server/index.ts:132-135 | an entry of the current month is kept as many times as the input holds it, and any other entry no times |
| MonthlyRoute.ThisMonthAppend | server/index.ts:132-135 | filtering a concatenation is the concatenation of the filtered parts, so relative order is preserved |
| MonthlyRoute.ThisMonthKeepsAll | server/index.ts:132-135 | a list dated entirely in the current month comes back unchanged, order included |
| MonthlyRoute.ThisMonthDropsAll | server/index.ts:132-135 | a list dated entirely outside the current month gives nothing |
| MonthlyRoute.Compact | server/index.ts:149-154 | the compact view has min(n, 40) items, the last forty of the month in order; each keeps the date, at most 350 characters of text and at most six themes; a sentiment that is not a number becomes 0 and a number is kept |
| MonthlyRoute.Average | server/index.ts:205-207 | the average is 0 for no entries; otherwise the average times the count equals the sum of the finite sentiments, non-finite ones counting 0 |
| MonthlyRoute.AverageWithin | server/index.ts:205-207 | the average lies between any bounds that every counted sentiment respects |
| MonthlyRoute.MonthlyReflection | server/index.ts:137-251 | the source is `NoEntries` exactly when the month is empty, and otherwise is fixed by the call outcome, one tag per outcome; it is never `MissingKey`; a parsed reply is passed through unchanged; the no-entries, parse-error and exception replies have avg 0, no themes and one suggestion; the error-status reply carries the month's average, its local themes and two suggestions |
| MonthlyRoute.NoEntriesIgnoresGenerator | server/index.ts:137-147 | an empty month gets the same reply whatever the generator would have done, because it is answered before the call |
| MonthlyRoute.TwoLabelThemes | server/index.ts:208-210 | when exactly two labels occur, with different counts, the local themes are those two labels, the more frequent first, each with its count |
| MonthlyRoute.SleepFocusScenario | server/index.ts:201-219 | a month of two entries with sentiments -1 and 1 and themes `sleep` / `sleep, focus` gets, on an error status, average 0 and themes `sleep` 2 then `focus` 1 |
| ThemeTally.TallyAdds | server/index.ts:209 | each counting step adds to a label exactly the number of times it is listed, and creates no other label |
| ThemeTally.CountMapCorrect | server/index.ts:208-209 | the counting object holds exactly the labels that occur, each with its total number of occurrences across the month's theme lists, repeats within one entry included |
| Seqs.FirstOccurrences | server/index.ts:210 | the key order of the counting object holds every listed label exactly once |
| ThemeTally.ObjectEntries | server/index.ts:210 | `Object.entries` yields one `(label, count)` pair per key, in key order |
| ThemeTally.Pairs | server/index.ts:208-210 | the counting object's pairs repeat nothing, every pair carries its label's true count, and every occurring label has a pair |
| ThemeTally.Insert | server/index.ts:210 | inserting into a list sorted by descending count keeps it sorted and adds exactly that element |
| ThemeTally.SortByCount | server/index.ts:210 | sorting yields a permutation of the pairs, counts non-increasing |
| ThemeTally.SortedPairs | server/index.ts:208-210 | after sorting, every pair is faithful, no label repeats and no occurring label is lost |
| ThemeTally.CutOfFaithful | server/index.ts:210 | cutting a sorted faithful list keeps it faithful, sorted and label-distinct, and drops a label only when the cut is full and every kept count is at least the dropped one's |
| ThemeTally.LocalThemesSpec | server/index.ts:208-210 | the local themes are at most six distinct labels, each with its true number of occurrences, counts non-increasing; an occurring label is left out only when six are kept and each kept count is at least its own |
| ThemeTally.LocalThemesOccur | server/index.ts:208-210 | every label in the local themes is listed by some entry of the month |
| ThemeTally.RawTallyAgrees | server/index.ts:208-209 | the counting object as JavaScript evaluates it agrees with the intended tally whenever no label is an `Object.prototype` name |
| ThemeTally.PrototypeLabelsMiscounted | server/index.ts:208-209 | for one entry tagged `constructor` and `__proto__` the object as written holds a concatenated string for `constructor` and nothing for `__proto__`, while each label occurs once |

## Left out

- HTTP plumbing is not modelled: Express setup, request logging, `res.json`, `app.listen` and the health route (server/index.ts:1-13, 117-121).
- The generator calls are not modelled either: the `fetch` requests, the prompt and system texts sent with them, `JSON.parse`, and the error logging (server/index.ts:40-55, 65-97, 156-199). Each call is an input value saying how it ended.
- The goals line in the generator request (server/index.ts:53-55) is only prompt text and is left out with the prompts.
- Date parsing is not modelled. `new Date(e.date)` depends on the time zone, so each entry carries the (year, month) it resolves to, or nothing for an Invalid Date. The current date is an input.
- The monthly route never checks for a missing API key. Without one it still calls the generator, which normally answers with an error status. The model follows the code: no `MissingKey` branch exists for this route, and such a run is the `HttpError` outcome.
- The `label` field of each reply theme (server/index.ts:163, 210) is named `theme` in the model, because `label` is a reserved word in Dafny.
- MonthlyRoute.MonthlyReflection: `avg` is the unrounded mean. The `toFixed(2)` rounding of the error-status reply (server/index.ts:215) is floating-point formatting and is not modelled.
- MonthlyRoute.Compact: `s` keeps the sentiment unrounded. The `toFixed(3)` rounding (server/index.ts:152) is not modelled.
- MonthlyRoute.Average: sentiments are exact reals, not IEEE doubles, so rounding and overflow in the sum are not modelled.
- ThemeTally.LocalThemesSpec: the order among labels with equal counts is left unspecified. It depends on `Object.entries` key order, which lists integer-like keys first, and on sort stability. The model computes one order but promises none.
- MonthlyRoute.MonthlyCall: `Parsed` carries a well-formed reflection record. The code passes on any parsed JSON value, including the `{}` that stands in for missing content (server/index.ts:223).
- PromptRoute.CallOutcome: only a string or absent message content is modelled. Content of another type makes `trim` throw, and so does a body that is not JSON. Both end in the exception branch, which the model gives as `Threw`.
- Entries without a `text` field are not modelled. In the prompt route, `e.text.slice` would then throw before the `try` block (server/index.ts:61).
- A `goals` or `entries` field sent as `null` is not modelled, because only `undefined` takes the default `[]`.
- Strings are sequences of `char`. JavaScript counts UTF-16 code units, so the 180- and 350-character cuts can differ on astral characters.
- src/lib/ai.ts is not part of this model: it holds thin client-side fetch wrappers.
- server/scripts/resetCollection.ts is not part of this model: it is vector-store deletion I/O.
- src/components/ReflectionMonth.tsx, MoodTrend.tsx and PromptChip.tsx are not part of this model: they are UI. Their month filter repeats the server's.
- The encrypted entry store, the sentiment and theme analyzer and the retrieval endpoints are not part of this model. Their source is not among the files modelled.

## Findings

| source | as written | input that shows it | evidently intended | confidence | as-written member | corrected member |
|---|---|---|---|---|---|---|
| server/index.ts:208-209 | `map[t] = (map[t] \|\| 0) + 1` on a plain `{}` reads inherited `Object.prototype` members: a label such as `constructor` starts from a function and becomes a concatenated string, and `__proto__` is never stored | one month entry with themes `["constructor", "__proto__"]` on an error status | every label counted by its occurrences (`constructor` 1, `__proto__` 1), e.g. with `Object.create(null)` or a `Map` | not executed | ThemeTally.PrototypeLabelsMiscounted | ThemeTally.CountMapCorrect |

The as-written object is `ThemeTally.RawTally`. `ThemeTally.RawTallyAgrees` shows it matches the corrected tally `ThemeTally.CountMap` whenever no prototype name is used as a label. The rest of the model builds on the corrected tally.
