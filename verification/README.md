# Trading-dashboard logic, modelled in Dafny

The dashboard is mostly presentation. Its sequential logic comes in three
small pieces, and this project models each of them and proves its
properties:

- **News reconciliation** (`analyzeNews`). The module builds the prompt's
  headline block, one `- headline` line per raw headline. It then turns the
  analysis call's parsed records into news items. Each item gets back the
  source of the first raw headline with exactly the same text, or
  `'Unknown'`. When the call fails, each raw headline instead gets the
  placeholder summary `'Could not analyze summary.'` and the sentiment
  `'Neutral'`. Module `NewsAnalysis`, file `news_analysis.dfy`.
- **Report streaming** (`handleGenerateReport`). This is a fold over the
  chunks of the generated report, with the widget state `report`,
  `isLoading` and `error` and the local accumulator. It has separate start,
  chunk, failure and finally transitions. The module also has the same
  handler written as a loop. Module `ReportStream`, file
  `report_stream.dfy`.
- **Report formatting** (`formatReport`). The text is split on line feeds,
  and each line becomes a heading (`###`), a list item (`-`) or a verbatim
  paragraph. Module `ReportFormat`, file `report_format.dfy`.
- **Mentor tip cycling**. The index starts at 0, and "Next Tip" advances it
  modulo the number of tips. A tip, and with it the button, is shown only
  while the index is inside the tip list. Module `MentorTips`, file
  `mentor_tips.dfy`.

The JavaScript string operations these pieces use live in module `Text`
(`text.dfy`): `split`, `join`, `startsWith`, `replace` with a string pattern,
`substring` and `trim`. `Optional` (`option.dfy`) stands for `undefined`
results.

The foreign calls are parameters. The analysis call's outcome is
`Success(results)` or `Failure`. The report producer is a `ChunkStream`: the
chunks it delivered, and then whether it completed or threw.

How the reconciliation behaves, as the code writes it:

- It goes through the parsed results and looks up an input for each
  (services/geminiService.ts:100-101). So the number of items follows the
  results, and each item's headline is the result's `originalHeadline`.
- Headlines need not be unique: `Array.prototype.find` takes the first
  match, and so does the model. Distinct headlines are assumed only by the
  permutation property.
- `'Unknown'` marks exactly the results that match no input only when no
  input's own source is the string `'Unknown'`. The model states it that
  way.

## Model

| member | source | states |
|---|---|---|
| `NewsAnalysis.HeadlineBlock` | services/geminiService.ts:74 | the headline block is empty exactly when there are no inputs, and otherwise opens with the first input's `"- " + headline` line |
| `NewsAnalysis.Prompt` | services/geminiService.ts:68-75 | the prompt is the fixed head text, then the headline block, then the fixed tail, with the block starting right after the head |
| `NewsAnalysis.HeadlineBlockRoundTrip` | services/geminiService.ts:74 | when no headline contains a line feed, the block's lines are exactly the inputs' `"- " + headline` lines, one per input, in input order; reading the lines back and dropping the bullets gives the input headlines |
| `NewsAnalysis.HeadlineBlockAmbiguous` | services/geminiService.ts:74 | a headline containing a line feed and a bullet makes the block indistinguishable from two headlines, so the round trip needs its condition |
| `NewsAnalysis.Find` | services/geminiService.ts:101 | `find` returns nothing exactly when no input has the headline, and otherwise the input at the first position whose headline equals the key |
| `NewsAnalysis.SourceFor` | services/geminiService.ts:101-106 | the looked-up source is the source of the first input with that exact headline, and `'Unknown'` when there is none |
| `NewsAnalysis.Reconcile` | services/geminiService.ts:100-108 | on success: one item per parsed record, in record order; headline, summary and sentiment are copied from the record unchanged; source is the first matching input's source, or `'Unknown'` with no match |
| `NewsAnalysis.UnknownExactlyWithoutMatch` | services/geminiService.ts:106 | if no input's source is `'Unknown'`, an item's source is `'Unknown'` if and only if no input headline equals its record's headline |
| `NewsAnalysis.ReconcilePermutation` | services/geminiService.ts:100-108 | when the records' headlines are a permutation of distinct input headlines, every record finds its input and the items' (headline, source) pairs are a permutation of the inputs |
| `NewsAnalysis.Fallback` | services/geminiService.ts:113-117 | on failure: same length and order as the input, headline and source unchanged, summary `'Could not analyze summary.'`, sentiment `'Neutral'` |
| `NewsAnalysis.FallbackKeepsInputs` | services/geminiService.ts:113-117 | the failure path gives back exactly the input (headline, source) records, all with a neutral sentiment |
| `NewsAnalysis.AnalyzeNews` | services/geminiService.ts:66-118 | the item count follows the parsed records on success and the inputs on failure; on failure every summary is the placeholder |
| `NewsAnalysis.SuccessExample` | services/geminiService.ts:100-108 | one matched headline from Reuters yields one item with the record's summary and sentiment and source Reuters |
| `NewsAnalysis.FailureExample` | services/geminiService.ts:113-117 | the same headline with a failed call yields the placeholder item with source Reuters |
| `ReportStream.Begin` | components/ReportWidget.tsx:19-24 | starting overwrites all three fields: loading on, report empty, error cleared, whatever was shown before; the accumulator starts empty |
| `ReportStream.Consume` | components/ReportWidget.tsx:26-27 | a chunk extends the accumulator by exactly that chunk, the shown report becomes the accumulator, and loading and error are untouched |
| `ReportStream.Catch` | components/ReportWidget.tsx:29-31 | a failure sets the fixed error message, keeps the report text (no rollback) and leaves loading alone |
| `ReportStream.Finish` | components/ReportWidget.tsx:32-34 | the `finally` step turns loading off and keeps the report and the error |
| `ReportStream.StartedState` | components/ReportWidget.tsx:19-21 | starting a generation shows loading, an empty report and no error, before any chunk and whatever was shown before |
| `ReportStream.ConsumeAllShowsConcat` | components/ReportWidget.tsx:24-28 | after consuming chunks 1..k the accumulator and the shown report are their concatenation, still loading, no error |
| `ReportStream.DisplayedAfterChunk` | components/ReportWidget.tsx:24-28 | the k-th displayed state shows the concatenation of chunks 1..k |
| `ReportStream.DisplayedReportsGrow` | components/ReportWidget.tsx:25-34 | every displayed report is a prefix of every later one, the final state included |
| `ReportStream.OutcomeSpec` | components/ReportWidget.tsx:29-34 | when generation ends, loading is off and the report keeps all delivered chunks; the error is the fixed message exactly when the stream threw, and stays empty on completion |
| `ReportStream.GenerateReport` | components/ReportWidget.tsx:18-35 | the handler's loop shows the started state, then each chunk prefix's concatenation, then a final state with loading off, the full concatenation and the error set exactly on failure |
| `ReportStream.GenerateReportMatchesFold` | components/ReportWidget.tsx:18-35 | any run with the handler's guarantees displays exactly the states of the transition fold |
| `ReportFormat.FormatLine` | components/ReportWidget.tsx:41-47 | a line is a heading iff it starts with `###`, with text the rest trimmed; a list item iff it starts with `-` but not `###`, with text the rest trimmed; otherwise a verbatim paragraph; heading and item texts have no surrounding whitespace |
| `ReportFormat.FormatReport` | components/ReportWidget.tsx:37-49 | one element per line-feed-separated line, in order; the element count is the number of line feeds plus one |
| `ReportFormat.FormatEmpty` | components/ReportWidget.tsx:38-40 | the empty report renders as a single empty paragraph |
| `ReportFormat.FormatAroundNewline` | components/ReportWidget.tsx:38-40 | formatting two texts joined by a line feed gives the two element lists concatenated |
| `ReportFormat.PlainTextRoundTrip` | components/ReportWidget.tsx:38-47 | a text with no `###` or `-` lines renders only paragraphs, whose texts joined by line feeds are the text again |
| `Text.Split` | components/ReportWidget.tsx:39 | `split` yields one segment more than there are separators, and no segment contains the separator |
| `Text.JoinSplit` | components/ReportWidget.tsx:39 | joining the split segments with the separator gives the original string |
| `Text.Join` | services/geminiService.ts:74 | `join` of no parts is empty; otherwise the result opens with the first part, followed by the separator when there is a second part |
| `Text.SplitJoin` | services/geminiService.ts:74 | splitting a join of separator-free parts gives back the parts |
| `Text.IndexFrom` | components/ReportWidget.tsx:42 | the pattern search returns the first position at or after the start where the pattern occurs, or nothing when it occurs nowhere |
| `Text.ReplaceFirst` | components/ReportWidget.tsx:42 | a string without the pattern is returned unchanged |
| `Text.ReplacePrefix` | components/ReportWidget.tsx:42 | deleting the first occurrence of a prefix the string starts with removes exactly that prefix |
| `Text.SubstringFrom` | components/ReportWidget.tsx:45 | `substring(start)` is the rest of the string after `start` characters, and empty past the end |
| `Text.Trim` | components/ReportWidget.tsx:42-45 | `trim` returns a window of the string with only whitespace outside it and no whitespace at either end of it |
| `Text.TrimIdempotent` | components/ReportWidget.tsx:42-45 | trimming twice is trimming once |
| `MentorTips.LoadTips` | components/MentorWidget.tsx:17-19 | loading the tips replaces the tip list and leaves the index alone |
| `MentorTips.LoadedStartsAtFirstTip` | components/MentorWidget.tsx:14-29 | the index starts at 0; before loading the loading text shows; after loading a tip shows iff the list is non-empty, and it is the first tip |
| `MentorTips.CurrentTip` | components/MentorWidget.tsx:25-29 | a tip is present exactly when the index is inside the tip list, and it is the tip at the index |
| `MentorTips.NextIndex` | components/MentorWidget.tsx:21-23 | with n > 0 tips the next index is in [0, n); it is i+1 when i < n-1 and 0 when i = n-1 |
| `MentorTips.PressNext` | components/MentorWidget.tsx:21-41 | the button only exists while a tip is shown, so there is at least one tip; a press keeps the tips and a tip stays shown |
| `MentorTips.PressTimes` | components/MentorWidget.tsx:21-41 | any number of presses keeps the tips and keeps a tip shown |
| `MentorTips.PressTimesIndex` | components/MentorWidget.tsx:22 | within one round of presses the index moves k places forward, wrapping once past the last tip |
| `MentorTips.PressCycle` | components/MentorWidget.tsx:22 | pressing "Next Tip" once per tip returns to the starting state |

## Left out

- The generative-AI client, the `API_KEY` check and the `generateContent` / `generateContentStream` calls (services/geminiService.ts:10-14, 48-55, 78-95) are foreign network calls. They appear only as the `AnalysisResponse` and `ChunkStream` parameters.
- `generateFinancialReportStream`'s fixed prompt and model name (services/geminiService.ts:23-56) are left out. That function is only a chunk source here.
- `JSON.parse` and the response schema (services/geminiService.ts:82-97) are left out. Parsed records are taken as well-formed records with string fields. Sentiments pass through unchecked, as in the code.
- JavaScript quirks are left out: a chunk whose `text` is `undefined` being appended as `"undefined"`, and parsed records with missing fields. The `trim` whitespace set is a fixed predicate: the ECMAScript WhiteSpace and LineTerminator code points.
- `console.error` logging (services/geminiService.ts:111, components/ReportWidget.tsx:30) is left out. It has no effect on state.
- `async`/`await`, React hooks, `useCallback` and re-render timing are left out. The handler is a sequential fold of displayed states: the three setters at the start (components/ReportWidget.tsx:19-21) form one state, each `setReport` in the loop (line 27) forms one, and the `catch` and `finally` setters (lines 31 and 33) together form the final state.
- The report button being disabled while loading (components/ReportWidget.tsx:59) is left out. So are the spinner condition (components/ReportWidget.tsx:66) and React element keys. These are presentation only.
- `MentorTips.NextIndex`: requires at least one tip. With no tips the code computes `NaN`, but the button is not rendered then, so that case cannot be reached.
- `getMockStockData` is left out because it uses randomness, the clock and floating point. The static fixtures (`getMockTradeSignals`, `getMockRLPerformance`, `getMockRawNews`, `getMockMentorTips`, `getDateString`) are left out as constant or clock-dependent data.
- The purely presentational components are left out: the chart, news, dashboard, app and card components, and the `sentimentStyles` lookup.
