/** The news reconciler behind `analyzeNews`: it builds the headline block of
    the analysis prompt, and it turns the analysis call's answer into
    `NewsItem`s. Each analysed record gets its source back by exact
    headline lookup, with `'Unknown'` when nothing matches. When the call
    fails, every input gets a placeholder record instead.

    The external call (client, request, JSON parsing) is not modelled: its
    outcome is a parameter, either the parsed result records or a failure. */
module NewsAnalysis {
  import opened Optional
  import opened Text

  /** One raw headline as the news feed provides it. */
  datatype RawHeadline = RawHeadline(headline: string, source: string)

  /** One record of the analysis call's parsed JSON answer. The sentiment
      is passed through as the string the language model returned; nothing checks it
      against the three values the schema names. */
  datatype AnalysisResult = AnalysisResult(originalHeadline: string, summary: string, sentiment: string)

  /** What the news widget displays for one headline. */
  datatype NewsItem = NewsItem(headline: string, summary: string, sentiment: string, source: string)

  /** The outcome of the batched analysis call: the parsed records, or a
      thrown error (network failure, bad JSON, ...). */
  datatype AnalysisResponse = Success(results: seq<AnalysisResult>) | Failure

  const UNKNOWN_SOURCE: string := "Unknown"
  const FALLBACK_SUMMARY: string := "Could not analyze summary."
  const NEUTRAL: string := "Neutral"

  /** The prompt text before and after the headline block, whitespace
      included, as the template literal writes it. */
  const PROMPT_HEAD: string :=
    "\n    Analyze the following list of financial news headlines. For each headline, provide:\n"
    + "    1. A concise, one-sentence summary.\n"
    + "    2. A sentiment analysis: 'Positive', 'Negative', or 'Neutral'.\n"
    + "\n"
    + "    Headlines:\n"
    + "    "
  const PROMPT_TAIL: string := "\n  "

  /* ---------------------------------------------------------------------- */
  /* The prompt's headline block                                            */
  /* ---------------------------------------------------------------------- */

  function Headlines(hs: seq<RawHeadline>): (r: seq<string>)
    ensures |r| == |hs| && forall i :: 0 <= i < |hs| ==> r[i] == hs[i].headline
  {
    seq(|hs|, i requires 0 <= i < |hs| => hs[i].headline)
  }

  /** The bullet line the prompt carries for one headline. */
  function Bullet(h: RawHeadline): string
  {
    "- " + h.headline
  }

  /** The bullet lines of the inputs, in input order. */
  function Bullets(hs: seq<RawHeadline>): (r: seq<string>)
    ensures |r| == |hs| && forall i :: 0 <= i < |hs| ==> r[i] == Bullet(hs[i])
  {
    seq(|hs|, i requires 0 <= i < |hs| => Bullet(hs[i]))
  }

  /** The headline block: one bullet line per input, in input order, joined
      by line feeds. It is empty exactly when there are no inputs, and it
      opens with the first input's bullet. */
  function HeadlineBlock(hs: seq<RawHeadline>): (r: string)
    ensures r == "" <==> |hs| == 0
    ensures |hs| > 0 ==> StartsWith(r, Bullet(hs[0]))
  {
    Join(Bullets(hs), '\n')
  }

  /** The whole analysis prompt: the fixed head, then the headline block,
      then the fixed tail. */
  function Prompt(hs: seq<RawHeadline>): (p: string)
    ensures |p| == |PROMPT_HEAD| + |HeadlineBlock(hs)| + |PROMPT_TAIL|
    ensures p[..|PROMPT_HEAD|] == PROMPT_HEAD
    ensures p[|PROMPT_HEAD|..|PROMPT_HEAD| + |HeadlineBlock(hs)|] == HeadlineBlock(hs)
    ensures p[|PROMPT_HEAD| + |HeadlineBlock(hs)|..] == PROMPT_TAIL
  {
    PROMPT_HEAD + HeadlineBlock(hs) + PROMPT_TAIL
  }

  /** Reads a headline block back: split into lines and drop each line's
      `"- "` bullet. The empty block lists no headline. */
  function ParseHeadlineBlock(block: string): seq<string>
  {
    if block == "" then []
    else
      var lines := Split(block, '\n');
      seq(|lines|, i requires 0 <= i < |lines| =>
        if StartsWith(lines[i], "- ") then lines[i][2..] else lines[i])
  }

  /** The headline block lists exactly the input headlines, one per line,
      in input order, as long as no headline itself spans several lines. */
  lemma HeadlineBlockRoundTrip(hs: seq<RawHeadline>)
    requires forall i :: 0 <= i < |hs| ==> '\n' !in hs[i].headline
    ensures |hs| > 0 ==> Split(HeadlineBlock(hs), '\n') == Bullets(hs)
    ensures ParseHeadlineBlock(HeadlineBlock(hs)) == Headlines(hs)
  {
    var bullets := Bullets(hs);
    if |hs| > 0 {
      forall i | 0 <= i < |bullets|
        ensures '\n' !in bullets[i]
      {
        assert bullets[i] == "- " + hs[i].headline;
      }
      SplitJoin(bullets, '\n');
      assert |HeadlineBlock(hs)| >= 2;
      var parsed := ParseHeadlineBlock(HeadlineBlock(hs));
      forall i | 0 <= i < |hs|
        ensures parsed[i] == hs[i].headline
      {
        assert StartsWith(bullets[i], "- ");
        assert bullets[i][2..] == hs[i].headline;
      }
    }
  }

  /** Without that condition the block is ambiguous: one headline holding a
      line feed and a bullet reads like two headlines. */
  lemma HeadlineBlockAmbiguous()
    ensures HeadlineBlock([RawHeadline("a\n- b", "X")])
         == HeadlineBlock([RawHeadline("a", "X"), RawHeadline("b", "Y")])
  {
    var two := [RawHeadline("a", "X"), RawHeadline("b", "Y")];
    var twoBullets := Bullets(two);
    assert twoBullets[0] == "- a" && twoBullets[1] == "- b";
    assert twoBullets[1..] == ["- b"];
    assert Join(twoBullets, '\n') == "- a" + "\n" + "- b";
    var one := [RawHeadline("a\n- b", "X")];
    var oneBullets := Bullets(one);
    assert oneBullets[0] == "- a\n- b";
    assert Join(oneBullets, '\n') == "- a\n- b";
  }

  /* ---------------------------------------------------------------------- */
  /* Source lookup                                                          */
  /* ---------------------------------------------------------------------- */

  /** No input carries `key` as its headline. */
  predicate NoMatch(hs: seq<RawHeadline>, key: string)
  {
    forall j :: 0 <= j < |hs| ==> hs[j].headline != key
  }

  /** Input `j` is the first one whose headline equals `key`. */
  predicate IsFirstMatch(hs: seq<RawHeadline>, key: string, j: int)
  {
    && 0 <= j < |hs|
    && hs[j].headline == key
    && forall k :: 0 <= k < j ==> hs[k].headline != key
  }

  /** Scans the inputs from position `from` for the headline `key`. */
  function FindFrom(hs: seq<RawHeadline>, key: string, from: nat): (r: Option<nat>)
    requires from <= |hs|
    ensures r.Some? ==> from <= r.value < |hs| && hs[r.value].headline == key
    ensures r.Some? ==> forall k :: from <= k < r.value ==> hs[k].headline != key
    ensures r.None? ==> forall k :: from <= k < |hs| ==> hs[k].headline != key
    decreases |hs| - from
  {
    if from == |hs| then None
    else if hs[from].headline == key then Some(from)
    else FindFrom(hs, key, from + 1)
  }

  /** `headlines.find(h => h.headline === key)`: the first input with that
      exact headline, if any. */
  function Find(hs: seq<RawHeadline>, key: string): (r: Option<RawHeadline>)
    ensures r.None? <==> NoMatch(hs, key)
    ensures r.Some? ==> exists j :: IsFirstMatch(hs, key, j) && r.value == hs[j]
  {
    match FindFrom(hs, key, 0)
    case None => None
    case Some(j) =>
      assert IsFirstMatch(hs, key, j);
      Some(hs[j])
  }

  /** `original ? original.source : 'Unknown'`: the source of the first
      input with the headline, and `'Unknown'` when there is none. */
  function SourceFor(hs: seq<RawHeadline>, key: string): (r: string)
    ensures forall j :: IsFirstMatch(hs, key, j) ==> r == hs[j].source
    ensures NoMatch(hs, key) ==> r == UNKNOWN_SOURCE
  {
    match Find(hs, key)
    case Some(h) =>
      var j :| IsFirstMatch(hs, key, j) && h == hs[j];
      forall j' | IsFirstMatch(hs, key, j')
        ensures j' == j
      {
        FirstMatchUnique(hs, key, j, j');
      }
      h.source
    case None => UNKNOWN_SOURCE
  }

  /** There is at most one first match. */
  lemma FirstMatchUnique(hs: seq<RawHeadline>, key: string, j: int, j': int)
    requires IsFirstMatch(hs, key, j) && IsFirstMatch(hs, key, j')
    ensures j == j'
  {
  }

  /* ---------------------------------------------------------------------- */
  /* Reconciliation and fallback                                            */
  /* ---------------------------------------------------------------------- */

  /** One parsed record turned into a news item. */
  function ToNewsItem(hs: seq<RawHeadline>, a: AnalysisResult): NewsItem
  {
    NewsItem(a.originalHeadline, a.summary, a.sentiment, SourceFor(hs, a.originalHeadline))
  }

  /** The success path: one news item per parsed record, in the records'
      order, each with the record's own headline, summary and sentiment and
      the source of the first input with that headline. */
  function Reconcile(hs: seq<RawHeadline>, results: seq<AnalysisResult>): (r: seq<NewsItem>)
    ensures |r| == |results|
    ensures forall i :: 0 <= i < |r| ==>
              && r[i].headline == results[i].originalHeadline
              && r[i].summary == results[i].summary
              && r[i].sentiment == results[i].sentiment
    ensures forall i, j :: 0 <= i < |r| && IsFirstMatch(hs, results[i].originalHeadline, j) ==>
              r[i].source == hs[j].source
    ensures forall i :: 0 <= i < |r| && NoMatch(hs, results[i].originalHeadline) ==>
              r[i].source == UNKNOWN_SOURCE
  {
    seq(|results|, i requires 0 <= i < |results| => ToNewsItem(hs, results[i]))
  }

  /** The failure path: every input kept, in order, with the placeholder
      summary and a neutral sentiment. */
  function Fallback(hs: seq<RawHeadline>): (r: seq<NewsItem>)
    ensures |r| == |hs|
    ensures forall i :: 0 <= i < |r| ==>
              && r[i].headline == hs[i].headline
              && r[i].source == hs[i].source
              && r[i].summary == FALLBACK_SUMMARY
              && r[i].sentiment == NEUTRAL
  {
    seq(|hs|, i requires 0 <= i < |hs| =>
      NewsItem(hs[i].headline, FALLBACK_SUMMARY, NEUTRAL, hs[i].source))
  }

  /** `analyzeNews`: the success mapping when the call answered, the
      placeholder records when it threw. The number of items follows the
      parsed records on success and the inputs on failure. */
  function AnalyzeNews(hs: seq<RawHeadline>, response: AnalysisResponse): (r: seq<NewsItem>)
    ensures response.Success? ==> |r| == |response.results|
    ensures response.Failure? ==> |r| == |hs|
    ensures response.Failure? ==> forall i :: 0 <= i < |r| ==> r[i].summary == FALLBACK_SUMMARY
  {
    match response
    case Success(results) => Reconcile(hs, results)
    case Failure => Fallback(hs)
  }

  /** The headline and source of each news item. */
  function Provenance(items: seq<NewsItem>): (r: seq<RawHeadline>)
    ensures |r| == |items|
  {
    seq(|items|, i requires 0 <= i < |items| => RawHeadline(items[i].headline, items[i].source))
  }

  /** The failure path hands back exactly the inputs' headlines and sources. */
  lemma FallbackKeepsInputs(hs: seq<RawHeadline>)
    ensures Provenance(AnalyzeNews(hs, Failure)) == hs
    ensures forall i :: 0 <= i < |hs| ==> AnalyzeNews(hs, Failure)[i].sentiment == NEUTRAL
  {
  }

  /** On success, `'Unknown'` marks exactly the records that match no input,
      as long as no input's own source is the string `'Unknown'`. */
  lemma UnknownExactlyWithoutMatch(hs: seq<RawHeadline>, results: seq<AnalysisResult>, i: int)
    requires forall j :: 0 <= j < |hs| ==> hs[j].source != UNKNOWN_SOURCE
    requires 0 <= i < |results|
    ensures AnalyzeNews(hs, Success(results))[i].source == UNKNOWN_SOURCE
            <==> NoMatch(hs, results[i].originalHeadline)
  {
    var key := results[i].originalHeadline;
    if !NoMatch(hs, key) {
      var h := Find(hs, key).value;
      var j :| IsFirstMatch(hs, key, j) && h == hs[j];
    }
  }

  /* ---------------------------------------------------------------------- */
  /* Reconciling a permutation                                              */
  /* ---------------------------------------------------------------------- */

  function Keys(results: seq<AnalysisResult>): (r: seq<string>)
    ensures |r| == |results| && forall i :: 0 <= i < |results| ==> r[i] == results[i].originalHeadline
  {
    seq(|results|, i requires 0 <= i < |results| => results[i].originalHeadline)
  }

  predicate HeadlinesDistinct(hs: seq<RawHeadline>)
  {
    forall i, j :: 0 <= i < j < |hs| ==> hs[i].headline != hs[j].headline
  }

  /** Each key paired with the source the lookup gives it. */
  function Tag(hs: seq<RawHeadline>, keys: seq<string>): (r: seq<RawHeadline>)
    ensures |r| == |keys|
    ensures forall i :: 0 <= i < |keys| ==> r[i] == RawHeadline(keys[i], SourceFor(hs, keys[i]))
  {
    seq(|keys|, i requires 0 <= i < |keys| => RawHeadline(keys[i], SourceFor(hs, keys[i])))
  }

  lemma TagAppend(hs: seq<RawHeadline>, a: seq<string>, b: seq<string>)
    ensures Tag(hs, a + b) == Tag(hs, a) + Tag(hs, b)
  {
  }

  /** Tagging keys that are a permutation of each other gives records that
      are a permutation of each other. */
  lemma {:induction false} TagPermutation(hs: seq<RawHeadline>, a: seq<string>, b: seq<string>)
    requires multiset(a) == multiset(b)
    ensures multiset(Tag(hs, a)) == multiset(Tag(hs, b))
    decreases |a|
  {
    if |a| == 0 {
      assert |multiset(b)| == 0;
      assert b == [];
    } else {
      var x := a[0];
      assert x in multiset(b);
      var p :| 0 <= p < |b| && b[p] == x;
      var b' := b[..p] + b[p + 1..];
      assert b == b[..p] + [x] + b[p + 1..];
      assert a == [x] + a[1..];
      assert multiset(b) == multiset(b[..p]) + multiset([x]) + multiset(b[p + 1..]);
      assert multiset(a) == multiset([x]) + multiset(a[1..]);
      assert multiset(b') == multiset(b[..p]) + multiset(b[p + 1..]);
      assert multiset(a[1..]) == multiset(a) - multiset([x]);
      assert multiset(b') == multiset(b) - multiset([x]);
      TagPermutation(hs, a[1..], b');
      TagAppend(hs, [x], a[1..]);
      TagAppend(hs, b[..p], [x]);
      TagAppend(hs, b[..p] + [x], b[p + 1..]);
      TagAppend(hs, b[..p], b[p + 1..]);
    }
  }

  /** With distinct headlines, tagging the inputs' own headlines gives back
      the inputs. */
  lemma TagOwnHeadlines(hs: seq<RawHeadline>)
    requires HeadlinesDistinct(hs)
    ensures Tag(hs, Headlines(hs)) == hs
  {
    forall i | 0 <= i < |hs|
      ensures SourceFor(hs, hs[i].headline) == hs[i].source
    {
      assert IsFirstMatch(hs, hs[i].headline, i);
    }
  }

  /** When the call answers with one record per input headline, in any
      order, and the input headlines are distinct, every news item carries
      the source of its own input: the items' headlines and sources are a
      permutation of the inputs, and no `'Unknown'` appears that was not
      already an input's source. */
  lemma ReconcilePermutation(hs: seq<RawHeadline>, results: seq<AnalysisResult>)
    requires HeadlinesDistinct(hs)
    requires multiset(Keys(results)) == multiset(Headlines(hs))
    ensures multiset(Provenance(AnalyzeNews(hs, Success(results)))) == multiset(hs)
    ensures forall i :: 0 <= i < |results| ==> !NoMatch(hs, results[i].originalHeadline)
  {
    var items := AnalyzeNews(hs, Success(results));
    assert Provenance(items) == Tag(hs, Keys(results));
    TagPermutation(hs, Keys(results), Headlines(hs));
    TagOwnHeadlines(hs);
    forall i | 0 <= i < |results|
      ensures !NoMatch(hs, results[i].originalHeadline)
    {
      var k := Keys(results)[i];
      assert k in multiset(Headlines(hs));
      var j :| 0 <= j < |hs| && Headlines(hs)[j] == k;
    }
  }

  /* ---------------------------------------------------------------------- */
  /* Worked examples                                                        */
  /* ---------------------------------------------------------------------- */

  /** A matched record takes its input's source. */
  lemma SuccessExample()
    ensures AnalyzeNews([RawHeadline("Fed hints at pause", "Reuters")],
                        Success([AnalysisResult("Fed hints at pause", "Fed signals rate pause", "Positive")]))
         == [NewsItem("Fed hints at pause", "Fed signals rate pause", "Positive", "Reuters")]
  {
    var hs := [RawHeadline("Fed hints at pause", "Reuters")];
    assert IsFirstMatch(hs, "Fed hints at pause", 0);
  }

  /** A failed call keeps the input and adds the placeholder analysis. */
  lemma FailureExample()
    ensures AnalyzeNews([RawHeadline("Fed hints at pause", "Reuters")], Failure)
         == [NewsItem("Fed hints at pause", "Could not analyze summary.", "Neutral", "Reuters")]
  {
  }
}
