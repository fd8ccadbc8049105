/** The report widget's generation handler: a fold over the chunks of the
    streamed report. It keeps three pieces of view state: the report text
    shown so far, the loading flag and an optional error message.

    The stream itself is a parameter. It is the chunks the producer
    delivered before it stopped, and whether it then completed or threw. */
module ReportStream {
  import opened Optional

  /** The widget's state: `report`, `isLoading` and `error`. */
  datatype ReportView = ReportView(report: string, isLoading: bool, error: Option<string>)

  /** How the chunk producer stopped after its last delivered chunk. */
  datatype StreamEnd = Completes | Throws

  /** A finite chunk stream: what it delivered, then how it stopped. A
      failure before the first chunk is `ChunkStream([], Throws)`. */
  datatype ChunkStream = ChunkStream(chunks: seq<string>, end: StreamEnd)

  /** The state before any generation. */
  const INITIAL_VIEW: ReportView := ReportView("", false, None)

  const GENERATION_ERROR: string :=
    "Failed to generate the report. Please check the console for details."

  /** The concatenation of the chunks, accumulated left to right. */
  function Concat(cs: seq<string>): string
  {
    if |cs| == 0 then "" else Concat(cs[..|cs| - 1]) + cs[|cs| - 1]
  }

  predicate IsPrefix(a: string, b: string)
  {
    |a| <= |b| && b[..|a|] == a
  }

  /** Concatenating more chunks only extends the text. */
  lemma {:induction false} ConcatPrefix(cs: seq<string>, i: nat, j: nat)
    requires i <= j <= |cs|
    ensures IsPrefix(Concat(cs[..i]), Concat(cs[..j]))
    decreases j - i
  {
    if i < j {
      ConcatPrefix(cs, i, j - 1);
      assert cs[..j][..j - 1] == cs[..j - 1];
    }
  }

  /* ---------------------------------------------------------------------- */
  /* Transitions                                                            */
  /* ---------------------------------------------------------------------- */

  /** The handler's state between chunks: the view and the local
      `fullReport` accumulator. */
  datatype Session = Session(view: ReportView, fullReport: string)

  /** Starting a generation: loading on, report cleared, error cleared,
      and an empty accumulator. */
  function Begin(v: ReportView): (r: Session)
    ensures r.view == ReportView("", true, None) && r.fullReport == ""
  {
    Session(v.(isLoading := true, report := "", error := None), "")
  }

  /** One chunk: append it to the accumulator and show the accumulator.
      The accumulator only grows, by exactly the chunk; the loading flag and
      the error are left alone. */
  function Consume(s: Session, chunk: string): (r: Session)
    ensures IsPrefix(s.fullReport, r.fullReport) && r.fullReport[|s.fullReport|..] == chunk
    ensures r.view.report == r.fullReport
    ensures r.view.isLoading == s.view.isLoading && r.view.error == s.view.error
  {
    var full := s.fullReport + chunk;
    Session(s.view.(report := full), full)
  }

  /** The `catch` branch: report the fixed error message. The report text
      is not rolled back and the loading flag is left alone. */
  function Catch(v: ReportView): (r: ReportView)
    ensures r.error == Some(GENERATION_ERROR)
    ensures r.report == v.report && r.isLoading == v.isLoading
  {
    v.(error := Some(GENERATION_ERROR))
  }

  /** The `finally` branch: loading off, report and error kept. */
  function Finish(v: ReportView): (r: ReportView)
    ensures !r.isLoading
    ensures r.report == v.report && r.error == v.error
  {
    v.(isLoading := false)
  }

  /** The session after starting from `v` and consuming `cs`. */
  function ConsumeAll(v: ReportView, cs: seq<string>): Session
  {
    if |cs| == 0 then Begin(v)
    else Consume(ConsumeAll(v, cs[..|cs| - 1]), cs[|cs| - 1])
  }

  /** What the widget shows once the producer stopped. */
  function Outcome(v: ReportView, stream: ChunkStream): ReportView
  {
    var last := ConsumeAll(v, stream.chunks).view;
    Finish(if stream.end == Throws then Catch(last) else last)
  }

  /** Every state the widget passes through, in order: the started state,
      the state after each chunk, and the final state. */
  function Displayed(v: ReportView, stream: ChunkStream): (r: seq<ReportView>)
    ensures |r| == |stream.chunks| + 2
  {
    var cs := stream.chunks;
    seq(|cs| + 1, k requires 0 <= k <= |cs| => ConsumeAll(v, cs[..k]).view)
    + [Outcome(v, stream)]
  }

  /* ---------------------------------------------------------------------- */
  /* Properties of the fold                                                 */
  /* ---------------------------------------------------------------------- */

  /** After the first `|cs|` chunks the widget shows exactly their
      concatenation, is still loading and has no error, whatever it showed
      before the generation started. */
  lemma {:induction false} ConsumeAllShowsConcat(v: ReportView, cs: seq<string>)
    ensures ConsumeAll(v, cs).view == ReportView(Concat(cs), true, None)
    ensures ConsumeAll(v, cs).fullReport == Concat(cs)
    decreases |cs|
  {
    if |cs| > 0 {
      ConsumeAllShowsConcat(v, cs[..|cs| - 1]);
    }
  }

  /** The started state: loading, empty report, no error, before any chunk. */
  lemma StartedState(v: ReportView, stream: ChunkStream)
    ensures Displayed(v, stream)[0] == ReportView("", true, None)
  {
  }

  /** The state after chunk `k` shows chunks `1..k` concatenated. */
  lemma DisplayedAfterChunk(v: ReportView, stream: ChunkStream, k: nat)
    requires k <= |stream.chunks|
    ensures Displayed(v, stream)[k] == ReportView(Concat(stream.chunks[..k]), true, None)
  {
    ConsumeAllShowsConcat(v, stream.chunks[..k]);
  }

  /** The final state: loading is off, the report keeps every delivered
      chunk (nothing is rolled back on failure), and the error is the fixed
      message exactly when the producer threw. */
  lemma OutcomeSpec(v: ReportView, stream: ChunkStream)
    ensures Outcome(v, stream).isLoading == false
    ensures Outcome(v, stream).report == Concat(stream.chunks)
    ensures stream.end == Completes ==> Outcome(v, stream).error == None
    ensures stream.end == Throws ==> Outcome(v, stream).error == Some(GENERATION_ERROR)
  {
    ConsumeAllShowsConcat(v, stream.chunks);
  }

  /** Each displayed report is a prefix of every later one. */
  lemma DisplayedReportsGrow(v: ReportView, stream: ChunkStream, i: nat, j: nat)
    requires i <= j < |stream.chunks| + 2
    ensures IsPrefix(Displayed(v, stream)[i].report, Displayed(v, stream)[j].report)
  {
    var cs := stream.chunks;
    var n := |cs|;
    var shown := Displayed(v, stream);
    var i' := if i == n + 1 then n else i;
    var j' := if j == n + 1 then n else j;
    assert cs[..n] == cs;
    DisplayedAfterChunk(v, stream, i');
    DisplayedAfterChunk(v, stream, j');
    OutcomeSpec(v, stream);
    ConcatPrefix(cs, i', j');
  }

  /* ---------------------------------------------------------------------- */
  /* The handler                                                            */
  /* ---------------------------------------------------------------------- */

  /** `handleGenerateReport`, written as the loop the source runs. It
      returns the final view and every view it displayed along the way. */
  method GenerateReport(previous: ReportView, stream: ChunkStream)
    returns (final: ReportView, shown: seq<ReportView>)
    ensures |shown| == |stream.chunks| + 2 && final == shown[|shown| - 1]
    ensures forall k :: 0 <= k <= |stream.chunks| ==>
              shown[k] == ReportView(Concat(stream.chunks[..k]), true, None)
    ensures final.report == Concat(stream.chunks) && !final.isLoading
    ensures final.error == (if stream.end == Throws then Some(GENERATION_ERROR) else None)
  {
    var cs := stream.chunks;
    var view := previous.(isLoading := true, report := "", error := None);
    shown := [view];
    var fullReport := "";
    var i := 0;
    while i < |cs|
      invariant 0 <= i <= |cs|
      invariant fullReport == Concat(cs[..i])
      invariant view == ReportView(fullReport, true, None)
      invariant |shown| == i + 1
      invariant forall k :: 0 <= k <= i ==> shown[k] == ReportView(Concat(cs[..k]), true, None)
    {
      assert cs[..i + 1][..i] == cs[..i];
      fullReport := fullReport + cs[i];
      view := view.(report := fullReport);
      shown := shown + [view];
      i := i + 1;
    }
    assert cs[..|cs|] == cs;
    if stream.end == Throws {
      view := view.(error := Some(GENERATION_ERROR));
    }
    view := view.(isLoading := false);
    shown := shown + [view];
    final := view;
  }

  /** The handler displays exactly the states of the fold. */
  lemma GenerateReportMatchesFold(previous: ReportView, stream: ChunkStream,
                                  final: ReportView, shown: seq<ReportView>)
    requires |shown| == |stream.chunks| + 2 && final == shown[|shown| - 1]
    requires forall k :: 0 <= k <= |stream.chunks| ==>
               shown[k] == ReportView(Concat(stream.chunks[..k]), true, None)
    requires final.report == Concat(stream.chunks) && !final.isLoading
    requires final.error == (if stream.end == Throws then Some(GENERATION_ERROR) else None)
    ensures shown == Displayed(previous, stream)
  {
    var d := Displayed(previous, stream);
    forall k | 0 <= k <= |stream.chunks|
      ensures shown[k] == d[k]
    {
      DisplayedAfterChunk(previous, stream, k);
    }
    OutcomeSpec(previous, stream);
  }
}
