/** The mentor widget's tip cycler: an index into the loaded tips that the
    "Next Tip" button advances, wrapping from the last tip back to the
    first. */
module MentorTips {
  import opened Optional

  datatype MentorTip = MentorTip(id: int, title: string, content: string, relatedAgent: string)

  /** The widget's state: the loaded tips and the current index. */
  datatype MentorView = MentorView(tips: seq<MentorTip>, index: nat)

  /** Before the tips are loaded: no tips, index 0. */
  const INITIAL_VIEW: MentorView := MentorView([], 0)

  /** The mount effect: the tips arrive, the index is left as it is. */
  function LoadTips(v: MentorView, tips: seq<MentorTip>): (r: MentorView)
    ensures r.tips == tips && r.index == v.index
  {
    v.(tips := tips)
  }

  /** `tips[currentTipIndex]`, with `None` for JavaScript's `undefined`
      past the end of the array. */
  function CurrentTip(v: MentorView): (r: Option<MentorTip>)
    ensures r.Some? <==> v.index < |v.tips|
    ensures r.Some? ==> r.value == v.tips[v.index]
  {
    if v.index < |v.tips| then Some(v.tips[v.index]) else None
  }

  /** The widget shows a tip (and its button); otherwise it shows the
      loading text. */
  predicate ShowsTip(v: MentorView)
  {
    CurrentTip(v).Some?
  }

  /** `(prevIndex + 1) % tips.length` for a non-empty tip list: the next
      position, wrapping after the last one. */
  function NextIndex(i: nat, n: nat): (r: nat)
    requires n > 0
    ensures r < n
    ensures i + 1 < n ==> r == i + 1
    ensures i + 1 == n ==> r == 0
  {
    (i + 1) % n
  }

  /** Pressing "Next Tip". The button exists only while a tip is shown, so
      the tip list is non-empty here; the tips stay the same and a tip is
      still shown afterwards. */
  function PressNext(v: MentorView): (r: MentorView)
    requires ShowsTip(v)
    ensures |v.tips| > 0
    ensures r.tips == v.tips && ShowsTip(r)
  {
    v.(index := NextIndex(v.index, |v.tips|))
  }

  /** Pressing "Next Tip" `k` times in a row. */
  function PressTimes(v: MentorView, k: nat): (r: MentorView)
    requires ShowsTip(v)
    ensures r.tips == v.tips && ShowsTip(r)
    decreases k
  {
    if k == 0 then v else PressNext(PressTimes(v, k - 1))
  }

  /** Within one round of presses the index moves `k` places forward,
      wrapping once past the last tip. */
  lemma {:induction false} PressTimesIndex(v: MentorView, k: nat)
    requires ShowsTip(v)
    requires k <= |v.tips|
    ensures PressTimes(v, k).index ==
              if v.index + k < |v.tips| then v.index + k else v.index + k - |v.tips|
    decreases k
  {
    if k > 0 {
      PressTimesIndex(v, k - 1);
    }
  }

  /** Pressing "Next Tip" once per tip comes back to the starting tip. */
  lemma PressCycle(v: MentorView)
    requires ShowsTip(v)
    ensures PressTimes(v, |v.tips|) == v
  {
    PressTimesIndex(v, |v.tips|);
  }

  /** Until the tips are loaded the loading text is shown; once they are,
      the first tip is shown exactly when there is one. */
  lemma LoadedStartsAtFirstTip(tips: seq<MentorTip>)
    ensures !ShowsTip(INITIAL_VIEW)
    ensures ShowsTip(LoadTips(INITIAL_VIEW, tips)) <==> |tips| > 0
    ensures |tips| > 0 ==> CurrentTip(LoadTips(INITIAL_VIEW, tips)) == Some(tips[0])
  {
  }
}
