/**
 * The word-cloud question component (src/components/questions/WordCloudQuestion.tsx):
 * the teacher's term sizes and response count. The student's answer box is
 * `AnswerInput.TextAnswerForm`.
 */
module WordCloudQuestion {
  import opened Types
  import opened Protocol
  import Dashboard

  /** The font size, in pixels, of a term submitted `value` times: 5 px per submission, kept within 12..48. */
  function FontSize(value: int): (r: int)
    ensures 12 <= r <= 48
    ensures 12 <= 5 * value <= 48 ==> r == 5 * value
    ensures 5 * value < 12 ==> r == 12
    ensures 5 * value > 48 ==> r == 48
  {
    var scaled := value * 5;
    var capped := if scaled < 48 then scaled else 48;
    if capped > 12 then capped else 12
  }

  /** More submissions never give a smaller term. */
  lemma FontSizeMonotone(v: int, w: int)
    requires v <= w
    ensures FontSize(v) <= FontSize(w)
  {
  }

  /** The noun after the count: "response" for exactly one entry, "responses" otherwise. */
  function ResponseNoun(count: nat): (r: string)
    ensures r == "response" <==> count == 1
    ensures r == "response" || r == "responses"
  {
    if count == 1 then "response" else "responses"
  }

  /**
   * The count the teacher sees is that of distinct terms, not of submissions:
   * starting from no results, the cloud of `q` has one entry per distinct
   * case-folded answer, so never more entries than word-cloud events.
   */
  lemma DisplayedCountIsDistinctTerms(evs: seq<AnswerNotice>, lower: string -> string, ids: seq<string>, q: string)
    requires |ids| == |evs|
    ensures var cloud := Dashboard.CloudOf(Dashboard.ApplyAll(map[], evs, lower, ids), q);
      |cloud| == |Dashboard.Folded(Dashboard.AnswersOf(evs, q, WordCloud), lower)| &&
      |cloud| <= |Dashboard.AnswersOf(evs, q, WordCloud)|
  {
    var cloud := Dashboard.CloudOf(Dashboard.ApplyAll(map[], evs, lower, ids), q);
    var answers := Dashboard.AnswersOf(evs, q, WordCloud);
    Dashboard.CloudStaysValid(map[], evs, lower, ids, q);
    Dashboard.CloudTerms(map[], evs, lower, ids, q);
    Dashboard.CloudSizeIsTermCount(cloud, lower);
    assert Dashboard.Terms([], lower) == {};
    FoldedAtMost(answers, lower);
  }

  /** There are no more case-folded answers than answers. */
  lemma {:induction false} FoldedAtMost(answers: seq<string>, lower: string -> string)
    ensures |Dashboard.Folded(answers, lower)| <= |answers|
  {
    if answers != [] {
      FoldedAtMost(answers[..|answers| - 1], lower);
    }
  }
}
