/**
 * The multiple-choice question component
 * (src/components/questions/MultipleChoiceQuestion.tsx): the teacher's
 * percentage bars and the student's select-then-submit state.
 */
module MultipleChoiceQuestion {
  import opened Wrappers
  import opened Protocol
  import Dashboard

  /**
   * `Math.round(100 * c / total)` on exact rationals: the integer r with
   * r <= 100c/total + 1/2 < r + 1 (JavaScript rounds halves upwards).
   */
  function RoundedPercent(c: int, total: int): (r: int)
    requires total != 0
    ensures total > 0 ==> 2 * total * r <= 200 * c + total < 2 * total * (r + 1)
    ensures total < 0 ==> 2 * total * r >= 200 * c + total > 2 * total * (r + 1)
  {
    var n, d := 200 * c + total, 2 * total;
    if d > 0 then
      var r := n / d;
      assert d * r + n % d == n;
      r
    else
      var r := (-n) / (-d);
      assert (-d) * r + (-n) % (-d) == -n;
      r
  }

  /**
   * `calculatePercentage`: 0 without results or when the counts sum to 0;
   * otherwise the rounded share of `optionId`'s count (0 when absent) in the
   * sum over every key of the results, option or not.
   */
  ghost function Percentage(results: Option<map<string, int>>, optionId: string): (r: int)
    ensures results.None? ==> r == 0
    ensures results.Some? && Dashboard.TallySum(results.value) == 0 ==> r == 0
    ensures results.Some? && Dashboard.TallySum(results.value) > 0 ==>
      var t, c := Dashboard.TallySum(results.value), Dashboard.Count(results.value, optionId);
      2 * t * r <= 200 * c + t < 2 * t * (r + 1)
    ensures results.Some? && Dashboard.TallySum(results.value) < 0 ==>
      var t, c := Dashboard.TallySum(results.value), Dashboard.Count(results.value, optionId);
      2 * t * r >= 200 * c + t > 2 * t * (r + 1)
  {
    match results
    case None => 0
    case Some(tally) =>
      var total := Dashboard.TallySum(tally);
      if total == 0 then 0 else RoundedPercent(Dashboard.Count(tally, optionId), total)
  }

  /** A share of at most the whole rounds to a percentage between 0 and 100. */
  lemma RoundedPercentBounds(c: int, total: int)
    requires 0 <= c <= total && total > 0
    ensures 0 <= RoundedPercent(c, total) <= 100
  {
    var r := RoundedPercent(c, total);
    var d := 2 * total;
    assert d * r <= 200 * c + total < d * (r + 1);
    if r < 0 {
      assert r + 1 <= 0;
      MulNonPositive(d, r + 1);
      assert false;
    }
    if r > 100 {
      assert d * 101 == 202 * total;
      MulMonotone(d, 101, r);
      assert false;
    }
  }

  lemma MulNonPositive(a: int, b: int)
    requires a > 0 && b <= 0
    ensures a * b <= 0
  {
  }

  lemma MulMonotone(a: int, b: int, c: int)
    requires a > 0 && b <= c
    ensures a * b <= a * c
  {
  }

  /** With no negative count, every percentage lies between 0 and 100. */
  lemma PercentageBounds(results: Option<map<string, int>>, optionId: string)
    requires results.Some? ==> forall k :: k in results.value ==> results.value[k] >= 0
    ensures 0 <= Percentage(results, optionId) <= 100
  {
    if results.Some? {
      var tally := results.value;
      Dashboard.TallySumBounds(tally, optionId);
      if Dashboard.TallySum(tally) != 0 {
        RoundedPercentBounds(Dashboard.Count(tally, optionId), Dashboard.TallySum(tally));
      }
    }
  }

  /** The component state of a multiple-choice question shown to a student. */
  class ChoiceForm {
    var selectedOption: Option<string>
    var submitted: bool

    /** A fresh component: nothing selected, nothing submitted. */
    constructor()
      ensures selectedOption == None && !submitted
    {
      selectedOption := None;
      submitted := false;
    }

    /** Picking a radio button selects its option id. */
    method Select(optionId: string)
      modifies this
      ensures selectedOption == Some(optionId) && submitted == old(submitted)
    {
      selectedOption := Some(optionId);
    }

    /**
     * `handleSubmit`: sends the selected option's id as the answer when an
     * option (with a non-empty id) is selected and there is a socket, and only
     * then sets `submitted`, which never goes back to false.
     */
    method Submit(hasSocket: bool, roomId: string, questionId: string) returns (sent: Option<ClientRequest>)
      modifies this
      ensures sent.Some? <==> hasSocket && old(selectedOption).Some? && old(selectedOption).value != ""
      ensures sent.Some? ==> sent.value == SubmitAnswer(roomId, questionId, old(selectedOption).value)
      ensures submitted == (old(submitted) || sent.Some?)
      ensures selectedOption == old(selectedOption)
    {
      sent := None;
      if selectedOption.Some? && selectedOption.value != "" && hasSocket {
        sent := Some(SubmitAnswer(roomId, questionId, selectedOption.value));
        submitted := true;
      }
    }
  }
}
