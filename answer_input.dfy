/**
 * The free-text answer box shared in behaviour by the word-cloud and the
 * open-text question components (src/components/questions/WordCloudQuestion.tsx
 * and OpenTextQuestion.tsx): the typed answer, the one-way `submitted` flag,
 * and the trim-then-emit submit handler.
 */
module AnswerInput {
  import opened Wrappers
  import opened Text
  import opened Protocol

  /**
   * The answer a submit sends: the trimmed text, and nothing when there is no
   * socket or the text is blank.
   */
  function TextAnswer(answer: string, hasSocket: bool): (r: Option<string>)
    ensures r.Some? <==> hasSocket && !IsBlank(answer)
    ensures r.Some? ==> r.value == Trim(answer)
    ensures r.Some? ==> r.value != "" && !IsWhitespace(r.value[0]) && !IsWhitespace(r.value[|r.value| - 1])
  {
    if Trim(answer) == "" || !hasSocket then None else Some(Trim(answer))
  }

  /** The submit button is disabled exactly when the typed answer is blank. */
  function SubmitDisabled(answer: string): (r: bool)
    ensures r <==> IsBlank(answer)
  {
    Trim(answer) == ""
  }

  /** The component state of a free-text question shown to a student. */
  class TextAnswerForm {
    var answer: string
    var submitted: bool

    /** A fresh component: nothing typed, nothing submitted. */
    constructor()
      ensures answer == "" && !submitted
    {
      answer := "";
      submitted := false;
    }

    /** Typing replaces the answer and leaves the flag alone. */
    method Edit(text: string)
      modifies this
      ensures answer == text && submitted == old(submitted)
    {
      answer := text;
    }

    /**
     * `handleSubmit`: sends the trimmed answer for the question when there is
     * a socket and the answer is not blank, and only then sets `submitted`,
     * which never goes back to false.
     */
    method Submit(hasSocket: bool, roomId: string, questionId: string) returns (sent: Option<ClientRequest>)
      modifies this
      ensures sent.Some? <==> hasSocket && !IsBlank(old(answer))
      ensures sent.Some? ==> sent.value == SubmitAnswer(roomId, questionId, Trim(old(answer)))
      ensures submitted == (old(submitted) || sent.Some?)
      ensures answer == old(answer)
    {
      sent := None;
      var text := TextAnswer(answer, hasSocket);
      if text.Some? {
        sent := Some(SubmitAnswer(roomId, questionId, text.value));
        submitted := true;
      }
    }
  }
}
