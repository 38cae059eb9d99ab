/**
 * The open-text question component (src/components/questions/OpenTextQuestion.tsx):
 * the teacher's response counter. The student's answer box, with its
 * disabled-when-blank button, is `AnswerInput.TextAnswerForm`.
 */
module OpenTextQuestion {

  /** The translation key of the noun after the count: singular for exactly one response. */
  function ResponseLabelKey(count: nat): (r: string)
    ensures r == "openTextQuestion.response" <==> count == 1
    ensures r == "openTextQuestion.response" || r == "openTextQuestion.responses"
  {
    if count == 1 then "openTextQuestion.response" else "openTextQuestion.responses"
  }
}
