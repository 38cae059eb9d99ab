/** The shared data model of client and server (src/types/index.ts). */
module Types {
  import opened Wrappers

  /** The three kinds of question. */
  datatype QuestionType = MultipleChoice | WordCloud | OpenText

  /** The string value of each enum member, as it travels on the wire. */
  function Tag(t: QuestionType): string {
    match t
    case MultipleChoice => "MULTIPLE_CHOICE"
    case WordCloud => "WORD_CLOUD"
    case OpenText => "OPEN_TEXT"
  }

  /** The enum member a wire string denotes, if any. */
  function ParseTag(s: string): (r: Option<QuestionType>)
    ensures r.Some? ==> Tag(r.value) == s
  {
    if s == "MULTIPLE_CHOICE" then Some(MultipleChoice)
    else if s == "WORD_CLOUD" then Some(WordCloud)
    else if s == "OPEN_TEXT" then Some(OpenText)
    else None
  }

  /** A wire string denotes member `t` exactly when it is `t`'s tag, so the tags are distinct. */
  lemma ParseTagIff(s: string, t: QuestionType)
    ensures ParseTag(s) == Some(t) <==> s == Tag(t)
  {
  }

  /** One answer choice of a multiple-choice question. */
  datatype OptionItem = OptionItem(id: string, text: string)

  /** A question; `options` is present for multiple-choice questions. */
  datatype Question = Question(id: string, qtype: QuestionType, text: string,
                               options: Option<seq<OptionItem>>)

  /** The teacher's room: its authored questions in order and the active one's id. */
  datatype Room = Room(id: string, questions: seq<Question>, activeQuestionId: Option<string>)

  /** One word-cloud term with its number of submissions. */
  datatype WordCloudItem = WordCloudItem(text: string, value: int)

  /** One open-text answer with its generated id. */
  datatype OpenTextResponse = OpenTextResponse(id: string, text: string)
}
