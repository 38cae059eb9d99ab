/**
 * The socket events exchanged between the clients and the server, and the
 * audience the server addresses each outbound event to.
 */
module Protocol {
  import opened Wrappers
  import opened Types

  /** What a client emits to the server. */
  datatype ClientRequest =
    | CreateRoom(roomId: string)
    | JoinRoom(roomId: string, studentName: string)
    | LeaveRoom(roomId: string)
    | ActivateQuestion(roomId: string, questionId: string, question: Option<Question>)
    | GetActiveQuestion(roomId: string)
    | SubmitAnswer(roomId: string, questionId: string, answer: string)

  /**
   * Who receives an outbound event: every member of a room but the sending
   * socket (`socket.to(room)`), every member including it (`io.to(room)`),
   * or only the requester through its acknowledgement callback.
   */
  datatype Audience = ExceptSender(room: string) | WholeRoom(room: string) | Reply

  /** The payload of `answer-received`; `questionType` is the wire string of the type. */
  datatype AnswerNotice = AnswerNotice(roomId: string, questionId: string,
                                       questionType: string, answer: string)

  /** The events the server sends, one constructor per event name. */
  datatype ServerEvent =
    | StudentJoined(studentId: string, studentName: string, count: nat)
    | StudentLeft(studentId: string, count: nat)
    | QuestionActivated(roomId: string, questionId: string, question: Option<Question>)
    | ActiveQuestionReply(question: Option<Question>)
    | AnswerReceived(notice: AnswerNotice)

  /** One outbound event together with its audience. */
  datatype Emit = Emit(audience: Audience, event: ServerEvent)
}
