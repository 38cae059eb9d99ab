/**
 * The student's session page (src/pages/StudentInterface.tsx): it joins the
 * room named in the URL, asks for the active question, and shows whichever
 * question the server announces for that room.
 */
module StudentPage {
  import opened Wrappers
  import opened Types
  import opened Protocol

  /** The name shown for the student: the stored one, or "Anonymous" when none or "" is stored. */
  function StudentName(stored: Option<string>): (r: string)
    ensures r != ""
    ensures stored.Some? && stored.value != "" ==> r == stored.value
    ensures stored.None? || stored.value == "" ==> r == "Anonymous"
  {
    if stored.Some? && stored.value != "" then stored.value else "Anonymous"
  }

  /** The page's state. `roomId` is the route parameter, `subscribed` whether its handlers are installed. */
  class StudentSession {
    const roomId: Option<string>
    const studentName: string
    var activeQuestion: Option<Question>
    var waiting: bool
    var subscribed: bool

    /** Handlers are installed only for a non-empty room id. */
    ghost predicate Valid()
      reads this
    {
      subscribed ==> roomId.Some? && roomId.value != ""
    }

    /** The page as first rendered: no question yet, waiting. */
    constructor(roomId: Option<string>, storedName: Option<string>)
      ensures this.roomId == roomId && studentName == StudentName(storedName)
      ensures Valid() && activeQuestion == None && waiting && !subscribed
    {
      this.roomId := roomId;
      studentName := StudentName(storedName);
      activeQuestion := None;
      waiting := true;
      subscribed := false;
    }

    /**
     * The mount effect: with a socket and a (non-empty) room id, joins the
     * room, installs the `question-activated` handler and asks for the active
     * question; otherwise sends nothing and installs nothing.
     */
    method Mount(hasSocket: bool) returns (sent: seq<ClientRequest>)
      requires Valid()
      modifies this
      ensures Valid()
      ensures !hasSocket || roomId.None? || roomId.value == "" ==>
        sent == [] && subscribed == old(subscribed)
      ensures hasSocket && roomId.Some? && roomId.value != "" ==>
        sent == [JoinRoom(roomId.value, studentName), GetActiveQuestion(roomId.value)] && subscribed
      ensures activeQuestion == old(activeQuestion) && waiting == old(waiting)
    {
      sent := [];
      if hasSocket && roomId.Some? && roomId.value != "" {
        sent := [JoinRoom(roomId.value, studentName), GetActiveQuestion(roomId.value)];
        subscribed := true;
      }
    }

    /**
     * The `question-activated` handler: an announcement for this page's room
     * replaces the shown question (with whatever payload came) and ends the
     * wait; one for another room, or one arriving with no handler installed,
     * changes nothing.
     */
    method OnQuestionActivated(eventRoomId: string, question: Option<Question>)
      requires Valid()
      modifies this
      ensures Valid()
      ensures subscribed && roomId == Some(eventRoomId) ==> activeQuestion == question && !waiting
      ensures !(subscribed && roomId == Some(eventRoomId)) ==>
        activeQuestion == old(activeQuestion) && waiting == old(waiting)
      ensures old(!waiting) ==> !waiting
      ensures subscribed == old(subscribed)
    {
      if subscribed && roomId == Some(eventRoomId) {
        activeQuestion := question;
        waiting := false;
      }
    }

    /**
     * The `get-active-question` reply: a question replaces the shown one and
     * ends the wait; a reply without one changes nothing.
     */
    method OnActiveQuestionReply(question: Option<Question>)
      requires Valid()
      modifies this
      ensures Valid()
      ensures subscribed && question.Some? ==> activeQuestion == question && !waiting
      ensures !(subscribed && question.Some?) ==>
        activeQuestion == old(activeQuestion) && waiting == old(waiting)
      ensures old(!waiting) ==> !waiting
      ensures subscribed == old(subscribed)
    {
      if subscribed && question.Some? {
        activeQuestion := question;
        waiting := false;
      }
    }

    /** The effect's clean-up: removes the handler and leaves the room it joined. */
    method Unmount() returns (sent: seq<ClientRequest>)
      requires Valid()
      modifies this
      ensures Valid()
      ensures old(subscribed) ==> sent == [LeaveRoom(roomId.value)]
      ensures !old(subscribed) ==> sent == []
      ensures !subscribed && activeQuestion == old(activeQuestion) && waiting == old(waiting)
    {
      sent := [];
      if subscribed {
        sent := [LeaveRoom(roomId.value)];
        subscribed := false;
      }
    }
  }
}
