/**
 * Whole polling rounds, driving the server's handlers and folding what it
 * relays into the teacher's results, as a client of the specifications only.
 */
module Scenarios {
  import opened Wrappers
  import opened Types
  import opened Protocol
  import RoomServer
  import Dashboard

  /** Case folding that leaves text alone, enough for answers that are option ids. */
  function Identity(s: string): string { s }

  /**
   * A yes/no question is activated and "yes" is submitted twice (the server
   * does not de-duplicate): the teacher's tally is two for "yes" and none
   * for "no".
   */
  method TwoVotesTallied() {
    var server := new RoomServer.Server();
    var out := server.CreateRoom("S1");
    var q := Question("Q1", MultipleChoice, "Ready?", Some([OptionItem("yes", "Yes"), OptionItem("no", "No")]));
    out := server.ActivateQuestion("S1", "Q1", Some(q));
    assert out == [Emit(WholeRoom("S1"), QuestionActivated("S1", "Q1", Some(q)))];
    var first := server.SubmitAnswer("S1", "Q1", "yes");
    var second := server.SubmitAnswer("S1", "Q1", "yes");
    var notice := AnswerNotice("S1", "Q1", Tag(MultipleChoice), "yes");
    assert first == second == [Emit(ExceptSender("S1"), AnswerReceived(notice))];
    var results := Dashboard.ApplyAnswer(map[], notice, Identity, "r1");
    results := Dashboard.ApplyAnswer(results, notice, Identity, "r2");
    assert Dashboard.Count(results["Q1"].tally, "yes") == 2;
    assert Dashboard.Count(results["Q1"].tally, "no") == 0;
  }

  /**
   * Two students join; the second one's connection drops without a leave,
   * so the room loses that socket and is told its new size.
   */
  method DisconnectNotifiesRoom() {
    var server := new RoomServer.Server();
    var out := server.CreateRoom("S1");
    out := server.JoinRoom("p1", "S1", "Ann");
    out := server.JoinRoom("p2", "S1", "Bo");
    assert out == [Emit(ExceptSender("S1"), StudentJoined("p2", "Bo", 2))];
    assert server.order == ["S1"];
    assert server.rooms["S1"].students == {"p1", "p2"};
    var left := server.Disconnect("p2");
    assert {"p1", "p2"} - {"p2"} == {"p1"};
    assert server.rooms["S1"].students == {"p1"};
    assert left == [Emit(ExceptSender("S1"), StudentLeft("p2", 1))];
  }

  /** An answer sent before its question is active is dropped, so nothing reaches the results. */
  method EarlyAnswerDropped() {
    var server := new RoomServer.Server();
    var out := server.CreateRoom("S1");
    out := server.JoinRoom("p1", "S1", "Ann");
    var early := server.SubmitAnswer("S1", "Q1", "yes");
    assert early == [];
    var q := Question("Q1", MultipleChoice, "Ready?", Some([OptionItem("yes", "Yes"), OptionItem("no", "No")]));
    out := server.ActivateQuestion("S1", "Q1", Some(q));
    var stale := server.SubmitAnswer("S1", "Q0", "yes");
    assert stale == [];
  }
}
