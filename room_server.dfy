/**
 * The socket server (server.js): a process-wide registry of rooms, each with
 * its stored active question and the set of student sockets, and the handlers
 * that update it. Each handler returns the events it emits, with their audience.
 */
module RoomServer {
  import opened Wrappers
  import opened Types
  import opened Protocol

  /** The server's record of one room. */
  datatype RoomState = RoomState(id: string, activeQuestion: Option<Question>, students: set<string>)

  /** No element occurs twice. */
  predicate Distinct(s: seq<string>) {
    forall i, j :: 0 <= i < j < |s| ==> s[i] != s[j]
  }

  /** One room after socket `sid` leaves it. */
  function EvictRoom(room: RoomState, sid: string): RoomState {
    if sid in room.students then room.(students := room.students - {sid}) else room
  }

  /** The registry after socket `sid` is removed from every room; no room is dropped. */
  function Evict(rooms: map<string, RoomState>, sid: string): (r: map<string, RoomState>)
    ensures r.Keys == rooms.Keys
    ensures forall k :: k in r ==> sid !in r[k].students
    ensures forall k :: k in r ==> r[k].students == rooms[k].students - {sid}
    ensures forall k :: k in r && sid !in rooms[k].students ==> r[k] == rooms[k]
    ensures forall k :: k in r ==>
      (r[k].id == rooms[k].id && r[k].activeQuestion == rooms[k].activeQuestion &&
       |r[k].students| == |rooms[k].students| - (if sid in rooms[k].students then 1 else 0))
  {
    map k | k in rooms :: EvictRoom(rooms[k], sid)
  }

  /** The room an `ExceptSender` or `WholeRoom` event is addressed to ("" for a reply). */
  function Addressee(e: Emit): string {
    match e.audience
    case ExceptSender(room) => room
    case WholeRoom(room) => room
    case Reply => ""
  }

  /**
   * The `student-left` notices a disconnect of `sid` sends, visiting the rooms
   * in the order `keys` (the registry's iteration order).
   */
  function DepartureNotices(rooms: map<string, RoomState>, keys: seq<string>, sid: string): seq<Emit>
  {
    if keys == [] then []
    else
      var k := keys[|keys| - 1];
      DepartureNotices(rooms, keys[..|keys| - 1], sid) +
      (if k in rooms && sid in rooms[k].students
       then [Emit(ExceptSender(k), StudentLeft(sid, |rooms[k].students - {sid}|))]
       else [])
  }

  /** Visiting one more room appends that room's notice, if it held `sid`. */
  lemma DepartureNoticesNext(rooms: map<string, RoomState>, keys: seq<string>, i: int, sid: string)
    requires 0 <= i < |keys|
    ensures DepartureNotices(rooms, keys[..i + 1], sid) ==
      DepartureNotices(rooms, keys[..i], sid) +
      (if keys[i] in rooms && sid in rooms[keys[i]].students
       then [Emit(ExceptSender(keys[i]), StudentLeft(sid, |rooms[keys[i]].students - {sid}|))]
       else [])
  {
    assert keys[..i + 1][..i] == keys[..i];
  }

  /** The rooms a sequence of events is addressed to, in order. */
  function Addressees(n: seq<Emit>): (r: seq<string>)
    ensures |r| == |n| && forall i :: 0 <= i < |n| ==> r[i] == Addressee(n[i])
  {
    seq(|n|, i requires 0 <= i < |n| => Addressee(n[i]))
  }

  /** `e` is the `student-left` notice for a room among `keys` that holds `sid`. */
  predicate DepartureNotice(rooms: map<string, RoomState>, keys: seq<string>, sid: string, e: Emit) {
    var k := Addressee(e);
    k in keys && k in rooms && sid in rooms[k].students &&
    e == Emit(ExceptSender(k), StudentLeft(sid, |rooms[k].students| - 1))
  }

  /** Every notice a disconnect sends is a `student-left` for a visited room that held `sid`. */
  lemma {:induction false} NoticesAreDepartures(rooms: map<string, RoomState>, keys: seq<string>, sid: string)
    ensures forall e :: e in DepartureNotices(rooms, keys, sid) ==> DepartureNotice(rooms, keys, sid, e)
  {
    if keys != [] {
      var init := keys[..|keys| - 1];
      NoticesAreDepartures(rooms, init, sid);
      var m := DepartureNotices(rooms, init, sid);
      forall e | e in DepartureNotices(rooms, keys, sid) ensures DepartureNotice(rooms, keys, sid, e) {
        if e in m {
          assert DepartureNotice(rooms, init, sid, e);
        }
      }
    }
  }

  /** Every visited room that held `sid` is sent a notice. */
  lemma {:induction false} NoticesReachHolders(rooms: map<string, RoomState>, keys: seq<string>, sid: string)
    ensures forall k :: k in keys && k in rooms && sid in rooms[k].students ==>
      k in Addressees(DepartureNotices(rooms, keys, sid))
  {
    if keys != [] {
      var init := keys[..|keys| - 1];
      var k := keys[|keys| - 1];
      NoticesReachHolders(rooms, init, sid);
      var m := DepartureNotices(rooms, init, sid);
      var n := DepartureNotices(rooms, keys, sid);
      assert n[..|m|] == m;
      assert Addressees(n)[..|m|] == Addressees(m);
      forall k' | k' in keys && k' in rooms && sid in rooms[k'].students
        ensures k' in Addressees(n)
      {
        if k' == k {
          assert Addressees(n)[|m|] == k;
        } else {
          assert k' in init;
          assert k' in Addressees(m);
        }
      }
    }
  }

  /** When every room is visited once, no room is sent two notices. */
  lemma {:induction false} NoticesOncePerRoom(rooms: map<string, RoomState>, keys: seq<string>, sid: string)
    requires Distinct(keys)
    ensures Distinct(Addressees(DepartureNotices(rooms, keys, sid)))
  {
    if keys != [] {
      var init := keys[..|keys| - 1];
      var k := keys[|keys| - 1];
      assert Distinct(init);
      NoticesOncePerRoom(rooms, init, sid);
      NoticesAreDepartures(rooms, init, sid);
      var m := DepartureNotices(rooms, init, sid);
      var n := DepartureNotices(rooms, keys, sid);
      assert n[..|m|] == m;
      assert Addressees(n)[..|m|] == Addressees(m);
      forall i | 0 <= i < |m| ensures Addressees(n)[i] != k {
        assert n[i] == m[i] && m[i] in m;
        assert DepartureNotice(rooms, init, sid, m[i]);
      }
    }
  }

  /**
   * A disconnect sends exactly one `student-left` to each visited room that
   * held `sid`, to the rest of that room, carrying the post-removal size, and
   * nothing to any other room.
   */
  lemma DepartureNoticesExact(rooms: map<string, RoomState>, keys: seq<string>, sid: string)
    requires Distinct(keys)
    ensures forall e :: e in DepartureNotices(rooms, keys, sid) ==> DepartureNotice(rooms, keys, sid, e)
    ensures forall k :: k in keys && k in rooms && sid in rooms[k].students ==>
      k in Addressees(DepartureNotices(rooms, keys, sid))
    ensures Distinct(Addressees(DepartureNotices(rooms, keys, sid)))
  {
    NoticesAreDepartures(rooms, keys, sid);
    NoticesReachHolders(rooms, keys, sid);
    NoticesOncePerRoom(rooms, keys, sid);
  }

  /**
   * After visiting the first `i` rooms of `keys`, those rooms have lost `sid`
   * and the rest are as they were.
   */
  ghost predicate EvictedUpTo(before: map<string, RoomState>, after: map<string, RoomState>,
                              keys: seq<string>, i: int, sid: string)
  {
    0 <= i <= |keys| && after.Keys == before.Keys &&
    (forall j :: 0 <= j < |keys| ==> keys[j] in before) &&
    (forall j :: 0 <= j < i ==> after[keys[j]] == EvictRoom(before[keys[j]], sid)) &&
    (forall j :: i <= j < |keys| ==> after[keys[j]] == before[keys[j]])
  }

  /** Visiting the next room, which is still untouched, extends the evicted prefix by one. */
  lemma EvictNext(before: map<string, RoomState>, after: map<string, RoomState>,
                  keys: seq<string>, i: int, sid: string)
    requires Distinct(keys) && i < |keys| && EvictedUpTo(before, after, keys, i, sid)
    ensures after[keys[i]] == before[keys[i]]
    ensures sid in after[keys[i]].students ==>
      EvictedUpTo(before, after[keys[i] := EvictRoom(after[keys[i]], sid)], keys, i + 1, sid)
    ensures sid !in after[keys[i]].students ==> EvictedUpTo(before, after, keys, i + 1, sid)
  {
  }

  /** A registry whose every key was visited is the evicted registry. */
  lemma EvictedEverywhere(before: map<string, RoomState>, after: map<string, RoomState>,
                          keys: seq<string>, sid: string)
    requires forall k :: k in before <==> k in keys
    requires EvictedUpTo(before, after, keys, |keys|, sid)
    ensures after == Evict(before, sid)
  {
    forall k | k in after ensures after[k] == Evict(before, sid)[k] {
      var j :| 0 <= j < |keys| && keys[j] == k;
    }
  }

  /** The registry. `order` lists its keys in insertion order, as a JavaScript `Map` iterates. */
  class Server {
    var rooms: map<string, RoomState>
    var order: seq<string>

    /** `order` lists each key once, and each room records its own key as its id. */
    ghost predicate Valid()
      reads this
    {
      (forall k :: k in rooms <==> k in order) && Distinct(order) &&
      (forall k :: k in rooms ==> rooms[k].id == k)
    }

    /** The empty registry at process start. */
    constructor()
      ensures Valid() && rooms == map[] && order == []
    {
      rooms := map[];
      order := [];
    }

    /**
     * `create-room`: installs a fresh room (no active question, no students),
     * replacing any room stored under that id; emits nothing.
     */
    method CreateRoom(roomId: string) returns (out: seq<Emit>)
      requires Valid()
      modifies this
      ensures Valid()
      ensures rooms == old(rooms)[roomId := RoomState(roomId, None, {})]
      ensures order == if roomId in old(rooms) then old(order) else old(order) + [roomId]
      ensures out == []
    {
      if roomId !in rooms {
        order := order + [roomId];
      }
      rooms := rooms[roomId := RoomState(roomId, None, {})];
      out := [];
    }

    /**
     * `join-room`: on a known room adds socket `sid` to its students (at most
     * once) and tells the rest of the room, with the new size; on an unknown
     * room does nothing.
     */
    method JoinRoom(sid: string, roomId: string, studentName: string) returns (out: seq<Emit>)
      requires Valid()
      modifies this
      ensures Valid() && order == old(order)
      ensures roomId !in old(rooms) ==> rooms == old(rooms) && out == []
      ensures roomId in old(rooms) ==>
        rooms == old(rooms)[roomId := old(rooms)[roomId].(students := old(rooms)[roomId].students + {sid})] &&
        |rooms[roomId].students| == |old(rooms)[roomId].students| + (if sid in old(rooms)[roomId].students then 0 else 1) &&
        out == [Emit(ExceptSender(roomId), StudentJoined(sid, studentName, |rooms[roomId].students|))]
    {
      out := [];
      if roomId in rooms {
        var room := rooms[roomId];
        if sid in room.students {
          assert room.students + {sid} == room.students;
        } else {
          assert |room.students + {sid}| == |room.students| + 1;
        }
        room := room.(students := room.students + {sid});
        rooms := rooms[roomId := room];
        out := [Emit(ExceptSender(roomId), StudentJoined(sid, studentName, |room.students|))];
      }
    }

    /**
     * `leave-room`: on a known room removes only socket `sid` from its students
     * and tells the rest of the room, with the new size (also when `sid` was
     * absent); on an unknown room does nothing.
     */
    method LeaveRoom(sid: string, roomId: string) returns (out: seq<Emit>)
      requires Valid()
      modifies this
      ensures Valid() && order == old(order)
      ensures roomId !in old(rooms) ==> rooms == old(rooms) && out == []
      ensures roomId in old(rooms) ==>
        rooms == old(rooms)[roomId := old(rooms)[roomId].(students := old(rooms)[roomId].students - {sid})] &&
        |rooms[roomId].students| == |old(rooms)[roomId].students| - (if sid in old(rooms)[roomId].students then 1 else 0) &&
        out == [Emit(ExceptSender(roomId), StudentLeft(sid, |rooms[roomId].students|))]
    {
      out := [];
      if roomId in rooms {
        var room := rooms[roomId];
        if sid in room.students {
          assert |room.students - {sid}| == |room.students| - 1;
        } else {
          assert room.students - {sid} == room.students;
        }
        room := room.(students := room.students - {sid});
        rooms := rooms[roomId := room];
        out := [Emit(ExceptSender(roomId), StudentLeft(sid, |room.students|))];
      }
    }

    /**
     * `activate-question`: on a known room stores the payload as the active
     * question, whatever it is and whether or not it matches `questionId`, and
     * broadcasts it to the whole room; other rooms are untouched.
     */
    method ActivateQuestion(roomId: string, questionId: string, question: Option<Question>)
      returns (out: seq<Emit>)
      requires Valid()
      modifies this
      ensures Valid() && order == old(order)
      ensures roomId !in old(rooms) ==> rooms == old(rooms) && out == []
      ensures roomId in old(rooms) ==>
        rooms == old(rooms)[roomId := old(rooms)[roomId].(activeQuestion := question)] &&
        out == [Emit(WholeRoom(roomId), QuestionActivated(roomId, questionId, question))]
    {
      out := [];
      if roomId in rooms {
        rooms := rooms[roomId := rooms[roomId].(activeQuestion := question)];
        out := [Emit(WholeRoom(roomId), QuestionActivated(roomId, questionId, question))];
      }
    }

    /**
     * `get-active-question`: replies (when the request carries a callback)
     * with the stored active question, or with none for an unknown room.
     */
    method GetActiveQuestion(roomId: string, hasCallback: bool) returns (out: seq<Emit>)
      ensures !hasCallback ==> out == []
      ensures hasCallback ==>
        |out| == 1 && out[0].audience == Reply && out[0].event.ActiveQuestionReply? &&
        (out[0].event.question.Some? <==> roomId in rooms && rooms[roomId].activeQuestion.Some?) &&
        (roomId in rooms ==> out[0].event.question == rooms[roomId].activeQuestion)
    {
      out := [];
      if roomId in rooms && hasCallback {
        out := [Emit(Reply, ActiveQuestionReply(rooms[roomId].activeQuestion))];
      } else if hasCallback {
        out := [Emit(Reply, ActiveQuestionReply(None))];
      }
    }

    /**
     * `submit-answer`: relays the answer, tagged with the stored question's
     * type, to the rest of the room exactly when the room exists, has an
     * active question, and that question's id is `questionId`. The answer is
     * relayed as given: it is neither trimmed nor checked against the options.
     */
    method SubmitAnswer(roomId: string, questionId: string, answer: string) returns (out: seq<Emit>)
      ensures out != [] <==>
        roomId in rooms && rooms[roomId].activeQuestion.Some? &&
        rooms[roomId].activeQuestion.value.id == questionId
      ensures out != [] ==>
        out == [Emit(ExceptSender(roomId), AnswerReceived(AnswerNotice(
          roomId, questionId, Tag(rooms[roomId].activeQuestion.value.qtype), answer)))]
    {
      out := [];
      if roomId in rooms && rooms[roomId].activeQuestion.Some? &&
         rooms[roomId].activeQuestion.value.id == questionId
      {
        var q := rooms[roomId].activeQuestion.value;
        out := [Emit(ExceptSender(roomId), AnswerReceived(AnswerNotice(roomId, questionId, Tag(q.qtype), answer)))];
      }
    }

    /**
     * `disconnect`: visits every room in insertion order and removes socket
     * `sid` from each one holding it, telling the rest of that room; no room
     * is removed from the registry.
     */
    method Disconnect(sid: string) returns (out: seq<Emit>)
      requires Valid()
      modifies this
      ensures Valid() && order == old(order)
      ensures rooms == Evict(old(rooms), sid)
      ensures out == DepartureNotices(old(rooms), order, sid)
    {
      out := [];
      var i := 0;
      while i < |order|
        invariant order == old(order)
        invariant EvictedUpTo(old(rooms), rooms, order, i, sid)
        invariant out == DepartureNotices(old(rooms), order[..i], sid)
      {
        var k := order[i];
        var room := rooms[k];
        EvictNext(old(rooms), rooms, order, i, sid);
        DepartureNoticesNext(old(rooms), order, i, sid);
        if sid in room.students {
          room := room.(students := room.students - {sid});
          rooms := rooms[k := room];
          out := out + [Emit(ExceptSender(k), StudentLeft(sid, |room.students|))];
        }
        i := i + 1;
      }
      assert order[..i] == order;
      EvictedEverywhere(old(rooms), rooms, order, sid);
    }
  }
}
