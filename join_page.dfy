/**
 * The join form (src/pages/StudentJoin.tsx): room id and optional name, a
 * room id taken from the `roomId` query parameter, and a submit that stores
 * the name and navigates to the student page.
 */
module JoinPage {
  import opened Wrappers
  import opened Text

  /** The message shown for a blank room id. */
  const MissingRoomError := "Please enter a room ID"

  /** What a submit does outside the form: the session-storage write and the navigation, when they happen. */
  datatype JoinEffects = JoinEffects(storedName: Option<string>, navigateTo: Option<string>)

  /** The route of the student page for a room id, exactly as typed. */
  function StudentRoute(roomId: string): (r: string)
    ensures |r| == |"/student/"| + |roomId| && r[|"/student/"|..] == roomId
    ensures r[..|"/student/"|] == "/student/"
  {
    "/student/" + roomId
  }

  /** The form's state. */
  class JoinForm {
    var roomId: string
    var name: string
    var error: string

    /** The empty form. */
    constructor()
      ensures roomId == "" && name == "" && error == ""
    {
      roomId, name, error := "", "", "";
    }

    /** The prefill effect: a present, non-empty `roomId` query parameter becomes the room id. */
    method Prefill(param: Option<string>)
      modifies this
      ensures roomId == if param.Some? && param.value != "" then param.value else old(roomId)
      ensures name == old(name) && error == old(error)
    {
      if param.Some? && param.value != "" {
        roomId := param.value;
      }
    }

    /** Typing a room id replaces it and clears any error. */
    method EditRoomId(text: string)
      modifies this
      ensures roomId == text && error == "" && name == old(name)
    {
      roomId := text;
      error := "";
    }

    /** Typing a name replaces it. */
    method EditName(text: string)
      modifies this
      ensures name == text && roomId == old(roomId) && error == old(error)
    {
      name := text;
    }

    /**
     * `handleSubmit`: a blank room id shows the error and does nothing else;
     * otherwise the name is stored as typed when it is not blank, and the
     * page navigates to the student route of the room id as typed (any
     * earlier error stays as it was).
     */
    method Submit() returns (effects: JoinEffects)
      modifies this
      ensures IsBlank(old(roomId)) ==> error == MissingRoomError && effects == JoinEffects(None, None)
      ensures !IsBlank(old(roomId)) ==>
        (error == old(error) && effects.navigateTo == Some(StudentRoute(roomId)) &&
         effects.storedName == (if IsBlank(name) then None else Some(name)))
      ensures roomId == old(roomId) && name == old(name)
    {
      if Trim(roomId) == "" {
        error := MissingRoomError;
        effects := JoinEffects(None, None);
        return;
      }
      var stored := if Trim(name) != "" then Some(name) else None;
      effects := JoinEffects(stored, Some(StudentRoute(roomId)));
    }
  }
}
