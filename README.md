# Live polling session: a Dafny model

This project models the core of a classroom polling application. A teacher's
dashboard opens a room, authors questions and activates one at a time.
Students join the room from a link, see the active question and answer it.
A socket server keeps the registry of rooms and their connected students, and
relays each answer to the teacher only when it is for the room's active
question. The dashboard then folds the relayed answers into per-question
results:

- a tally for multiple-choice questions;
- a case-insensitive term list for word clouds;
- an append-only list of responses for open-text questions.

Module by module:

- `RoomServer` (server.js) is a `Server` class. It holds the rooms map and the
  map's insertion order, and has one method per socket handler. Each method
  returns the events it emits. Every event carries an audience:
  `ExceptSender(room)` for `socket.to`, `WholeRoom(room)` for `io.to`, or
  `Reply` for the acknowledgement callback.
- `Dashboard` (src/pages/TeacherDashboard.tsx) holds the `answer-received`
  updater and its fold over an event sequence. It also holds the room helpers,
  all as pure functions.
- `QuestionForm` (src/components/CreateQuestionForm.tsx) holds the option-list
  editor and the submit-time validation, as functions from the old form state
  to the new one.
- `MultipleChoiceQuestion`, `WordCloudQuestion`, `OpenTextQuestion` and
  `AnswerInput` (src/components/questions/) hold the percentage, font-size and
  label formulas as functions. The students' answer state (the selected
  option, the typed answer, the one-way `submitted` flag) is a small class per
  kind of answer box.
- `StudentPage` (src/pages/StudentInterface.tsx) and `JoinPage`
  (src/pages/StudentJoin.tsx) are classes whose methods are the pages' effects
  and event handlers.
- `Types` (src/types/index.ts), `Protocol` (the socket events), `Text`
  (ECMAScript `String.prototype.trim`) and `Wrappers` (an `Option` for
  `null`/`undefined`) are shared.
- `Scenarios` drives the server and the updater through whole rounds: two
  votes, a disconnect, and an answer sent too early.

How the foreign calls are modelled:

- `uuidv4` is a parameter of every function that calls it. The caller supplies
  a fresh id. Where a property needs the ids to be distinct, the lemma
  requires it.
- `toLowerCase` is a parameter `lower: string -> string` that the model never
  interprets. The word-cloud properties hold for every case-folding function.
- The socket is a `hasSocket` flag, and the route and query parameters are
  inputs. So is the value read from `sessionStorage`. Writes to storage and
  navigation targets are returned as outputs.
- `Math.round(c / total * 100)` uses exact rationals: the result is the
  integer r with r <= 100c/total + 1/2 < r + 1. This matches JavaScript's
  rounding of halves upwards, but not its floating-point error.

The model follows the code as written, including where it is permissive:

- The server never checks a multiple-choice answer against the question's
  options, and it never trims an answer.
- The server relays every submission, including repeats from the same
  student, and the dashboard counts each one.
- `activate-question` stores whatever payload it receives, without checking it
  against `questionId`. `handleActivateQuestion` likewise records an id
  without checking that a question has it.
- Rooms are never removed from the registry. A tally holds only the keys that
  were answered, so options nobody chose are absent and read as 0.

## Model

| member | source | states |
|---|---|---|
| `Text.Trim` | src/components/CreateQuestionForm.tsx:39 | `trim()` neither starts nor ends with whitespace, and it is empty exactly when the text is blank |
| `Text.TrimInfix` | src/components/CreateQuestionForm.tsx:39 | `trim()` is a contiguous slice of the input with only whitespace before and after it |
| `Types.ParseTag` | src/types/index.ts:1-5 | a wire string that parses denotes the enum member whose string value it is |
| `Types.ParseTagIff` | src/types/index.ts:1-5 | a string parses to a member exactly when it is that member's string value, so the three values are distinct |
| `RoomServer.Server.constructor` | server.js:11 | the process starts with an empty rooms map |
| `RoomServer.Server.CreateRoom` | server.js:27-36 | the room is installed with no active question and no students, replacing any room under that id while keeping its place in the map's order; nothing is emitted |
| `RoomServer.Server.JoinRoom` | server.js:39-54 | an unknown room: nothing changes and nothing is emitted; a known room: the socket is added at most once (size +1, or unchanged if already there), and `student-joined` with the new size goes to the rest of the room |
| `RoomServer.Server.LeaveRoom` | server.js:57-69 | an unknown room: nothing changes and nothing is emitted; a known room: only this socket is removed (size unchanged if absent), and `student-left` with the new size goes to the rest of the room |
| `RoomServer.Server.ActivateQuestion` | server.js:72-84 | a known room's active question becomes the payload, whatever it is; other rooms are untouched; `question-activated` goes to the whole room, sender included |
| `RoomServer.Server.GetActiveQuestion` | server.js:87-94 | changes no state; with a callback, it replies with the stored active question, or with none for an unknown room; without one, it replies nothing |
| `RoomServer.Server.SubmitAnswer` | server.js:97-108 | changes no state; emits `answer-received` exactly when the room exists, has an active question, and that question's id is `questionId`; the event carries the stored question's type and the answer unchanged |
| `RoomServer.Server.Disconnect` | server.js:111-126 | the loop over the rooms in map order leaves the registry equal to `Evict` of the old one and emits `DepartureNotices`; no room is removed |
| `RoomServer.Evict` | server.js:115-118 | every room keeps its key, id and active question, and its students become the old students minus this socket (size −1 if it held it); rooms without it are unchanged |
| `RoomServer.DepartureNoticesExact` | server.js:115-125 | a disconnect emits exactly one `student-left` per room that held the socket, to the rest of that room, with the post-removal size, and none to any other room |
| `Dashboard.FindTerm` | src/pages/TeacherDashboard.tsx:47-49 | `findIndex`: the first entry equal to the answer up to case, or −1 exactly when there is none |
| `Dashboard.AddWord` | src/pages/TeacherDashboard.tsx:45-63 | a matching entry gains one and keeps its first-seen text; otherwise `{text: answer, value: 1}` is appended; other entries are unchanged |
| `Dashboard.AddWordValid` | src/pages/TeacherDashboard.tsx:45-63 | one word-cloud submission keeps the entries distinct up to case, with positive counts |
| `Dashboard.AddWordSum` | src/pages/TeacherDashboard.tsx:52-63 | one word-cloud submission raises the sum of the counts by exactly one |
| `Dashboard.AddWordTerms` | src/pages/TeacherDashboard.tsx:52-63 | one word-cloud submission adds its case-folded term to the terms, and nothing else |
| `Dashboard.UpdateQuestion` | src/pages/TeacherDashboard.tsx:37-81 | multiple choice: the answer's count (absent = 0) goes up by one and every other key stays; word cloud: the list goes through `AddWord`; open text: one response is appended; the other parts are unchanged |
| `Dashboard.ApplyAnswer` | src/pages/TeacherDashboard.tsx:32-84 | only the event's question changes, as `UpdateQuestion` says; an unrecognised type leaves the results unchanged |
| `Dashboard.TallyCountsOccurrences` | src/pages/TeacherDashboard.tsx:37-44 | after any run of events, each answer string's count has grown by its number of multiple-choice occurrences for the question, with no option check or de-duplication |
| `Dashboard.TallyTotal` | src/pages/TeacherDashboard.tsx:37-44 | the sum of a question's tally grows by the number of multiple-choice events for it |
| `Dashboard.CloudStaysValid` | src/pages/TeacherDashboard.tsx:45-63 | starting from a valid (for example, empty) cloud, the entries stay distinct up to case, with positive counts |
| `Dashboard.CloudTotal` | src/pages/TeacherDashboard.tsx:45-63 | the counts of a question's cloud grow in total by the number of word-cloud events for it |
| `Dashboard.CloudTerms` | src/pages/TeacherDashboard.tsx:45-63 | a question's cloud gains exactly the case-folded terms of its word-cloud answers |
| `Dashboard.CloudSizeIsTermCount` | src/pages/TeacherDashboard.tsx:45-63 | in a valid cloud, the number of entries is the number of distinct case-folded terms |
| `Dashboard.CaseInsensitiveMerge` | src/pages/TeacherDashboard.tsx:47-57 | "Cat" then "cat" gives one entry, displayed as "Cat", with count 2 |
| `Dashboard.ResponsesAppend` | src/pages/TeacherDashboard.tsx:72-80 | open-text responses gain one entry per event, in arrival order, never merged; earlier responses are never changed |
| `Dashboard.FindQuestion` | src/pages/TeacherDashboard.tsx:115 | `questions.find`: the first question with the id, or none exactly when no question has it |
| `Dashboard.Mount` | src/pages/TeacherDashboard.tsx:15-29 | with a socket and no room yet, opens an empty room under the fresh id and sends `create-room`; otherwise it does nothing |
| `Dashboard.QuestionCreated` | src/pages/TeacherDashboard.tsx:92-99 | the question is appended at the end and the rest of the room is unchanged; without a room, nothing happens |
| `Dashboard.Activate` | src/pages/TeacherDashboard.tsx:101-117 | records the id as active without checking it, and sends the question found under it (or none); without a room or a socket, nothing happens |
| `Dashboard.ActiveQuestionOf` | src/pages/TeacherDashboard.tsx:124-127 | returns a question in the room whose id is the non-empty active id, or none exactly when there is no room, no (or an empty) active id, or no question under it |
| `Dashboard.ActivationShowsWhatWasSent` | src/pages/TeacherDashboard.tsx:101-127 | after activating a non-empty id, the dashboard shows as active exactly the question it sent to the server |
| `Dashboard.QuestionResultsView` | src/pages/TeacherDashboard.tsx:129-146 | returns nothing exactly when no results are stored for the question or it is not in the room; otherwise the question's type picks the tally, the word-cloud list or the responses (an absent list reads as empty) |
| `Dashboard.TallySumBounds` | src/components/questions/MultipleChoiceQuestion.tsx:38 | with no negative count, any one count lies between 0 and the sum over all keys |
| `QuestionForm.InitialOptions` | src/components/CreateQuestionForm.tsx:16-19 | exactly two options with empty text, and unique ids when the two fresh ids differ |
| `QuestionForm.InitialForm` | src/components/CreateQuestionForm.tsx:12-19 | empty text, multiple choice, two empty options |
| `QuestionForm.AddOption` | src/components/CreateQuestionForm.tsx:21-23 | one empty option is appended and existing options are unchanged; ids stay unique when the new id is fresh |
| `QuestionForm.ChangeOption` | src/components/CreateQuestionForm.tsx:25-29 | only the text of the options with that id changes; length, order and ids are kept |
| `QuestionForm.Without` | src/components/CreateQuestionForm.tsx:33 | keeps exactly the options whose id differs |
| `QuestionForm.WithoutAppend` | src/components/CreateQuestionForm.tsx:33 | removal distributes over concatenation, so the kept options stay in their original order |
| `QuestionForm.WithoutLength` | src/components/CreateQuestionForm.tsx:33 | with unique ids, removal drops one option if the id is present and none otherwise |
| `QuestionForm.RemoveOption` | src/components/CreateQuestionForm.tsx:31-34 | nothing changes with two or fewer options; otherwise the options with that id are dropped |
| `QuestionForm.RemoveKeepsTwo` | src/components/CreateQuestionForm.tsx:31-34 | with unique ids and at least two options, the list never drops below two |
| `QuestionForm.NonBlank` | src/components/CreateQuestionForm.tsx:43 | every kept option has non-blank text and is one of the options; the list is never longer |
| `QuestionForm.NonBlankMembers` | src/components/CreateQuestionForm.tsx:43 | an option is kept exactly when it is one of the options and its text is not blank |
| `QuestionForm.NonBlankAppend` | src/components/CreateQuestionForm.tsx:43 | filtering commutes with concatenation, so the original order is kept |
| `QuestionForm.Submit` | src/components/CreateQuestionForm.tsx:36-75 | blank text creates nothing and leaves the form unchanged; multiple choice with fewer than two non-blank options alerts and creates nothing; otherwise the question is created with the text untrimmed, with the non-blank options for multiple choice only, and the form resets |
| `QuestionForm.CreatedChoiceQuestionWellFormed` | src/components/CreateQuestionForm.tsx:42-56 | a created multiple-choice question has at least two options, none blank, and with unique ids when the form's were unique |
| `MultipleChoiceQuestion.RoundedPercent` | src/components/questions/MultipleChoiceQuestion.tsx:41 | the result is 100·c/total rounded half up |
| `MultipleChoiceQuestion.Percentage` | src/components/questions/MultipleChoiceQuestion.tsx:35-42 | 0 without results or when the counts (over every key) sum to 0; otherwise 100·c/total rounded half up, where c is the option's count (absent = 0) and total is the sum over every key |
| `MultipleChoiceQuestion.PercentageBounds` | src/components/questions/MultipleChoiceQuestion.tsx:35-42 | with no negative count, each percentage lies in 0..100 |
| `MultipleChoiceQuestion.RoundedPercentBounds` | src/components/questions/MultipleChoiceQuestion.tsx:41 | a count between 0 and a positive total rounds to 0..100 |
| `MultipleChoiceQuestion.ChoiceForm.constructor` | src/components/questions/MultipleChoiceQuestion.tsx:19-20 | nothing is selected and nothing submitted |
| `MultipleChoiceQuestion.ChoiceForm.Select` | src/components/questions/MultipleChoiceQuestion.tsx:74 | the option id becomes the selection; `submitted` is unchanged |
| `MultipleChoiceQuestion.ChoiceForm.Submit` | src/components/questions/MultipleChoiceQuestion.tsx:22-32 | sends the selected id as the answer exactly when a (non-empty) selection and a socket exist; `submitted` becomes true only then and never reverts |
| `AnswerInput.TextAnswer` | src/components/questions/WordCloudQuestion.tsx:23-30 | sends nothing without a socket or for a blank answer; otherwise sends exactly `Trim(answer)`, which is non-empty and has no surrounding whitespace |
| `AnswerInput.SubmitDisabled` | src/components/questions/OpenTextQuestion.tsx:77 | the button is disabled exactly when the answer is blank |
| `AnswerInput.TextAnswerForm.constructor` | src/components/questions/OpenTextQuestion.tsx:21-22 | nothing is typed and nothing submitted |
| `AnswerInput.TextAnswerForm.Edit` | src/components/questions/OpenTextQuestion.tsx:70 | the typed text replaces the answer |
| `AnswerInput.TextAnswerForm.Submit` | src/components/questions/OpenTextQuestion.tsx:24-34 | emits `submit-answer` with the trimmed text exactly when there is a socket and the answer is not blank; `submitted` becomes true only then and never reverts |
| `WordCloudQuestion.FontSize` | src/components/questions/WordCloudQuestion.tsx:45 | always within 12..48 px: 5 px per submission, clamped at both ends |
| `WordCloudQuestion.FontSizeMonotone` | src/components/questions/WordCloudQuestion.tsx:45 | more submissions never give a smaller font |
| `WordCloudQuestion.ResponseNoun` | src/components/questions/WordCloudQuestion.tsx:69 | "response" exactly when the count is 1, "responses" otherwise |
| `WordCloudQuestion.DisplayedCountIsDistinctTerms` | src/components/questions/WordCloudQuestion.tsx:69 | the count shown is the number of distinct case-folded terms, never more than the number of submissions |
| `OpenTextQuestion.ResponseLabelKey` | src/components/questions/OpenTextQuestion.tsx:54-57 | the singular key exactly when the count is 1 |
| `StudentPage.StudentName` | src/pages/StudentInterface.tsx:13-15 | the stored name if it is non-empty, else "Anonymous"; never empty |
| `StudentPage.StudentSession.constructor` | src/pages/StudentInterface.tsx:12-16 | no question yet, `waiting` true, no handlers installed |
| `StudentPage.StudentSession.Mount` | src/pages/StudentInterface.tsx:18-42 | without a socket or a (non-empty) room id, nothing is sent or installed; otherwise it sends `join-room` then `get-active-question` and installs the handler |
| `StudentPage.StudentSession.OnQuestionActivated` | src/pages/StudentInterface.tsx:25-30 | only an event for this page's room sets the question and clears `waiting`; events for other rooms are ignored; `waiting` never returns to true |
| `StudentPage.StudentSession.OnActiveQuestionReply` | src/pages/StudentInterface.tsx:36-41 | a reply without a question changes nothing; one with a question sets it and clears `waiting` |
| `StudentPage.StudentSession.Unmount` | src/pages/StudentInterface.tsx:44-48 | sends `leave-room` for the joined room and removes the handler |
| `JoinPage.StudentRoute` | src/pages/StudentJoin.tsx:33 | starts with "/student/", followed by the room id exactly as typed |
| `JoinPage.JoinForm.constructor` | src/pages/StudentJoin.tsx:5-7 | all three fields are empty |
| `JoinPage.JoinForm.Prefill` | src/pages/StudentJoin.tsx:11-17 | a present, non-empty `roomId` parameter fills the field; otherwise nothing changes |
| `JoinPage.JoinForm.EditRoomId` | src/pages/StudentJoin.tsx:61-64 | the room id is replaced and any error is cleared |
| `JoinPage.JoinForm.EditName` | src/pages/StudentJoin.tsx:49 | the name is replaced |
| `JoinPage.JoinForm.Submit` | src/pages/StudentJoin.tsx:19-34 | a blank room id sets the error, with no storage write and no navigation; otherwise the name is stored untrimmed only when it is not blank, and navigation goes to the untrimmed room's route |

## Left out

- HTTP and static-file serving, `server.listen`, `process.env` and console
  logging (server.js:1-20, 129-132) are I/O and configuration.
- Socket.io delivery is not modelled. This covers `socket.join`/`socket.leave`,
  fan-out to a room's members, and React's subscribe/unsubscribe wiring.
  Handlers return the events they emit, tagged with the audience, and the
  model stops there.
- Event order between connections is not modelled: the `get-active-question`
  reply can race with a `question-activated` event. Each handler is a separate
  transition.
- `Math.round` is modelled on exact rationals. The floating-point error of
  `c / total * 100` is left out.
- The random hue of each word-cloud term, and the DOM nodes the word-cloud
  effect creates, are rendering. Only the font-size formula is modelled.
- The clipboard copy, `alert` and the join URL built from
  `window.location.origin` (TeacherDashboard.tsx:119-122, 172-175) are
  browser I/O. The alert of the question form is the `alerted` flag of
  `QuestionForm.Submit`.
- `Dashboard.QuestionResults`: in the source, the tally keys, `wordCloud` and
  `responses` share one JavaScript object. A multiple-choice answer spelled
  "wordCloud" or "responses" would therefore collide with a list. The model
  keeps the three in separate fields.
- `MultipleChoiceQuestion.ChoiceForm.Select`: the source disables the radio
  buttons after a submit (MultipleChoiceQuestion.tsx:75). That is a rendering
  guard, so this handler, like the source's, still changes the selection.
- The optional `isActive` field of `Question` is never set or read by the
  core, so the datatype omits it.
- The JSX markup is left out, and so are the components that only dispatch or
  localise: QuestionDisplay.tsx, Header.tsx, LanguageSwitcher.tsx, i18n.ts and
  App.tsx. The type switch of QuestionDisplay.tsx is the `QuestionType`
  datatype.
- The word-cloud input's `maxLength={30}` (WordCloudQuestion.tsx:83) is a
  browser-side limit on typing. The server does not enforce it, so the model
  does not either.
