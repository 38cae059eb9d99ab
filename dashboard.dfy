/**
 * The teacher's dashboard (src/pages/TeacherDashboard.tsx): the fold of relayed
 * `answer-received` events into per-question results, and the helpers over the
 * teacher's room. All of it is pure: each React update replaces the whole value.
 * `lower` stands for JavaScript's `toLowerCase`, left uninterpreted; fresh ids
 * (from `uuidv4`) are parameters.
 */
module Dashboard {
  import opened Wrappers
  import opened Types
  import opened Protocol

  /**
   * What the dashboard stores for one question: the multiple-choice tally
   * (answer to count), the word-cloud terms and the open-text responses.
   */
  datatype QuestionResults = QuestionResults(tally: map<string, int>,
                                             wordCloud: Option<seq<WordCloudItem>>,
                                             responses: Option<seq<OpenTextResponse>>)

  /** Results keyed by question id. */
  type Results = map<string, QuestionResults>

  /** `prev[questionId] || {}`. */
  function ResultsFor(results: Results, questionId: string): QuestionResults {
    if questionId in results then results[questionId] else QuestionResults(map[], None, None)
  }

  /** `tally[key] || 0`. */
  function Count(tally: map<string, int>, key: string): int {
    if key in tally then tally[key] else 0
  }

  // ---------------------------------------------------------------- word cloud

  /** Some entry's text equals `answer` up to case. */
  predicate HasTerm(items: seq<WordCloudItem>, answer: string, lower: string -> string) {
    exists j :: 0 <= j < |items| && lower(items[j].text) == lower(answer)
  }

  /** `findIndex`: the first entry whose text equals `answer` up to case, or -1. */
  function FindTerm(items: seq<WordCloudItem>, answer: string, lower: string -> string): (i: int)
    ensures -1 <= i < |items|
    ensures i == -1 <==> !HasTerm(items, answer, lower)
    ensures i >= 0 ==> lower(items[i].text) == lower(answer) &&
                       forall j :: 0 <= j < i ==> lower(items[j].text) != lower(answer)
  {
    if items == [] then -1
    else if lower(items[0].text) == lower(answer) then 0
    else
      var k := FindTerm(items[1..], answer, lower);
      assert forall j :: 1 <= j < |items| ==> items[j] == items[1..][j - 1];
      if k < 0 then -1 else k + 1
  }

  /**
   * One word-cloud submission: the matching entry (if any) gains one and keeps
   * its first-seen text; otherwise `{text: answer, value: 1}` is appended.
   */
  function AddWord(items: seq<WordCloudItem>, answer: string, lower: string -> string)
    : (r: seq<WordCloudItem>)
    ensures HasTerm(items, answer, lower) ==> |r| == |items|
    ensures !HasTerm(items, answer, lower) ==> r == items + [WordCloudItem(answer, 1)]
    ensures forall j :: 0 <= j < |items| ==> r[j].text == items[j].text
    ensures forall j :: 0 <= j < |items| ==>
      r[j].value == items[j].value + (if j == FindTerm(items, answer, lower) then 1 else 0)
  {
    var i := FindTerm(items, answer, lower);
    if i >= 0 then items[i := items[i].(value := items[i].value + 1)]
    else items + [WordCloudItem(answer, 1)]
  }

  /** The sum of the entries' counts. */
  function ValueSum(items: seq<WordCloudItem>): int {
    if items == [] then 0 else ValueSum(items[..|items| - 1]) + items[|items| - 1].value
  }

  /** The case-folded texts of the entries. */
  function Terms(items: seq<WordCloudItem>, lower: string -> string): set<string> {
    if items == [] then {} else Terms(items[..|items| - 1], lower) + {lower(items[|items| - 1].text)}
  }

  /** The case-folded forms of some answers. */
  function Folded(answers: seq<string>, lower: string -> string): set<string> {
    if answers == [] then {} else Folded(answers[..|answers| - 1], lower) + {lower(answers[|answers| - 1])}
  }

  /** No two entries are equal up to case, and each has been submitted at least once. */
  predicate CloudValid(items: seq<WordCloudItem>, lower: string -> string) {
    (forall i, j :: 0 <= i < j < |items| ==> lower(items[i].text) != lower(items[j].text)) &&
    (forall i :: 0 <= i < |items| ==> items[i].value >= 1)
  }

  lemma {:induction false} ValueSumBump(items: seq<WordCloudItem>, i: nat)
    requires i < |items|
    ensures ValueSum(items[i := items[i].(value := items[i].value + 1)]) == ValueSum(items) + 1
  {
    var r := items[i := items[i].(value := items[i].value + 1)];
    if i < |items| - 1 {
      assert r[..|r| - 1] == items[..|items| - 1][i := items[i].(value := items[i].value + 1)];
      ValueSumBump(items[..|items| - 1], i);
    } else {
      assert r[..|r| - 1] == items[..|items| - 1];
    }
  }

  lemma {:induction false} TermsMembership(items: seq<WordCloudItem>, lower: string -> string, t: string)
    ensures t in Terms(items, lower) <==> exists j :: 0 <= j < |items| && lower(items[j].text) == t
  {
    if items != [] {
      var init := items[..|items| - 1];
      TermsMembership(init, lower, t);
      if t in Terms(init, lower) {
        var j :| 0 <= j < |init| && lower(init[j].text) == t;
        assert items[j] == init[j];
      }
      if exists j :: 0 <= j < |items| && lower(items[j].text) == t {
        var j :| 0 <= j < |items| && lower(items[j].text) == t;
        if j < |init| { assert init[j] == items[j]; }
      }
    }
  }

  /** With distinct terms, the number of entries is the number of distinct case-folded terms. */
  lemma {:induction false} CloudSizeIsTermCount(items: seq<WordCloudItem>, lower: string -> string)
    requires CloudValid(items, lower)
    ensures |Terms(items, lower)| == |items|
  {
    if items != [] {
      var init := items[..|items| - 1];
      var last := items[|items| - 1];
      assert CloudValid(init, lower);
      CloudSizeIsTermCount(init, lower);
      TermsMembership(init, lower, lower(last.text));
      assert forall j :: 0 <= j < |init| ==> lower(init[j].text) != lower(last.text) by {
        forall j | 0 <= j < |init| ensures lower(init[j].text) != lower(last.text) {
          assert init[j] == items[j];
        }
      }
    }
  }

  /** `AddWord` keeps the terms distinct up to case and every count positive. */
  lemma AddWordValid(items: seq<WordCloudItem>, answer: string, lower: string -> string)
    requires CloudValid(items, lower)
    ensures CloudValid(AddWord(items, answer, lower), lower)
  {
    var r := AddWord(items, answer, lower);
    if !HasTerm(items, answer, lower) {
      forall i, j | 0 <= i < j < |r| ensures lower(r[i].text) != lower(r[j].text) {
        if j == |items| {
          assert r[i] == items[i];
        } else {
          assert r[i] == items[i] && r[j] == items[j];
        }
      }
    }
  }

  /** `AddWord` adds one to the total count. */
  lemma AddWordSum(items: seq<WordCloudItem>, answer: string, lower: string -> string)
    ensures ValueSum(AddWord(items, answer, lower)) == ValueSum(items) + 1
  {
    var r := AddWord(items, answer, lower);
    var i := FindTerm(items, answer, lower);
    if i >= 0 {
      ValueSumBump(items, i);
    } else {
      assert r[..|r| - 1] == items;
    }
  }

  /** `AddWord` adds the submission's case-folded term to the terms. */
  lemma AddWordTerms(items: seq<WordCloudItem>, answer: string, lower: string -> string)
    ensures Terms(AddWord(items, answer, lower), lower) == Terms(items, lower) + {lower(answer)}
  {
    var r := AddWord(items, answer, lower);
    var i := FindTerm(items, answer, lower);
    if i >= 0 {
      forall t ensures t in Terms(r, lower) <==> t in Terms(items, lower) + {lower(answer)} {
        TermsMembership(r, lower, t);
        TermsMembership(items, lower, t);
        if t == lower(answer) { assert lower(r[i].text) == t; }
      }
    } else {
      assert r[..|r| - 1] == items;
    }
  }

  // ------------------------------------------------------------- the updater

  /**
   * One relayed answer folded into its question's results, by the type the
   * server attached: a multiple-choice answer counts once more under its own
   * text, whatever it is; a word-cloud answer goes through `AddWord`; an
   * open-text answer is appended with the fresh id `responseId`.
   */
  function UpdateQuestion(qr: QuestionResults, t: QuestionType, answer: string,
                          lower: string -> string, responseId: string): (r: QuestionResults)
    ensures t == MultipleChoice ==>
      Count(r.tally, answer) == Count(qr.tally, answer) + 1 &&
      (forall k :: k != answer ==> (k in r.tally <==> k in qr.tally) && Count(r.tally, k) == Count(qr.tally, k)) &&
      r.wordCloud == qr.wordCloud && r.responses == qr.responses
    ensures t == WordCloud ==>
      r.wordCloud == Some(AddWord(qr.wordCloud.GetOr([]), answer, lower)) &&
      r.tally == qr.tally && r.responses == qr.responses
    ensures t == OpenText ==>
      r.responses == Some(qr.responses.GetOr([]) + [OpenTextResponse(responseId, answer)]) &&
      r.tally == qr.tally && r.wordCloud == qr.wordCloud
  {
    match t
    case MultipleChoice => qr.(tally := qr.tally[answer := Count(qr.tally, answer) + 1])
    case WordCloud => qr.(wordCloud := Some(AddWord(qr.wordCloud.GetOr([]), answer, lower)))
    case OpenText => qr.(responses := Some(qr.responses.GetOr([]) + [OpenTextResponse(responseId, answer)]))
  }

  /**
   * The `answer-received` updater: only the event's question changes, as
   * `UpdateQuestion` says, and an unrecognised type changes nothing at all.
   */
  function ApplyAnswer(results: Results, ev: AnswerNotice, lower: string -> string, responseId: string)
    : (r: Results)
    ensures ParseTag(ev.questionType).None? ==> r == results
    ensures ParseTag(ev.questionType).Some? ==>
      ev.questionId in r &&
      r[ev.questionId] == UpdateQuestion(ResultsFor(results, ev.questionId),
                                         ParseTag(ev.questionType).value, ev.answer, lower, responseId)
    ensures forall q :: q != ev.questionId ==> (q in r <==> q in results) && ResultsFor(r, q) == ResultsFor(results, q)
  {
    match ParseTag(ev.questionType)
    case Some(t) =>
      results[ev.questionId := UpdateQuestion(ResultsFor(results, ev.questionId), t, ev.answer, lower, responseId)]
    case None => results
  }

  /** How one event changes the results of question `q`. */
  lemma ApplyAnswerAt(results: Results, ev: AnswerNotice, lower: string -> string, responseId: string,
                      q: string, t: QuestionType)
    ensures ev.questionId == q && ev.questionType == Tag(t) ==>
      ResultsFor(ApplyAnswer(results, ev, lower, responseId), q) ==
      UpdateQuestion(ResultsFor(results, q), t, ev.answer, lower, responseId)
    ensures ev.questionId != q || ev.questionType != Tag(t) ==>
      var after := ResultsFor(ApplyAnswer(results, ev, lower, responseId), q);
      var before := ResultsFor(results, q);
      match t
      case MultipleChoice => after.tally == before.tally
      case WordCloud => after.wordCloud == before.wordCloud
      case OpenText => after.responses == before.responses
  {
    ParseTagIff(ev.questionType, t);
  }

  /** The results after a run of relayed answers; `ids[k]` is the fresh id drawn for `evs[k]`. */
  function ApplyAll(results: Results, evs: seq<AnswerNotice>, lower: string -> string, ids: seq<string>)
    : Results
    requires |ids| == |evs|
  {
    if evs == [] then results
    else ApplyAnswer(ApplyAll(results, evs[..|evs| - 1], lower, ids[..|ids| - 1]),
                     evs[|evs| - 1], lower, ids[|ids| - 1])
  }

  /** The answers, in arrival order, of the events for question `q` tagged with type `t`. */
  function AnswersOf(evs: seq<AnswerNotice>, q: string, t: QuestionType): seq<string> {
    if evs == [] then []
    else
      var e := evs[|evs| - 1];
      AnswersOf(evs[..|evs| - 1], q, t) + (if e.questionId == q && e.questionType == Tag(t) then [e.answer] else [])
  }

  /** The sum of a tally's counts (`Object.values(t).reduce(+)`). */
  ghost function TallySum(tally: map<string, int>): int
    decreases |tally|
  {
    if tally == map[] then 0
    else
      var k :| k in tally;
      tally[k] + TallySum(tally - {k})
  }

  /** Any key may be taken out first. */
  lemma {:induction false} TallySumPick(tally: map<string, int>, k: string)
    requires k in tally
    ensures TallySum(tally) == tally[k] + TallySum(tally - {k})
    decreases |tally|
  {
    var j :| j in tally && TallySum(tally) == tally[j] + TallySum(tally - {j});
    if j != k {
      TallySumPick(tally - {j}, k);
      TallySumPick(tally - {k}, j);
      assert tally - {j} - {k} == tally - {k} - {j};
    }
  }

  /** A tally after one count changes from `Count(tally, k)` to `v`. */
  lemma TallySumUpdate(tally: map<string, int>, k: string, v: int)
    ensures TallySum(tally[k := v]) == TallySum(tally) - Count(tally, k) + v
  {
    TallySumPick(tally[k := v], k);
    if k in tally {
      TallySumPick(tally, k);
      assert tally[k := v] - {k} == tally - {k};
    } else {
      assert tally[k := v] - {k} == tally;
    }
  }

  /** With no negative count, the sum is at least any one count. */
  lemma {:induction false} TallySumBounds(tally: map<string, int>, k: string)
    requires forall j :: j in tally ==> tally[j] >= 0
    ensures 0 <= Count(tally, k) <= TallySum(tally)
    decreases |tally|
  {
    if tally != map[] {
      var j :| j in tally && TallySum(tally) == tally[j] + TallySum(tally - {j});
      TallySumBounds(tally - {j}, k);
      if j != k {
        assert Count(tally - {j}, k) == Count(tally, k);
      }
    }
  }

  /**
   * Every multiple-choice answer for `q` is counted under its own text, with
   * no check against the options and no de-duplication: each count grows by
   * its number of occurrences among the events.
   */
  lemma {:induction false} TallyCountsOccurrences(results: Results, evs: seq<AnswerNotice>, lower: string -> string,
                                                ids: seq<string>, q: string, a: string)
    requires |ids| == |evs|
    ensures Count(ResultsFor(ApplyAll(results, evs, lower, ids), q).tally, a) ==
            Count(ResultsFor(results, q).tally, a) + multiset(AnswersOf(evs, q, MultipleChoice))[a]
  {
    if evs != [] {
      var init, e, ids' := evs[..|evs| - 1], evs[|evs| - 1], ids[..|ids| - 1];
      TallyCountsOccurrences(results, init, lower, ids', q, a);
      var mid := ApplyAll(results, init, lower, ids');
      assert ApplyAll(results, evs, lower, ids) == ApplyAnswer(mid, e, lower, ids[|ids| - 1]);
      ApplyAnswerAt(mid, e, lower, ids[|ids| - 1], q, MultipleChoice);
    }
  }

  /** The counts of `q`'s tally grow in total by the number of multiple-choice events for `q`. */
  lemma {:induction false} TallyTotal(results: Results, evs: seq<AnswerNotice>, lower: string -> string,
                                    ids: seq<string>, q: string)
    requires |ids| == |evs|
    ensures TallySum(ResultsFor(ApplyAll(results, evs, lower, ids), q).tally) ==
            TallySum(ResultsFor(results, q).tally) + |AnswersOf(evs, q, MultipleChoice)|
  {
    if evs != [] {
      var init, e, ids' := evs[..|evs| - 1], evs[|evs| - 1], ids[..|ids| - 1];
      TallyTotal(results, init, lower, ids', q);
      var mid := ApplyAll(results, init, lower, ids');
      var before := ResultsFor(mid, q).tally;
      assert ApplyAll(results, evs, lower, ids) == ApplyAnswer(mid, e, lower, ids[|ids| - 1]);
      ApplyAnswerAt(mid, e, lower, ids[|ids| - 1], q, MultipleChoice);
      if e.questionId == q && e.questionType == Tag(MultipleChoice) {
        TallySumUpdate(before, e.answer, Count(before, e.answer) + 1);
      }
    }
  }

  /** The word cloud of question `q`, empty when none is stored. */
  function CloudOf(results: Results, q: string): seq<WordCloudItem> {
    ResultsFor(results, q).wordCloud.GetOr([])
  }

  /** How one event changes the word cloud of question `q`. */
  lemma CloudStep(results: Results, ev: AnswerNotice, lower: string -> string, responseId: string, q: string)
    ensures CloudOf(ApplyAnswer(results, ev, lower, responseId), q) ==
      if ev.questionId == q && ev.questionType == Tag(WordCloud)
      then AddWord(CloudOf(results, q), ev.answer, lower)
      else CloudOf(results, q)
  {
    ApplyAnswerAt(results, ev, lower, responseId, q, WordCloud);
  }

  /** Starting from a valid cloud (the empty one in particular), `q`'s cloud stays valid. */
  lemma {:induction false} CloudStaysValid(results: Results, evs: seq<AnswerNotice>, lower: string -> string,
                                         ids: seq<string>, q: string)
    requires |ids| == |evs|
    requires CloudValid(CloudOf(results, q), lower)
    ensures CloudValid(CloudOf(ApplyAll(results, evs, lower, ids), q), lower)
  {
    if evs != [] {
      var init, e, ids' := evs[..|evs| - 1], evs[|evs| - 1], ids[..|ids| - 1];
      CloudStaysValid(results, init, lower, ids', q);
      var mid := ApplyAll(results, init, lower, ids');
      CloudStep(mid, e, lower, ids[|ids| - 1], q);
      AddWordValid(CloudOf(mid, q), e.answer, lower);
    }
  }

  /** The counts of `q`'s cloud grow in total by the number of word-cloud events for `q`. */
  lemma {:induction false} CloudTotal(results: Results, evs: seq<AnswerNotice>, lower: string -> string,
                                    ids: seq<string>, q: string)
    requires |ids| == |evs|
    ensures ValueSum(CloudOf(ApplyAll(results, evs, lower, ids), q)) ==
            ValueSum(CloudOf(results, q)) + |AnswersOf(evs, q, WordCloud)|
  {
    if evs != [] {
      var init, e, ids' := evs[..|evs| - 1], evs[|evs| - 1], ids[..|ids| - 1];
      CloudTotal(results, init, lower, ids', q);
      var mid := ApplyAll(results, init, lower, ids');
      CloudStep(mid, e, lower, ids[|ids| - 1], q);
      AddWordSum(CloudOf(mid, q), e.answer, lower);
    }
  }

  /** How the last of a run of events changes the word cloud of question `q`. */
  lemma CloudAllStep(results: Results, evs: seq<AnswerNotice>, lower: string -> string,
                     ids: seq<string>, q: string)
    requires |ids| == |evs| && evs != []
    ensures var e := evs[|evs| - 1];
      var before := CloudOf(ApplyAll(results, evs[..|evs| - 1], lower, ids[..|ids| - 1]), q);
      CloudOf(ApplyAll(results, evs, lower, ids), q) ==
        if e.questionId == q && e.questionType == Tag(WordCloud) then AddWord(before, e.answer, lower) else before
  {
    CloudStep(ApplyAll(results, evs[..|evs| - 1], lower, ids[..|ids| - 1]), evs[|evs| - 1], lower,
              ids[|ids| - 1], q);
  }

  /** The set algebra of one step of `CloudTerms`. */
  lemma UnionStep(after: set<string>, mid: set<string>, t0: set<string>, f: set<string>, f': set<string>,
                  x: string)
    requires after == mid + {x} && mid == t0 + f && f' == f + {x}
    ensures after == t0 + f'
  {
  }

  /** The terms of `q`'s cloud gain exactly the case-folded word-cloud answers for `q`. */
  lemma {:induction false} CloudTerms(results: Results, evs: seq<AnswerNotice>, lower: string -> string,
                                    ids: seq<string>, q: string)
    requires |ids| == |evs|
    ensures Terms(CloudOf(ApplyAll(results, evs, lower, ids), q), lower) ==
            Terms(CloudOf(results, q), lower) + Folded(AnswersOf(evs, q, WordCloud), lower)
  {
    if evs != [] {
      var init, e, ids' := evs[..|evs| - 1], evs[|evs| - 1], ids[..|ids| - 1];
      CloudTerms(results, init, lower, ids', q);
      CloudAllStep(results, evs, lower, ids, q);
      var before := CloudOf(ApplyAll(results, init, lower, ids'), q);
      var added, earlier := AnswersOf(evs, q, WordCloud), AnswersOf(init, q, WordCloud);
      if e.questionId == q && e.questionType == Tag(WordCloud) {
        AddWordTerms(before, e.answer, lower);
        assert added == earlier + [e.answer];
        FoldedSnoc(earlier, e.answer, lower);
        UnionStep(Terms(CloudOf(ApplyAll(results, evs, lower, ids), q), lower), Terms(before, lower),
                  Terms(CloudOf(results, q), lower), Folded(earlier, lower), Folded(added, lower),
                  lower(e.answer));
      } else {
        assert added == earlier;
      }
    }
  }

  /** Folding one more answer adds its case-folded term. */
  lemma FoldedSnoc(answers: seq<string>, a: string, lower: string -> string)
    ensures Folded(answers + [a], lower) == Folded(answers, lower) + {lower(a)}
  {
    assert (answers + [a])[..|answers|] == answers;
  }

  /**
   * Open-text responses for `q` are the submissions in arrival order, one
   * entry per event, never merged: earlier responses are never changed.
   */
  lemma {:induction false} ResponsesAppend(results: Results, evs: seq<AnswerNotice>, lower: string -> string,
                                         ids: seq<string>, q: string)
    requires |ids| == |evs|
    ensures var before := ResultsFor(results, q).responses.GetOr([]);
            var after := ResultsFor(ApplyAll(results, evs, lower, ids), q).responses.GetOr([]);
      |after| == |before| + |AnswersOf(evs, q, OpenText)| && after[..|before|] == before &&
      forall k :: 0 <= k < |AnswersOf(evs, q, OpenText)| ==>
        after[|before| + k].text == AnswersOf(evs, q, OpenText)[k]
  {
    if evs != [] {
      var init, e := evs[..|evs| - 1], evs[|evs| - 1];
      ResponsesAppend(results, init, lower, ids[..|ids| - 1], q);
      ApplyAnswerAt(ApplyAll(results, init, lower, ids[..|ids| - 1]), e, lower, ids[|ids| - 1], q, OpenText);
    }
  }

  /** Submitting "Cat" and then "cat" gives one term, shown as "Cat", counted twice. */
  lemma CaseInsensitiveMerge(lower: string -> string, room: string, q: string, id1: string, id2: string)
    requires lower("Cat") == lower("cat")
    ensures var evs := [AnswerNotice(room, q, Tag(WordCloud), "Cat"), AnswerNotice(room, q, Tag(WordCloud), "cat")];
      CloudOf(ApplyAll(map[], evs, lower, [id1, id2]), q) == [WordCloudItem("Cat", 2)]
  {
    var evs := [AnswerNotice(room, q, Tag(WordCloud), "Cat"), AnswerNotice(room, q, Tag(WordCloud), "cat")];
    assert evs[..1] == [evs[0]] && [evs[0]][..0] == [];
    assert [id1, id2][..1] == [id1] && [id1][..0] == [];
    var one := ApplyAll(map[], evs[..1], lower, [id1]);
    assert ApplyAll(map[], [], lower, []) == map[];
    assert one == ApplyAnswer(map[], evs[0], lower, id1);
    CloudStep(map[], evs[0], lower, id1, q);
    assert AddWord([], "Cat", lower) == [WordCloudItem("Cat", 1)];
    assert CloudOf(one, q) == [WordCloudItem("Cat", 1)];
    CloudStep(one, evs[1], lower, id2, q);
    assert FindTerm([WordCloudItem("Cat", 1)], "cat", lower) == 0;
  }

  // ------------------------------------------------------------ room helpers

  /** The first question of `qs` with id `id` (`questions.find`). */
  function FindQuestion(qs: seq<Question>, id: string): (r: Option<Question>)
    ensures r.None? <==> forall i :: 0 <= i < |qs| ==> qs[i].id != id
    ensures r.Some? ==> (r.value.id == id &&
      exists i :: 0 <= i < |qs| && qs[i] == r.value && forall j :: 0 <= j < i ==> qs[j].id != id)
  {
    if qs == [] then None
    else if qs[0].id == id then Some(qs[0])
    else
      assert forall j :: 1 <= j < |qs| ==> qs[j] == qs[1..][j - 1];
      FindQuestion(qs[1..], id)
  }

  /** Once mounted with a socket, the dashboard holds a room; a fresh one comes with a `create-room`. */
  datatype Mounted = Mounted(room: Option<Room>, request: Option<ClientRequest>)

  /** The mount effect: without a room, open one under the fresh id `roomId` and register it. */
  function Mount(room: Option<Room>, hasSocket: bool, roomId: string): (r: Mounted)
    ensures !hasSocket || room.Some? ==> r == Mounted(room, None)
    ensures hasSocket && room.None? ==>
      r.room == Some(Room(roomId, [], None)) && r.request == Some(CreateRoom(roomId))
  {
    if !hasSocket || room.Some? then Mounted(room, None)
    else Mounted(Some(Room(roomId, [], None)), Some(CreateRoom(roomId)))
  }

  /** `handleQuestionCreated`: the question goes at the end; without a room, nothing happens. */
  function QuestionCreated(room: Option<Room>, q: Question): (r: Option<Room>)
    ensures room.None? ==> r.None?
    ensures room.Some? ==> (r.Some? && r.value.id == room.value.id &&
      r.value.activeQuestionId == room.value.activeQuestionId &&
      |r.value.questions| == |room.value.questions| + 1 &&
      r.value.questions[..|room.value.questions|] == room.value.questions &&
      r.value.questions[|room.value.questions|] == q)
  {
    match room
    case None => None
    case Some(rm) => Some(rm.(questions := rm.questions + [q]))
  }

  /** The dashboard after `handleActivateQuestion`, and what it sends to the server. */
  datatype Activation = Activation(room: Option<Room>, request: Option<ClientRequest>)

  /**
   * `handleActivateQuestion`: records `questionId` as active without checking
   * it exists and sends the server the question found under it (none if
   * there is none); without a room or a socket, nothing happens.
   */
  function Activate(room: Option<Room>, hasSocket: bool, questionId: string): (r: Activation)
    ensures room.None? || !hasSocket ==> r == Activation(room, None)
    ensures room.Some? && hasSocket ==>
      r.room == Some(room.value.(activeQuestionId := Some(questionId))) &&
      r.request == Some(ActivateQuestion(room.value.id, questionId, FindQuestion(room.value.questions, questionId)))
  {
    match room
    case None => Activation(None, None)
    case Some(rm) =>
      if !hasSocket then Activation(room, None)
      else Activation(Some(rm.(activeQuestionId := Some(questionId))),
                      Some(ActivateQuestion(rm.id, questionId, FindQuestion(rm.questions, questionId))))
  }

  /**
   * `getActiveQuestion`: the question recorded as active, or none when there
   * is no room, no (or an empty) active id, or no question under it.
   */
  function ActiveQuestionOf(room: Option<Room>): (r: Option<Question>)
    ensures r.Some? ==> (room.Some? && room.value.activeQuestionId == Some(r.value.id) &&
                         r.value.id != "" && r.value in room.value.questions)
    ensures r.None? <==> (room.None? || room.value.activeQuestionId.None? ||
      room.value.activeQuestionId.value == "" ||
      forall i :: 0 <= i < |room.value.questions| ==> room.value.questions[i].id != room.value.activeQuestionId.value)
  {
    match room
    case None => None
    case Some(rm) =>
      match rm.activeQuestionId
      case None => None
      case Some(id) => if id == "" then None else FindQuestion(rm.questions, id)
  }

  /**
   * After the teacher activates a question under a non-empty id, the
   * dashboard shows as active exactly the question it sent to the server.
   */
  lemma ActivationShowsWhatWasSent(room: Room, questionId: string)
    requires questionId != ""
    ensures var a := Activate(Some(room), true, questionId);
      a.request.Some? && ActiveQuestionOf(a.room) == a.request.value.question
  {
  }

  /** What `getQuestionResults` hands to the question view. */
  datatype ResultsView =
    | NoView
    | TallyView(tally: map<string, int>)
    | CloudView(items: seq<WordCloudItem>)
    | ResponsesView(responses: seq<OpenTextResponse>)

  /**
   * `getQuestionResults`: nothing when no results are stored for the question
   * or it is not in the room; otherwise the part of its results that its
   * type reads, an absent list read as empty.
   */
  function QuestionResultsView(results: Results, room: Option<Room>, questionId: string): (r: ResultsView)
    ensures r == NoView <==> (questionId !in results || room.None? ||
                             FindQuestion(room.value.questions, questionId).None?)
    ensures r.TallyView? ==> (r.tally == results[questionId].tally &&
      FindQuestion(room.value.questions, questionId).value.qtype == MultipleChoice)
    ensures r.CloudView? ==> (r.items == CloudOf(results, questionId) &&
      FindQuestion(room.value.questions, questionId).value.qtype == WordCloud)
    ensures r.ResponsesView? ==> (r.responses == results[questionId].responses.GetOr([]) &&
      FindQuestion(room.value.questions, questionId).value.qtype == OpenText)
  {
    if questionId !in results || room.None? then NoView
    else
      var data := results[questionId];
      match FindQuestion(room.value.questions, questionId)
      case None => NoView
      case Some(q) =>
        match q.qtype
        case MultipleChoice => TallyView(data.tally)
        case WordCloud => CloudView(data.wordCloud.GetOr([]))
        case OpenText => ResponsesView(data.responses.GetOr([]))
  }
}
