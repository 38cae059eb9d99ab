/**
 * The question authoring form (src/components/CreateQuestionForm.tsx): the
 * editable option list and the submit-time validation. Every handler replaces
 * the form state wholesale, so each is a function from the old state to the
 * new one. Fresh ids (from `uuidv4`) are parameters.
 */
module QuestionForm {
  import opened Wrappers
  import opened Text
  import opened Types

  /** The form's state: question text, chosen type and the option list. */
  datatype FormState = FormState(text: string, qtype: QuestionType, options: seq<OptionItem>)

  /** No two options share an id (what fresh `uuidv4` ids give). */
  predicate UniqueIds(options: seq<OptionItem>) {
    forall i, j :: 0 <= i < j < |options| ==> options[i].id != options[j].id
  }

  /** Some option has id `id`. */
  predicate HasId(options: seq<OptionItem>, id: string) {
    exists i :: 0 <= i < |options| && options[i].id == id
  }

  /** The two empty options the form starts with, and returns to after a submit. */
  function InitialOptions(id1: string, id2: string): (r: seq<OptionItem>)
    ensures |r| == 2 && forall i :: 0 <= i < |r| ==> r[i].text == ""
    ensures id1 != id2 ==> UniqueIds(r)
  {
    [OptionItem(id1, ""), OptionItem(id2, "")]
  }

  /** The form as first shown: empty text, multiple choice, two empty options. */
  function InitialForm(id1: string, id2: string): (r: FormState)
    ensures r.text == "" && r.qtype == MultipleChoice && |r.options| == 2
    ensures forall i :: 0 <= i < |r.options| ==> r.options[i].text == ""
  {
    FormState("", MultipleChoice, InitialOptions(id1, id2))
  }

  /** `handleAddOption`: one empty option with the fresh id appended at the end. */
  function AddOption(options: seq<OptionItem>, freshId: string): (r: seq<OptionItem>)
    ensures |r| == |options| + 1 && r[..|options|] == options
    ensures r[|options|] == OptionItem(freshId, "")
    ensures UniqueIds(options) && !HasId(options, freshId) ==> UniqueIds(r)
  {
    options + [OptionItem(freshId, "")]
  }

  /** `handleOptionChange`: only the text of the options with id `id` changes. */
  function ChangeOption(options: seq<OptionItem>, id: string, text: string): (r: seq<OptionItem>)
    ensures |r| == |options|
    ensures forall i :: 0 <= i < |r| ==> r[i].id == options[i].id
    ensures forall i :: 0 <= i < |r| ==> r[i].text == if options[i].id == id then text else options[i].text
    ensures UniqueIds(options) ==> UniqueIds(r)
  {
    seq(|options|, i requires 0 <= i < |options| =>
      if options[i].id == id then options[i].(text := text) else options[i])
  }

  /** The options whose id is not `id`, in order (`filter`). */
  function Without(options: seq<OptionItem>, id: string): (r: seq<OptionItem>)
    ensures forall i :: 0 <= i < |r| ==> r[i].id != id && r[i] in options
    ensures forall o :: o in options && o.id != id ==> o in r
    ensures |r| <= |options|
  {
    if options == [] then []
    else
      var rest := Without(options[1..], id);
      if options[0].id == id then rest else [options[0]] + rest
  }

  /** Removal distributes over concatenation, so the options keep their order. */
  lemma {:induction false} WithoutAppend(a: seq<OptionItem>, b: seq<OptionItem>, id: string)
    ensures Without(a + b, id) == Without(a, id) + Without(b, id)
  {
    if a == [] {
      assert a + b == b;
    } else {
      assert (a + b)[0] == a[0];
      assert (a + b)[1..] == a[1..] + b;
      WithoutAppend(a[1..], b, id);
    }
  }

  /** With unique ids, removing an id takes out at most one option, and exactly one if present. */
  lemma {:induction false} WithoutLength(options: seq<OptionItem>, id: string)
    requires UniqueIds(options)
    ensures |Without(options, id)| == |options| - (if HasId(options, id) then 1 else 0)
  {
    if options != [] {
      var tail := options[1..];
      assert UniqueIds(tail);
      WithoutLength(tail, id);
      assert forall i :: 0 <= i < |tail| ==> tail[i] == options[i + 1];
      if HasId(tail, id) {
        var i :| 0 <= i < |tail| && tail[i].id == id;
        assert options[i + 1].id == id;
        assert options[0].id != id;
      } else if HasId(options, id) {
        var i :| 0 <= i < |options| && options[i].id == id;
        if i > 0 { assert tail[i - 1].id == id; }
      }
    }
  }

  /**
   * `handleRemoveOption`: with two or fewer options nothing changes;
   * otherwise the options with id `id` are dropped.
   */
  function RemoveOption(options: seq<OptionItem>, id: string): (r: seq<OptionItem>)
    ensures |options| <= 2 ==> r == options
    ensures |options| > 2 ==> r == Without(options, id)
  {
    if |options| <= 2 then options else Without(options, id)
  }

  /** With unique ids the option list never drops below two entries. */
  lemma RemoveKeepsTwo(options: seq<OptionItem>, id: string)
    requires UniqueIds(options) && |options| >= 2
    ensures |RemoveOption(options, id)| >= 2
  {
    if |options| > 2 {
      WithoutLength(options, id);
    }
  }

  /**
   * The options whose text is not blank, in order and untrimmed: the source's
   * `option.text.trim() !== ''`, which by `Trim`'s contract is `!IsBlank`.
   */
  function NonBlank(options: seq<OptionItem>): (r: seq<OptionItem>)
    ensures |r| <= |options|
    ensures forall i :: 0 <= i < |r| ==> !IsBlank(r[i].text) && r[i] in options
  {
    if options == [] then []
    else
      var rest := NonBlank(options[1..]);
      if !IsBlank(options[0].text) then [options[0]] + rest else rest
  }

  /** An option is kept exactly when it is one of the options and its text is not blank. */
  lemma {:induction false} NonBlankMembers(options: seq<OptionItem>, o: OptionItem)
    ensures o in NonBlank(options) <==> o in options && !IsBlank(o.text)
  {
    if options != [] {
      NonBlankMembers(options[1..], o);
      assert options == [options[0]] + options[1..];
    }
  }

  /** Keeping the non-blank options commutes with concatenation, so their order is kept. */
  lemma {:induction false} NonBlankAppend(a: seq<OptionItem>, b: seq<OptionItem>)
    ensures NonBlank(a + b) == NonBlank(a) + NonBlank(b)
  {
    if a == [] {
      assert a + b == b;
    } else {
      assert (a + b)[0] == a[0];
      assert (a + b)[1..] == a[1..] + b;
      NonBlankAppend(a[1..], b);
      if !IsBlank(a[0].text) {
        assert NonBlank(a + b) == [a[0]] + NonBlank(a[1..] + b);
        assert NonBlank(a) == [a[0]] + NonBlank(a[1..]);
      } else {
        assert NonBlank(a + b) == NonBlank(a[1..] + b);
      }
    }
  }

  /** The outcome of a submit: the question created (if any), the new form, and whether an alert was shown. */
  datatype SubmitOutcome = SubmitOutcome(created: Option<Question>, form: FormState, alerted: bool)

  /**
   * `handleSubmit`: blank question text creates nothing and changes nothing;
   * a multiple-choice question needs at least two non-blank options, else an
   * alert is shown and nothing else happens; otherwise the question is
   * created under the fresh id `questionId`, with the text as typed and (for
   * multiple choice only) the non-blank options, and the form is reset with
   * the fresh option ids `id1` and `id2`.
   */
  function Submit(form: FormState, questionId: string, id1: string, id2: string): (r: SubmitOutcome)
    ensures IsBlank(form.text) ==> r == SubmitOutcome(None, form, false)
    ensures !IsBlank(form.text) && form.qtype == MultipleChoice && |NonBlank(form.options)| < 2 ==>
      r == SubmitOutcome(None, form, true)
    ensures r.created.Some? <==>
      !IsBlank(form.text) && (form.qtype == MultipleChoice ==> |NonBlank(form.options)| >= 2)
    ensures r.created.Some? ==>
      r.created.value.id == questionId && r.created.value.text == form.text &&
      r.created.value.qtype == form.qtype && !r.alerted && r.form == InitialForm(id1, id2) &&
      r.created.value.options == if form.qtype == MultipleChoice then Some(NonBlank(form.options)) else None
  {
    if Trim(form.text) == "" then SubmitOutcome(None, form, false)
    else if form.qtype == MultipleChoice then
      var valid := NonBlank(form.options);
      if |valid| < 2 then SubmitOutcome(None, form, true)
      else SubmitOutcome(Some(Question(questionId, MultipleChoice, form.text, Some(valid))),
                         InitialForm(id1, id2), false)
    else SubmitOutcome(Some(Question(questionId, form.qtype, form.text, None)), InitialForm(id1, id2), false)
  }

  /**
   * Every multiple-choice question the form creates has at least two options,
   * none with blank text, and with unique option ids when the form had them.
   */
  lemma CreatedChoiceQuestionWellFormed(form: FormState, questionId: string, id1: string, id2: string)
    requires UniqueIds(form.options)
    ensures var r := Submit(form, questionId, id1, id2);
      r.created.Some? && r.created.value.qtype == MultipleChoice ==>
        r.created.value.options.Some? && |r.created.value.options.value| >= 2 &&
        UniqueIds(r.created.value.options.value) &&
        forall i :: 0 <= i < |r.created.value.options.value| ==> !IsBlank(r.created.value.options.value[i].text)
  {
    NonBlankUnique(form.options);
  }

  /** Keeping some options keeps their ids unique. */
  lemma {:induction false} NonBlankUnique(options: seq<OptionItem>)
    requires UniqueIds(options)
    ensures UniqueIds(NonBlank(options))
  {
    if options != [] {
      var tail := options[1..];
      assert UniqueIds(tail);
      NonBlankUnique(tail);
      var r := NonBlank(options);
      if !IsBlank(options[0].text) {
        forall j | 0 < j < |r| ensures r[0].id != r[j].id {
          NonBlankMembers(tail, r[j]);
          assert r[j] == NonBlank(tail)[j - 1];
          var k :| 0 <= k < |tail| && tail[k] == r[j];
          assert options[k + 1] == r[j];
        }
      }
    }
  }
}
