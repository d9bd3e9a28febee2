/**
 * The waitlist form controller of src/components/Form.tsx: the component
 * state (`step`, `answers`, `error`, `isSubmitting`) and the handlers that
 * update it. Each handler runs to completion; the outcome of the network
 * request is a parameter.
 */
module WaitlistForm {
  import opened Wrappers
  import opened Questionnaire
  import opened Answers
  import opened Submission

  const RequiredMessage := "This field is required to proceed."
  const SubmitFailedMessage := "Something went wrong. Please try again."

  /**
   * Answers as the handlers leave them: keyed by question ids, a list
   * exactly under the multiselect question, and no option picked twice.
   */
  ghost predicate WellShaped(answers: map<string, Answer>)
  {
    && answers.Keys <= Ids
    && forall i :: 0 <= i < |Questions| && Questions[i].id in answers ==>
         && (answers[Questions[i].id].Multi? <==> Questions[i].kind == Multiselect)
         && (answers[Questions[i].id].Multi? ==> NoDup(answers[Questions[i].id].items))
  }

  /** Every question before `step` passes the required check. */
  ghost predicate PassedBefore(answers: map<string, Answer>, step: int)
    requires step <= |Questions|
  {
    forall i :: 0 <= i < step ==> Passes(answers, i)
  }

  class Form {
    var step: int
    var answers: map<string, Answer>
    var error: string
    var isSubmitting: bool

    /**
     * The step stays within the questions or on the success view; the
     * answers are well shaped; since there is no way back and a handler
     * only writes the current question's answer, every question already
     * left behind still passes the required check; a submission is in
     * flight only from the last question; the success view shows no error.
     */
    ghost predicate Valid()
      reads this
    {
      && 0 <= step <= |Questions|
      && WellShaped(answers)
      && PassedBefore(answers, step)
      && (step == |Questions| ==> error == "" && !isSubmitting)
      && (isSubmitting ==> step == |Questions| - 1)
    }

    /** The state `useState` gives a freshly mounted form. */
    constructor ()
      ensures Valid()
      ensures step == 0 && answers == map[] && error == "" && !isSubmitting
    {
      step := 0;
      answers := map[];
      error := "";
      isSubmitting := false;
    }

    /** The form shows the success view instead of a question. */
    predicate ShowsSuccess()
      reads this
      requires Valid()
      ensures ShowsSuccess() <==> step == |Questions|
    {
      !(step < |Questions|)
    }

    /**
     * `handleNext`: refuse a required question whose answer is blank;
     * otherwise clear the error and either go to the next question or, on
     * the last one, submit. `sent` is the body POSTed, if any.
     */
    method Next(submitOk: bool) returns (sent: Option<Body>)
      requires Valid() && step < |Questions|
      modifies this
      ensures Valid()
      ensures answers == old(answers)
      ensures !Passes(old(answers), old(step)) ==>
        && step == old(step) && error == RequiredMessage && isSubmitting == old(isSubmitting)
        && sent == None
      ensures Passes(old(answers), old(step)) && old(step) < |Questions| - 1 ==>
        && step == old(step) + 1 && error == "" && isSubmitting == old(isSubmitting)
        && sent == None
      ensures Passes(old(answers), old(step)) && old(step) == |Questions| - 1 ==>
        && sent == Some(Payload(old(answers)))
        && !isSubmitting
        && (if submitOk then step == |Questions| && error == ""
            else step == old(step) && error == SubmitFailedMessage)
      ensures sent.Some? ==>
        && (forall key :: key in RequiredKeys ==> key in sent.value && !IsBlank(Some(sent.value[key])))
        && sent.value[PrimaryNeedKey].items != []
      ensures sent.Some? ==> AnswersOf(sent.value) == answers
    {
      var question := Questions[step];
      var current := Get(answers, question.id);
      if question.required {
        if IsBlank(current) {
          error := RequiredMessage;
          return None;
        }
      }
      error := "";
      if step == |Questions| - 1 {
        var body := BeginSubmit();
        FinishSubmit(submitOk);
        sent := Some(body);
      } else {
        PassedOneMore(answers, step);
        step := step + 1;
        sent := None;
      }
    }

    /**
     * The part of `submitForm` before the request: mark the submission in
     * flight, clear the error and build the body from every answer, each
     * of which now passes the required check.
     */
    method BeginSubmit() returns (body: Body)
      requires Valid() && step == |Questions| - 1 && Passes(answers, step)
      modifies this
      ensures Valid()
      ensures step == old(step) && answers == old(answers)
      ensures isSubmitting && error == ""
      ensures body == Payload(answers)
      ensures forall key :: key in RequiredKeys ==> key in body && !IsBlank(Some(body[key]))
      ensures body[PrimaryNeedKey].items != []
      ensures AnswersOf(body) == answers
    {
      isSubmitting := true;
      error := "";
      body := Payload(answers);
      PayloadOfPassingAnswers(answers);
      NeedsIsNonEmptyList(answers);
      PayloadRoundTrip(answers);
    }

    /**
     * The part of `submitForm` after the request: on success move to the
     * success view, on failure stay with the generic error; either way the
     * submission is no longer in flight.
     */
    method FinishSubmit(ok: bool)
      requires Valid() && step == |Questions| - 1 && Passes(answers, step) && error == ""
      modifies this
      ensures Valid()
      ensures answers == old(answers) && !isSubmitting
      ensures ok ==> step == |Questions| && error == ""
      ensures !ok ==> step == old(step) && error == SubmitFailedMessage
    {
      if ok {
        step := step + 1;
      } else {
        error := SubmitFailedMessage;
      }
      isSubmitting := false;
    }

    /**
     * `handleInputChange`: store `value` as the current question's answer,
     * keep every other answer, and clear the error.
     */
    method InputChange(value: string)
      requires Valid() && step < |Questions| && Questions[step].kind != Multiselect
      modifies this
      ensures Valid()
      ensures answers == old(answers)[Questions[old(step)].id := Single(value)]
      ensures step == old(step) && error == "" && isSubmitting == old(isSubmitting)
    {
      var id := Questions[step].id;
      WriteCurrent(answers, step, Single(value));
      answers := answers[id := Single(value)];
      if error != "" {
        error := "";
      }
    }

    /**
     * `handleMultiSelectChange`: toggle `value` in the current question's
     * list (a stored value that is not a list counts as `[]`), keep every
     * other answer, and clear the error.
     */
    method MultiSelectChange(value: string)
      requires Valid() && step < |Questions| && Questions[step].kind == Multiselect
      modifies this
      ensures Valid()
      ensures answers == old(answers)[Questions[old(step)].id := Multi(Toggle(Selected(old(answers), Questions[old(step)].id), value))]
      ensures step == old(step) && error == "" && isSubmitting == old(isSubmitting)
    {
      var id := Questions[step].id;
      var current := Selected(answers, id);
      ToggleKeepsNoDup(current, value);
      WriteCurrent(answers, step, Multi(Toggle(current, value)));
      answers := answers[id := Multi(Toggle(current, value))];
      if error != "" {
        error := "";
      }
    }

    /**
     * The "Start over" button, shown only on the success view: back to the
     * first question with no answers, the state of a freshly mounted form.
     */
    method StartOver()
      requires Valid() && step == |Questions|
      modifies this
      ensures Valid()
      ensures step == 0 && answers == map[]
      ensures error == "" && !isSubmitting
    {
      step := 0;
      answers := map[];
    }
  }

  /** In well-shaped answers, a `needs` answer that passes the required check is a non-empty list. */
  lemma NeedsIsNonEmptyList(answers: map<string, Answer>)
    requires WellShaped(answers) && Passes(answers, 6)
    ensures "needs" in answers ==> answers["needs"].Multi? && answers["needs"].items != []
  {
  }

  /** Once question `step` passes too, every question before `step + 1` passes. */
  lemma PassedOneMore(answers: map<string, Answer>, step: int)
    requires 0 <= step < |Questions|
    requires PassedBefore(answers, step) && Passes(answers, step)
    ensures PassedBefore(answers, step + 1)
  {
  }

  /**
   * Writing an answer of the right shape for question `step` keeps the
   * answers well shaped, and keeps the answer of every question before
   * `step`, so those still pass.
   */
  lemma WriteCurrent(answers: map<string, Answer>, step: int, a: Answer)
    requires 0 <= step < |Questions|
    requires WellShaped(answers) && PassedBefore(answers, step)
    requires a.Multi? <==> Questions[step].kind == Multiselect
    requires a.Multi? ==> NoDup(a.items)
    ensures var after := answers[Questions[step].id := a];
      WellShaped(after) && PassedBefore(after, step)
  {
    IdsDistinct();
    var id := Questions[step].id;
    var after := answers[id := a];
    assert id in Ids;
    forall i | 0 <= i < step ensures Passes(after, i) {
      assert Questions[i].id != id;
      assert Get(after, Questions[i].id) == Get(answers, Questions[i].id);
      assert Passes(answers, i);
    }
  }
}
