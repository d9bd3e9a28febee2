/**
 * The JSON body `submitForm` POSTs to the waitlist endpoint
 * (src/components/Form.tsx, the `payload` object).
 */
module Submission {
  import opened Wrappers
  import opened Questionnaire
  import opened Answers

  /**
   * A JSON object whose values are strings or arrays of strings, after
   * `JSON.stringify`: a property whose value is `undefined` is absent.
   */
  type Body = map<string, Answer>

  /** The answers that pass through under their own or a new name: (question id, JSON key). */
  const Renames: seq<(string, string)> := [
    ("email", "email"),
    ("name", "name"),
    ("brandName", "company_name"),
    ("website", "website"),
    ("teamSize", "team_size"),
    ("brandStage", "brand_stage"),
    ("notes", "additional_info")
  ]

  /** The JSON key that carries the `needs` answer, always as an array. */
  const PrimaryNeedKey := "primary_need"

  /** Every key the body may have. */
  const BodyKeys: set<string> :=
    {"email", "name", "company_name", "website", "team_size", "brand_stage", "primary_need", "additional_info"}

  /**
   * `Array.isArray(needs) ? needs : [needs as string].filter(Boolean)`:
   * the stored list, or a one-element list of a non-empty string, or `[]`.
   */
  function PrimaryNeed(needs: Option<Answer>): (r: seq<string>)
    ensures needs.Some? && needs.value.Multi? ==> r == needs.value.items
    ensures !(needs.Some? && needs.value.Multi?) ==> |r| <= 1 && (r != [] <==> Truthy(needs))
    ensures !(needs.Some? && needs.value.Multi?) && r != [] ==> needs == Some(Single(r[0]))
  {
    match needs
    case Some(Multi(xs)) => xs
    case Some(Single(s)) => if s != "" then [s] else []
    case None => []
  }

  /** The value the payload object literal gives the property `key`; `None` is `undefined`. */
  function Property(answers: map<string, Answer>, key: string): Option<Answer>
  {
    match key
    case "email" => Get(answers, "email")
    case "name" => Get(answers, "name")
    case "company_name" => Get(answers, "brandName")
    case "website" => Get(answers, "website")
    case "team_size" => Get(answers, "teamSize")
    case "brand_stage" => Get(answers, "brandStage")
    case "primary_need" => Some(Multi(PrimaryNeed(Get(answers, "needs"))))
    case "additional_info" => Get(answers, "notes")
    case _ => None
  }

  /**
   * The payload built from the answer map: each answer of `Renames` under
   * its JSON key when it was given, and `primary_need` always, as an array.
   */
  function Payload(answers: map<string, Answer>): (body: Body)
    ensures body.Keys <= BodyKeys
    ensures PrimaryNeedKey in body && body[PrimaryNeedKey] == Multi(PrimaryNeed(Get(answers, "needs")))
    ensures forall k :: 0 <= k < |Renames| ==>
      && (Renames[k].1 in body <==> Renames[k].0 in answers)
      && (Renames[k].0 in answers ==> body[Renames[k].1] == answers[Renames[k].0])
  {
    map key | key in BodyKeys && Property(answers, key).Some? :: Property(answers, key).value
  }

  /** The answer the inverse renaming reads back for question `id`; an empty `primary_need` reads as no answer. */
  function Recovered(body: Body, id: string): Option<Answer>
  {
    match id
    case "email" => Get(body, "email")
    case "name" => Get(body, "name")
    case "brandName" => Get(body, "company_name")
    case "website" => Get(body, "website")
    case "teamSize" => Get(body, "team_size")
    case "brandStage" => Get(body, "brand_stage")
    case "needs" => if PrimaryNeedKey in body && body[PrimaryNeedKey] != Multi([]) then Some(body[PrimaryNeedKey]) else None
    case "notes" => Get(body, "additional_info")
    case _ => None
  }

  /** The inverse renaming: the answer map a body was built from. */
  function AnswersOf(body: Body): map<string, Answer>
  {
    map id | id in Ids && Recovered(body, id).Some? :: Recovered(body, id).value
  }

  /** Question by question, the body reads back the answer it was built from. */
  lemma RecoveredAnswer(answers: map<string, Answer>, id: string)
    requires id in Ids
    requires "needs" in answers ==> answers["needs"].Multi? && answers["needs"].items != []
    ensures Recovered(Payload(answers), id) == Get(answers, id)
  {
  }

  /**
   * Nothing is lost or invented on the way to the JSON body: for an answer
   * map keyed by question ids whose `needs` answer, if any, is a non-empty
   * list, reading the body back gives the same map.
   */
  lemma PayloadRoundTrip(answers: map<string, Answer>)
    requires answers.Keys <= Ids
    requires "needs" in answers ==> answers["needs"].Multi? && answers["needs"].items != []
    ensures AnswersOf(Payload(answers)) == answers
  {
    var body := Payload(answers);
    var back := AnswersOf(body);
    forall id | id in Ids ensures Recovered(body, id) == Get(answers, id) {
      RecoveredAnswer(answers, id);
    }
    assert back.Keys == answers.Keys;
  }

  /** The keys that carry the answers to required email, text, url and select questions. */
  const RequiredKeys: set<string> := {"email", "name", "company_name", "website", "team_size", "brand_stage"}

  /** A required question that passes the check shows up in the body under its JSON key, not blank. */
  lemma RequiredFieldInPayload(answers: map<string, Answer>, k: int)
    requires 0 <= k < 6 && Passes(answers, k)
    ensures Renames[k].1 in Payload(answers) && !IsBlank(Some(Payload(answers)[Renames[k].1]))
  {
  }

  /** A `needs` answer that passes the required check yields at least one primary need. */
  lemma PrimaryNeedOfPassingAnswer(needs: Option<Answer>)
    requires !IsBlank(needs)
    ensures PrimaryNeed(needs) != []
  {
  }

  /** Required questions that pass the check all show up in the body, not blank. */
  lemma RequiredFieldsOfPassingAnswers(answers: map<string, Answer>)
    requires forall k :: 0 <= k < 6 ==> Passes(answers, k)
    ensures forall key :: key in RequiredKeys ==> key in Payload(answers) && !IsBlank(Some(Payload(answers)[key]))
  {
    forall k | 0 <= k < 6 ensures Renames[k].1 in Payload(answers) && !IsBlank(Some(Payload(answers)[Renames[k].1])) {
      RequiredFieldInPayload(answers, k);
    }
    assert RequiredKeys == {Renames[0].1, Renames[1].1, Renames[2].1, Renames[3].1, Renames[4].1, Renames[5].1};
  }

  /**
   * When every question passes the required check, as it has when the form
   * submits, the body carries a non-blank value under every required key and
   * at least one primary need.
   */
  lemma PayloadOfPassingAnswers(answers: map<string, Answer>)
    requires forall i :: 0 <= i < |Questions| ==> Passes(answers, i)
    ensures var body := Payload(answers);
      && (forall key :: key in RequiredKeys ==> key in body && !IsBlank(Some(body[key])))
      && body[PrimaryNeedKey].items != []
  {
    RequiredFieldsOfPassingAnswers(answers);
    assert Passes(answers, 6);
    assert Questions[6].id == "needs";
    PrimaryNeedOfPassingAnswer(Get(answers, "needs"));
  }
}
