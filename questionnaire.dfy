/**
 * The fixed list of questions the waitlist form walks through
 * (src/components/Form.tsx, the `Question` interface and `QUESTIONS`).
 */
module Questionnaire {

  /** The input affordance a question renders, which also decides how its answer is stored. */
  datatype InputKind = Text | Email | Url | Select | Textarea | Multiselect

  /** One question; `options` is empty where the source leaves it out. */
  datatype Question = Question(
    id: string,
    text: string,
    placeholder: string,
    kind: InputKind,
    options: seq<string>,
    required: bool)

  /** The eight questions, in the order the form asks them. */
  const Questions: seq<Question> := [
    Question("email", "Where should we reach you?", "you@brand.com", Email, [], true),
    Question("name", "What should we call you?", "Your name", Text, [], true),
    Question("brandName", "What\U{2019}s your brand called?", "Brand name", Text, [], true),
    Question("website", "Do you have a website or store link?", "https://yourbrand.com", Url, [], true),
    Question("teamSize", "How big is your team right now?", "Select team size", Select,
      ["Just me", "2\U{2013}5 people", "6\U{2013}20 people", "20+ people"], true),
    Question("brandStage", "Where is your brand today?", "Select brand stage", Select,
      ["Just an idea", "Getting ready to launch", "Already live"], true),
    Question("needs", "What do you want help with?", "Choose all that apply", Multiselect,
      ["Research & planning", "Brand look & theme", "Custom AI setup", "Product try-ons",
       "Photoshoots", "Exports for marketplaces or social", "Launch & growth strategy"], true),
    Question("notes", "Anything else you\U{2019}d like to share?", "Optional \U{2014} context, goals, or ideas",
      Textarea, [], false)
  ]

  /** The ids of all questions: the only keys the answer map ever holds. */
  const Ids: set<string> := set i | 0 <= i < |Questions| :: Questions[i].id

  /** No two questions share an id, so an answer key names exactly one question. */
  lemma IdsDistinct()
    ensures forall i, j :: 0 <= i < j < |Questions| ==> Questions[i].id != Questions[j].id
  {
  }

  /** `notes`, the last question, is the only one that may be skipped. */
  lemma OnlyNotesIsOptional()
    ensures |Questions| == 8 && Questions[|Questions| - 1].id == "notes"
    ensures forall i :: 0 <= i < |Questions| ==> (!Questions[i].required <==> Questions[i].id == "notes")
  {
  }

  /** The ids, written out. */
  lemma IdsAre()
    ensures Ids == {"email", "name", "brandName", "website", "teamSize", "brandStage", "needs", "notes"}
  {
    assert Questions[0].id == "email" && Questions[1].id == "name" && Questions[2].id == "brandName";
    assert Questions[3].id == "website" && Questions[4].id == "teamSize" && Questions[5].id == "brandStage";
    assert Questions[6].id == "needs" && Questions[7].id == "notes";
  }
}
