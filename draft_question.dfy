/** The older draft of the question structure (structures/question.py at
    the repository root). Its type check is exact-case, and the condition
    that should select the two choice kinds holds for every type. */
module DraftQuestion {
  import opened PyValue
  import DraftAnswer
  import DraftFeedback

  datatype Question = Question(
    id: Val,
    qtype: string,
    text: Val,
    answers: seq<DraftAnswer.Answer>,
    feedback: seq<DraftFeedback.Feedback>)

  /** `valid_types`. */
  function ValidTypes(): (r: seq<string>)
    ensures |r| == 4
    ensures "Multiple Choice" in r && "Multiple Correct" in r && "Essay Question" in r && "True - False" in r
  {
    ["Multiple Choice", "Multiple Correct", "Essay Question", "True - False"]
  }

  /** `Question(identifier, question_type, text, answers, feedback)`: the
      same defaults as the current generation. */
  function New(
    identifier: Val,
    qtype: string,
    text: Val,
    answers: Option<seq<DraftAnswer.Answer>>,
    feedback: Option<seq<DraftFeedback.Feedback>>): (q: Question)
    ensures q.id == identifier && q.qtype == qtype
    ensures q.text == if text == PNone then PStr(" ") else text
    ensures q.answers == if answers.Some? then answers.value else []
    ensures q.feedback == if feedback.Some? then feedback.value else []
  {
    Question(
      identifier,
      qtype,
      if text == PNone then PStr(" ") else text,
      if answers.Some? then answers.value else [],
      if feedback.Some? then feedback.value else [])
  }

  /** The condition `self.type == 'Multiple Choice' or 'Multiple Correct'`
      as Python evaluates it: the `or` yields the non-empty string
      "Multiple Correct" whenever the comparison fails. */
  function ChoiceCondition(qtype: string): (v: Val)
    ensures Truthy(v)
    ensures qtype != "Multiple Choice" ==> v == PStr("Multiple Correct")
  {
    Or(PBool(qtype == "Multiple Choice"), PStr("Multiple Correct"))
  }

  /** The answer loop of `validate`. */
  predicate AnswersValidate(answers: seq<DraftAnswer.Answer>)
    ensures AnswersValidate(answers) <==> forall i :: 0 <= i < |answers| ==> DraftAnswer.Validate(answers[i])
  {
    answers == [] || (DraftAnswer.Validate(answers[0]) && AnswersValidate(answers[1..]))
  }

  /** The feedback loop of `validate`. */
  predicate FeedbackValidates(feedback: seq<DraftFeedback.Feedback>)
    ensures FeedbackValidates(feedback) <==> forall i :: 0 <= i < |feedback| ==> DraftFeedback.Validate(feedback[i])
  {
    feedback == [] || (DraftFeedback.Validate(feedback[0]) && FeedbackValidates(feedback[1..]))
  }

  /** `validate`, as written: the id, the exact-case type, the text, then
      the answer rule under the always-true condition, the true/false rule
      and the essay rule. */
  predicate Validate(q: Question)
    ensures Validate(q) ==> Truthy(q.id) && q.qtype in ValidTypes() && Truthy(q.text) && q.text != PStr(" ")
    ensures Validate(q) ==> |q.answers| >= 2
  {
    if !Truthy(q.id) then false
    else if q.qtype !in ValidTypes() then false
    else if !Truthy(q.text) || q.text == PStr(" ") then false
    else if Truthy(ChoiceCondition(q.qtype)) && (|q.answers| < 2 || !AnswersValidate(q.answers)) then false
    else if q.qtype == "True - False" && (|q.answers| != 2 || !AnswersValidate(q.answers)) then false
    else if q.qtype == "Essay Question" && (|q.feedback| == 0 || !FeedbackValidates(q.feedback)) then false
    else true
  }

  /** What the draft's `validate` accepts: a truthy id, one of the four type
      names in exactly this case, a text other than the blank, at least two
      answers that all validate whatever the type, exactly two for
      true/false, and at least one feedback entry for an essay. */
  lemma ValidateMeans(q: Question)
    ensures Validate(q) <==>
      && Truthy(q.id)
      && q.qtype in ValidTypes()
      && Truthy(q.text) && q.text != PStr(" ")
      && |q.answers| >= 2
      && (forall i :: 0 <= i < |q.answers| ==> DraftAnswer.Validate(q.answers[i]))
      && (q.qtype == "True - False" ==> |q.answers| == 2)
      && (q.qtype == "Essay Question" ==> |q.feedback| >= 1)
  {
    assert Truthy(ChoiceCondition(q.qtype));
  }

  /** An essay question needs two valid answers in this draft, though an
      essay is answered in free text: one with a model answer and no
      answers at all is refused. */
  lemma EssayWithoutAnswersRejected()
    ensures !Validate(Question(PStr("q1"), "Essay Question", PStr("Explain recursion."), [],
      [DraftFeedback.Feedback(PStr("Model"), PStr("A function that calls itself."))]))
  {
    assert Truthy(ChoiceCondition("Essay Question"));
  }
}
