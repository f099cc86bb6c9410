/** The older draft of the question list (structures/questions.py at the
    repository root), over the draft questions. */
module DraftQuestions {
  import opened PyValue
  import DraftQuestion

  /** What `add` may be handed: it first checks `isinstance(question, Question)`. */
  datatype Candidate = AQuestion(question: DraftQuestion.Question) | NotAQuestion

  /** `isinstance(question, Question) and question.validate()`. */
  predicate Admits(c: Candidate)
  {
    c.AQuestion? && DraftQuestion.Validate(c.question)
  }

  /** Every question of the list validates under the draft's rules. */
  predicate AllValidate(qs: seq<DraftQuestion.Question>)
  {
    forall i :: 0 <= i < |qs| ==> DraftQuestion.Validate(qs[i])
  }

  class Questions {
    var questions: seq<DraftQuestion.Question>

    /** `Questions(questions)`: the given list, or a new empty one when the
        argument is `None` or empty. */
    constructor (init: Option<seq<DraftQuestion.Question>>)
      ensures questions == if init.Some? && init.value != [] then init.value else []
    {
      questions := if init.Some? && init.value != [] then init.value else [];
    }

    /** `add`: appends a valid question at the end; anything else leaves the
        list as it was. */
    method Add(c: Candidate)
      modifies this
      ensures questions == if Admits(c) then old(questions) + [c.question] else old(questions)
      ensures old(questions) <= questions
      ensures old(AllValidate(questions)) ==> AllValidate(questions)
    {
      if c.AQuestion? && DraftQuestion.Validate(c.question) {
        questions := questions + [c.question];
      }
    }

    /** `get_number_of_questions`. */
    function NumberOfQuestions(): (n: nat)
      reads this
      ensures n == |questions|
    {
      |questions|
    }
  }
}
