/** The list of questions a quiz import collects (`Questions` of the current
    generation): questions are appended one by one, and only valid ones are
    let in. */
module Questions {
  import opened PyValue
  import Question

  /** What `add` may be handed: it first checks `isinstance(question, Question)`. */
  datatype Candidate = AQuestion(question: Question.Question) | NotAQuestion

  /** `isinstance(question, Question) and question.validate()`. */
  predicate Admits(c: Candidate)
  {
    c.AQuestion? && Question.Validate(c.question)
  }

  /** Python's `if questions:` on the constructor's argument: `None` or an empty list is falsy. */
  function InitialList(questions: Option<seq<Question.Question>>): (r: seq<Question.Question>)
    ensures questions.Some? && questions.value != [] ==> r == questions.value
    ensures questions.None? ==> r == []
    ensures questions == Some([]) ==> r == []
  {
    if questions.Some? && questions.value != [] then questions.value else []
  }

  /** Every question of the list validates. Neither constructor enforces
      this; appending through `add` preserves it. */
  predicate AllValidate(qs: seq<Question.Question>)
  {
    forall i :: 0 <= i < |qs| ==> Question.Validate(qs[i])
  }

  class Questions {
    var questions: seq<Question.Question>

    /** `Questions(questions)`: the given list, or a new empty one when the
        argument is falsy; nothing is validated here. */
    constructor (init: Option<seq<Question.Question>>)
      ensures questions == InitialList(init)
    {
      questions := InitialList(init);
    }

    /** `add`: appends the question at the end when it is a valid question;
        otherwise the list is left as it was. */
    method Add(c: Candidate)
      modifies this
      ensures questions == if Admits(c) then old(questions) + [c.question] else old(questions)
      ensures old(questions) <= questions
      ensures |questions| == |old(questions)| + (if Admits(c) then 1 else 0)
      ensures old(AllValidate(questions)) ==> AllValidate(questions)
    {
      if c.AQuestion? && Question.Validate(c.question) {
        questions := questions + [c.question];
      }
    }

    /** `get_number_of_questions`. */
    function NumberOfQuestions(): (n: nat)
      reads this
      ensures n == |questions|
    {
      |questions|
    }
  }
}
