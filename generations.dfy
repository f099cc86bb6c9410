/** Where the two generations of the quiz structures part ways: the
    current one under the package directory, and the older draft at the
    repository root. */
module Generations {
  import opened PyValue
  import Answer
  import Feedback
  import Question
  import DraftAnswer
  import DraftFeedback
  import DraftQuestion

  /** A current answer as the draft would hold it: the label is the draft's id. */
  function DraftOfAnswer(a: Answer.Answer): DraftAnswer.Answer
  {
    DraftAnswer.Answer(PStr(a.identifier), a.text, a.correct)
  }

  function DraftOfFeedback(f: Feedback.Feedback): DraftFeedback.Feedback
  {
    DraftFeedback.Feedback(f.identifier, f.text)
  }

  /** A current question as the draft would hold it, field by field. */
  function DraftOf(q: Question.Question): (d: DraftQuestion.Question)
    ensures d.id == q.id && d.qtype == q.qtype && d.text == q.text
    ensures |d.answers| == |q.answers| && |d.feedback| == |q.feedback|
    ensures forall i :: 0 <= i < |q.answers| ==> d.answers[i] == DraftOfAnswer(q.answers[i])
    ensures forall i :: 0 <= i < |q.feedback| ==> d.feedback[i] == DraftOfFeedback(q.feedback[i])
  {
    DraftQuestion.Question(
      q.id, q.qtype, q.text,
      seq(|q.answers|, i requires 0 <= i < |q.answers| => DraftOfAnswer(q.answers[i])),
      seq(|q.feedback|, i requires 0 <= i < |q.feedback| => DraftOfFeedback(q.feedback[i])))
  }

  /** Both generations accept exactly the same answers. */
  lemma AnswerValidationAgrees(identifier: string, text: Val, correct: Val, key: Val, generated: string)
    ensures DraftAnswer.Validate(DraftAnswer.New(PStr(identifier), text, correct))
        == Answer.Validate(Answer.New(identifier, text, correct, key, generated))
  {
  }

  /** The draft keeps every label; the current generation keeps it exactly
      when it is not an eight-character "CHOICE_" label. */
  lemma AnswerLabelsDiffer(identifier: string, text: Val, correct: Val, key: Val, generated: string)
    ensures DraftAnswer.New(PStr(identifier), text, correct).id == PStr(identifier)
    ensures Answer.New(identifier, text, correct, key, generated).identifier == identifier
        <==> !(Answer.ChoicePrefix <= identifier && |identifier| == 8)
    ensures Answer.New("CHOICE_B", text, correct, key, generated).identifier == "B"
  {
    assert Answer.ChoicePrefix <= "CHOICE_B";
  }

  /** The feedback texts of the two generations differ exactly for a falsy
      text other than `None` (the empty string, say): the draft keeps it,
      the current generation replaces it by a blank. */
  lemma FeedbackTextsDiffer(identifier: Val, text: Val, key: Val, generated: Val)
    ensures DraftFeedback.New(identifier, text).text != Feedback.New(identifier, text, key, generated).text
        <==> !Truthy(text) && text != PNone
  {
  }

  lemma DraftAnswersValidate(q: Question.Question)
    ensures DraftQuestion.AnswersValidate(DraftOf(q).answers) == Question.AnswersValidate(q.answers)
  {
  }

  /** Every question the draft accepts, the current generation accepts too. */
  lemma DraftValidationIsStricter(q: Question.Question)
    ensures DraftQuestion.Validate(DraftOf(q)) ==> Question.Validate(q)
  {
    var d := DraftOf(q);
    if DraftQuestion.Validate(d) {
      DraftQuestion.ValidateMeans(d);
      DraftAnswersValidate(q);
      var i :| 0 <= i < 4 && q.qtype == Question.ValidTypes()[i];
      assert Lower(q.qtype) == Question.ValidTypesLower()[i];
    }
  }

  /** The current generation accepts a question the draft refuses exactly
      when its type names a kind only in another letter case, or it is an
      essay without two valid answers. */
  lemma WhereValidationDiffers(q: Question.Question)
    ensures Question.Validate(q) && !DraftQuestion.Validate(DraftOf(q)) <==>
      && Question.Validate(q)
      && (|| Question.KindOf(q.qtype).None?
          || (q.qtype == "Essay Question" && (|q.answers| < 2 || !Question.AnswersValidate(q.answers))))
  {
    DraftValidationIsStricter(q);
    DraftQuestion.ValidateMeans(DraftOf(q));
    Question.ValidateByKind(q);
    DraftAnswersValidate(q);
  }

  /** The essay question the draft refuses for lack of answers is valid in
      the current generation. */
  lemma EssayWithoutAnswersNowValid()
    ensures var q := Question.Question(PStr("q1"), "Essay Question", PStr("Explain recursion."), [],
      [Feedback.Feedback(PStr("f1"), PStr("Model"), PStr("A function that calls itself."))]);
      Question.Validate(q) && !DraftQuestion.Validate(DraftOf(q))
  {
    var q := Question.Question(PStr("q1"), "Essay Question", PStr("Explain recursion."), [],
      [Feedback.Feedback(PStr("f1"), PStr("Model"), PStr("A function that calls itself."))]);
    assert Lower("Essay Question") == Question.ValidTypesLower()[2];
  }
}
