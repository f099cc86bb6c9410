/** A quiz question, as the current generation of the quiz structures keeps
    it: an id, a type naming its kind, a text, and lists of answers and
    feedback entries. `validate` decides whether a question may join a quiz;
    `get` renders it as the message a learner receives. */
module Question {
  import opened PyValue
  import Answer
  import Feedback

  datatype Question = Question(
    id: Val,
    qtype: string,
    text: Val,
    answers: seq<Answer.Answer>,
    feedback: seq<Feedback.Feedback>)

  /** The four kinds of question, one per supported type name. */
  datatype Kind = MultipleChoice | MultipleCorrect | EssayQuestion | TrueFalse

  function KindName(k: Kind): string
  {
    match k
    case MultipleChoice => "Multiple Choice"
    case MultipleCorrect => "Multiple Correct"
    case EssayQuestion => "Essay Question"
    case TrueFalse => "True - False"
  }

  /** `valid_types`: the four type names, in this order. */
  function ValidTypes(): (r: seq<string>)
    ensures |r| == 4
    ensures forall k: Kind :: KindName(k) in r
    ensures forall t :: t in r ==> exists k: Kind :: KindName(k) == t
  {
    var r := ["Multiple Choice", "Multiple Correct", "Essay Question", "True - False"];
    assert r[0] == KindName(MultipleChoice) && r[1] == KindName(MultipleCorrect);
    assert r[2] == KindName(EssayQuestion) && r[3] == KindName(TrueFalse);
    r
  }

  /** `valid_types_lower`: the same names, lower-cased, in the same order. */
  function ValidTypesLower(): (r: seq<string>)
    ensures |r| == |ValidTypes()|
    ensures forall i :: 0 <= i < |r| ==> r[i] == Lower(ValidTypes()[i])
  {
    ["multiple choice", "multiple correct", "essay question", "true - false"]
  }

  /** The kind a type string names when compared exactly, as the per-kind
      rules of `validate` compare it; `None` for every other string. */
  function KindOf(t: string): (r: Option<Kind>)
    ensures r.Some? ==> KindName(r.value) == t
    ensures r.None? ==> t !in ValidTypes()
  {
    if t == "Multiple Choice" then Some(MultipleChoice)
    else if t == "Multiple Correct" then Some(MultipleCorrect)
    else if t == "Essay Question" then Some(EssayQuestion)
    else if t == "True - False" then Some(TrueFalse)
    else None
  }

  /** `Question(identifier, question_type, text, answers, feedback)`: a
      missing text becomes a single blank, missing lists become empty. */
  function New(
    identifier: Val,
    qtype: string,
    text: Val,
    answers: Option<seq<Answer.Answer>>,
    feedback: Option<seq<Feedback.Feedback>>): (q: Question)
    ensures q.id == identifier && q.qtype == qtype
    ensures q.text == if text == PNone then PStr(" ") else text
    ensures q.answers == if answers.Some? then answers.value else []
    ensures q.feedback == if feedback.Some? then feedback.value else []
  {
    Question(
      identifier,
      qtype,
      if text == PNone then PStr(" ") else text,
      if answers.Some? then answers.value else [],
      if feedback.Some? then feedback.value else [])
  }

  /** A question built without a text gets the blank placeholder, which
      `validate` refuses: it can never join a quiz. */
  lemma NewWithoutTextIsInvalid(
    identifier: Val,
    qtype: string,
    answers: Option<seq<Answer.Answer>>,
    feedback: Option<seq<Feedback.Feedback>>)
    ensures !Validate(New(identifier, qtype, PNone, answers, feedback))
  {
  }

  /** The loop `for answer in answers: if not answer.validate(): return False`. */
  predicate AnswersValidate(answers: seq<Answer.Answer>)
    ensures AnswersValidate(answers) <==> forall i :: 0 <= i < |answers| ==> Answer.Validate(answers[i])
  {
    answers == [] || (Answer.Validate(answers[0]) && AnswersValidate(answers[1..]))
  }

  /** The loop `for feedback in self.feedback: if not feedback.validate(): return False`. */
  predicate FeedbackValidates(feedback: seq<Feedback.Feedback>)
    ensures FeedbackValidates(feedback) <==> forall i :: 0 <= i < |feedback| ==> Feedback.Validate(feedback[i])
  {
    feedback == [] || (Feedback.Validate(feedback[0]) && FeedbackValidates(feedback[1..]))
  }

  /** The text check of `validate`: truthy and not the single blank. */
  predicate HasText(text: Val)
  {
    Truthy(text) && text != PStr(" ")
  }

  /** `validate`, check by check: the id, the type (compared after
      lower-casing), the text, then the answer or feedback rule of the
      kind (compared exactly). */
  predicate Validate(q: Question)
    ensures Validate(q) ==> Truthy(q.id) && Lower(q.qtype) in ValidTypesLower() && HasText(q.text)
    ensures Validate(q) && KindOf(q.qtype) in {Some(MultipleChoice), Some(MultipleCorrect)} ==>
      |q.answers| >= 2 && AnswersValidate(q.answers)
    ensures Validate(q) && KindOf(q.qtype) == Some(TrueFalse) ==> |q.answers| == 2 && AnswersValidate(q.answers)
    ensures Validate(q) && KindOf(q.qtype) == Some(EssayQuestion) ==> |q.feedback| >= 1 && FeedbackValidates(q.feedback)
  {
    if !Truthy(q.id) then false
    else if Lower(q.qtype) !in ValidTypesLower() then false
    else if !Truthy(q.text) || q.text == PStr(" ") then false
    else if (q.qtype == "Multiple Choice" || q.qtype == "Multiple Correct")
      && (|q.answers| < 2 || !AnswersValidate(q.answers)) then false
    else if q.qtype == "True - False" && (|q.answers| != 2 || !AnswersValidate(q.answers)) then false
    else if q.qtype == "Essay Question" && (|q.feedback| == 0 || !FeedbackValidates(q.feedback)) then false
    else true
  }

  /** What a question of each kind needs besides an id, a valid type and a
      text. A type that is valid only after lower-casing has no kind and
      needs nothing more. */
  predicate KindRule(k: Option<Kind>, answers: seq<Answer.Answer>, feedback: seq<Feedback.Feedback>)
  {
    match k
    case Some(MultipleChoice) | Some(MultipleCorrect) =>
      |answers| >= 2 && forall i :: 0 <= i < |answers| ==> Answer.Validate(answers[i])
    case Some(TrueFalse) =>
      |answers| == 2 && forall i :: 0 <= i < |answers| ==> Answer.Validate(answers[i])
    case Some(EssayQuestion) =>
      |feedback| >= 1 && forall i :: 0 <= i < |feedback| ==> Feedback.Validate(feedback[i])
    case None => true
  }

  /** `validate` agrees with the per-kind statement of its rules. */
  lemma ValidateByKind(q: Question)
    ensures Validate(q) <==>
      && Truthy(q.id)
      && Lower(q.qtype) in ValidTypesLower()
      && HasText(q.text)
      && KindRule(KindOf(q.qtype), q.answers, q.feedback)
  {
  }

  /** A falsy id, a falsy text or the blank text each make a question invalid;
      so does a type that is not one of the four names in any letter case. */
  lemma ValidateNeedsIdTypeAndText(q: Question)
    ensures !Truthy(q.id) ==> !Validate(q)
    ensures !HasText(q.text) ==> !Validate(q)
    ensures Lower(q.qtype) !in ValidTypesLower() ==> !Validate(q)
  {
  }

  /** The type check ignores letter case, the kind rules do not: a type such
      as "multiple choice" passes the check and then no answer or feedback
      rule applies at all. */
  lemma OtherCaseSkipsKindRules(q: Question)
    requires Lower(q.qtype) in ValidTypesLower() && KindOf(q.qtype).None?
    ensures Validate(q) <==> Truthy(q.id) && HasText(q.text)
  {
  }

  /** For instance, a lower-case "multiple choice" question without any
      answer is valid. */
  lemma LowerCaseChoiceWithoutAnswersValidates()
    ensures Validate(Question(PStr("q1"), "multiple choice", PStr("Pick one"), [], []))
  {
    assert Lower("multiple choice") == ValidTypesLower()[0];
  }

  /** The answers of an essay question are never looked at. */
  lemma EssayAnswersUnchecked(q: Question, other: seq<Answer.Answer>)
    requires q.qtype == KindName(EssayQuestion)
    ensures Validate(q) <==> Validate(q.(answers := other))
    ensures Validate(q) <==> Truthy(q.id) && HasText(q.text) && |q.feedback| >= 1
  {
  }

  /** The answer lines of `get`, in list order; `TypeError` as soon as one
      answer's text is not a string. They render exactly when every answer
      text is a string, and then hold at least one line per answer. */
  function RenderAnswers(answers: seq<Answer.Answer>): (r: Outcome<string>)
    ensures r.Value? <==> forall i :: 0 <= i < |answers| ==> answers[i].text.PStr?
    ensures r.Value? ==> |r.value| >= 3 * |answers|
    decreases |answers|
  {
    if answers == [] then Value("")
    else
      var init := RenderAnswers(answers[..|answers| - 1]);
      var line := Answer.Get(answers[|answers| - 1]);
      assert forall i :: 0 <= i < |answers| - 1 ==> answers[..|answers| - 1][i] == answers[i];
      if init.Value? && line.Value? then Value(init.value + line.value) else TypeError
  }

  /** What `get` evaluates to: the text and a newline, then every answer's
      line. It raises exactly when the text or some answer text is not a
      string. */
  function Rendering(q: Question): (r: Outcome<string>)
    ensures r.Value? <==> q.text.PStr? && forall i :: 0 <= i < |q.answers| ==> q.answers[i].text.PStr?
    ensures r.Value? ==> q.text.s + "\n" <= r.value
    ensures r.Value? && q.answers == [] ==> r.value == q.text.s + "\n"
  {
    if !q.text.PStr? then TypeError
    else
      match RenderAnswers(q.answers)
      case Value(lines) => Value(q.text.s + "\n" + lines)
      case TypeError => TypeError
  }

  /** Rendering two lists of answers one after the other gives the lines of
      the first followed by those of the second. */
  lemma {:induction false} RenderAnswersAppend(xs: seq<Answer.Answer>, ys: seq<Answer.Answer>)
    ensures RenderAnswers(xs + ys) ==
      if RenderAnswers(xs).Value? && RenderAnswers(ys).Value?
      then Value(RenderAnswers(xs).value + RenderAnswers(ys).value)
      else TypeError
    decreases |ys|
  {
    if ys == [] {
      assert xs + ys == xs;
      if RenderAnswers(xs).Value? {
        assert RenderAnswers(xs).value + "" == RenderAnswers(xs).value;
      }
    } else {
      var init := ys[..|ys| - 1];
      assert (xs + ys)[..|xs + ys| - 1] == xs + init;
      assert (xs + ys)[|xs + ys| - 1] == ys[|ys| - 1];
      var last := ys[|ys| - 1];
      assert ys[..|ys| - 1] == init;
      RenderAnswersAppend(xs, init);
      var a, b, line := RenderAnswers(xs), RenderAnswers(init), Answer.Get(last);
      if a.Value? && b.Value? && line.Value? {
        assert RenderAnswers(ys) == Value(b.value + line.value);
        assert RenderAnswers(xs + ys) == Value((a.value + b.value) + line.value);
        assert (a.value + b.value) + line.value == a.value + (b.value + line.value);
      }
    }
  }

  /** `get`: accumulates the text and the answers' lines in a loop. */
  method Get(q: Question) returns (r: Outcome<string>)
    ensures r == Rendering(q)
    ensures r.Value? <==> q.text.PStr? && forall i :: 0 <= i < |q.answers| ==> q.answers[i].text.PStr?
    ensures r.Value? ==> q.text.s + "\n" <= r.value
    ensures r.Value? && q.answers == [] ==> r.value == q.text.s + "\n"
  {
    if !q.text.PStr? {
      return TypeError;
    }
    var result := q.text.s + "\n";
    if |q.answers| > 0 {
      for i := 0 to |q.answers|
        invariant RenderAnswers(q.answers[..i]).Value?
        invariant result == q.text.s + "\n" + RenderAnswers(q.answers[..i]).value
      {
        var line := Answer.Get(q.answers[i]);
        if line.TypeError? {
          return TypeError;
        }
        assert q.answers[..i + 1][..i] == q.answers[..i];
        result := result + line.value;
      }
      assert q.answers[..|q.answers|] == q.answers;
    } else {
      assert result == q.text.s + "\n" + RenderAnswers(q.answers).value;
    }
    r := Value(result);
  }

  /** A valid choice or true/false question whose text is a string always
      renders: `validate` has checked that every answer text is a string. */
  lemma ValidChoiceQuestionRenders(q: Question)
    requires Validate(q) && q.text.PStr?
    requires KindOf(q.qtype) in {Some(MultipleChoice), Some(MultipleCorrect), Some(TrueFalse)}
    ensures Rendering(q).Value?
  {
  }
}
