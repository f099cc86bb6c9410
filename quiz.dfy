/** A quiz as the generator hands it on: an identifier, a display name, a
    daily message budget, the file it came from, and its questions. The
    constructor fills in defaults; `add_question` appends valid questions. */
module Quiz {
  import opened PyValue
  import Question
  import Questions

  /** Length of `str(uuid.uuid4())`, e.g. "1b4e28ba-2fa1-11d2-883f-0016d3cca427". */
  const UuidLength: nat := 36

  class Quiz {
    var identifier: Val
    var name: Val
    var msgPerDay: Val
    var fileName: Val
    var questions: seq<Question.Question>

    /** `Quiz(name, msg_per_day, file_name, questions, key)`. `generated` is
        the `str(uuid.uuid4())` used as identifier when `key` is falsy.
        Each falsy argument is replaced by its default: a blank name, one
        message per day, the identifier as file name, an empty list. A
        truthy value is kept as it is, so the string "0" stays the budget. */
    constructor (
      name: Val,
      msgPerDay: Val,
      fileName: Val,
      questions: Option<seq<Question.Question>>,
      key: Val,
      generated: string)
      requires |generated| == UuidLength
      ensures identifier == if Truthy(key) then key else PStr(generated)
      ensures this.name == if Truthy(name) then name else PStr(" ")
      ensures this.msgPerDay == if Truthy(msgPerDay) then msgPerDay else PInt(1)
      ensures this.fileName == if Truthy(fileName) then fileName else identifier
      ensures this.questions == Questions.InitialList(questions)
      ensures Truthy(identifier) && Truthy(this.name) && Truthy(this.msgPerDay) && Truthy(this.fileName)
    {
      identifier := OrElse(key, PStr(generated));
      this.name := OrElse(name, PStr(" "));
      this.msgPerDay := OrElse(msgPerDay, PInt(1));
      this.fileName := OrElse(fileName, OrElse(key, PStr(generated)));
      this.questions := Questions.InitialList(questions);
    }

    /** `add_question`: appends the question when it is a valid question;
        otherwise nothing changes. The other fields are never touched. */
    method AddQuestion(c: Questions.Candidate)
      modifies this`questions
      ensures questions == if Questions.Admits(c) then old(questions) + [c.question] else old(questions)
      ensures old(questions) <= questions
      ensures old(Questions.AllValidate(questions)) ==> Questions.AllValidate(questions)
    {
      if c.AQuestion? && Question.Validate(c.question) {
        questions := questions + [c.question];
      }
    }

    /** `get_number_of_questions`. */
    function NumberOfQuestions(): (n: nat)
      reads this
      ensures n == |questions|
    {
      |questions|
    }
  }
}
