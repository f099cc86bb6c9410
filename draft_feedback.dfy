/** The older draft of the feedback structure (structures/feedback.py at the
    repository root). Only a missing text is replaced. */
module DraftFeedback {
  import opened PyValue

  datatype Feedback = Feedback(id: Val, text: Val)

  /** `Feedback(identifier, text)`: `None` becomes a single blank; every
      other text, the empty string included, is kept. */
  function New(identifier: Val, text: Val): (f: Feedback)
    ensures f.id == identifier
    ensures text == PNone ==> f.text == PStr(" ")
    ensures text != PNone ==> f.text == text
  {
    Feedback(identifier, if text == PNone then PStr(" ") else text)
  }

  /** `validate`: every feedback entry is accepted. */
  predicate Validate(f: Feedback)
    ensures Validate(f)
  {
    true
  }
}
