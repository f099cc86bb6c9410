/** A feedback entry of a quiz question (for an essay question, the model
    answer), as the current generation of the quiz structures keeps it. */
module Feedback {
  import opened PyValue

  datatype Feedback = Feedback(id: Val, identifier: Val, text: Val)

  /** The text a feedback entry gets when it is given a falsy one. */
  const DefaultText: Val := PStr(" ")

  /** `Feedback(identifier, text, key)`. `generated` is the `uuid.uuid4()`
      object the constructor falls back on when `key` is falsy. */
  function New(identifier: Val, text: Val, key: Val, generated: Val): (f: Feedback)
    ensures Truthy(key) ==> f.id == key
    ensures !Truthy(key) ==> f.id == generated
    ensures f.identifier == identifier
    ensures Truthy(text) ==> f.text == text
    ensures !Truthy(text) ==> f.text == DefaultText
  {
    Feedback(OrElse(key, generated), identifier, OrElse(text, DefaultText))
  }

  /** Whatever text it was given, a constructed feedback entry has a truthy
      text: never `None` and never the empty string. */
  lemma NewTextNeverEmpty(identifier: Val, text: Val, key: Val, generated: Val)
    ensures var f := New(identifier, text, key, generated);
      Truthy(f.text) && f.text != PStr("") && f.text != PNone
  {
  }

  /** `validate`: every feedback entry is accepted. */
  predicate Validate(f: Feedback)
    ensures Validate(f)
  {
    true
  }
}
