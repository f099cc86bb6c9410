/** The older draft of the answer structure (structures/answer.py at the
    repository root). It keeps its label exactly as given, as `id`. */
module DraftAnswer {
  import opened PyValue

  datatype Answer = Answer(id: Val, text: Val, correct: Val)

  /** `Answer(identifier, text, correct)`: every argument is stored as it is;
      no "CHOICE_" label is shortened. */
  function New(identifier: Val, text: Val, correct: Val): (a: Answer)
    ensures a.id == identifier && a.text == text && a.correct == correct
  {
    Answer(identifier, text, correct)
  }

  /** `validate`: the text must be a non-empty string and `correct` a bool. */
  predicate Validate(a: Answer)
    ensures !a.text.PStr? || a.text.s == "" ==> !Validate(a)
    ensures !a.correct.PBool? ==> !Validate(a)
    ensures a.text.PStr? && a.text.s != "" && a.correct.PBool? ==> Validate(a)
  {
    if !a.text.PStr? || a.text.s == "" then false
    else if !a.correct.PBool? then false
    else true
  }
}
