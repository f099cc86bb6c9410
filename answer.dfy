/** An answer option of a quiz question, as the current generation of the
    quiz structures keeps it (`Answer` in structures/answer.py of the
    package). An answer is built once and never changed afterwards. */
module Answer {
  import opened PyValue

  /** `id` is the storage key; `identifier` the label a learner sees
      ("A", "B", ...); `text` should be a string and `correct` a bool, but
      the constructor takes whatever it is given. */
  datatype Answer = Answer(id: Val, identifier: string, text: Val, correct: Val)

  /** Prefix of the answer labels of QTI exports, as in "CHOICE_A". */
  const ChoicePrefix: string := "CHOICE_"

  /** `s.split('_')[-1]`: what follows the last underscore of `s`, or all of
      `s` when it has no underscore. */
  function AfterLastUnderscore(s: string): (r: string)
    ensures '_' !in r
    ensures |r| <= |s| && r == s[|s| - |r|..]
    ensures |r| < |s| ==> s[|s| - |r| - 1] == '_'
    decreases |s|
  {
    if s == [] then []
    else if s[|s| - 1] == '_' then []
    else
      var init, last := s[..|s| - 1], s[|s| - 1];
      var rest := AfterLastUnderscore(init);
      assert s[|s| - |rest| - 1..] == init[|init| - |rest|..] + [last];
      rest + [last]
  }

  /** `extract_choice_suffix`: an eight-character "CHOICE_X" becomes what
      follows its last underscore; every other label is kept. */
  function ExtractChoiceSuffix(s: string): (r: string)
    ensures ChoicePrefix <= s && |s| == 8 && s[7] != '_' ==> r == [s[7]]
    ensures ChoicePrefix <= s && |s| == 8 && s[7] == '_' ==> r == ""
    ensures !(ChoicePrefix <= s && |s| == 8) ==> r == s
  {
    if ChoicePrefix <= s && |s| == 8 then
      assert s[..7] == ChoicePrefix;
      AfterLastUnderscore(s)
    else
      s
  }

  /** Extracting twice is extracting once: an extracted label is at most one
      character long, so it is never again of the "CHOICE_X" form. */
  lemma ExtractChoiceSuffixIdempotent(s: string)
    ensures ExtractChoiceSuffix(ExtractChoiceSuffix(s)) == ExtractChoiceSuffix(s)
  {
  }

  /** `Answer(identifier, text, correct, key)`. `generated` is the
      `str(uuid.uuid4())` the constructor falls back on when `key` is falsy. */
  function New(identifier: string, text: Val, correct: Val, key: Val, generated: string): (a: Answer)
    ensures a.id == OrElse(key, PStr(generated))
    ensures Truthy(key) ==> a.id == key
    ensures a.identifier == ExtractChoiceSuffix(identifier)
    ensures a.text == text && a.correct == correct
  {
    Answer(OrElse(key, PStr(generated)), ExtractChoiceSuffix(identifier), text, correct)
  }

  /** The constructor leaves the label in normal form: extracting it once
      more changes nothing. */
  lemma NewIdentifierIsNormal(identifier: string, text: Val, correct: Val, key: Val, generated: string)
    ensures var a := New(identifier, text, correct, key, generated);
      ExtractChoiceSuffix(a.identifier) == a.identifier
  {
    ExtractChoiceSuffixIdempotent(identifier);
  }

  /** `validate`: the text must be a non-empty string and `correct` a bool. */
  predicate Validate(a: Answer)
    ensures Validate(a) <==> a.text.PStr? && a.text.s != "" && a.correct.PBool?
  {
    if !a.text.PStr? || a.text.s == "" then false
    else if !a.correct.PBool? then false
    else true
  }

  /** `get`: the line "identifier) text\n"; Python's `+` raises TypeError
      when the text is not a string. */
  function Get(a: Answer): (r: Outcome<string>)
    ensures r.Value? <==> a.text.PStr?
    ensures r.Value? ==> r.value == a.identifier + ") " + a.text.s + "\n"
    ensures Validate(a) ==> r.Value?
  {
    if a.text.PStr? then Value(a.identifier + ") " + a.text.s + "\n") else TypeError
  }

  /** An answer whose text is a string, valid or not, renders to one line
      that starts with its label and ") ", carries its text, and ends with a
      newline. */
  lemma AnswerLine(a: Answer)
    requires a.text.PStr?
    ensures Get(a).Value?
    ensures var line := Get(a).value;
      && |line| == |a.identifier| + |a.text.s| + 3
      && line[..|a.identifier|] == a.identifier
      && line[|a.identifier|..|a.identifier| + 2] == ") "
      && line[|a.identifier| + 2..|line| - 1] == a.text.s
      && line[|line| - 1] == '\n'
  {
  }
}
