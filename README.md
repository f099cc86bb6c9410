# Quiz structures of the Matrix chatbot generator, in Dafny

The Matrix chatbot generator imports a quiz from a QTI export. It checks
each question and hands the quiz on to a chat bot that runs on a Matrix
homeserver. This project models the part of that code that has real rules:

- the quiz data layer of the current generation, in
  `MatrixChatbotGenerator/structures/`:
  - `Answer`: label normalisation, validation and rendering.
  - `Feedback`: a default text.
  - `Question`: a validation whose rules depend on the question type, and
    rendering.
  - `Questions`: a list that admits only valid questions.
  - `Quiz`: a constructor that fills in defaults, and question append.
- the older draft of the same classes in `structures/` at the repository
  root. Its rules differ, and lemmas in `Generations` say exactly where.
- the bot's reply logic in `MatrixChatbotGenerator/classes/QuizBot.py`: the
  keyword reply `process_message` and the guard that ignores the bot's own
  messages.

The bot of this revision answers a single keyword. It keeps no per-learner
progress, matches no answers and schedules no messages. The quiz
structures are the data its generator collects for such a bot.

Python's dynamic values appear as `PyValue.Val`. It has `None`, bools,
ints, strings, and other objects that are known only by their truth value.
On these the model states Python's truthiness, `isinstance(x, str)`,
`isinstance(x, bool)`, `or` and `lower()`. Where Python's `+` would raise
`TypeError` (rendering a text that is not a string), the result is
`Outcome.TypeError`. The `uuid.uuid4()` fall-back ids are a `generated`
parameter of the constructors. Answers and feedback entries are never
changed after construction, so they are datatypes. A question is a datatype
too, although the QTI parser appends its answers and feedback entries to
the question's lists after building it; the model takes the finished lists
as constructor arguments. The two lists that grow through their own
methods (`Questions`, `Quiz`) are classes with a `seq` field.

## Model

| member | source | states |
|---|---|---|
| `Answer.AfterLastUnderscore` | MatrixChatbotGenerator/structures/answer.py:31 | `split('_')[-1]`: the result has no underscore, is a suffix of the input, and is preceded by an underscore unless it is the whole input |
| `Answer.ExtractChoiceSuffix` | MatrixChatbotGenerator/structures/answer.py:29-33 | an 8-character string starting "CHOICE_" becomes its last character, or "" when that character is an underscore; every other string is returned unchanged |
| `Answer.ExtractChoiceSuffixIdempotent` | MatrixChatbotGenerator/structures/answer.py:29-33 | extracting twice equals extracting once |
| `Answer.New` | MatrixChatbotGenerator/structures/answer.py:5-10 | a truthy key becomes the id (else the generated uuid string); the label is stored extracted; text and correctness are stored as given |
| `Answer.NewIdentifierIsNormal` | MatrixChatbotGenerator/structures/answer.py:8 | a constructed answer's label is a fixed point of the extraction |
| `Answer.Validate` | MatrixChatbotGenerator/structures/answer.py:12-19 | true exactly when the text is a non-empty string and `correct` is a bool |
| `Answer.Get` | MatrixChatbotGenerator/structures/answer.py:35-36 | renders a value exactly when the text is a string (Python's `+` raises otherwise), and that value is the label, ") ", the text and a newline; a valid answer always renders |
| `Answer.AnswerLine` | MatrixChatbotGenerator/structures/answer.py:35-36 | any answer with a string text, valid or not, renders to label, ") ", text, newline, part by part |
| `Feedback.New` | MatrixChatbotGenerator/structures/feedback.py:5-8 | a truthy key is the id; the identifier is kept; a falsy text becomes " ", a truthy one is kept |
| `Feedback.NewTextNeverEmpty` | MatrixChatbotGenerator/structures/feedback.py:8 | after construction the text is truthy: neither `None` nor "" |
| `Feedback.Validate` | MatrixChatbotGenerator/structures/feedback.py:10-11 | always true |
| `Question.ValidTypes` | MatrixChatbotGenerator/structures/question.py:82-84 | four names, one per question kind, and only those |
| `Question.ValidTypesLower` | MatrixChatbotGenerator/structures/question.py:86-88 | element by element, the lower-cased valid types |
| `Question.KindOf` | MatrixChatbotGenerator/structures/question.py:29-47 | the exact-case comparison of the per-kind rules: a kind only for a string equal to its name, none for every string outside the valid types |
| `Question.New` | MatrixChatbotGenerator/structures/question.py:2-16 | id and type as given; a `None` text becomes " ", `None` lists become empty; everything else is kept |
| `Question.NewWithoutTextIsInvalid` | MatrixChatbotGenerator/structures/question.py:5-27 | a question built without text never validates |
| `Question.AnswersValidate` | MatrixChatbotGenerator/structures/question.py:32-34 | the early-return loop is true exactly when every answer validates |
| `Question.FeedbackValidates` | MatrixChatbotGenerator/structures/question.py:45-47 | the early-return loop is true exactly when every feedback entry validates |
| `Question.Validate` | MatrixChatbotGenerator/structures/question.py:18-48 | a valid question has a truthy id, a type valid after lower-casing and a text that is neither falsy nor " "; in exact case, a choice type has two or more answers that all validate, true/false exactly two that validate, an essay one or more feedback entries that all validate |
| `Question.ValidateByKind` | MatrixChatbotGenerator/structures/question.py:18-48 | `validate` holds iff the id is truthy, the lower-cased type is valid, the text is neither falsy nor " ", and the kind rule holds: two or more valid answers for both choice kinds, exactly two valid answers for true/false, one or more valid feedback entries for an essay, nothing for a type valid only after lower-casing |
| `Question.ValidateNeedsIdTypeAndText` | MatrixChatbotGenerator/structures/question.py:19-27 | a falsy id, a falsy or blank text, or a type outside the four names in every letter case each make `validate` false |
| `Question.OtherCaseSkipsKindRules` | MatrixChatbotGenerator/structures/question.py:23-47 | a type valid only after lower-casing skips every answer and feedback rule |
| `Question.LowerCaseChoiceWithoutAnswersValidates` | MatrixChatbotGenerator/structures/question.py:23-34 | a "multiple choice" question with no answers is valid |
| `Question.EssayAnswersUnchecked` | MatrixChatbotGenerator/structures/question.py:42-48 | an essay question's validity does not depend on its answers and needs at least one feedback entry |
| `Question.RenderAnswers` | MatrixChatbotGenerator/structures/question.py:76-78 | the answer lines render exactly when every answer text is a string, and then hold at least three characters per answer |
| `Question.Rendering` | MatrixChatbotGenerator/structures/question.py:74-79 | `get` raises exactly when the text or some answer text is not a string; otherwise its value starts with the text and a newline, and is exactly that when there are no answers |
| `Question.RenderAnswersAppend` | MatrixChatbotGenerator/structures/question.py:76-78 | rendering two answer lists in a row is the first's lines followed by the second's (list order) |
| `Question.Get` | MatrixChatbotGenerator/structures/question.py:74-79 | the loop's result equals the rendering: text, newline, then each answer's line in order; it starts with text and newline and is just that with no answers; it fails exactly when a text is not a string |
| `Question.ValidChoiceQuestionRenders` | MatrixChatbotGenerator/structures/question.py:74-79 | a valid choice or true/false question with a string text always renders |
| `Questions.InitialList` | MatrixChatbotGenerator/structures/questions.py:6-9 | `None` gives an empty list, an empty list gives an empty list, a non-empty list is kept |
| `Questions.Questions.constructor` | MatrixChatbotGenerator/structures/questions.py:5-9 | stores the given list unvalidated, or an empty one |
| `Questions.Questions.Add` | MatrixChatbotGenerator/structures/questions.py:11-13 | appends at the end iff the argument is a valid question, else nothing changes; the old list is a prefix; an all-valid list stays all-valid |
| `Questions.Questions.NumberOfQuestions` | MatrixChatbotGenerator/structures/questions.py:15-16 | the length of the list |
| `Quiz.Quiz.constructor` | MatrixChatbotGenerator/structures/quiz.py:6-11 | key or generated uuid as identifier; falsy name, budget, file name and questions become " ", 1, the identifier and []; truthy ones (the string "0" too) are kept; questions are not validated |
| `Quiz.Quiz.AddQuestion` | MatrixChatbotGenerator/structures/quiz.py:21-23 | appends iff the argument is a valid question, else nothing changes; only the question list may change |
| `Quiz.Quiz.NumberOfQuestions` | MatrixChatbotGenerator/structures/quiz.py:25-26 | the length of the question list |
| `DraftAnswer.New` | structures/answer.py:2-5 | id, text and correctness stored exactly as given |
| `DraftAnswer.Validate` | structures/answer.py:7-14 | false for a non-string or empty text, false for a non-bool `correct`, true when both checks pass |
| `DraftFeedback.New` | structures/feedback.py:2-7 | the id is kept; only `None` text becomes " ", every other text (also "") is kept |
| `DraftFeedback.Validate` | structures/feedback.py:9-10 | always true |
| `DraftQuestion.ValidTypes` | structures/question.py:78-80 | the four type names, exact case |
| `DraftQuestion.New` | structures/question.py:6-20 | the same defaults as the current generation |
| `DraftQuestion.ChoiceCondition` | structures/question.py:33 | `type == 'Multiple Choice' or 'Multiple Correct'` is truthy for every type; for any type but "Multiple Choice" it is the string "Multiple Correct" |
| `DraftQuestion.AnswersValidate` | structures/question.py:36-38 | the loop is true exactly when every answer validates |
| `DraftQuestion.FeedbackValidates` | structures/question.py:49-51 | the loop is true exactly when every feedback entry validates |
| `DraftQuestion.Validate` | structures/question.py:22-52 | a valid draft question has a truthy id, a type among the four names in exact case and a text that is neither falsy nor " ", and, whatever its type, two or more answers |
| `DraftQuestion.ValidateMeans` | structures/question.py:22-52 | `validate` holds iff the id is truthy, the type is one of the four names in exact case, the text is neither falsy nor " ", there are two or more answers that all validate (whatever the type), exactly two for true/false, and one or more feedback entries for an essay |
| `DraftQuestion.EssayWithoutAnswersRejected` | structures/question.py:33-38 | an essay question with a model answer and no answers is refused |
| `DraftQuestions.Questions.constructor` | structures/questions.py:5-9 | a falsy argument gives an empty list, otherwise the list is stored |
| `DraftQuestions.Questions.Add` | structures/questions.py:11-13 | appends iff admitted, else nothing changes; the old list is a prefix; all-valid stays all-valid |
| `DraftQuestions.Questions.NumberOfQuestions` | structures/questions.py:15-16 | the length of the list |
| `QuizBot.ProcessMessage` | MatrixChatbotGenerator/classes/QuizBot.py:65-69 | one of exactly two replies: the start reply iff the lower-cased message begins with "quiz", the fallback otherwise |
| `QuizBot.ProcessMessageIgnoresCase` | MatrixChatbotGenerator/classes/QuizBot.py:66 | lower-casing the message first never changes the reply |
| `QuizBot.StartSurvivesExtension` | MatrixChatbotGenerator/classes/QuizBot.py:66 | a prefix match: anything appended to a starting message still starts the quiz |
| `QuizBot.ProcessMessageExamples` | MatrixChatbotGenerator/classes/QuizBot.py:65-69 | "QUIZ", "Quizzes", "quiz me" start the quiz; "a quiz", "qui" do not |
| `QuizBot.FromSelf` | MatrixChatbotGenerator/classes/QuizBot.py:72 | a message is the bot's own exactly when its sender is the bot's user id |
| `QuizBot.Respond` | MatrixChatbotGenerator/classes/QuizBot.py:71-85 | the bot's own messages and unknown events get no reply; a text message gets `process_message` of its body; an encrypted event gets `process_message` of what parsing it returned when that is a string, and no reply otherwise (`lower()` raises) |
| `Generations.DraftOf` | structures/question.py:5-20 | a current question read as a draft one, field by field: id, type and text kept, each answer and each feedback entry mapped in place, the label becoming the draft answer's id |
| `Generations.AnswerValidationAgrees` | structures/answer.py:7-14 | both generations accept the same answers |
| `Generations.AnswerLabelsDiffer` | MatrixChatbotGenerator/structures/answer.py:8 | the draft keeps every label; the current one keeps it iff it is not an 8-character "CHOICE_" label ("CHOICE_B" becomes "B") |
| `Generations.FeedbackTextsDiffer` | structures/feedback.py:4-7 | the two texts differ exactly for a falsy text other than `None` |
| `Generations.DraftValidationIsStricter` | structures/question.py:22-52 | every question the draft accepts, the current generation accepts |
| `PyValue.Truthy` | MatrixChatbotGenerator/structures/quiz.py:7-11 | the falsy values are exactly `None`, `False`, `0`, `''` and falsy other objects |
| `PyValue.Or` | structures/question.py:33 | `a or b` is one of its operands and is truthy iff either is |
| `PyValue.Lower` | MatrixChatbotGenerator/structures/question.py:23 | `lower()` keeps the length, lowers each character, and leaves no capital A–Z |
| `Generations.WhereValidationDiffers` | MatrixChatbotGenerator/structures/question.py:18-48 | the current generation alone accepts a question exactly when its type names a kind only in another case, or it is an essay without two valid answers |
| `Generations.EssayWithoutAnswersNowValid` | MatrixChatbotGenerator/structures/question.py:42-48 | the essay question the draft refuses is valid now |

## Findings

| source | as written | input that shows it | evidently intended | confidence | as-written member | corrected member |
|---|---|---|---|---|---|---|
| structures/question.py:33 | `self.type == 'Multiple Choice' or 'Multiple Correct'` is truthy for every type, so every question, an essay included, needs two valid answers | an "Essay Question" with id "q1", a text, no answers and one model-answer feedback entry is refused | `self.type == 'Multiple Choice' or self.type == 'Multiple Correct'`, as MatrixChatbotGenerator/structures/question.py:29 has it | high; not executed | `DraftQuestion.Validate`, shown by `DraftQuestion.EssayWithoutAnswersRejected` | `Question.Validate`, proved by `Question.EssayAnswersUnchecked` and `Generations.EssayWithoutAnswersNowValid` |

## Left out

- The conversational engine: subscriptions, progress, answer matching, quotas and the scheduler. No file of this revision implements them.
- `print` and `print_short` of every structure: console output. Some of them raise at run time (structures/question.py:58, structures/answer.py:22).
- The rest of QuizBot.py: the async Matrix client, login, sync, invite handling, sending, the `next_batch` token file, and Megolm decryption.
- QuizBot.Respond: what `event.parse_encrypted_event()` (MatrixChatbotGenerator/classes/QuizBot.py:75) returns is a call into the Matrix client library and is not modelled; it is a parameter of the `Encrypted` event. In that library the method is a class method that builds an event object from a dictionary, so as written the call most likely raises or yields a non-string, and an encrypted message then gets no reply.
- The Tk user interface, configuration and HTTP plumbing, the SQLAlchemy store, the QTI parser, and the build and install scripts. They are widgets, files, network, database and foreign libraries. MatrixChatbotGenerator/structures/transaction.py is not part of this model.
- `uuid.uuid4()`: the generated id is a parameter of each constructor. The model does not state that it is random or unique.
- PyValue.Lower: only maps A–Z to a–z, while Python's `str.lower()` maps all of Unicode. For the type names and for "quiz", no other character lowers to a letter that could complete a match.
- Answer.New: takes the label as a string. A label that is not a string makes `startswith` raise `AttributeError`; that is not modelled.
- Question.Validate: takes the type as a string. In the current generation a type that is not a string makes `lower()` raise `AttributeError`. Answer and feedback lists are typed, so a list element without a `validate` method is not modelled.
- DraftQuestion.Validate: takes the type as a string too. In the draft a type that is not a string fails the `in` test and `validate` returns False; that case is not modelled.
- Question.New: takes the final answer and feedback lists. MatrixChatbotGenerator/classes/QTIParser.py:36 builds each question with no lists and fills them in place afterwards (lines 62, 70 and 82); the model does not capture that in-place filling.
- Aliasing: `Questions`, `Quiz` and `Question` store the caller's list object itself, so a later append is also seen by the caller. The model keeps lists as values.
- Quiz.Quiz.constructor: takes a list of questions. MatrixChatbotGenerator/ui/UserInterface.py:122 passes a `Questions` object instead, on which `len` would later raise; that is not modelled.
- Quiz.Quiz.AddQuestion: the `isinstance` test is left to the caller through `Questions.Candidate`. quiz.py:2 imports `Question` from `structures.question`, while questions.py:1 and QTIParser.py:3 import it from `MatrixChatbotGenerator.structures.question`. Python loads these as two distinct classes, so `isinstance` at quiz.py:22 is false for parser-built questions; which class a caller holds is not modelled.
