/** The reply logic of the Matrix quiz bot (`Quizbot` in
    classes/QuizBot.py of the package): the keyword reply and the guard that
    keeps the bot from answering its own messages. The Matrix client around
    them is not part of this model. */
module QuizBot {
  import opened PyValue

  const Keyword: string := "quiz"
  const StartReply: string := "Let's start the quiz!"
  const FallbackReply: string := "I didn't understand that. Type 'quiz' to start."

  /** `process_message`: the start reply when the message, lower-cased,
      begins with "quiz"; the fallback reply otherwise. */
  function ProcessMessage(message: string): (r: string)
    ensures r == StartReply || r == FallbackReply
    ensures r == StartReply <==> Keyword <= Lower(message)
    ensures r == FallbackReply <==> !(Keyword <= Lower(message))
  {
    if Keyword <= Lower(message) then StartReply else FallbackReply
  }

  /** Letter case never changes the reply. */
  lemma ProcessMessageIgnoresCase(message: string)
    ensures ProcessMessage(Lower(message)) == ProcessMessage(message)
  {
    LowerIdempotent(message);
  }

  /** The match is on a prefix: whatever follows a starting message, it
      still starts the quiz. */
  lemma {:induction false} StartSurvivesExtension(message: string, rest: string)
    requires ProcessMessage(message) == StartReply
    ensures ProcessMessage(message + rest) == StartReply
  {
    assert Lower(message + rest)[..|Keyword|] == Lower(message)[..|Keyword|];
  }

  /** "QUIZ", "Quizzes" and "quiz me" start the quiz; "a quiz" and "qui" do not. */
  lemma ProcessMessageExamples()
    ensures ProcessMessage("QUIZ") == StartReply
    ensures ProcessMessage("Quizzes") == StartReply
    ensures ProcessMessage("quiz me") == StartReply
    ensures ProcessMessage("a quiz") == FallbackReply
    ensures ProcessMessage("qui") == FallbackReply
  {
    assert Lower("QUIZ") == "quiz";
    assert Lower("Quizzes")[..4] == "quiz";
    assert Lower("quiz me")[..4] == "quiz";
    assert Lower("a quiz")[0] == 'a';
  }

  /** The events the message callback is registered for: plain room
      messages, and encrypted ones, which carry whatever the client
      library's `parse_encrypted_event()` hands back; any other event is
      skipped. */
  datatype Event = RoomText(body: string) | Encrypted(parsed: Val) | OtherEvent

  /** The guard of `message_callback`: an event sent by the bot's own user. */
  predicate FromSelf(sender: string, botUser: string)
    ensures FromSelf(sender, botUser) <==> sender == botUser
  {
    sender == botUser
  }

  /** What `message_callback` sends back to the room, if anything. A parsed
      encrypted event that is not a string has no `lower()`: the call raises
      `AttributeError` before anything is sent, so there is no reply. */
  function Respond(botUser: string, sender: string, event: Event): (r: Option<string>)
    ensures FromSelf(sender, botUser) ==> r.None?
    ensures r.Some? <==> !FromSelf(sender, botUser) && (event.RoomText? || (event.Encrypted? && event.parsed.PStr?))
    ensures r.Some? ==> r.value == StartReply || r.value == FallbackReply
    ensures r.Some? && event.RoomText? ==> r.value == ProcessMessage(event.body)
    ensures r.Some? && event.Encrypted? ==> r.value == ProcessMessage(event.parsed.s)
  {
    if FromSelf(sender, botUser) then None
    else
      match event
      case RoomText(body) => Some(ProcessMessage(body))
      case Encrypted(parsed) => if parsed.PStr? then Some(ProcessMessage(parsed.s)) else None
      case OtherEvent => None
  }
}
