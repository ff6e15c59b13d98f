/** `get_reasoning_for_match` of `util/mapper.py`: one chat-completion
    request per (requirement, experience) pair. The prompt file's content
    and the chat service are parameters: the file is `None` when it does not
    exist, and the service is an oracle that either answers (possibly with
    no content) or raises. A missing prompt file, an exception from the
    service and an answer without content each come back as a string
    starting with "Error" instead of an exception. */
module Reasoning {
  import opened Basics
  import opened Corpus
  import opened Strings

  const ChatModel: string := "gpt-4o"
  const ChatTemperature: real := 0.5
  const ChatMaxTokens: nat := 150

  const ErrorWord: string := "Error"
  const PromptMissingError: string := ErrorWord + ": Reasoning prompt file not found."
  const GenerationErrorPrefix: string := ErrorWord + " generating reasoning: "
  /** What `str(e)` gives when `.strip()` is applied to a missing content. */
  const NoContentMessage: string := "'NoneType' object has no attribute 'strip'"

  /** The arguments of `client.chat.completions.create`. */
  datatype ChatRequest = ChatRequest(
    model: string,
    systemPrompt: string,
    userPrompt: string,
    temperature: real,
    maxTokens: nat)

  /** What the chat service does with a request: it answers with the first
      choice's message content (which may be null), or it raises. */
  datatype ChatReply = Completion(content: Option<string>) | Raised(message: string)

  /** The user message naming the requirement and the experience text. */
  function UserPrompt(requirement: string, experienceText: string): string
  {
    "Job Requirement: \"" + requirement + "\"\nCandidate Experience: \"" + experienceText + "\""
  }

  function ReasoningRequest(requirement: string, experience: ExperienceItem, systemPrompt: string): ChatRequest
  {
    ChatRequest(ChatModel, systemPrompt, UserPrompt(requirement, experience.text),
                ChatTemperature, ChatMaxTokens)
  }

  /** The call fails when the prompt file is missing, when the service
      raises, or when its answer has no content to strip. */
  predicate ReasoningFails(requirement: string, experience: ExperienceItem,
                           promptFile: Option<string>, chat: ChatRequest -> ChatReply)
  {
    promptFile.None?
    || var reply := chat(ReasoningRequest(requirement, experience, promptFile.value));
       reply.Raised? || reply.content.None?
  }

  /** The reasoning text for one match. A failure yields an error message
      beginning with "Error" instead of an exception; a success yields the
      service's answer with surrounding whitespace removed. */
  function GetReasoningForMatch(requirement: string, experience: ExperienceItem,
                                promptFile: Option<string>, chat: ChatRequest -> ChatReply): (r: string)
    ensures ReasoningFails(requirement, experience, promptFile, chat) ==> StartsWith(r, ErrorWord)
    ensures promptFile.None? ==> r == PromptMissingError
    ensures promptFile.Some? ==>
      var reply := chat(ReasoningRequest(requirement, experience, promptFile.value));
      && (reply.Raised? ==> r == GenerationErrorPrefix + reply.message)
      && (reply.Completion? && reply.content.Some? ==>
            r == Strip(reply.content.value)
            && (r == [] || (!IsSpace(r[0]) && !IsSpace(r[|r| - 1]))))
  {
    match promptFile
    case None =>
      assert PromptMissingError[..|ErrorWord|] == ErrorWord;
      PromptMissingError
    case Some(systemPrompt) =>
      match chat(ReasoningRequest(requirement, experience, systemPrompt))
      case Raised(message) =>
        assert (GenerationErrorPrefix + message)[..|ErrorWord|] == ErrorWord;
        GenerationErrorPrefix + message
      case Completion(None) =>
        assert (GenerationErrorPrefix + NoContentMessage)[..|ErrorWord|] == ErrorWord;
        GenerationErrorPrefix + NoContentMessage
      case Completion(Some(content)) => Strip(content)
  }

  /** The result does not tell a failure from an answer that itself starts
      with "Error": both are plain strings. */
  lemma ErrorTextIsAmbiguous(requirement: string, experience: ExperienceItem, systemPrompt: string)
    ensures var answer := GenerationErrorPrefix + "timeout";
            var chat := (req: ChatRequest) => Completion(Some(answer));
            var failing := (req: ChatRequest) => Raised("timeout");
            && !ReasoningFails(requirement, experience, Some(systemPrompt), chat)
            && ReasoningFails(requirement, experience, Some(systemPrompt), failing)
            && GetReasoningForMatch(requirement, experience, Some(systemPrompt), chat)
               == GetReasoningForMatch(requirement, experience, Some(systemPrompt), failing)
  {
  }
}
