/** The three copies of `generateTitleVariations`: two identical Groq copies
    (api/generate-titles.ts and server/groq.ts) and the Claude copy
    (server/claude.ts).  Each builds the same prompt, hands it to a chat
    provider, and runs the reply through `Titles.Normalize`.  The provider
    itself is a parameter: a function from the request to its reply, or to
    the error the call rejects with. */
module Providers {
  import opened Wrappers
  import opened Text
  import opened Titles

  /** The text before the title in the prompt. */
  const PromptPrefix: string := "Given this YouTube video title: \""

  /** The text after the title in the prompt: the closing quote and the
      fixed instructions. */
  const PromptSuffix: string :=
    "\"\n\nGenerate 5 alternative title variations that are engaging, clickable, and would perform well on YouTube. Each title should:\n"
    + "- Be attention-grabbing but not clickbait\n"
    + "- Maintain the core topic/message\n"
    + "- Be under 100 characters\n"
    + "- Use different approaches (question, statement, how-to, etc.)\n\n"
    + "Return ONLY the 5 titles, one per line, numbered 1-5. No explanations or additional text."

  /** The prompt for `title`: the title spliced verbatim, unescaped, between
      the fixed prefix and suffix. */
  function Prompt(title: string): (p: string)
    ensures |p| == |PromptPrefix| + |title| + |PromptSuffix|
    ensures p[..|PromptPrefix|] == PromptPrefix
    ensures p[|PromptPrefix|..|PromptPrefix| + |title|] == title
    ensures p[|PromptPrefix| + |title|..] == PromptSuffix
  {
    PromptPrefix + title + PromptSuffix
  }

  /** The title a prompt was built from, if it has the prompt's shape. */
  function PromptTitle(p: string): (t: Option<string>)
    ensures t.Some? ==> |p| >= |PromptPrefix| + |PromptSuffix|
  {
    if |p| >= |PromptPrefix| + |PromptSuffix|
       && p[..|PromptPrefix|] == PromptPrefix
       && p[|p| - |PromptSuffix|..] == PromptSuffix
    then Some(p[|PromptPrefix|..|p| - |PromptSuffix|])
    else None
  }

  /** The title is recoverable from the prompt, so no two titles share a
      prompt. */
  lemma PromptRoundTrip(title: string)
    ensures PromptTitle(Prompt(title)) == Some(title)
  {
    var p := Prompt(title);
    assert |p| - |PromptSuffix| == |PromptPrefix| + |title|;
  }

  lemma PromptInjective(a: string, b: string)
    requires Prompt(a) == Prompt(b)
    ensures a == b
  {
    PromptRoundTrip(a);
    PromptRoundTrip(b);
  }

  /** One user message sent to a chat provider. */
  datatype ChatRequest = ChatRequest(model: string, prompt: string, maxTokens: nat)

  const GroqModel: string := "llama-3.3-70b-versatile"
  const GroqMaxTokens: nat := 500
  const ClaudeModel: string := "claude-sonnet-4-20250514"
  const ClaudeMaxTokens: nat := 1024

  const MissingKeyMessage: string := "Groq API key not configured"
  const UnexpectedFormatMessage: string := "Unexpected response format"

  /** A Groq chat completion: its choices, each with an optional message
      whose content may be absent (null). */
  datatype GroqMessage = GroqMessage(content: Option<string>)
  datatype GroqChoice = GroqChoice(message: Option<GroqMessage>)
  datatype GroqCompletion = GroqCompletion(choices: seq<GroqChoice>)

  /** What happened on one call: the request sent to the provider, if any,
      and what the call returned or threw. */
  datatype Exchange = Exchange(sent: Option<ChatRequest>, result: Result<seq<string>, Thrown>)

  /** The key counts as configured when it is present and not empty. */
  predicate Configured(apiKey: Option<string>) {
    apiKey.Some? && apiKey.value != []
  }

  /** The first choice's content, or the empty text when the choice, its
      message or its content is missing. */
  function GroqText(reply: GroqCompletion): (t: string)
    ensures t != [] ==> |reply.choices| > 0 && reply.choices[0].message.Some?
                        && reply.choices[0].message.value.content == Some(t)
    ensures |reply.choices| > 0 && reply.choices[0].message.Some?
            && reply.choices[0].message.value.content.Some?
            ==> t == reply.choices[0].message.value.content.value
  {
    if |reply.choices| == 0 then []
    else match reply.choices[0].message
      case None => []
      case Some(m) => m.content.GetOr([])
  }

  function GroqRequest(title: string): (req: ChatRequest)
    ensures req.model == GroqModel && req.maxTokens == GroqMaxTokens
    ensures PromptTitle(req.prompt) == Some(title)
  {
    PromptRoundTrip(title);
    ChatRequest(GroqModel, Prompt(title), GroqMaxTokens)
  }

  /** The Groq copy of `generateTitleVariations`, shared word for word by
      api/generate-titles.ts and server/groq.ts. The provider either
      answers with a completion or rejects the call; a rejection propagates
      unchanged. */
  function GroqVariations(apiKey: Option<string>, title: string,
                          complete: ChatRequest -> Result<GroqCompletion, Thrown>): (x: Exchange)
    ensures x.sent.None? <==> !Configured(apiKey)
    ensures !Configured(apiKey) ==> x.result == Failure(ErrorThrown(MissingKeyMessage))
    ensures x.sent.Some? ==> x.sent.value == GroqRequest(title)
    ensures x.sent.Some? && complete(x.sent.value).Failure? ==>
              x.result == Failure(complete(x.sent.value).error)
    ensures x.sent.Some? && complete(x.sent.value).Success? ==>
              x.result.Success? && x.result.value <= Candidates(GroqText(complete(x.sent.value).value))
    ensures x.result.Success? ==>
              |x.result.value| <= MaxVariations
              && forall i :: 0 <= i < |x.result.value| ==>
                   x.result.value[i] != [] && IsTrimmed(x.result.value[i])
                   && '\n' !in x.result.value[i]
  {
    if !Configured(apiKey) then
      Exchange(None, Failure(ErrorThrown(MissingKeyMessage)))
    else
      var req := GroqRequest(title);
      match complete(req)
      case Failure(e) => Exchange(Some(req), Failure(e))
      case Success(reply) => Exchange(Some(req), Success(Normalize(GroqText(reply))))
  }

  /** A missing key fails the same way whatever the provider would answer:
      the provider is never consulted. */
  lemma GroqMissingKeyIgnoresProvider(apiKey: Option<string>, title: string,
                                      f: ChatRequest -> Result<GroqCompletion, Thrown>,
                                      g: ChatRequest -> Result<GroqCompletion, Thrown>)
    requires !Configured(apiKey)
    ensures GroqVariations(apiKey, title, f) == GroqVariations(apiKey, title, g)
    ensures GroqVariations(apiKey, title, f).sent == None
  {
  }

  /** A reply without choices, without a message, without content, or with
      blank content gives no variations rather than an error. */
  lemma GroqBlankReply(apiKey: Option<string>, title: string,
                       complete: ChatRequest -> Result<GroqCompletion, Thrown>)
    requires Configured(apiKey)
    requires complete(GroqRequest(title)).Success?
    requires AllWs(GroqText(complete(GroqRequest(title)).value))
    ensures GroqVariations(apiKey, title, complete).result == Success([])
  {
    NormalizeBlank(GroqText(complete(GroqRequest(title)).value));
  }

  /** Once configured and answered, the Groq copy is exactly the shared
      normalisation of the reply text. */
  lemma GroqIsNormalize(apiKey: Option<string>, title: string,
                        complete: ChatRequest -> Result<GroqCompletion, Thrown>)
    requires Configured(apiKey)
    requires complete(GroqRequest(title)).Success?
    ensures GroqVariations(apiKey, title, complete).result
            == Success(Normalize(GroqText(complete(GroqRequest(title)).value)))
  {
  }

  /** A block of Claude's reply: a block whose `type` is "text", or a block
      of any other `type` (a tool call, for instance). */
  datatype ContentBlock = TextBlock(text: string) | OtherBlock
  datatype ClaudeMessage = ClaudeMessage(content: seq<ContentBlock>)

  function ClaudeRequest(title: string): (req: ChatRequest)
    ensures req.model == ClaudeModel && req.maxTokens == ClaudeMaxTokens
    ensures PromptTitle(req.prompt) == Some(title)
  {
    PromptRoundTrip(title);
    ChatRequest(ClaudeModel, Prompt(title), ClaudeMaxTokens)
  }

  /** The Claude copy of `generateTitleVariations`: a rejected call
      propagates; otherwise the first content block must be text, and an
      empty reply reads `type` of `undefined`. */
  function ClaudeVariations(title: string, complete: ChatRequest -> Result<ClaudeMessage, Thrown>): (x: Exchange)
    ensures x.sent == Some(ClaudeRequest(title))
    ensures complete(ClaudeRequest(title)).Failure? ==>
              x.result == Failure(complete(ClaudeRequest(title)).error)
    ensures complete(ClaudeRequest(title)).Success? ==>
              var reply := complete(ClaudeRequest(title)).value;
              && (reply.content == [] <==> x.result == Failure(UndefinedRead("type")))
              && (reply.content != [] && reply.content[0].OtherBlock?
                  <==> x.result == Failure(ErrorThrown(UnexpectedFormatMessage)))
              && (reply.content != [] && reply.content[0].TextBlock?
                  ==> x.result == Success(Normalize(reply.content[0].text)))
    ensures x.result.Success? ==>
              |x.result.value| <= MaxVariations
              && forall i :: 0 <= i < |x.result.value| ==>
                   x.result.value[i] != [] && IsTrimmed(x.result.value[i])
                   && '\n' !in x.result.value[i]
  {
    var req := ClaudeRequest(title);
    match complete(req)
    case Failure(e) => Exchange(Some(req), Failure(e))
    case Success(reply) =>
      if |reply.content| == 0 then Exchange(Some(req), Failure(UndefinedRead("type")))
      else match reply.content[0]
        case OtherBlock => Exchange(Some(req), Failure(ErrorThrown(UnexpectedFormatMessage)))
        case TextBlock(t) => Exchange(Some(req), Success(Normalize(t)))
  }

  /** All three copies agree: the same reply text yields the same
      variations from the Groq copies and from the Claude copy, and both
      send the same prompt. */
  lemma CopiesAgree(apiKey: Option<string>, title: string,
                    groq: ChatRequest -> Result<GroqCompletion, Thrown>,
                    claude: ChatRequest -> Result<ClaudeMessage, Thrown>)
    requires Configured(apiKey)
    requires groq(GroqRequest(title)).Success? && claude(ClaudeRequest(title)).Success?
    requires |claude(ClaudeRequest(title)).value.content| > 0
    requires claude(ClaudeRequest(title)).value.content[0]
             == TextBlock(GroqText(groq(GroqRequest(title)).value))
    ensures GroqVariations(apiKey, title, groq).result == ClaudeVariations(title, claude).result
    ensures GroqVariations(apiKey, title, groq).sent.value.prompt
            == ClaudeVariations(title, claude).sent.value.prompt
  {
  }

  /** A rejected provider call fails every copy with the rejection itself. */
  lemma RejectionPropagates(apiKey: Option<string>, title: string, e: Thrown,
                            groq: ChatRequest -> Result<GroqCompletion, Thrown>,
                            claude: ChatRequest -> Result<ClaudeMessage, Thrown>)
    requires Configured(apiKey)
    requires groq(GroqRequest(title)) == Failure(e) && claude(ClaudeRequest(title)) == Failure(e)
    ensures GroqVariations(apiKey, title, groq).result == Failure(e)
    ensures ClaudeVariations(title, claude).result == Failure(e)
  {
  }

  /** Unlike the Groq copies, the Claude copy has no empty fallback: a
      non-text first block is an error even though a Groq reply without
      content gives no variations. */
  lemma ClaudeHasNoFallback(title: string, complete: ChatRequest -> Result<ClaudeMessage, Thrown>)
    requires complete(ClaudeRequest(title)).Success?
    requires |complete(ClaudeRequest(title)).value.content| > 0
    requires complete(ClaudeRequest(title)).value.content[0].OtherBlock?
    ensures ClaudeVariations(title, complete).result.Failure?
    ensures ClaudeVariations(title, complete).result.error.message == UnexpectedFormatMessage
  {
  }
}
