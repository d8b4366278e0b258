/** The two messages sent to the completion service, and the credential check
    that comes before them. */
module Prompt {
  import opened Outcomes

  /** The fixed system instruction. */
  const SystemPrompt := "You are a helpful assistant that summarizes content and answers questions about it."

  /** The text before the document in the user message. */
  const Lead := "Here is content from an RSS feed:\n\n"

  /** The text between the document and the question in the user message. */
  const Ask := "\n\nFirst, provide a brief summary of this content. Then, answer this question about it: "

  /** The user message: the document and the question interpolated once each,
      verbatim. Braces inside either are kept as they are; nothing is
      substituted a second time. */
  function UserPrompt(content: string, question: string): (p: string)
    ensures |p| == |Lead| + |content| + |Ask| + |question|
    ensures p[..|Lead|] == Lead
    ensures p[|Lead|..|Lead| + |content|] == content
    ensures p[|Lead| + |content|..|Lead| + |content| + |Ask|] == Ask
    ensures p[|Lead| + |content| + |Ask|..] == question
  {
    Lead + content + Ask + question
  }

  /** Reads the document and the question back out of a user message, given
      the document's length; `None` when `p` is not such a message. */
  function SplitUserPrompt(p: string, contentLength: nat): (r: Option<(string, string)>)
    ensures r.Some? ==> |r.value.0| == contentLength
  {
    var askAt := |Lead| + contentLength;
    if |p| >= askAt + |Ask| && p[..|Lead|] == Lead && p[askAt..askAt + |Ask|] == Ask
    then Some((p[|Lead|..askAt], p[askAt + |Ask|..]))
    else None
  }

  /** Splitting a built message recovers exactly the two values put in. */
  lemma SplitUserPromptInverts(content: string, question: string)
    ensures SplitUserPrompt(UserPrompt(content, question), |content|) == Some((content, question))
  {
  }

  /** Every message that splits is the message built from its parts. */
  lemma UserPromptFromSplit(p: string, contentLength: nat)
    requires SplitUserPrompt(p, contentLength).Some?
    ensures var parts := SplitUserPrompt(p, contentLength).value;
            UserPrompt(parts.0, parts.1) == p
  {
  }

  /** Given the document's length, the message determines document and
      question. */
  lemma UserPromptInjective(c1: string, q1: string, c2: string, q2: string)
    requires |c1| == |c2|
    requires UserPrompt(c1, q1) == UserPrompt(c2, q2)
    ensures c1 == c2 && q1 == q2
  {
  }

  /** A placeholder-shaped document stays literal. */
  lemma PlaceholderStaysLiteral()
    ensures UserPrompt("{question}", "why?")[|Lead|..|Lead| + 10] == "{question}"
  {
  }

  /** The credential check: an absent or empty key is the missing-credential
      error, any other key is returned as it is. */
  function RequireApiKey(apiKey: Option<string>): (r: Result<string, Error>)
    ensures r.Failure? <==> apiKey.None? || apiKey.value == ""
    ensures r.Failure? ==> r.error == MissingApiKey
    ensures r.Success? ==> apiKey == Some(r.value) && r.value != ""
  {
    match apiKey
    case None => Failure(MissingApiKey)
    case Some(key) => if key == "" then Failure(MissingApiKey) else Success(key)
  }

  /** What would be handed to the completion client. */
  datatype Request = Request(apiKey: string, system: string, user: string)

  /** Checks the credential, then builds the two messages. No request exists
      unless a non-empty key was supplied. */
  function BuildRequest(apiKey: Option<string>, content: string, question: string): (r: Result<Request, Error>)
    ensures r.Failure? <==> apiKey.None? || apiKey.value == ""
    ensures r.Failure? ==> r.error == MissingApiKey
    ensures r.Success? ==>
              && apiKey == Some(r.value.apiKey)
              && r.value.system == SystemPrompt
              && r.value.user == UserPrompt(content, question)
              && SplitUserPrompt(r.value.user, |content|) == Some((content, question))
  {
    match RequireApiKey(apiKey)
    case Failure(e) => Failure(e)
    case Success(key) =>
      SplitUserPromptInverts(content, question);
      Success(Request(key, SystemPrompt, UserPrompt(content, question)))
  }
}
