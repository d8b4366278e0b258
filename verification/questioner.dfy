/** One run of the command up to the point where the request leaves the
    program: read the feed, aggregate it, check the credential, build the
    messages. */
module Questioner {
  import opened Outcomes
  import Feed
  import Aggregate
  import Prompt

  /** The request a run would send, or the error that ends it. The feed is
      checked first, so an empty feed is reported whatever the credential.
      The request carries the key that passed the check, and its document is
      built only from a non-empty feed and never exceeds the default budget
      plus the marker. */
  function Run(feed: seq<Feed.Entry>, question: string, apiKey: Option<string>)
    : (r: Result<Prompt.Request, Error>)
    requires Feed.AllWellFormed(feed)
    ensures |feed| == 0 ==> r == Failure(EmptyFeed)
    ensures |feed| > 0 && (apiKey.None? || apiKey.value == "") ==> r == Failure(MissingApiKey)
    ensures r.Success? <==> |feed| > 0 && apiKey.Some? && apiKey.value != ""
    ensures r.Success? ==>
              var document := Aggregate.MushContent(Feed.RenderAll(feed), Aggregate.DefaultMaxTokens);
              && apiKey == Some(r.value.apiKey)
              && r.value.system == Prompt.SystemPrompt
              && r.value.user == Prompt.UserPrompt(document, question)
              && |document| <= 64000 + |Aggregate.Marker|
  {
    match Feed.ParseFeed(feed)
    case Failure(e) => Failure(e)
    case Success(entries) =>
      var document := Aggregate.MushContent(entries, Aggregate.DefaultMaxTokens);
      Prompt.BuildRequest(apiKey, document, question)
  }
}
