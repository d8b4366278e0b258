# reddit-quick-qa: the text-assembly pipeline in Dafny

`reddit_questioner.py` reads a subreddit's RSS feed, turns every entry into a
`Title: <title>\n\n<text>` block, joins the blocks with `\n\n---\n\n`, cuts the
result to a character budget derived from a token budget (4 characters per
token, 16000 tokens by default), and sends it with the user's question to a
chat-completion service. This project models the deterministic part of that
run as pure functions over `string` (`seq<char>`) and proves what it does:

- `Outcomes` — `Option`, `Result` and the run's two errors (`EmptyFeed`,
  `MissingApiKey`), which replace the source's `sys.exit(1)` paths.
- `Feed` — a feed entry (`title`, `description`, and a `content` list whose
  records may lack a `value`, all optional), the body fallback, the rendering
  of one entry, and `parse_rss`'s loop and empty-feed check.
- `Aggregate` — `mush_content`: the join, the budget, the hard character cut
  and the `... [truncated]` marker.
- `Prompt` — the system instruction, the user message and the API-key check.
- `Questioner` — the three steps composed as `main` composes them, up to the
  request that would be sent.

A present `content` list is required to be non-empty (`Feed.WellFormed`): the
source takes its element `[0]` and would raise on an empty list. The token
budget is a `nat`, because a negative bound turns the source's slice into a
count from the end. Python's `len` and slicing count code points, as Dafny's
`char` sequences do.

The truncation marker follows the cut directly, with no newline in between,
as `mush_content` appends it: `Aggregate.JoinExample` proves
`"Title... [truncated]"` for a cut at 5.

## Model

| member | source | states |
|---|---|---|
| Outcomes.OrEmpty | reddit_questioner.py:20-21 | a missing field reads as the empty string, a present one as its value |
| Feed.Body | reddit_questioner.py:20-25 | a non-empty first content value is the text; an empty or missing one falls back to the description, or to `""`; the text is empty exactly when both are |
| Feed.Render | reddit_questioner.py:26 | a block is `Title: `, the title, a blank line and the body, each at its fixed offset, and nothing more |
| Feed.RenderAll | reddit_questioner.py:18-28 | one block per entry, same count, block `i` renders entry `i` |
| Feed.ParseFeed | reddit_questioner.py:14-28 | an empty feed is the `EmptyFeed` error and only it; otherwise one block per entry in feed order, never an empty list |
| Feed.ParseRss | reddit_questioner.py:14-28 | the source's append loop yields exactly `ParseFeed`'s outcome |
| Feed.RenderAllAppend | reddit_questioner.py:19-26 | rendering a concatenated feed is concatenating the renderings, so no entry moves |
| Feed.LaterContentIgnored | reddit_questioner.py:22-25 | for every entry, only the first content record decides the text: records after it never change it |
| Feed.EmptyContentFallsBack | reddit_questioner.py:22-25 | examples: an empty or value-less first content record yields the description, even when a later record holds text |
| Feed.FirstContentWins | reddit_questioner.py:22-25 | for every title, description and later records, a non-empty first content value is the text |
| Feed.SplitRender | reddit_questioner.py:26 | reading a block back yields a title of the stated length |
| Feed.SplitRenderInverts | reddit_questioner.py:26 | splitting a rendered entry returns its title and its text |
| Feed.RenderInjective | reddit_questioner.py:26 | given the title length, a block determines the title and the text |
| Feed.RenderExample | reddit_questioner.py:18-28 | examples: entries `A`/description `x` and `B`/content `y` render to `Title: A\n\nx` and `Title: B\n\ny`; an entry with no fields renders as `Title: \n\n` |
| Aggregate.Join | reddit_questioner.py:32 | the join of no entries is empty; otherwise its length is the entries' total plus one separator per gap, and it starts with the first entry |
| Aggregate.JoinSnoc | reddit_questioner.py:32 | appending an entry appends exactly one separator and that entry |
| Aggregate.JoinAppend | reddit_questioner.py:32 | the join of two non-empty lists is their joins separated once (order-preserving, associative over splits) |
| Aggregate.JoinSplitAt | reddit_questioner.py:32 | at any interior index the document is the joined front, a separator, and the joined rest |
| Aggregate.JoinEntries | reddit_questioner.py:32 | the left-to-right join equals the recursive reference definition |
| Aggregate.Truncate | reddit_questioner.py:38-39 | a string within the budget is unchanged; a longer one keeps its first `budget` characters followed by the 15-character marker; never longer than budget plus marker |
| Aggregate.TruncateIdempotent | reddit_questioner.py:38-39 | cutting twice to the same budget equals cutting once (no second marker) |
| Aggregate.MushContent | reddit_questioner.py:30-41 | the join itself when it fits in `max_tokens*4` characters, otherwise its first `max_tokens*4` characters plus the marker; never over `max_tokens*4 + 15` |
| Aggregate.MushKeepsPrefix | reddit_questioner.py:36-41 | the output always starts with the join's first `min(len, budget)` characters; an output that differs from the join has length `budget + 15` and ends in the marker |
| Aggregate.MushIdempotent | reddit_questioner.py:30-41 | `mush_content([mush_content(es, n)], n) == mush_content(es, n)` |
| Aggregate.JoinExample | reddit_questioner.py:32-39 | examples: the two blocks of `Feed.RenderExample` join to `Title: A\n\nx\n\n---\n\nTitle: B\n\ny`; a cut at 5 gives `Title... [truncated]`, at one token `Titl... [truncated]` |
| Prompt.UserPrompt | reddit_questioner.py:53 | the user message is the fixed lead, the document, the fixed request text and the question, each verbatim at its offset |
| Prompt.SplitUserPrompt | reddit_questioner.py:53 | reading a message back yields a document of the stated length |
| Prompt.SplitUserPromptInverts | reddit_questioner.py:53 | splitting a built message returns the document and question put in |
| Prompt.UserPromptFromSplit | reddit_questioner.py:53 | every message that splits is the message built from its parts |
| Prompt.UserPromptInjective | reddit_questioner.py:53 | given the document length, the message determines document and question |
| Prompt.PlaceholderStaysLiteral | reddit_questioner.py:53 | example: a document that reads `{question}` appears literally, with no second substitution |
| Prompt.RequireApiKey | reddit_questioner.py:45-48 | an unset or empty key is `MissingApiKey` and only those are; otherwise the key itself |
| Prompt.BuildRequest | reddit_questioner.py:45-53 | a request exists exactly when the key is set and non-empty; it carries the fixed system instruction and a user message that splits back into document and question |
| Questioner.Run | reddit_questioner.py:76-78 | an empty feed fails with `EmptyFeed` whatever the key; a non-empty feed with no key fails with `MissingApiKey`; otherwise the request carries the supplied key and holds the default-budget document of the rendered feed, at most 64015 characters |

## Left out

- `feedparser.parse(url)` (network access and XML parsing in a library that is not part of this model): the model starts from a list of `Feed.Entry` values.
- The chat-completion call (client construction, model name `gpt-3.5-turbo`, `temperature=0.3`, `max_tokens=1024`, the reply and its exception handler): a remote service; the model stops at the `Prompt.Request` that would be sent.
- Reading `OPENAI_API_KEY` from the environment: the key is a parameter `Option<string>`.
- The messages printed to standard error and `sys.exit(1)`: modelled as the `Failure` value carrying `EmptyFeed` or `MissingApiKey`.
- `argparse` and `main`'s printing of the answer: command-line glue.
- A field whose value is present but not a string (a `None` title would print as `None`): the feed parser supplies strings, so fields are `Option<string>`.
- Feed.ParseFeed: an empty `content` list is excluded by `WellFormed` rather than modelled as the `IndexError` the source would raise.
