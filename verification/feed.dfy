/** Reduction of parsed feed entries to plain-text records ("Title: ..." blocks). */
module Feed {
  import opened Outcomes

  /** One feed entry as the feed parser hands it over. Every field may be
      missing; `content` is a list of content records, each of which may lack
      its `value`. */
  datatype Entry = Entry(
    title: Option<string>,
    description: Option<string>,
    content: Option<seq<Option<string>>>)

  /** The source indexes `[0]` of a present content list, so a present list
      must be non-empty; an absent one is replaced by a single empty record. */
  predicate WellFormed(e: Entry) {
    e.content.Some? ==> |e.content.value| > 0
  }

  predicate AllWellFormed(es: seq<Entry>) {
    forall i | 0 <= i < |es| :: WellFormed(es[i])
  }

  /** The `value` of the first content record, `""` when there is none. */
  function FirstContentValue(e: Entry): string
    requires WellFormed(e)
  {
    match e.content
    case None => ""
    case Some(items) => OrEmpty(items[0])
  }

  /** The entry's text: a non-empty content value wins over the description. */
  function Body(e: Entry): (text: string)
    requires WellFormed(e)
    ensures FirstContentValue(e) != "" ==> text == FirstContentValue(e)
    ensures FirstContentValue(e) == "" ==> text == OrEmpty(e.description)
    ensures text == "" <==> FirstContentValue(e) == "" && OrEmpty(e.description) == ""
  {
    var content := FirstContentValue(e);
    if content != "" then content else OrEmpty(e.description)
  }

  const TitleLabel := "Title: "
  const TitleBreak := "\n\n"

  /** The text block one entry contributes to the aggregated document. Its
      three parts sit at fixed offsets: the label, the title, the break and
      the body, with nothing else in between. */
  function Render(e: Entry): (block: string)
    requires WellFormed(e)
    ensures |block| == |TitleLabel| + |OrEmpty(e.title)| + |TitleBreak| + |Body(e)|
    ensures block[..|TitleLabel|] == TitleLabel
    ensures block[|TitleLabel|..|TitleLabel| + |OrEmpty(e.title)|] == OrEmpty(e.title)
    ensures block[|TitleLabel| + |OrEmpty(e.title)|..|TitleLabel| + |OrEmpty(e.title)| + |TitleBreak|]
            == TitleBreak
    ensures block[|TitleLabel| + |OrEmpty(e.title)| + |TitleBreak|..] == Body(e)
  {
    TitleLabel + OrEmpty(e.title) + TitleBreak + Body(e)
  }

  /** Every entry rendered, one block per entry, in feed order. */
  function RenderAll(es: seq<Entry>): (blocks: seq<string>)
    requires AllWellFormed(es)
    ensures |blocks| == |es|
    ensures forall i | 0 <= i < |es| :: blocks[i] == Render(es[i])
    decreases |es|
  {
    if |es| == 0 then [] else [Render(es[0])] + RenderAll(es[1..])
  }

  /** The outcome of reading a feed: the empty feed is an error, otherwise one
      block per entry in feed order. */
  function ParseFeed(es: seq<Entry>): (r: Result<seq<string>, Error>)
    requires AllWellFormed(es)
    ensures r.Failure? <==> |es| == 0
    ensures r.Failure? ==> r.error == EmptyFeed
    ensures r.Success? ==> |r.value| == |es| && |r.value| > 0
    ensures r.Success? ==> forall i | 0 <= i < |es| :: r.value[i] == Render(es[i])
  {
    if |es| == 0 then Failure(EmptyFeed) else Success(RenderAll(es))
  }

  /** The same reduction written as the source's loop, appending one block
      per entry. */
  method ParseRss(es: seq<Entry>) returns (r: Result<seq<string>, Error>)
    requires AllWellFormed(es)
    ensures r == ParseFeed(es)
  {
    if |es| == 0 {
      return Failure(EmptyFeed);
    }
    var entries: seq<string> := [];
    var i := 0;
    while i < |es|
      invariant 0 <= i <= |es|
      invariant |entries| == i
      invariant forall k | 0 <= k < i :: entries[k] == Render(es[k])
    {
      var e := es[i];
      var title := OrEmpty(e.title);
      var description := OrEmpty(e.description);
      var content := match e.content case None => "" case Some(items) => OrEmpty(items[0]);
      var text := if content != "" then content else description;
      assert text == Body(e);
      var block := TitleLabel + title + TitleBreak + text;
      assert block == Render(e);
      entries := entries + [block];
      i := i + 1;
    }
    assert entries == RenderAll(es);
    return Success(entries);
  }

  /** Rendering distributes over concatenation of feeds, so no entry moves. */
  lemma RenderAllAppend(a: seq<Entry>, b: seq<Entry>)
    requires AllWellFormed(a) && AllWellFormed(b)
    ensures AllWellFormed(a + b)
    ensures RenderAll(a + b) == RenderAll(a) + RenderAll(b)
  {
    var l, r := RenderAll(a + b), RenderAll(a) + RenderAll(b);
    forall i | 0 <= i < |l|
      ensures l[i] == r[i]
    {
      if i < |a| {
        assert (a + b)[i] == a[i];
      } else {
        assert (a + b)[i] == b[i - |a|];
      }
    }
  }

  /** Only the first content record is read: whatever records follow it, the
      text is the one the first record alone gives. */
  lemma LaterContentIgnored(title: Option<string>, description: Option<string>,
                            first: Option<string>, rest: seq<Option<string>>)
    ensures Body(Entry(title, description, Some([first] + rest)))
            == Body(Entry(title, description, Some([first])))
  {
  }

  /** An empty first content value falls back to the description. */
  lemma EmptyContentFallsBack()
    ensures Body(Entry(Some("t"), Some("d"), Some([Some("")]))) == "d"
    ensures Body(Entry(Some("t"), Some("d"), Some([None, Some("later")]))) == "d"
  {
  }

  /** A non-empty first content value is the text, whatever the title, the
      description and the records after it. */
  lemma FirstContentWins(title: Option<string>, description: Option<string>,
                         content: string, rest: seq<Option<string>>)
    requires content != ""
    ensures Body(Entry(title, description, Some([Some(content)] + rest))) == content
  {
  }

  /** Reads the title and the body back out of a block, given the title's
      length; `None` when `block` is not such a block. */
  function SplitRender(block: string, titleLength: nat): (r: Option<(string, string)>)
    ensures r.Some? ==> |r.value.0| == titleLength
  {
    var breakAt := |TitleLabel| + titleLength;
    if |block| >= breakAt + |TitleBreak| && block[..|TitleLabel|] == TitleLabel
       && block[breakAt..breakAt + |TitleBreak|] == TitleBreak
    then Some((block[|TitleLabel|..breakAt], block[breakAt + |TitleBreak|..]))
    else None
  }

  /** Splitting a rendered entry recovers its title and its text. */
  lemma SplitRenderInverts(e: Entry)
    requires WellFormed(e)
    ensures SplitRender(Render(e), |OrEmpty(e.title)|) == Some((OrEmpty(e.title), Body(e)))
  {
  }

  /** Given the title's length, a block determines the title and the text. */
  lemma RenderInjective(e1: Entry, e2: Entry)
    requires WellFormed(e1) && WellFormed(e2)
    requires |OrEmpty(e1.title)| == |OrEmpty(e2.title)|
    requires Render(e1) == Render(e2)
    ensures OrEmpty(e1.title) == OrEmpty(e2.title) && Body(e1) == Body(e2)
  {
    SplitRenderInverts(e1);
    SplitRenderInverts(e2);
  }

  /** Two entries, one with a description and one with content, render to
      the two blocks the aggregation examples start from; an entry with no
      fields renders as the bare label and break. */
  lemma RenderExample()
    ensures RenderAll([Entry(Some("A"), Some("x"), None), Entry(Some("B"), None, Some([Some("y")]))])
            == ["Title: A\n\nx", "Title: B\n\ny"]
    ensures Render(Entry(None, None, None)) == "Title: \n\n"
  {
    var es := [Entry(Some("A"), Some("x"), None), Entry(Some("B"), None, Some([Some("y")]))];
    assert Render(es[0]) == "Title: A\n\nx";
    assert Render(es[1]) == "Title: B\n\ny";
  }
}
