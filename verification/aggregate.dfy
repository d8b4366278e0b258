/** Joining the rendered entries into one document and bounding its size. */
module Aggregate {

  /** Placed between consecutive entries. */
  const Separator := "\n\n---\n\n"

  /** Appended after a document that was cut. */
  const Marker := "... [truncated]"

  /** The fixed characters-per-token ratio of the size estimate. */
  const CharsPerToken := 4

  /** The token budget used when the caller gives none. */
  const DefaultMaxTokens := 16000

  /** Sum of the lengths of the entries. */
  function TotalLength(es: seq<string>): nat
    decreases |es|
  {
    if |es| == 0 then 0 else |es[0]| + TotalLength(es[1..])
  }

  /** `Separator.join(es)`: the entries in order, one separator between each
      neighbouring pair and none at either end. */
  function Join(es: seq<string>): (combined: string)
    ensures |es| == 0 ==> combined == ""
    ensures |es| > 0 ==> |combined| == TotalLength(es) + (|es| - 1) * |Separator|
    ensures |es| > 0 ==> combined[..|es[0]|] == es[0]
    decreases |es|
  {
    if |es| == 0 then ""
    else if |es| == 1 then es[0]
    else es[0] + Separator + Join(es[1..])
  }

  /** Appending an entry appends one separator and the entry. */
  lemma {:induction false} JoinSnoc(es: seq<string>, e: string)
    requires |es| > 0
    ensures Join(es + [e]) == Join(es) + Separator + e
    decreases |es|
  {
    if |es| == 1 {
      assert es + [e] == [es[0], e];
      assert [es[0], e][1..] == [e];
    } else {
      assert (es + [e])[1..] == es[1..] + [e];
      JoinSnoc(es[1..], e);
    }
  }

  /** Joining a concatenation is joining each half and separating the two
      documents once: the join is associative over feed splits. */
  lemma {:induction false} JoinAppend(a: seq<string>, b: seq<string>)
    requires |a| > 0 && |b| > 0
    ensures Join(a + b) == Join(a) + Separator + Join(b)
    decreases |b|
  {
    if |b| == 1 {
      assert b == [b[0]];
      JoinSnoc(a, b[0]);
    } else {
      var front, last := b[..|b| - 1], b[|b| - 1];
      assert b == front + [last];
      assert a + b == (a + front) + [last];
      JoinSnoc(a + front, last);
      JoinAppend(a, front);
      JoinSnoc(front, last);
    }
  }

  /** Every entry keeps its place: the document is the entries before index
      `i`, a separator, and the entries from `i` on. */
  lemma JoinSplitAt(es: seq<string>, i: nat)
    requires 0 < i < |es|
    ensures Join(es) == Join(es[..i]) + Separator + Join(es[i..])
  {
    assert es == es[..i] + es[i..];
    JoinAppend(es[..i], es[i..]);
  }

  /** The join computed left to right, as `str.join` does. */
  method JoinEntries(es: seq<string>) returns (combined: string)
    ensures combined == Join(es)
  {
    if |es| == 0 {
      return "";
    }
    combined := es[0];
    var i := 1;
    while i < |es|
      invariant 1 <= i <= |es|
      invariant combined == Join(es[..i])
    {
      assert es[..i + 1] == es[..i] + [es[i]];
      JoinSnoc(es[..i], es[i]);
      combined := combined + Separator + es[i];
      i := i + 1;
    }
    assert es[..i] == es;
  }

  /** Cuts `s` at character index `maxChars` and marks the cut, when `s` is
      longer than `maxChars`; otherwise leaves it alone. The cut ignores word
      and entry boundaries. */
  function Truncate(s: string, maxChars: nat): (r: string)
    ensures |s| <= maxChars ==> r == s
    ensures |s| > maxChars ==> |r| == maxChars + |Marker|
    ensures |s| > maxChars ==> r[..maxChars] == s[..maxChars] && r[maxChars..] == Marker
    ensures |r| <= maxChars + |Marker|
  {
    if |s| > maxChars then s[..maxChars] + Marker else s
  }

  /** Truncating twice to the same bound is truncating once: a cut document
      is longer than the bound, so it is cut again at the same index and
      gets back the same marker, not a second one. */
  lemma TruncateIdempotent(s: string, maxChars: nat)
    ensures Truncate(Truncate(s, maxChars), maxChars) == Truncate(s, maxChars)
  {
  }

  /** `mush_content`: the joined entries under a budget of
      `maxTokens * CharsPerToken` characters. */
  function MushContent(entries: seq<string>, maxTokens: nat): (r: string)
    ensures |Join(entries)| <= maxTokens * CharsPerToken ==> r == Join(entries)
    ensures |Join(entries)| > maxTokens * CharsPerToken ==>
              r == Join(entries)[..maxTokens * CharsPerToken] + Marker
    ensures |r| <= maxTokens * CharsPerToken + |Marker|
  {
    Truncate(Join(entries), maxTokens * CharsPerToken)
  }

  /** The kept part is always a prefix of the join: whatever the budget, the
      document starts with the first `min(|join|, budget)` characters of the
      join, and a document that changed ends with the marker. */
  lemma MushKeepsPrefix(entries: seq<string>, maxTokens: nat)
    ensures var join, budget := Join(entries), maxTokens * CharsPerToken;
            var kept := if |join| <= budget then |join| else budget;
            kept <= |MushContent(entries, maxTokens)| &&
            MushContent(entries, maxTokens)[..kept] == join[..kept]
    ensures MushContent(entries, maxTokens) != Join(entries) ==>
              |MushContent(entries, maxTokens)| == maxTokens * CharsPerToken + |Marker| &&
              MushContent(entries, maxTokens)[maxTokens * CharsPerToken..] == Marker
  {
  }

  /** Feeding a document back through `mush_content` on its own, with the
      same budget, returns it unchanged. */
  lemma MushIdempotent(entries: seq<string>, maxTokens: nat)
    ensures MushContent([MushContent(entries, maxTokens)], maxTokens)
            == MushContent(entries, maxTokens)
  {
  }

  /** Two entries joined, and the same document cut at character 5: the
      marker follows the cut directly. */
  lemma JoinExample()
    ensures Join(["Title: A\n\nx", "Title: B\n\ny"]) == "Title: A\n\nx\n\n---\n\nTitle: B\n\ny"
    ensures Truncate("Title: A\n\nx\n\n---\n\nTitle: B\n\ny", 5) == "Title... [truncated]"
    ensures MushContent(["Title: A\n\nx", "Title: B\n\ny"], 1) == "Titl... [truncated]"
  {
    assert ["Title: A\n\nx", "Title: B\n\ny"][1..] == ["Title: B\n\ny"];
  }
}
