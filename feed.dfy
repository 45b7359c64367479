/**
  The RSS 2.0 renderer (`build_rss`).

  The build timestamp and each item's publication date are opaque strings
  supplied by the caller. An item's title and link may be missing (a JSON
  null, or no URL anywhere); `html.escape` then raises, and so does the
  renderer, which is modelled as an error result.
*/
module Feed {
  import opened Wrappers
  import opened Escaping

  const FEED_TITLE := "DEV.to Top Posts This Month"
  const FEED_LINK := "https://dev.to/top/month"
  const FEED_DESCRIPTION := "Top DEV.to posts from the last 30 days."

  const HEADER_LINES := 7
  const ITEM_LINES := 8
  const FOOTER_LINES := 2

  /** A normalised article, as the orchestrator builds it. */
  datatype Item<Id> = Item(id: Id, title: Option<string>, link: Option<string>, pubDate: string, content: string)

  /** `html.escape(None)`: the title or the link of some item is missing. */
  datatype RenderError = MissingText

  predicate Renderable<Id>(item: Item<Id>) {
    item.title.Some? && item.link.Some?
  }

  /**
    The channel lines. The source escapes the three channel texts; they are
    written as they are here, which ChannelTextsUnchanged proves is the same.
  */
  function Header(now: string): (lines: seq<string>)
    ensures |lines| == HEADER_LINES
  {
    [ "<?xml version=\"1.0\" encoding=\"UTF-8\"?>",
      "<rss version=\"2.0\" xmlns:content=\"http://purl.org/rss/1.0/modules/content/\">",
      "  <channel>",
      "    <title>" + FEED_TITLE + "</title>",
      "    <link>" + FEED_LINK + "</link>",
      "    <description>" + FEED_DESCRIPTION + "</description>",
      "    <lastBuildDate>" + now + "</lastBuildDate>" ]
  }

  /**
    `html.escape` leaves the three channel texts unchanged: none of them holds
    `&`, `<`, `>`, `"` or `'`. This is why Header writes them as they are.
  */
  lemma ChannelTextsUnchanged()
    ensures Escape(FEED_TITLE) == FEED_TITLE
    ensures Escape(FEED_LINK) == FEED_LINK
    ensures Escape(FEED_DESCRIPTION) == FEED_DESCRIPTION
  {
    PlainText(FEED_TITLE);
    PlainText(FEED_LINK);
    PlainText(FEED_DESCRIPTION);
  }

  /** One channel text at a time keeps each literal's unfolding small. */
  lemma PlainText(s: string)
    requires s == FEED_TITLE || s == FEED_LINK || s == FEED_DESCRIPTION
    ensures Escape(s) == s
  {
    assert Plain(s);
    EscapePlain(s);
  }

  function Footer(): (lines: seq<string>)
    ensures |lines| == FOOTER_LINES
  {
    ["  </channel>", "</rss>"]
  }

  function ItemBlock<Id>(item: Item<Id>): (lines: seq<string>)
    requires Renderable(item)
    ensures |lines| == ITEM_LINES
  {
    [ "    <item>",
      "      <title>" + Escape(item.title.value) + "</title>",
      "      <link>" + Escape(item.link.value) + "</link>",
      "      <guid isPermaLink=\"true\">" + Escape(item.link.value) + "</guid>",
      "      <pubDate>" + item.pubDate + "</pubDate>",
      "      <description><![CDATA[" + item.content + "]]></description>",
      "      <content:encoded><![CDATA[" + item.content + "]]></content:encoded>",
      "    </item>" ]
  }

  function ItemsBlock<Id>(items: seq<Item<Id>>): seq<string>
    requires forall k :: 0 <= k < |items| ==> Renderable(items[k])
  {
    if items == [] then []
    else ItemsBlock(items[..|items| - 1]) + ItemBlock(items[|items| - 1])
  }

  /** The lines of the document, before they are joined. */
  function FeedLines<Id>(items: seq<Item<Id>>, now: string): seq<string>
    requires forall k :: 0 <= k < |items| ==> Renderable(items[k])
  {
    Header(now) + ItemsBlock(items) + Footer()
  }

  /** `"\n".join(lines)`. */
  function Join(lines: seq<string>): string {
    if lines == [] then ""
    else if |lines| == 1 then lines[0]
    else lines[0] + "\n" + Join(lines[1..])
  }

  /** What `build_rss(items)` returns or raises. */
  function RenderFeed<Id>(items: seq<Item<Id>>, now: string): Result<string, RenderError> {
    if forall k :: 0 <= k < |items| ==> Renderable(items[k]) then Ok(Join(FeedLines(items, now)))
    else Err(MissingText)
  }

  method BuildRss<Id>(items: seq<Item<Id>>, now: string) returns (r: Result<string, RenderError>)
    ensures r == RenderFeed(items, now)
  {
    var header := Header(now);
    var parts := header;
    var i := 0;
    while i < |items|
      invariant 0 <= i <= |items|
      invariant forall k :: 0 <= k < i ==> Renderable(items[k])
      invariant parts == header + ItemsBlock(items[..i])
    {
      var item := items[i];
      if item.title.None? || item.link.None? {
        return Err(MissingText);
      }
      ItemsBlockSnoc(items, i);
      parts := parts + ItemBlock(item);
      i := i + 1;
    }
    assert items[..i] == items;
    parts := parts + Footer();
    r := Ok(Join(parts));
  }

  /** One more renderable item appends its block. */
  lemma ItemsBlockSnoc<Id>(items: seq<Item<Id>>, i: nat)
    requires i < |items|
    requires forall k :: 0 <= k <= i ==> Renderable(items[k])
    ensures ItemsBlock(items[..i + 1]) == ItemsBlock(items[..i]) + ItemBlock(items[i])
  {
    assert items[..i + 1][..i] == items[..i];
  }

  // ---------------------------------------------------------------------------
  // The shape of the document.

  lemma {:induction false} ItemsBlockShape<Id>(items: seq<Item<Id>>, k: nat, j: nat)
    requires forall m :: 0 <= m < |items| ==> Renderable(items[m])
    requires k < |items| && j < ITEM_LINES
    ensures |ItemsBlock(items)| == ITEM_LINES * |items|
    ensures ItemsBlock(items)[ITEM_LINES * k + j] == ItemBlock(items[k])[j]
  {
    var init := items[..|items| - 1];
    if k < |items| - 1 {
      ItemsBlockShape(init, k, j);
    } else if init != [] {
      ItemsBlockShape(init, 0, 0);
    }
  }

  /** Where the three parts of a concatenation sit. */
  lemma ConcatParts<T>(a: seq<T>, b: seq<T>, c: seq<T>, i: nat)
    requires i < |b|
    ensures (a + b + c)[..|a|] == a
    ensures (a + b + c)[|a| + |b|..] == c
    ensures (a + b + c)[|a| + i] == b[i]
  {
  }

  /** The document's lines: the header, the items' blocks, the footer. */
  lemma FeedLinesFrame<Id>(items: seq<Item<Id>>, now: string)
    requires forall m :: 0 <= m < |items| ==> Renderable(items[m])
    ensures var lines := FeedLines(items, now);
      && |lines| == HEADER_LINES + ITEM_LINES * |items| + FOOTER_LINES
      && lines[..HEADER_LINES] == Header(now)
      && lines[|lines| - FOOTER_LINES..] == Footer()
  {
    if items != [] {
      ItemsBlockShape(items, 0, 0);
      ConcatParts(Header(now), ItemsBlock(items), Footer(), 0);
    }
  }

  /** Line `j` of item `k`'s block is line 7 + 8k + j of the document. */
  lemma FeedLineOfItem<Id>(items: seq<Item<Id>>, now: string, k: nat, j: nat)
    requires forall m :: 0 <= m < |items| ==> Renderable(items[m])
    requires k < |items| && j < ITEM_LINES
    ensures HEADER_LINES + ITEM_LINES * k + j < |FeedLines(items, now)|
    ensures FeedLines(items, now)[HEADER_LINES + ITEM_LINES * k + j] == ItemBlock(items[k])[j]
  {
    ItemsBlockShape(items, k, j);
    ConcatParts(Header(now), ItemsBlock(items), Footer(), ITEM_LINES * k + j);
  }

  /**
    Seven header lines, eight lines per item in item order, two closing
    lines; each item's block carries its escaped title, its escaped link
    twice (link and guid), its date verbatim and its content verbatim twice,
    in CDATA sections.
  */
  lemma FeedShape<Id>(items: seq<Item<Id>>, now: string, k: nat)
    requires forall m :: 0 <= m < |items| ==> Renderable(items[m])
    requires k < |items|
    ensures var lines := FeedLines(items, now); var base := HEADER_LINES + ITEM_LINES * k; var item := items[k];
      && |lines| == HEADER_LINES + ITEM_LINES * |items| + FOOTER_LINES
      && lines[..HEADER_LINES] == Header(now)
      && lines[|lines| - FOOTER_LINES..] == Footer()
      && lines[base] == "    <item>"
      && lines[base + 1] == "      <title>" + Escape(item.title.value) + "</title>"
      && lines[base + 2] == "      <link>" + Escape(item.link.value) + "</link>"
      && lines[base + 3] == "      <guid isPermaLink=\"true\">" + Escape(item.link.value) + "</guid>"
      && lines[base + 4] == "      <pubDate>" + item.pubDate + "</pubDate>"
      && lines[base + 5] == "      <description><![CDATA[" + item.content + "]]></description>"
      && lines[base + 6] == "      <content:encoded><![CDATA[" + item.content + "]]></content:encoded>"
      && lines[base + 7] == "    </item>"
  {
    FeedLinesFrame(items, now);
    var b := ItemBlock(items[k]);
    var lines := FeedLines(items, now);
    var base := HEADER_LINES + ITEM_LINES * k;
    FeedLineOfItem(items, now, k, 0); FeedLineOfItem(items, now, k, 1);
    FeedLineOfItem(items, now, k, 2); FeedLineOfItem(items, now, k, 3);
    FeedLineOfItem(items, now, k, 4); FeedLineOfItem(items, now, k, 5);
    FeedLineOfItem(items, now, k, 6); FeedLineOfItem(items, now, k, 7);
    assert lines[base] == b[0] && lines[base + 1] == b[1] && lines[base + 2] == b[2] && lines[base + 3] == b[3];
    assert lines[base + 4] == b[4] && lines[base + 5] == b[5] && lines[base + 6] == b[6] && lines[base + 7] == b[7];
  }

  /** With no items the document is just the header and the footer. */
  lemma EmptyFeed<Id>(now: string)
    ensures FeedLines<Id>([], now) == Header(now) + Footer()
    ensures |FeedLines<Id>([], now)| == HEADER_LINES + FOOTER_LINES
    ensures RenderFeed<Id>([], now) == Ok(Join(Header(now) + Footer()))
  {
  }

  /** Rendering fails exactly when some item has no title or no link. */
  lemma RenderFails<Id>(items: seq<Item<Id>>, now: string)
    ensures RenderFeed(items, now).Err? <==> exists k :: 0 <= k < |items| && !Renderable(items[k])
  {
  }

  // ---------------------------------------------------------------------------
  // Splitting the joined text back into lines.

  function Split(s: string): seq<string>
    decreases |s|
  {
    if forall i :: 0 <= i < |s| ==> s[i] != '\n' then [s]
    else
      var n := IndexOf(s, '\n');
      [s[..n]] + Split(s[n + 1..])
  }

  predicate NoNewline(line: string) {
    forall i :: 0 <= i < |line| ==> line[i] != '\n'
  }

  /** When no line holds a newline, the joined document splits back into its lines. */
  lemma {:induction false} SplitJoin(lines: seq<string>)
    requires lines != []
    requires forall k :: 0 <= k < |lines| ==> NoNewline(lines[k])
    ensures Split(Join(lines)) == lines
  {
    if |lines| > 1 {
      var s := lines[0] + "\n" + Join(lines[1..]);
      assert s[|lines[0]|] == '\n';
      assert s == lines[0] + ("\n" + Join(lines[1..]));
      IndexOfAfter(lines[0], '\n', "\n" + Join(lines[1..]));
      assert s[..|lines[0]|] == lines[0];
      assert s[|lines[0]| + 1..] == Join(lines[1..]);
      SplitJoin(lines[1..]);
    }
  }
}
