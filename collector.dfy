/**
  Item normalisation (`collect_items`).

  JSON objects are maps from keys to `Option<string>`, so that a missing key
  (`k !in m`) differs from a key holding null (`m[k] == None`). The top list
  arrives as the outcome of its fetch; each detail is fetched through
  `fetchDetail`. Parsing the article body is abstracted into the detail's
  `blocks` (see Extractor), and turning a timestamp into an RFC 2822 date is
  the parameter `format`; `now` is the formatted current time.
*/
module Collector {
  import opened Wrappers
  import opened Fetcher
  import opened Extractor
  import opened Escaping
  import opened Feed

  type Record = map<string, Option<string>>

  /** An entry of the top list: its `id` (absent when the key is missing) and its other fields. */
  datatype Summary<Id> = Summary(id: Option<Id>, fields: Record)

  /** A detail object, with the candidate texts of its `body_html`. */
  datatype Detail = Detail(fields: Record, blocks: seq<string>)

  datatype CollectError =
    | FetchFailed(failure: Failure)   // a fetch raised
    | NoArticles                      // the top list is empty
    | MissingId                       // `article["id"]` raised KeyError

  /** `m.get(key, default)`. */
  function Get(m: Record, key: string, default: Option<string>): Option<string> {
    if key in m then m[key] else default
  }

  /** Python's slice `s[:k]`, where a negative `k` counts from the end. */
  function SliceTo<T>(s: seq<T>, k: int): (r: seq<T>)
    ensures |r| <= |s| && r == s[..|r|]
    ensures k >= 0 ==> |r| == Min(k, |s|)
    ensures k < 0 ==> |r| == if |s| + k >= 0 then |s| + k else 0
  {
    if k >= 0 then Take(s, k)
    else if |s| + k >= 0 then s[..|s| + k]
    else []
  }

  function ItemTitle<Id>(summary: Summary<Id>, detail: Detail): Option<string> {
    Get(detail.fields, "title", Get(summary.fields, "title", Some("Untitled")))
  }

  function ItemLink<Id>(summary: Summary<Id>, detail: Detail): Option<string> {
    Get(detail.fields, "url", Get(summary.fields, "url", None))
  }

  /** `detail.get("published_at") or detail.get("created_at")`. */
  function Published(detail: Detail): Option<string> {
    var published := Get(detail.fields, "published_at", None);
    if Truthy(published) then published else Get(detail.fields, "created_at", None)
  }

  function PubDate(detail: Detail, format: string -> string, now: string): string {
    var published := Published(detail);
    if Truthy(published) then format(published.value) else now
  }

  /**
    The date comes from the first truthy of `published_at` and `created_at`,
    and is the current time when neither is.
  */
  lemma PubDateChoice(detail: Detail, format: string -> string, now: string)
    ensures var published := Get(detail.fields, "published_at", None);
      var created := Get(detail.fields, "created_at", None);
      && (Truthy(published) ==> Published(detail) == published && PubDate(detail, format, now) == format(published.value))
      && (!Truthy(published) && Truthy(created) ==> PubDate(detail, format, now) == format(created.value))
      && (!Truthy(published) && !Truthy(created) ==> PubDate(detail, format, now) == now)
  {
  }

  function Content<Id>(summary: Summary<Id>, detail: Detail): string {
    ParagraphsToHtml(Extract(detail.blocks, Get(summary.fields, "description", None)))
  }

  /** One pass of the loop body: the item for one summary, or what it raised. */
  function Normalize<Id>(summary: Summary<Id>, fetchDetail: Id -> Outcome<Detail>, format: string -> string, now: string)
    : Result<Item<Id>, CollectError>
  {
    if summary.id.None? then Err(MissingId)
    else match fetchDetail(summary.id.value)
      case Failed(f) => Err(FetchFailed(f))
      case Success(detail) =>
        Ok(Item(summary.id.value, ItemTitle(summary, detail), ItemLink(summary, detail),
                PubDate(detail, format, now), Content(summary, detail)))
  }

  /** Apply `f` to each element in order, stopping at the first error (a loop that raises). */
  function MapResults<S, T, E>(xs: seq<S>, f: S -> Result<T, E>): Result<seq<T>, E> {
    if xs == [] then Ok([])
    else match MapResults(xs[..|xs| - 1], f)
      case Err(e) => Err(e)
      case Ok(ys) =>
        match f(xs[|xs| - 1])
        case Err(e) => Err(e)
        case Ok(y) => Ok(ys + [y])
  }

  /** The loop over the summaries: the items, or the first error. */
  function NormalizeAll<Id>(summaries: seq<Summary<Id>>, fetchDetail: Id -> Outcome<Detail>, format: string -> string, now: string)
    : Result<seq<Item<Id>>, CollectError>
  {
    MapResults(summaries, s => Normalize(s, fetchDetail, format, now))
  }

  /** What `collect_items` returns or raises. */
  function Collected<Id>(top: Outcome<seq<Summary<Id>>>, fetchDetail: Id -> Outcome<Detail>, format: string -> string, now: string, limit: int)
    : Result<seq<Item<Id>>, CollectError>
  {
    match top
    case Failed(f) => Err(FetchFailed(f))
    case Success(summaries) =>
      if summaries == [] then Err(NoArticles)
      else NormalizeAll(SliceTo(summaries, limit), fetchDetail, format, now)
  }

  method CollectItems<Id>(top: Outcome<seq<Summary<Id>>>, fetchDetail: Id -> Outcome<Detail>, format: string -> string, now: string, limit: int)
    returns (r: Result<seq<Item<Id>>, CollectError>)
    ensures r == Collected(top, fetchDetail, format, now, limit)
  {
    if top.Failed? {
      return Err(FetchFailed(top.failure));
    }
    var summaries := top.body;
    if summaries == [] {
      return Err(NoArticles);
    }
    var chosen := SliceTo(summaries, limit);
    var items: seq<Item<Id>> := [];
    var i := 0;
    while i < |chosen|
      invariant 0 <= i <= |chosen|
      invariant NormalizeAll(chosen[..i], fetchDetail, format, now) == Ok(items)
    {
      var summary := chosen[i];
      if summary.id.None? {
        MapResultsFailsAt(chosen, s => Normalize(s, fetchDetail, format, now), i);
        return Err(MissingId);
      }
      var articleId := summary.id.value;
      var detail := fetchDetail(articleId);
      if detail.Failed? {
        MapResultsFailsAt(chosen, s => Normalize(s, fetchDetail, format, now), i);
        return Err(FetchFailed(detail.failure));
      }
      var paragraphs := ExtractParagraphs(detail.body.blocks, Get(summary.fields, "description", None));
      var contentHtml := ParagraphsToHtml(paragraphs);
      var pubDate := PubDate(detail.body, format, now);
      var item := Item(articleId, ItemTitle(summary, detail.body), ItemLink(summary, detail.body), pubDate, contentHtml);
      NormalizeAllSnoc(chosen, fetchDetail, format, now, i, items, item);
      items := items + [item];
      i := i + 1;
    }
    assert chosen[..i] == chosen;
    r := Ok(items);
  }

  /** One more summary that normalises appends its item. */
  lemma NormalizeAllSnoc<Id>(chosen: seq<Summary<Id>>, fetchDetail: Id -> Outcome<Detail>, format: string -> string, now: string,
                             i: nat, items: seq<Item<Id>>, item: Item<Id>)
    requires i < |chosen|
    requires NormalizeAll(chosen[..i], fetchDetail, format, now) == Ok(items)
    requires Normalize(chosen[i], fetchDetail, format, now) == Ok(item)
    ensures NormalizeAll(chosen[..i + 1], fetchDetail, format, now) == Ok(items + [item])
  {
    MapResultsSnoc(chosen, s => Normalize(s, fetchDetail, format, now), i, items, item);
  }

  lemma MapResultsSnoc<S, T, E>(xs: seq<S>, f: S -> Result<T, E>, i: nat, ys: seq<T>, y: T)
    requires i < |xs|
    requires MapResults(xs[..i], f) == Ok(ys)
    requires f(xs[i]) == Ok(y)
    ensures MapResults(xs[..i + 1], f) == Ok(ys + [y])
  {
    assert xs[..i + 1][..i] == xs[..i];
  }

  // ---------------------------------------------------------------------------
  // Properties.

  /** An error at element `i`, after `i` successes, is what the whole loop raises. */
  lemma {:induction false} MapResultsFailsAt<S, T, E>(xs: seq<S>, f: S -> Result<T, E>, i: nat)
    requires i < |xs|
    requires MapResults(xs[..i], f).Ok?
    requires f(xs[i]).Err?
    ensures MapResults(xs, f) == Err(f(xs[i]).error)
    decreases |xs|
  {
    var init := xs[..|xs| - 1];
    if i < |init| {
      assert init[..i] == xs[..i];
      MapResultsFailsAt(init, f, i);
    } else {
      assert init == xs[..i];
    }
  }

  /** The loop succeeds exactly when every element does, result `k` coming from element `k`. */
  lemma {:induction false} MapResultsOk<S, T, E>(xs: seq<S>, f: S -> Result<T, E>)
    ensures MapResults(xs, f).Ok? <==> forall k :: 0 <= k < |xs| ==> f(xs[k]).Ok?
    ensures MapResults(xs, f).Ok? ==>
      (|MapResults(xs, f).value| == |xs| && forall k :: 0 <= k < |xs| ==> MapResults(xs, f).value[k] == f(xs[k]).value)
  {
    if xs != [] {
      var init := xs[..|xs| - 1];
      MapResultsOk(init, f);
      assert forall k :: 0 <= k < |init| ==> init[k] == xs[k];
    }
  }

  /** When the loop raises, it is the error of the first element that fails. */
  lemma {:induction false} MapResultsErr<S, T, E>(xs: seq<S>, f: S -> Result<T, E>)
    requires MapResults(xs, f).Err?
    ensures exists k :: (0 <= k < |xs| && f(xs[k]) == Err(MapResults(xs, f).error)
      && forall j :: 0 <= j < k ==> f(xs[j]).Ok?)
  {
    var init := xs[..|xs| - 1];
    var last := |xs| - 1;
    if MapResults(init, f).Err? {
      MapResultsErr(init, f);
      var k :| 0 <= k < |init| && f(init[k]) == Err(MapResults(init, f).error)
        && forall j :: 0 <= j < k ==> f(init[j]).Ok?;
      assert init[k] == xs[k];
      assert forall j :: 0 <= j < k ==> init[j] == xs[j];
    } else {
      MapResultsOk(init, f);
      assert forall j :: 0 <= j < last ==> init[j] == xs[j];
    }
  }

  /** A failed top-list fetch or an empty top list raises before any detail is fetched. */
  lemma CollectedErrors<Id>(top: Outcome<seq<Summary<Id>>>, fetchDetail: Id -> Outcome<Detail>, format: string -> string, now: string, limit: int)
    ensures top.Failed? ==> Collected(top, fetchDetail, format, now, limit) == Err(FetchFailed(top.failure))
    ensures top == Success([]) ==> Collected(top, fetchDetail, format, now, limit) == Err(NoArticles)
  {
  }

  /**
    On success: one item per entry of `top[:limit]` (min(limit, |top|) of
    them when `limit >= 0`), in top-list order, item `k` carrying summary
    `k`'s id and built from summary `k` and its detail.
  */
  lemma CollectedItems<Id>(summaries: seq<Summary<Id>>, fetchDetail: Id -> Outcome<Detail>, format: string -> string, now: string, limit: int)
    requires Collected(Success(summaries), fetchDetail, format, now, limit).Ok?
    ensures var items := Collected(Success(summaries), fetchDetail, format, now, limit).value;
      && |items| == |SliceTo(summaries, limit)|
      && (limit >= 0 ==> |items| == Min(limit, |summaries|))
      && forall k :: 0 <= k < |items| ==>
           && summaries[k].id == Some(items[k].id)
           && fetchDetail(items[k].id).Success?
           && var detail := fetchDetail(items[k].id).body;
              items[k] == Item(items[k].id, ItemTitle(summaries[k], detail), ItemLink(summaries[k], detail),
                               PubDate(detail, format, now), Content(summaries[k], detail))
  {
    var chosen := SliceTo(summaries, limit);
    MapResultsOk(chosen, s => Normalize(s, fetchDetail, format, now));
    var items := Collected(Success(summaries), fetchDetail, format, now, limit).value;
    forall k | 0 <= k < |items|
      ensures summaries[k].id == Some(items[k].id)
      ensures fetchDetail(items[k].id).Success?
      ensures var detail := fetchDetail(items[k].id).body;
        items[k] == Item(items[k].id, ItemTitle(summaries[k], detail), ItemLink(summaries[k], detail),
                         PubDate(detail, format, now), Content(summaries[k], detail))
    {
      CollectedItemAt(summaries, fetchDetail, format, now, limit, k);
    }
  }

  /** Item `k` of a successful collection, on its own. */
  lemma CollectedItemAt<Id>(summaries: seq<Summary<Id>>, fetchDetail: Id -> Outcome<Detail>, format: string -> string,
                            now: string, limit: int, k: nat)
    requires Collected(Success(summaries), fetchDetail, format, now, limit).Ok?
    requires k < |SliceTo(summaries, limit)|
    ensures var items := Collected(Success(summaries), fetchDetail, format, now, limit).value;
      && k < |items|
      && summaries[k].id == Some(items[k].id)
      && fetchDetail(items[k].id).Success?
      && var detail := fetchDetail(items[k].id).body;
         items[k] == Item(items[k].id, ItemTitle(summaries[k], detail), ItemLink(summaries[k], detail),
                          PubDate(detail, format, now), Content(summaries[k], detail))
  {
    var chosen := SliceTo(summaries, limit);
    var f := s => Normalize(s, fetchDetail, format, now);
    MapResultsOk(chosen, f);
    assert chosen[k] == summaries[k];
    NormalizeOk(summaries[k], fetchDetail, format, now);
  }

  /** A summary that normalises carries an id whose detail was fetched, and the item is built from both. */
  lemma NormalizeOk<Id>(summary: Summary<Id>, fetchDetail: Id -> Outcome<Detail>, format: string -> string, now: string)
    requires Normalize(summary, fetchDetail, format, now).Ok?
    ensures summary.id.Some? && fetchDetail(summary.id.value).Success?
    ensures var detail := fetchDetail(summary.id.value).body;
      Normalize(summary, fetchDetail, format, now).value
        == Item(summary.id.value, ItemTitle(summary, detail), ItemLink(summary, detail),
                PubDate(detail, format, now), Content(summary, detail))
  {
  }

  /** The title is missing only when a null is stored where the lookup stops. */
  lemma TitleMissing<Id>(summary: Summary<Id>, detail: Detail)
    ensures ItemTitle(summary, detail).None? <==>
      if "title" in detail.fields then detail.fields["title"].None?
      else "title" in summary.fields && summary.fields["title"].None?
    ensures "title" !in detail.fields && "title" !in summary.fields ==> ItemTitle(summary, detail) == Some("Untitled")
  {
  }

  /** The link is missing when the detail stores a null url, or has none and the summary has no usable one. */
  lemma LinkMissing<Id>(summary: Summary<Id>, detail: Detail)
    ensures ItemLink(summary, detail).None? <==>
      if "url" in detail.fields then detail.fields["url"].None?
      else "url" !in summary.fields || summary.fields["url"].None?
  {
  }

  /** Every item's content is a rendering of 1 to 21 snippets, safe inside CDATA. */
  lemma ContentIsSafe<Id>(summary: Summary<Id>, detail: Detail)
    ensures var paragraphs := Extract(detail.blocks, Get(summary.fields, "description", None));
      && 1 <= |paragraphs| <= CAP + 1
      && ParseParagraphs(Content(summary, detail)) == Some(paragraphs)
      && NoCdataEnd(Content(summary, detail))
  {
    var paragraphs := Extract(detail.blocks, Get(summary.fields, "description", None));
    ExtractBounds(detail.blocks, Get(summary.fields, "description", None));
    ParseRendered(paragraphs);
    RenderedHasNoCdataEnd(paragraphs);
  }

  /**
    When the loop raises, the error comes from the first chosen summary that
    has no id or whose detail fetch fails; every summary before it succeeded.
  */
  lemma CollectedFirstError<Id>(summaries: seq<Summary<Id>>, fetchDetail: Id -> Outcome<Detail>, format: string -> string,
                                now: string, limit: int)
    requires summaries != []
    requires Collected(Success(summaries), fetchDetail, format, now, limit).Err?
    ensures var chosen := SliceTo(summaries, limit); var e := Collected(Success(summaries), fetchDetail, format, now, limit).error;
      exists k :: (0 <= k < |chosen|
        && (if chosen[k].id.None? then e == MissingId
            else fetchDetail(chosen[k].id.value).Failed? && e == FetchFailed(fetchDetail(chosen[k].id.value).failure))
        && forall j :: 0 <= j < k ==> chosen[j].id.Some? && fetchDetail(chosen[j].id.value).Success?)
  {
    var chosen := SliceTo(summaries, limit);
    var f := s => Normalize(s, fetchDetail, format, now);
    MapResultsErr(chosen, f);
  }

  /** A summary with no url anywhere yields an item the renderer cannot escape. */
  lemma MissingUrlBreaksFeed<Id>(summaries: seq<Summary<Id>>, fetchDetail: Id -> Outcome<Detail>, format: string -> string,
                                 now: string, limit: int, k: nat, buildDate: string)
    requires Collected(Success(summaries), fetchDetail, format, now, limit).Ok?
    requires k < |SliceTo(summaries, limit)|
    requires "url" !in summaries[k].fields
    requires summaries[k].id.Some? && fetchDetail(summaries[k].id.value).Success?
    requires "url" !in fetchDetail(summaries[k].id.value).body.fields
    ensures RenderFeed(Collected(Success(summaries), fetchDetail, format, now, limit).value, buildDate).Err?
  {
    CollectedItemAt(summaries, fetchDetail, format, now, limit, k);
    var items := Collected(Success(summaries), fetchDetail, format, now, limit).value;
    var detail := fetchDetail(summaries[k].id.value).body;
    assert items[k].link == ItemLink(summaries[k], detail) == None;
    assert !Renderable(items[k]);
    RenderFails(items, buildDate);
  }
}
