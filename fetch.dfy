/** The sequential parts of the review fetcher (app_reviews.go): the shared
    page cursor, the request URL for a page, and the rule each worker applies
    to the outcome of its request. */
module Fetch {
  import opened Wrappers
  import opened Strconv

  /** The feed template `.../id=%s/page=%s/...`, cut at its two `%s` verbs. */
  const FeedHead := "https://itunes.apple.com/rss/customerreviews/id="
  const FeedMiddle := "/page="
  const FeedTail := "/sortby=mostrecent/json"

  /** `fmt.Sprintf(iosReviewFeed, appID, page)`: the app id goes into the
      first verb and the page number into the second. */
  function FeedUrl(appID: string, page: string): (url: string)
    ensures |url| == |FeedHead| + |appID| + |FeedMiddle| + |page| + |FeedTail|
    ensures url[..|FeedHead|] == FeedHead && url[|url| - |FeedTail|..] == FeedTail
    ensures url[|FeedHead|..|FeedHead| + |appID|] == appID
    ensures url[|FeedHead| + |appID|..|FeedHead| + |appID| + |FeedMiddle|] == FeedMiddle
  {
    FeedHead + appID + FeedMiddle + page + FeedTail
  }

  /** The text between `/page=` and the tail in a feed URL for `appID`. */
  function PageOf(appID: string, url: string): string {
    var start := |FeedHead| + |appID| + |FeedMiddle|;
    if start + |FeedTail| <= |url| then url[start..|url| - |FeedTail|] else ""
  }

  /** The page number can be read back out of the URL it was put into. */
  lemma PageOfFeedUrl(appID: string, page: string)
    ensures PageOf(appID, FeedUrl(appID, page)) == page
  {
    var url := FeedUrl(appID, page);
    var start := |FeedHead| + |appID| + |FeedMiddle|;
    assert url == (FeedHead + appID + FeedMiddle) + page + FeedTail;
    assert url[start..|url| - |FeedTail|] == page;
  }

  /** Two different page numbers never share a URL. */
  lemma FeedUrlDistinct(appID: string, m: int, n: int)
    requires m != n
    ensures FeedUrl(appID, Itoa(m)) != FeedUrl(appID, Itoa(n))
  {
    if FeedUrl(appID, Itoa(m)) == FeedUrl(appID, Itoa(n)) {
      PageOfFeedUrl(appID, Itoa(m));
      PageOfFeedUrl(appID, Itoa(n));
      ItoaInjective(m, n);
    }
  }

  /** The `page` cursor shared by the workers of one fetch. */
  class PageCursor {
    var position: int

    constructor ()
      ensures position == 0
    {
      position := 0;
    }

    /** `page.next`: advances the cursor by one and renders the new
        position in decimal. */
    method Next() returns (page: string)
      modifies this
      ensures position == old(position) + 1
      ensures page == Itoa(position)
    {
      position := position + 1;
      var n := position;
      page := Itoa(n);
    }
  }

  /** `k` successive calls of `next`: the positions after the current one,
      in order, all different. */
  method Draw(cursor: PageCursor, k: nat) returns (pages: seq<string>)
    modifies cursor
    ensures cursor.position == old(cursor.position) + k
    ensures |pages| == k
    ensures forall i :: 0 <= i < k ==> pages[i] == Itoa(old(cursor.position) + i + 1)
    ensures forall i, j :: 0 <= i < j < k ==> pages[i] != pages[j]
  {
    ghost var start := cursor.position;
    pages := [];
    while |pages| < k
      invariant |pages| <= k && cursor.position == start + |pages|
      invariant forall i :: 0 <= i < |pages| ==> pages[i] == Itoa(start + i + 1)
    {
      var page := cursor.Next();
      pages := pages + [page];
    }
    forall i, j | 0 <= i < j < k
      ensures pages[i] != pages[j]
    {
      if pages[i] == pages[j] {
        ItoaInjective(start + i + 1, start + j + 1);
      }
    }
  }

  /** The page numbers a fresh cursor hands out: "1", "2", ... — each parses
      back to its call's ordinal, so they strictly increase. */
  method FirstPages(k: nat) returns (pages: seq<string>)
    ensures |pages| == k
    ensures k >= 1 ==> pages[0] == "1"
    ensures forall i :: 0 <= i < k && i < MaxInt64 ==> Atoi(pages[i]) == Success(i + 1)
    ensures forall i, j :: 0 <= i < j < k ==> pages[i] != pages[j]
  {
    var cursor := new PageCursor();
    pages := Draw(cursor, k);
    forall i | 0 <= i < k && i < MaxInt64
      ensures Atoi(pages[i]) == Success(i + 1)
    {
      AtoiItoa(i + 1);
    }
    if k >= 1 {
      assert pages[0] == NatToDecimal(1) == [DigitChar(1)];
    }
  }

  /** How one worker's request ended. */
  datatype Outcome<T> =
    | BuildFailed
    | TransportFailed
    | Responded(status: int, body: Decoding<T>)

  /** The result of decoding a response body as a feed page. */
  datatype Decoding<T> = DecodeFailed | Decoded(page: T)

  /** What the worker does: hand the page to the collector, give up on this
      page silently, or cancel the whole fetch. */
  datatype Action<T> = Emit(page: T) | Drop | Cancel

  const StatusOK := 200

  /** The worker's decision: a request that cannot be built, a status other
      than 200 (whatever the body) and an undecodable body all cancel; a
      transport failure only loses the page; a decoded page is emitted. */
  function Classify<T>(outcome: Outcome<T>): (action: Action<T>)
    ensures action.Cancel? <==>
      || outcome.BuildFailed?
      || (outcome.Responded? && outcome.status != StatusOK)
      || (outcome.Responded? && outcome.body.DecodeFailed?)
    ensures action.Drop? <==> outcome.TransportFailed?
    ensures action.Emit? <==>
      outcome.Responded? && outcome.status == StatusOK && outcome.body.Decoded?
    ensures action.Emit? ==> action.page == outcome.body.page
  {
    match outcome
    case BuildFailed => Cancel
    case TransportFailed => Drop
    case Responded(status, body) =>
      if status != StatusOK then Cancel
      else
        match body
        case DecodeFailed => Cancel
        case Decoded(page) => Emit(page)
  }

  /** One worker after it holds a slot: take the next page number, build
      its URL, and decide on what the request for that URL produced
      (`request` stands for building, sending and decoding the request). */
  method Work<T>(cursor: PageCursor, appID: string, request: string -> Outcome<T>)
    returns (url: string, action: Action<T>)
    modifies cursor
    ensures cursor.position == old(cursor.position) + 1
    ensures url == FeedUrl(appID, Itoa(cursor.position))
    ensures action == Classify(request(url))
  {
    var page := cursor.Next();
    url := FeedUrl(appID, page);
    action := Classify(request(url));
  }
}
