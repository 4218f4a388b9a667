/**
 * The paged listings: a do-while loop that requests page after page of a listing and
 * keeps going while the page counter, once incremented, is at most the `pages` count of
 * the last response. The loop is a method over an abstract remote; `WalkFrom` is the
 * function that specifies it.
 */
module Enumeration {
  import opened Wrappers
  import opened Decimal
  import opened Query
  import opened FlickrApi

  /** `Integer.MAX_VALUE`: no response can report more pages than this. */
  const MaxInt := 0x7fff_ffff

  /** `String.format("%s", s)`: a null string is written as `null`. */
  function FormatNullable(s: Option<string>): string
  {
    match s
    case None => "null"
    case Some(v) => v
  }

  /** The listings walked page by page. */
  datatype Source =
    | NotInSetPhotos                                      // getPhotosNotInSet
    | RecentlyUpdatedFirstPage(lastUpdated: Option<string>) // recentlyUpdated as written: always page "1"
    | UpdatedSince(minDate: string)                       // createFullListOfPhotos; recentlyUpdated corrected
    | TakenBetween(minTaken: int, maxTaken: int)          // createPhotosetWithPhotosFromYear

  /** The parameters of the request the loop sends for page `page`. */
  function PageParams(src: Source, page: int): seq<Param>
  {
    match src
    case NotInSetPhotos => NotInSetParams(IntToString(page))
    case RecentlyUpdatedFirstPage(lastUpdated) => RecentlyUpdatedParams(FormatNullable(lastUpdated), "1")
    case UpdatedSince(minDate) => RecentlyUpdatedParams(minDate, IntToString(page))
    case TakenBetween(minTaken, maxTaken) =>
      PhotosSearchParams(IntToString(minTaken), IntToString(maxTaken), IntToString(page))
  }

  function PageUrl(src: Source, page: int): string
  {
    Url(Rest, PageParams(src, page))
  }

  /** The loop of `recentlyUpdated` asks for page 1 whatever its counter; the others ask for the counter. */
  lemma RequestedPage(src: Source, page: int)
    ensures Find(PageParams(src, page), "page") ==
      Some(if src.RecentlyUpdatedFirstPage? then "1" else IntToString(page))
  {
    match src
    case NotInSetPhotos => NotInSetRequest(IntToString(page));
    case RecentlyUpdatedFirstPage(lastUpdated) => RecentlyUpdatedRequest(FormatNullable(lastUpdated), "1");
    case UpdatedSince(minDate) => RecentlyUpdatedRequest(minDate, IntToString(page));
    case TakenBetween(minTaken, maxTaken) =>
      PhotosSearchRequest(IntToString(minTaken), IntToString(maxTaken), IntToString(page));
  }

  /** A paged listing sends a different request for every page. */
  lemma DistinctPagesDistinctRequests(src: Source, p: int, q: int)
    requires !src.RecentlyUpdatedFirstPage?
    requires p != q
    ensures PageParams(src, p) != PageParams(src, q)
  {
    RequestedPage(src, p);
    RequestedPage(src, q);
    if PageParams(src, p) == PageParams(src, q) {
      IntToStringInjective(p, q);
    }
  }

  /** The remote's answer to each page request of a listing. */
  function Responses(remote: Remote, src: Source): int -> Option<PhotosPage>
  {
    p => remote.photos(PageUrl(src, p))
  }

  /** The responses a walk received, and whether it ended on a failed request. */
  datatype Walk = Walk(pages: seq<PhotosPage>, failed: bool)

  /**
   * The loop from page `page` on, against the answers `fetch`: request the page; a failed
   * request ends the walk with a failure; otherwise go on to `page + 1` while
   * `page + 1 <= pages` of this response.
   */
  function WalkFrom(fetch: int -> Option<PhotosPage>, page: int): Walk
    requires 1 <= page <= MaxInt
    decreases MaxInt - page
  {
    match fetch(page)
    case None => Walk([], true)
    case Some(r) =>
      if page + 1 <= r.pages then
        var rest := WalkFrom(fetch, page + 1);
        Walk([r] + rest.pages, rest.failed)
      else Walk([r], false)
  }

  /**
   * What a walk is: the `i`-th response answers the request for page `page + i`; every
   * response but the last announced a further page; the walk ends either on a failed request
   * or on a response that announces no page after the one requested.
   */
  lemma {:induction false} WalkFacts(fetch: int -> Option<PhotosPage>, page: int)
    requires 1 <= page <= MaxInt
    ensures var w := WalkFrom(fetch, page);
      forall i :: 0 <= i < |w.pages| ==> fetch(page + i) == Some(w.pages[i])
    ensures var w := WalkFrom(fetch, page);
      forall i :: 0 <= i < |w.pages| - 1 ==> page + i + 1 <= w.pages[i].pages
    ensures var w := WalkFrom(fetch, page);
      w.failed ==> fetch(page + |w.pages|) == None
    ensures var w := WalkFrom(fetch, page);
      !w.failed ==> |w.pages| >= 1 && w.pages[|w.pages| - 1].pages < page + |w.pages|
    decreases MaxInt - page
  {
    var w := WalkFrom(fetch, page);
    match fetch(page)
    case None =>
    case Some(r) =>
      if page + 1 <= r.pages {
        var rest := WalkFrom(fetch, page + 1);
        WalkFacts(fetch, page + 1);
        assert w.pages == [r] + rest.pages;
        forall i | 1 <= i < |w.pages|
          ensures fetch(page + i) == Some(w.pages[i])
          ensures i < |w.pages| - 1 ==> page + i + 1 <= w.pages[i].pages
        {
          assert w.pages[i] == rest.pages[i - 1];
          assert page + i == (page + 1) + (i - 1);
        }
      }
  }

  /** The photo records of the responses, in order. */
  function Records(pages: seq<PhotosPage>): seq<PhotoRecord>
    decreases |pages|
  {
    if pages == [] then [] else Records(pages[..|pages| - 1]) + pages[|pages| - 1].photo
  }

  /**
   * The do-while loop from page `page` on, collecting the records of every response; a
   * failed request aborts the whole operation.
   */
  method FetchRecordsFrom(fetch: int -> Option<PhotosPage>, page: int) returns (r: Result<seq<PhotoRecord>, Failure>)
    requires 1 <= page <= MaxInt
    ensures WalkFrom(fetch, page).failed ==> r == Err(RemoteFailure)
    ensures !WalkFrom(fetch, page).failed ==> r == Ok(Records(WalkFrom(fetch, page).pages))
  {
    var records: seq<PhotoRecord> := [];
    ghost var done: seq<PhotosPage> := [];
    var currentPage := page;
    var more := true;
    while more
      invariant page <= currentPage <= MaxInt + 1
      invariant more ==> currentPage <= MaxInt
      invariant more ==> WalkFrom(fetch, page).pages == done + WalkFrom(fetch, currentPage).pages
      invariant more ==> WalkFrom(fetch, page).failed == WalkFrom(fetch, currentPage).failed
      invariant !more ==> WalkFrom(fetch, page) == Walk(done, false)
      invariant records == Records(done)
      decreases MaxInt + 1 - currentPage
    {
      var response := fetch(currentPage);
      if response.None? {
        return Err(RemoteFailure);
      }
      var photos := response.value;
      WalkStep(fetch, currentPage, done, photos);
      records := records + photos.photo;
      done := done + [photos];
      currentPage := currentPage + 1;
      more := currentPage <= photos.pages;
    }
    return Ok(records);
  }

  /** The listing `src` read in full from page 1. */
  method FetchRecords(remote: Remote, src: Source) returns (r: Result<seq<PhotoRecord>, Failure>)
    ensures WalkFrom(Responses(remote, src), 1).failed ==> r == Err(RemoteFailure)
    ensures !WalkFrom(Responses(remote, src), 1).failed ==> r == Ok(Records(WalkFrom(Responses(remote, src), 1).pages))
  {
    r := FetchRecordsFrom(Responses(remote, src), 1);
  }

  /** One round of the loop: the response joins the pages read so far. */
  lemma WalkStep(fetch: int -> Option<PhotosPage>, page: int, done: seq<PhotosPage>, photos: PhotosPage)
    requires 1 <= page <= MaxInt
    requires fetch(page) == Some(photos)
    ensures Records(done + [photos]) == Records(done) + photos.photo
    ensures page + 1 <= photos.pages ==>
      done + WalkFrom(fetch, page).pages == (done + [photos]) + WalkFrom(fetch, page + 1).pages &&
      WalkFrom(fetch, page).failed == WalkFrom(fetch, page + 1).failed
    ensures page + 1 > photos.pages ==> WalkFrom(fetch, page) == Walk([photos], false)
  {
    var next := done + [photos];
    assert next[..|next| - 1] == done;
  }

  /** Every request from page `lo` to `hi` succeeds and reports `pages` pages. */
  predicate Consistent(fetch: int -> Option<PhotosPage>, lo: int, hi: int, pages: int)
  {
    forall p :: lo <= p <= hi ==> fetch(p).Some? && fetch(p).value.pages == pages
  }

  /**
   * Against answers that agree on the page count, the walk from `page` requests every
   * remaining page exactly once (at least one request) and succeeds.
   */
  lemma {:induction false} WalkConsistent(fetch: int -> Option<PhotosPage>, page: int, pages: int)
    requires 1 <= page <= MaxInt
    requires Consistent(fetch, page, if pages > page then pages else page, pages)
    ensures !WalkFrom(fetch, page).failed
    ensures |WalkFrom(fetch, page).pages| == if pages >= page then pages - page + 1 else 1
    decreases MaxInt - page
  {
    assert fetch(page).Some?;
    if page + 1 <= pages {
      WalkConsistent(fetch, page + 1, pages);
    }
  }

  /**
   * A listing whose every page answers with the same count `pages` is read in full: the
   * `i`-th response is the one for page `i + 1`, for pages 1 to `pages`.
   */
  lemma WalkReadsEveryPage(remote: Remote, src: Source, pages: int)
    requires Consistent(Responses(remote, src), 1, if pages > 1 then pages else 1, pages)
    ensures !WalkFrom(Responses(remote, src), 1).failed
    ensures |WalkFrom(Responses(remote, src), 1).pages| == if pages >= 1 then pages else 1
    ensures forall i :: 0 <= i < |WalkFrom(Responses(remote, src), 1).pages| ==>
      remote.photos(PageUrl(src, i + 1)) == Some(WalkFrom(Responses(remote, src), 1).pages[i])
  {
    var fetch := Responses(remote, src);
    WalkConsistentFrom1(fetch, pages);
    var w := WalkFrom(fetch, 1);
    forall i | 0 <= i < |w.pages|
      ensures remote.photos(PageUrl(src, i + 1)) == Some(w.pages[i])
    {
      assert fetch(i + 1) == remote.photos(PageUrl(src, i + 1));
    }
  }

  /** `WalkConsistent` from page 1, with the response of every request read. */
  lemma WalkConsistentFrom1(fetch: int -> Option<PhotosPage>, pages: int)
    requires Consistent(fetch, 1, if pages > 1 then pages else 1, pages)
    ensures !WalkFrom(fetch, 1).failed
    ensures |WalkFrom(fetch, 1).pages| == if pages >= 1 then pages else 1
    ensures forall i :: 0 <= i < |WalkFrom(fetch, 1).pages| ==> fetch(i + 1) == Some(WalkFrom(fetch, 1).pages[i])
  {
    WalkConsistent(fetch, 1, pages);
    WalkFacts(fetch, 1);
    var w := WalkFrom(fetch, 1);
    forall i | 0 <= i < |w.pages|
      ensures fetch(i + 1) == Some(w.pages[i])
    {
      assert 1 + i == i + 1;
    }
  }

  /**
   * As written, `recentlyUpdated` sends the request for page 1 on every round, so it reads
   * the first response `max(1, pages)` times over.
   */
  lemma RecentlyUpdatedRepeatsFirstPage(remote: Remote, lastUpdated: Option<string>, first: PhotosPage)
    requires remote.photos(PageUrl(RecentlyUpdatedFirstPage(lastUpdated), 1)) == Some(first)
    ensures !WalkFrom(Responses(remote, RecentlyUpdatedFirstPage(lastUpdated)), 1).failed
    ensures WalkFrom(Responses(remote, RecentlyUpdatedFirstPage(lastUpdated)), 1).pages ==
      seq(if first.pages >= 1 then first.pages else 1, _ => first)
  {
    var src := RecentlyUpdatedFirstPage(lastUpdated);
    var fetch := Responses(remote, src);
    forall p
      ensures fetch(p) == Some(first)
    {
      FirstPageUrl(lastUpdated, p);
    }
    WalkOfConstant(fetch, first);
  }

  /** The first-page listing sends the same request whatever page is asked for. */
  lemma FirstPageUrl(lastUpdated: Option<string>, p: int)
    ensures PageUrl(RecentlyUpdatedFirstPage(lastUpdated), p) == PageUrl(RecentlyUpdatedFirstPage(lastUpdated), 1)
  {
    assert PageParams(RecentlyUpdatedFirstPage(lastUpdated), p) == PageParams(RecentlyUpdatedFirstPage(lastUpdated), 1);
  }

  /** Against a remote that gives the same answer to every request, the walk reads that answer `max(1, pages)` times. */
  lemma WalkOfConstant(fetch: int -> Option<PhotosPage>, first: PhotosPage)
    requires forall p :: fetch(p) == Some(first)
    ensures !WalkFrom(fetch, 1).failed
    ensures WalkFrom(fetch, 1).pages == seq(if first.pages >= 1 then first.pages else 1, _ => first)
  {
    WalkConsistent(fetch, 1, first.pages);
    WalkFacts(fetch, 1);
    var w := WalkFrom(fetch, 1);
    forall i | 0 <= i < |w.pages|
      ensures w.pages[i] == first
    {
      assert fetch(1 + i) == Some(w.pages[i]);
    }
  }

  /** A listing whose first page announces two pages and whose second announces no third is read in two requests. */
  lemma WalkTwoPages(fetch: int -> Option<PhotosPage>, p1: PhotosPage, p2: PhotosPage)
    requires fetch(1) == Some(p1) && fetch(2) == Some(p2)
    requires p1.pages >= 2 && p2.pages <= 2
    ensures WalkFrom(fetch, 1) == Walk([p1, p2], false)
  {
    assert WalkFrom(fetch, 2) == Walk([p2], false);
  }

  lemma {:induction false} RecordsConcat(a: seq<PhotosPage>, b: seq<PhotosPage>)
    ensures Records(a + b) == Records(a) + Records(b)
    decreases |b|
  {
    if b == [] {
      assert a + b == a;
    } else {
      var ab := a + b;
      assert ab[..|ab| - 1] == a + b[..|b| - 1];
      RecordsConcat(a, b[..|b| - 1]);
    }
  }

  lemma RecordsSingle(r: PhotosPage)
    ensures Records([r]) == r.photo
  {
    assert [r][..0] == [];
  }
}
