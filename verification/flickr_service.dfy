/**
 * The pipeline's producers (`FlickrService`): each operation reads the remote and publishes
 * messages, in the order the source sends them. A failed remote read throws before anything
 * is published, except where noted.
 */
module FlickrService {
  import opened Wrappers
  import opened Decimal
  import opened FlickrApi
  import opened Messages
  import opened Broker
  import opened Paging
  import opened Enumeration
  import opened Calendar

  /** `getPhotosetsList`: one work message per page of every photoset, to the photos queue. */
  method GetPhotosetsList(env: Environment, remote: Remote) returns (r: Outcome<Failure>)
    modifies env
    ensures PhotosetListing(remote).None? ==> r == Fail(RemoteFailure) && env.log == old(env.log)
    ensures PhotosetListing(remote).Some? ==>
      r == Pass && env.log == old(env.log) + Publishes(PhotosetsPhotos, FanOut(PhotosetListing(remote).value))
    ensures env.cursorFile == old(env.cursorFile)
  {
    var listing := PhotosetListing(remote);
    if listing.None? {
      return Fail(RemoteFailure);
    }
    PublishFanOut(env, listing.value);
    return Pass;
  }

  /** The loop of `getPhotosetsList`: each set's page messages go out before the next set is read. */
  method PublishFanOut(env: Environment, sets: seq<PhotosetEntry>)
    modifies env
    ensures env.log == old(env.log) + Publishes(PhotosetsPhotos, FanOut(sets))
    ensures env.cursorFile == old(env.cursorFile)
  {
    for i := 0 to |sets|
      invariant env.log == old(env.log) + Publishes(PhotosetsPhotos, FanOut(sets[..i]))
      invariant env.cursorFile == old(env.cursorFile)
    {
      var item := sets[i];
      var pages := PageCount(item.photos);
      SendPageMessages(env, PhotosetsPhotos, item.id, pages, item.title);
      assert sets[..i + 1][..i] == sets[..i];
      PublishesConcat(PhotosetsPhotos, FanOut(sets[..i]), EntryMessages(item));
    }
    assert sets[..|sets|] == sets;
  }

  /** `http://localhost:9200/flickr/photo/{id}`: the index document of a photo. */
  function IndexUrl(id: string): string
  {
    "http://localhost:9200/flickr/photo/" + id
  }

  /** One index PUT per photo message, in order. */
  function IndexPuts(ms: seq<Message>): (es: seq<Effect>)
    requires forall i :: 0 <= i < |ms| ==> ms[i].Photo?
    ensures |es| == |ms|
    ensures forall i :: 0 <= i < |ms| ==> es[i] == IndexPut(IndexUrl(ms[i].id), ms[i])
    decreases |ms|
  {
    if ms == [] then [] else IndexPuts(ms[..|ms| - 1]) + [IndexPut(IndexUrl(ms[|ms| - 1].id), ms[|ms| - 1])]
  }

  /** `messages.forEach(m -> sendToElasticSearch(m))`; a failed PUT is logged and ignored. */
  method SendAllToElasticSearch(env: Environment, ms: seq<Message>)
    requires forall i :: 0 <= i < |ms| ==> ms[i].Photo?
    modifies env
    ensures env.log == old(env.log) + IndexPuts(ms)
    ensures env.cursorFile == old(env.cursorFile)
  {
    for i := 0 to |ms|
      invariant env.log == old(env.log) + IndexPuts(ms[..i])
      invariant env.cursorFile == old(env.cursorFile)
    {
      env.Index(IndexUrl(ms[i].id), ms[i]);
      assert ms[..i + 1][..i] == ms[..i];
    }
    assert ms[..|ms|] == ms;
  }

  /**
   * `getPhotosInPhotoset`: the photos of one page of a photoset, each as a download message
   * named after the photoset title of the response; all are published, then all are indexed.
   */
  method GetPhotosInPhotoset(env: Environment, remote: Remote, work: Message) returns (r: Outcome<Failure>)
    requires work.PageWork?
    modifies env
    ensures remote.photoset(GetPhotosUrl(work.id, IntToString(work.page))).None? ==>
      r == Fail(RemoteFailure) && env.log == old(env.log)
    ensures remote.photoset(GetPhotosUrl(work.id, IntToString(work.page))).Some? ==>
      var page := remote.photoset(GetPhotosUrl(work.id, IntToString(work.page))).value;
      var ms := MessagesFor(InPhotoset(page.title), page.photo);
      r == Pass && env.log == old(env.log) + Publishes(Download, ms) + IndexPuts(ms)
    ensures env.cursorFile == old(env.cursorFile)
  {
    var response := remote.photoset(GetPhotosUrl(work.id, IntToString(work.page)));
    if response.None? {
      return Fail(RemoteFailure);
    }
    var page := response.value;
    var messages := MessagesFor(InPhotoset(page.title), page.photo);
    OneMessagePerRecord(InPhotoset(page.title), page.photo);
    env.SendAll(Download, messages);
    SendAllToElasticSearch(env, messages);
    return Pass;
  }

  /** `getPagesForPhotoset`: the page count and title come from the photoset's first response. */
  method GetPagesForPhotoset(env: Environment, remote: Remote, id: string) returns (r: Outcome<Failure>)
    modifies env
    ensures remote.photoset(PhotosetPagesUrl(id)).None? ==> r == Fail(RemoteFailure) && env.log == old(env.log)
    ensures remote.photoset(PhotosetPagesUrl(id)).Some? ==>
      var info := remote.photoset(PhotosetPagesUrl(id)).value;
      r == Pass && env.log == old(env.log) + Publishes(PhotosetsPhotos, PageMessages(id, info.pages, info.title))
    ensures env.cursorFile == old(env.cursorFile)
  {
    var response := remote.photoset(PhotosetPagesUrl(id));
    if response.None? {
      return Fail(RemoteFailure);
    }
    SendPageMessages(env, PhotosetsPhotos, id, response.value.pages, response.value.title);
    return Pass;
  }

  /** `getPhotosNotInSet`: every photo of every page of the not-in-set listing, to the download queue. */
  method GetPhotosNotInSet(env: Environment, remote: Remote) returns (r: Outcome<Failure>)
    modifies env
    ensures var w := WalkFrom(Responses(remote, NotInSetPhotos), 1);
      w.failed ==> r == Fail(RemoteFailure) && env.log == old(env.log)
    ensures var w := WalkFrom(Responses(remote, NotInSetPhotos), 1);
      !w.failed ==> r == Pass && env.log == old(env.log) + Publishes(Download, MessagesFor(NotInSet, Records(w.pages)))
    ensures env.cursorFile == old(env.cursorFile)
  {
    var records := FetchRecords(remote, NotInSetPhotos);
    if records.Err? {
      return Fail(records.error);
    }
    env.SendAll(Download, MessagesFor(NotInSet, records.value));
    return Pass;
  }

  /**
   * The body of `recentlyUpdated` for a given listing: read every page, write the cursor file
   * (when it can be written), then publish the photos to the context queue.
   */
  method PublishRecentlyUpdated(env: Environment, remote: Remote, src: Source, now: int, cursorWritable: bool)
    returns (r: Outcome<Failure>)
    modifies env
    ensures var w := WalkFrom(Responses(remote, src), 1);
      w.failed ==> r == Fail(RemoteFailure) && env.log == old(env.log) && env.cursorFile == old(env.cursorFile)
    ensures var w := WalkFrom(Responses(remote, src), 1);
      !w.failed ==> r == Pass
    ensures var w := WalkFrom(Responses(remote, src), 1);
      !w.failed ==>
        env.log == old(env.log) + (if cursorWritable then [SaveCursor(IntToString(now))] else []) +
          Publishes(Context, MessagesFor(Flow.RecentlyUpdated, Records(w.pages)))
    ensures var w := WalkFrom(Responses(remote, src), 1);
      !w.failed ==> env.cursorFile == if cursorWritable then Some(IntToString(now)) else old(env.cursorFile)
  {
    var records := FetchRecords(remote, src);
    if records.Err? {
      return Fail(records.error);
    }
    if cursorWritable {
      env.StoreCursor(IntToString(now));
    }
    env.SendAll(Context, MessagesFor(Flow.RecentlyUpdated, records.value));
    return Pass;
  }

  /**
   * `recentlyUpdated` as written: the listing since the saved cursor (`null` when there is
   * none), requested as page 1 on every round.
   */
  method RecentlyUpdated(env: Environment, remote: Remote, now: int, cursorWritable: bool) returns (r: Outcome<Failure>)
    modifies env
    ensures var w := WalkFrom(Responses(remote, RecentlyUpdatedFirstPage(old(env.cursorFile))), 1);
      w.failed ==> r == Fail(RemoteFailure) && env.log == old(env.log) && env.cursorFile == old(env.cursorFile)
    ensures var w := WalkFrom(Responses(remote, RecentlyUpdatedFirstPage(old(env.cursorFile))), 1);
      !w.failed ==> r == Pass
    ensures var w := WalkFrom(Responses(remote, RecentlyUpdatedFirstPage(old(env.cursorFile))), 1);
      !w.failed ==>
        env.log == old(env.log) + (if cursorWritable then [SaveCursor(IntToString(now))] else []) +
          Publishes(Context, MessagesFor(Flow.RecentlyUpdated, Records(w.pages)))
    ensures var w := WalkFrom(Responses(remote, RecentlyUpdatedFirstPage(old(env.cursorFile))), 1);
      !w.failed ==> env.cursorFile == if cursorWritable then Some(IntToString(now)) else old(env.cursorFile)
  {
    r := PublishRecentlyUpdated(env, remote, RecentlyUpdatedFirstPage(env.cursorFile), now, cursorWritable);
  }

  /** `recentlyUpdated` as evidently intended: the listing since the saved cursor, page after page. */
  method RecentlyUpdatedPaged(env: Environment, remote: Remote, now: int, cursorWritable: bool) returns (r: Outcome<Failure>)
    modifies env
    ensures var w := WalkFrom(Responses(remote, UpdatedSince(FormatNullable(old(env.cursorFile)))), 1);
      w.failed ==> r == Fail(RemoteFailure) && env.log == old(env.log) && env.cursorFile == old(env.cursorFile)
    ensures var w := WalkFrom(Responses(remote, UpdatedSince(FormatNullable(old(env.cursorFile)))), 1);
      !w.failed ==> r == Pass
    ensures var w := WalkFrom(Responses(remote, UpdatedSince(FormatNullable(old(env.cursorFile)))), 1);
      !w.failed ==>
        env.log == old(env.log) + (if cursorWritable then [SaveCursor(IntToString(now))] else []) +
          Publishes(Context, MessagesFor(Flow.RecentlyUpdated, Records(w.pages)))
    ensures var w := WalkFrom(Responses(remote, UpdatedSince(FormatNullable(old(env.cursorFile)))), 1);
      !w.failed ==> env.cursorFile == if cursorWritable then Some(IntToString(now)) else old(env.cursorFile)
  {
    r := PublishRecentlyUpdated(env, remote, UpdatedSince(FormatNullable(env.cursorFile)), now, cursorWritable);
  }

  /** The context-queue messages of a recently-updated run over `src`, when every request succeeds. */
  function ContextMessages(remote: Remote, src: Source): seq<Message>
  {
    MessagesFor(Flow.RecentlyUpdated, Records(WalkFrom(Responses(remote, src), 1).pages))
  }

  /**
   * As written, a listing of two pages with one photo `a` on the first publishes `a` twice,
   * whatever the second page holds: the second round re-reads page 1.
   */
  lemma RecentlyUpdatedPublishesTwice(remote: Remote, cursor: Option<string>, a: PhotoRecord)
    requires remote.photos(PageUrl(RecentlyUpdatedFirstPage(cursor), 1)) == Some(PhotosPage(2, [a]))
    requires IsPhotoMedia(a.media)
    ensures !WalkFrom(Responses(remote, RecentlyUpdatedFirstPage(cursor)), 1).failed
    ensures ContextMessages(remote, RecentlyUpdatedFirstPage(cursor)) == [ContextMessage(a), ContextMessage(a)]
  {
    var first := PhotosPage(2, [a]);
    RecentlyUpdatedRepeatsFirstPage(remote, cursor, first);
    assert WalkFrom(Responses(remote, RecentlyUpdatedFirstPage(cursor)), 1).pages == [first, first];
    ContextOfTwoPages(a, a);
  }

  /**
   * Paged, the same two-page listing publishes the photo of each page once, in page order,
   * and the two rounds send different requests.
   */
  lemma RecentlyUpdatedPagedPublishesEachOnce(remote: Remote, cursor: Option<string>, a: PhotoRecord, b: PhotoRecord)
    requires remote.photos(PageUrl(UpdatedSince(FormatNullable(cursor)), 1)) == Some(PhotosPage(2, [a]))
    requires remote.photos(PageUrl(UpdatedSince(FormatNullable(cursor)), 2)) == Some(PhotosPage(2, [b]))
    requires IsPhotoMedia(a.media) && IsPhotoMedia(b.media)
    ensures PageParams(UpdatedSince(FormatNullable(cursor)), 1) != PageParams(UpdatedSince(FormatNullable(cursor)), 2)
    ensures !WalkFrom(Responses(remote, UpdatedSince(FormatNullable(cursor))), 1).failed
    ensures ContextMessages(remote, UpdatedSince(FormatNullable(cursor))) == [ContextMessage(a), ContextMessage(b)]
  {
    var src := UpdatedSince(FormatNullable(cursor));
    DistinctPagesDistinctRequests(src, 1, 2);
    var fetch := Responses(remote, src);
    assert fetch(1) == remote.photos(PageUrl(src, 1));
    assert fetch(2) == remote.photos(PageUrl(src, 2));
    WalkTwoPages(fetch, PhotosPage(2, [a]), PhotosPage(2, [b]));
    ContextOfTwoPages(a, b);
  }

  /** Two one-photo pages give the context messages of their photos, in page order. */
  lemma ContextOfTwoPages(a: PhotoRecord, b: PhotoRecord)
    requires IsPhotoMedia(a.media) && IsPhotoMedia(b.media)
    ensures MessagesFor(Flow.RecentlyUpdated, Records([PhotosPage(2, [a]), PhotosPage(2, [b])])) ==
      [ContextMessage(a), ContextMessage(b)]
  {
    RecordsSingle(PhotosPage(2, [a]));
    RecordsSingle(PhotosPage(2, [b]));
    RecordsConcat([PhotosPage(2, [a])], [PhotosPage(2, [b])]);
    assert [PhotosPage(2, [a])] + [PhotosPage(2, [b])] == [PhotosPage(2, [a]), PhotosPage(2, [b])];
    MessagesForSingle(Flow.RecentlyUpdated, a);
    MessagesForSingle(Flow.RecentlyUpdated, b);
    MessagesForConcat(Flow.RecentlyUpdated, [a], [b]);
  }

  /**
   * `getPhotosetNameForPhoto`: the photo message, its `photosetName` set to the name of the
   * photo's first set (or `NoSet`), to the download queue.
   */
  method GetPhotosetNameForPhoto(env: Environment, remote: Remote, photo: Message) returns (r: Outcome<Failure>)
    requires photo.Photo?
    modifies env
    ensures GetAllContexts(remote, photo.id).Err? ==>
      r == Fail(GetAllContexts(remote, photo.id).error) && env.log == old(env.log)
    ensures GetAllContexts(remote, photo.id).Ok? ==>
      r == Pass && env.log == old(env.log) + [Publish(Download, photo.(photosetName := Some(GetAllContexts(remote, photo.id).value)))]
    ensures env.cursorFile == old(env.cursorFile)
  {
    var name := GetAllContexts(remote, photo.id);
    if name.Err? {
      return Fail(name.error);
    }
    env.Send(Download, photo.(photosetName := Some(name.value)));
    return Pass;
  }

  /** The search listing of the photos taken in `year`, by the year's first and last second. */
  function YearSearch(year: int): Source
    requires MinYear <= year <= MaxYear
  {
    TakenBetween(YearStart(year).value, YearEnd(year).value)
  }

  /**
   * What `createPhotosetWithPhotosFromYear` does to the log for a year in range: page 1 of the
   * search must hold a photo, which becomes the primary photo of a new photoset titled with the
   * year; then every photo of every page is assigned to that photoset.
   */
  predicate CreatedFromYear(remote: Remote, year: int, r: Outcome<Failure>, before: seq<Effect>, after: seq<Effect>)
    requires MinYear <= year <= MaxYear
  {
    var fetch := Responses(remote, YearSearch(year));
    match fetch(1)
    case None => r == Fail(RemoteFailure) && after == before
    case Some(first) =>
      if first.photo == [] then r == Fail(IndexOutOfBounds) && after == before
      else
        var title := IntToString(year);
        var created := before + [RemoteCall(CreatePhotosetUrl(title, first.photo[0].id))];
        match CreatePhotoset(remote, title, first.photo[0].id)
        case Err(e) => r == Fail(e) && after == created
        case Ok(photosetId) =>
          var w := WalkFrom(fetch, 1);
          if w.failed then r == Fail(RemoteFailure) && after == created
          else r == Pass && after == created + Publishes(PhotosetsAdd, MessagesFor(Assignment(photosetId), Records(w.pages)))
  }

  /** `createPhotosetWithPhotosFromYear`. */
  method CreatePhotosetWithPhotosFromYear(env: Environment, remote: Remote, year: int) returns (r: Outcome<Failure>)
    modifies env
    ensures !(MinYear <= year <= MaxYear) ==> r == Fail(DateTimeOutOfRange) && env.log == old(env.log)
    ensures MinYear <= year <= MaxYear ==> CreatedFromYear(remote, year, r, old(env.log), env.log)
    ensures env.cursorFile == old(env.cursorFile)
  {
    if !(MinYear <= year <= MaxYear) {
      return Fail(DateTimeOutOfRange);
    }
    var startSeconds := YearStart(year).value;
    var endSeconds := YearEnd(year).value;
    var fetch := Responses(remote, TakenBetween(startSeconds, endSeconds));
    var title := IntToString(year);
    // The first round of the loop, the one that creates the photoset.
    var response := fetch(1);
    if response.None? {
      return Fail(RemoteFailure);
    }
    var first := response.value;
    if first.photo == [] {
      return Fail(IndexOutOfBounds);
    }
    env.Call(CreatePhotosetUrl(title, first.photo[0].id));
    var created := CreatePhotoset(remote, title, first.photo[0].id);
    if created.Err? {
      return Fail(created.error);
    }
    var photosetId := created.value;
    // The remaining rounds, while the counter is within the announced page count.
    var records := first.photo;
    WalkStep(fetch, 1, [], first);
    RecordsSingle(first);
    if 2 <= first.pages {
      var rest := FetchRecordsFrom(fetch, 2);
      if rest.Err? {
        return Fail(RemoteFailure);
      }
      RecordsConcat([first], WalkFrom(fetch, 2).pages);
      records := records + rest.value;
    }
    env.SendAll(PhotosetsAdd, MessagesFor(Assignment(photosetId), records));
    return Pass;
  }

  /** `addPhotoToPhotoset`: the add request is sent; its response is not read. */
  method AddPhotoToPhotoset(env: Environment, msg: Message)
    requires msg.Assign?
    modifies env
    ensures env.log == old(env.log) + [RemoteCall(AddPhotoUrl(msg.photosetId, msg.photoId))]
    ensures env.cursorFile == old(env.cursorFile)
  {
    env.Call(AddPhotoUrl(msg.photosetId, msg.photoId));
  }

  /** A Java `int` result: `x` reduced into the 32-bit two's-complement range. */
  function Wrap32(x: int): (r: Int32)
    ensures -0x8000_0000 <= x <= 0x7fff_ffff ==> r == x
    ensures (r - x) % 0x1_0000_0000 == 0
  {
    (x + 0x8000_0000) % 0x1_0000_0000 - 0x8000_0000
  }

  /** `counter += counter + 1`, as written. */
  function DoubleAndIncrement(counter: int): int
  {
    Wrap32(counter + (counter + 1))
  }

  /** `counter++`, as evidently intended. */
  function Increment(counter: int): int
  {
    Wrap32(counter + 1)
  }

  /** The counter after `k` updates by `step`, from 0. */
  function Iterate(step: int -> int, k: nat): int
  {
    if k == 0 then 0 else step(Iterate(step, k - 1))
  }

  /** The download message of `downloadByYear`: raw title, the year as the photoset name. */
  function YearMessage(rec: PhotoRecord, year: int): Message
  {
    Photo(rec.id, rec.title, rec.url, Some(IntToString(year)), Some(rec.dateTaken))
  }

  /** The download messages of the records taken in `input` whose media is a photo, in order. */
  function YearMessages(recs: seq<PhotoRecord>, yearOf: string -> Option<int>, input: int): (ms: seq<Message>)
    ensures |ms| <= |recs|
    decreases |recs|
  {
    if recs == [] then [] else
    var last := recs[|recs| - 1];
    YearMessages(recs[..|recs| - 1], yearOf, input) +
      (if yearOf(last.dateTaken) == Some(input) && IsPhotoMedia(last.media) then [YearMessage(last, input)] else [])
  }

  /** How many records, from the first, have a date the formatter accepts. */
  function ParsedPrefix(recs: seq<PhotoRecord>, yearOf: string -> Option<int>): (n: nat)
    ensures n <= |recs|
    decreases |recs|
  {
    if recs == [] || yearOf(recs[0].dateTaken).None? then 0 else 1 + ParsedPrefix(recs[1..], yearOf)
  }

  /** The parsed prefix is the longest run of parseable dates: it stops at the first date that fails. */
  lemma {:induction false} ParsedPrefixStops(recs: seq<PhotoRecord>, yearOf: string -> Option<int>, i: nat)
    requires i <= ParsedPrefix(recs, yearOf) && i < |recs|
    ensures yearOf(recs[i].dateTaken).None? <==> i == ParsedPrefix(recs, yearOf)
    decreases i
  {
    if i > 0 {
      ParsedPrefixStops(recs[1..], yearOf, i - 1);
      assert recs[1..][i - 1] == recs[i];
    }
  }

  /**
   * The loop of `downloadByYear` over the saved photo list, with the counter update `step`:
   * each record taken in `input` whose media is a photo is published to the download queue and
   * counted; a date the formatter rejects throws, after the messages published so far.
   */
  method PublishYear(env: Environment, list: seq<PhotoRecord>, yearOf: string -> Option<int>, input: int,
                     step: int -> int) returns (r: Result<int, Failure>)
    modifies env
    ensures var n := ParsedPrefix(list, yearOf);
      env.log == old(env.log) + Publishes(Download, YearMessages(list[..n], yearOf, input))
    ensures ParsedPrefix(list, yearOf) < |list| ==> r == Err(UnparsableDate)
    ensures ParsedPrefix(list, yearOf) == |list| ==> r == Ok(Iterate(step, |YearMessages(list, yearOf, input)|))
    ensures env.cursorFile == old(env.cursorFile)
  {
    var counter: int := 0;
    ghost var sent: seq<Message> := [];
    ghost var count: nat := 0;
    for i := 0 to |list|
      invariant i <= ParsedPrefix(list, yearOf)
      invariant sent == YearMessages(list[..i], yearOf, input)
      invariant env.log == old(env.log) + Publishes(Download, sent)
      invariant env.cursorFile == old(env.cursorFile)
      invariant count == |sent|
      invariant counter == Iterate(step, count)
    {
      var e := list[i];
      var year := yearOf(e.dateTaken);
      ParsedPrefixStops(list, yearOf, i);
      if year.None? {
        assert list[..ParsedPrefix(list, yearOf)] == list[..i];
        return Err(UnparsableDate);
      }
      YearMessagesStep(list, i, yearOf, input);
      if year.value == input && IsPhotoMedia(e.media) {
        PublishesSnoc(Download, old(env.log), sent, YearMessage(e, input));
        env.Send(Download, YearMessage(e, input));
        IterateStep(step, count);
        sent := sent + [YearMessage(e, input)];
        counter := step(counter);
        count := count + 1;
      }
    }
    assert list[..ParsedPrefix(list, yearOf)] == list[..|list|] == list;
    return Ok(counter);
  }

  /** One more update applies `step` once more. */
  lemma IterateStep(step: int -> int, k: nat)
    ensures Iterate(step, k + 1) == step(Iterate(step, k))
  {
  }

  lemma YearMessagesStep(list: seq<PhotoRecord>, i: nat, yearOf: string -> Option<int>, input: int)
    requires i < |list|
    ensures YearMessages(list[..i + 1], yearOf, input) == YearMessages(list[..i], yearOf, input) +
      (if yearOf(list[i].dateTaken) == Some(input) && IsPhotoMedia(list[i].media) then [YearMessage(list[i], input)] else [])
  {
    assert list[..i + 1][..i] == list[..i];
  }

  /** `downloadByYear` as written: the counter doubles and adds one per published photo. */
  method DownloadByYear(env: Environment, list: seq<PhotoRecord>, yearOf: string -> Option<int>, input: int)
    returns (r: Result<string, Failure>)
    modifies env
    ensures var n := ParsedPrefix(list, yearOf);
      env.log == old(env.log) + Publishes(Download, YearMessages(list[..n], yearOf, input))
    ensures ParsedPrefix(list, yearOf) < |list| ==> r == Err(UnparsableDate)
    ensures ParsedPrefix(list, yearOf) == |list| ==>
      r == Ok(IntToString(Iterate(DoubleAndIncrement, |YearMessages(list, yearOf, input)|)))
    ensures env.cursorFile == old(env.cursorFile)
  {
    var counter := PublishYear(env, list, yearOf, input, DoubleAndIncrement);
    if counter.Err? {
      return Err(counter.error);
    }
    return Ok(IntToString(counter.value));
  }

  /** `downloadByYear` as evidently intended: the counter counts the published photos. */
  method DownloadByYearCounted(env: Environment, list: seq<PhotoRecord>, yearOf: string -> Option<int>, input: int)
    returns (r: Result<string, Failure>)
    modifies env
    ensures var n := ParsedPrefix(list, yearOf);
      env.log == old(env.log) + Publishes(Download, YearMessages(list[..n], yearOf, input))
    ensures ParsedPrefix(list, yearOf) < |list| ==> r == Err(UnparsableDate)
    ensures ParsedPrefix(list, yearOf) == |list| ==>
      r == Ok(IntToString(Iterate(Increment, |YearMessages(list, yearOf, input)|)))
    ensures env.cursorFile == old(env.cursorFile)
  {
    var counter := PublishYear(env, list, yearOf, input, Increment);
    if counter.Err? {
      return Err(counter.error);
    }
    return Ok(IntToString(counter.value));
  }

  function Pow2(k: nat): nat
  {
    if k == 0 then 1 else 2 * Pow2(k - 1)
  }

  /**
   * As written, the counter after `k` photos is `2^k - 1` while that fits an `int`, so the
   * reported count is wrong from the second photo on (three photos report 7); from the 32nd
   * photo on the `int` has wrapped to `-1`, where `counter += counter + 1` keeps it.
   */
  lemma DoubleAndIncrementCount(k: nat)
    ensures k <= 31 ==> Iterate(DoubleAndIncrement, k) == Pow2(k) - 1
    ensures k >= 32 ==> Iterate(DoubleAndIncrement, k) == -1
    ensures k >= 2 ==> Iterate(DoubleAndIncrement, k) != k
    ensures Iterate(DoubleAndIncrement, 3) == 7
  {
    DoubleAndIncrementInRange(3);
    if k <= 31 {
      DoubleAndIncrementInRange(k);
      if k >= 2 {
        Pow2Grows(k);
      }
    } else {
      DoubleAndIncrementWrapped(k);
    }
  }

  /** Up to 31 photos the doubled counter stays within `int`: `2^k - 1`. */
  lemma {:induction false} DoubleAndIncrementInRange(k: nat)
    requires k <= 31
    ensures Iterate(DoubleAndIncrement, k) == Pow2(k) - 1
    decreases k
  {
    if k > 0 {
      DoubleAndIncrementInRange(k - 1);
      Pow2Bound(k);
      IterateStep(DoubleAndIncrement, k - 1);
      assert Iterate(DoubleAndIncrement, k - 1) + (Iterate(DoubleAndIncrement, k - 1) + 1) == Pow2(k) - 1;
    }
  }

  /** The 32nd photo takes the counter from `2^31 - 1` to `-1`, and every later one keeps it there. */
  lemma {:induction false} DoubleAndIncrementWrapped(k: nat)
    requires k >= 32
    ensures Iterate(DoubleAndIncrement, k) == -1
    decreases k
  {
    IterateStep(DoubleAndIncrement, k - 1);
    if k == 32 {
      DoubleAndIncrementInRange(31);
      Pow2Bound(31);
      assert DoubleAndIncrement(0x7fff_ffff) == -1;
    } else {
      DoubleAndIncrementWrapped(k - 1);
      assert DoubleAndIncrement(-1) == -1;
    }
  }

  /** `2^k` is at most `2^31` up to `k = 31`. */
  lemma {:induction false} Pow2Bound(k: nat)
    requires k <= 31
    ensures Pow2(k) <= Pow2(31) == 0x8000_0000
    decreases 31 - k
  {
    if k < 31 {
      Pow2Bound(k + 1);
    } else {
      Pow2Sum(16, 15);
      Pow2Sum(8, 8);
      Pow2Sum(8, 7);
      Pow2Sum(4, 4);
      Pow2Sum(4, 3);
      assert Pow2(4) == 16;
      assert Pow2(3) == 8;
    }
  }

  /** `2^(a+b) = 2^a * 2^b`. */
  lemma {:induction false} Pow2Sum(a: nat, b: nat)
    ensures Pow2(a + b) == Pow2(a) * Pow2(b)
    decreases b
  {
    if b > 0 {
      Pow2Sum(a, b - 1);
      assert Pow2(a + b) == 2 * Pow2(a + b - 1);
    }
  }

  lemma {:induction false} Pow2Grows(k: nat)
    requires k >= 2
    ensures Pow2(k) - 1 > k
  {
    if k > 2 {
      Pow2Grows(k - 1);
    }
  }

  /** Corrected, the reported count is the number of photos published (below 2^31). */
  lemma {:induction false} IncrementCount(k: nat)
    requires k <= 0x7fff_ffff
    ensures Iterate(Increment, k) == k
  {
    if k > 0 {
      IncrementCount(k - 1);
    }
  }

  /**
   * `createFullListOfPhotos`: every record of the listing of photos updated since 1/1/1990,
   * page after page (the source renders them as one JSON array).
   */
  method CreateFullListOfPhotos(remote: Remote) returns (r: Result<seq<PhotoRecord>, Failure>)
    ensures WalkFrom(Responses(remote, UpdatedSince("1/1/1990")), 1).failed ==> r == Err(RemoteFailure)
    ensures !WalkFrom(Responses(remote, UpdatedSince("1/1/1990")), 1).failed ==>
      r == Ok(Records(WalkFrom(Responses(remote, UpdatedSince("1/1/1990")), 1).pages))
  {
    r := FetchRecords(remote, UpdatedSince("1/1/1990"));
  }
}
