# flickr-spring backup pipeline — a Dafny model

flickr-spring backs up a Flickr account through a chain of message queues.

- The controller's `/start` endpoint lists the photosets. It publishes one page-work message per 500-photo page of every set.
- `FlickrService` turns each page into one download message per photo. It also finds the photos that are in no set and the photos updated since the last run.
- `FlickrService` can also build a photoset per year of capture and re-publish a saved photo list by year.
- `DownloadService` writes each photo to `<root>/<sanitized set name>/<title>-<id>.<extension>`. It skips a file that already exists.

The model covers four files:

- `FlickrService.java`
- `FlickrController.java`
- `DownloadService.java`
- the request-building wrapper `service/flickr/FlickrApiService.java`

How the environment is modelled:

- The Flickr REST API is a deterministic `Remote`: one function per response shape, keyed by the full request URL. A request that fails, or whose body lacks the field read from it, answers `None`.
- RabbitMQ publishes, Elasticsearch PUTs, writes to the remote (create a photoset, add a photo) and the cursor file are one ordered effect log. The log belongs to a `Broker.Environment` object that the operations update in place.
- The local disk is a `DownloadService.Disk` object holding files, directories and stream events.
- Every operation is stated against a specification function:
  - the paged do-while loops against `Enumeration.WalkFrom`;
  - the message building against `Messages.MessagesFor`;
  - the page fan-out against `Paging.FanOut`.

  Lemmas then state what those functions promise.

Modules, in dependency order:

- `Wrappers`
- `Decimal`: Java's `String.valueOf(int)` and its inverse.
- `Query`: query strings and reading a parameter back.
- `FlickrApi`
- `Messages`
- `Broker`
- `Paging`
- `Enumeration`
- `Calendar`: `LocalDateTime.toEpochSecond(UTC)` for the first and last second of a year.
- `FlickrService`
- `FlickrController`
- `DownloadService`

## Model

| member | source | states |
|---|---|---|
| Decimal.IntToString | src/main/java/com/tbilou/flickrspring/service/FlickrService.java:159 | `String.valueOf` of an int is non-empty, made of digits and `-`, and starts with `-` exactly for negatives |
| Decimal.IntToStringRoundTrip | src/main/java/com/tbilou/flickrspring/service/FlickrService.java:159 | parsing the rendered page number gives the number back |
| Decimal.IntToStringInjective | src/main/java/com/tbilou/flickrspring/service/FlickrService.java:258 | distinct page numbers render as distinct strings |
| Query.RenderedValue | src/main/java/com/tbilou/flickrspring/service/flickr/FlickrApiService.java:69-71 | in a URL rendered from `key=value` parameters, the value read back for a key is that of the first parameter with that key |
| FlickrApi.GetPhotosRequest | src/main/java/com/tbilou/flickrspring/service/flickr/FlickrApiService.java:69-71 | the request asks for `flickr.photosets.getPhotos` with `extras=url_o,date_taken` and the given set id and page |
| FlickrApi.PhotosetPagesRequest | src/main/java/com/tbilou/flickrspring/service/flickr/FlickrApiService.java:33-36 | the page-count request is the getPhotos request with an empty page, so it carries the set id and no page number |
| FlickrApi.GetAllContextsRequest | src/main/java/com/tbilou/flickrspring/service/flickr/FlickrApiService.java:73-74 | the request asks for `flickr.photos.getAllContexts` for the given photo |
| FlickrApi.GetAllContexts | src/main/java/com/tbilou/flickrspring/service/flickr/FlickrApiService.java:73-83 | a failed request fails; no set gives `NoSet`; an empty first set throws index-out-of-bounds (both directions); a non-empty first set gives the title of its first element |
| FlickrApi.GetAllContextsFirstSetOnly | src/main/java/com/tbilou/flickrspring/service/flickr/FlickrApiService.java:75-78 | only the first element of the first set matters; the other sets are ignored |
| FlickrApi.RecentlyUpdatedRequest | src/main/java/com/tbilou/flickrspring/service/flickr/FlickrApiService.java:90-92 | the request asks for `flickr.photos.recentlyUpdated` with the given `min_date` and page and `per_page=500` |
| FlickrApi.NotInSetRequest | src/main/java/com/tbilou/flickrspring/service/flickr/FlickrApiService.java:94-96 | the request asks for `flickr.photos.getNotInSet` with the given page |
| FlickrApi.PhotosSearchRequest | src/main/java/com/tbilou/flickrspring/service/flickr/FlickrApiService.java:98-100 | the request asks for `flickr.photos.search` for `user_id=me` with the given taken-date window and page, 500 per page |
| FlickrApi.CreatePhotosetRequest | src/main/java/com/tbilou/flickrspring/service/flickr/FlickrApiService.java:53-54 | the request asks for `flickr.photosets.create` with the given title and primary photo |
| FlickrApi.AddPhotoRequest | src/main/java/com/tbilou/flickrspring/service/flickr/FlickrApiService.java:59-61 | the request asks for `flickr.photosets.addPhoto` with the given set and photo |
| Messages.MessageFor | src/main/java/com/tbilou/flickrspring/service/FlickrService.java:191-204 | a record yields at most one message; in the recently-updated flow, one exactly when its media is `photo` in any case; in every other flow, always one; assignment messages exactly in the assignment flow |
| Messages.MessagesFor | src/main/java/com/tbilou/flickrspring/service/FlickrService.java:265-271 | every message of the year-assignment flow is an assignment; every message of the other flows is a photo message |
| Messages.MessagesForConcat | src/main/java/com/tbilou/flickrspring/service/FlickrService.java:158-172 | building messages page by page and concatenating equals building them over all records |
| Messages.OneMessagePerRecord | src/main/java/com/tbilou/flickrspring/service/FlickrService.java:91-102 | outside the recently-updated flow there is one message per record, the i-th from the i-th record |
| Messages.RecentlyUpdatedKeepsPhotos | src/main/java/com/tbilou/flickrspring/service/FlickrService.java:191-205 | the recently-updated messages are exactly those of the records whose media is `photo` (both directions) |
| Messages.RecentlyUpdatedIsPhotoFilter | src/main/java/com/tbilou/flickrspring/service/FlickrService.java:191-205 | the recently-updated messages are one context message per `photo` record, in record order, and there are as many as there are such records |
| Messages.TitleDefaulting | src/main/java/com/tbilou/flickrspring/service/FlickrService.java:97 | an empty title becomes the id; any other title, even a blank one, is kept |
| Broker.PublishedOfPublishes | src/main/java/com/tbilou/flickrspring/service/FlickrService.java:106-107 | publishing a list to a queue puts exactly that list, in order, on that queue and nothing on any other |
| Broker.PublishedConcat | src/main/java/com/tbilou/flickrspring/service/FlickrService.java:105-111 | what a queue receives over two stretches of the log is what it receives in each, in order |
| Broker.Environment.Send | src/main/java/com/tbilou/flickrspring/service/FlickrService.java:246 | one publish is appended to the log; the cursor file is unchanged |
| Broker.Environment.SendAll | src/main/java/com/tbilou/flickrspring/service/FlickrService.java:106-107 | one publish per message is appended, in order; the cursor file is unchanged |
| Broker.Environment.Index | src/main/java/com/tbilou/flickrspring/service/FlickrService.java:133-150 | one index PUT is appended; the cursor file is unchanged |
| Broker.Environment.Call | src/main/java/com/tbilou/flickrspring/service/flickr/FlickrApiService.java:59-61 | one remote write is appended; the cursor file is unchanged |
| Broker.Environment.StoreCursor | src/main/java/com/tbilou/flickrspring/service/FlickrService.java:228-237 | the cursor file holds the new value and the save is logged |
| Paging.PageCount | src/main/java/com/tbilou/flickrspring/service/FlickrService.java:70 | the page count is the ceiling of photos/500: `(pages-1)*500 < photos <= pages*500`, never negative for a non-negative count |
| Paging.PageCountUnique | src/main/java/com/tbilou/flickrspring/controller/FlickrController.java:79 | the ceiling is the only number with that property |
| Paging.PageMessages | src/main/java/com/tbilou/flickrspring/service/FlickrService.java:122-131 | the messages are pages 1..pages of the set, in order, each with the set name; none when pages <= 0 |
| Paging.SendPageMessages | src/main/java/com/tbilou/flickrspring/service/FlickrService.java:122-131 | the loop publishes exactly the page messages, in order |
| Paging.FanOutLength | src/main/java/com/tbilou/flickrspring/controller/FlickrController.java:52-59 | the fan-out has one message per page: as many as the sets' page counts add up to, a set with no photos counting for none |
| Paging.FanOutComplete | src/main/java/com/tbilou/flickrspring/service/FlickrService.java:61-75 | every page 1..PageCount of every listed set has its work message |
| Paging.FanOutSound | src/main/java/com/tbilou/flickrspring/service/FlickrService.java:61-75 | every fan-out message is a page, within range, of some listed set |
| Paging.FanOutSource | src/main/java/com/tbilou/flickrspring/service/FlickrService.java:61-75 | gives, for any fan-out message, the index of the set it is a page of |
| Paging.FlattenIsFanOut | src/main/java/com/tbilou/flickrspring/controller/FlickrController.java:57-59 | flattening the per-set lists in list order gives the fan-out |
| Enumeration.RequestedPage | src/main/java/com/tbilou/flickrspring/service/FlickrService.java:189 | the recently-updated loop always requests page `1`; the other loops request their counter |
| Enumeration.DistinctPagesDistinctRequests | src/main/java/com/tbilou/flickrspring/service/FlickrService.java:159 | outside recently-updated, distinct page counters send distinct requests |
| Enumeration.WalkFacts | src/main/java/com/tbilou/flickrspring/service/FlickrService.java:158-173 | the i-th response answers page `page+i`; every response but the last announces a further page; a walk ends on a failed request or on a response with no further page |
| Enumeration.FetchRecordsFrom | src/main/java/com/tbilou/flickrspring/service/FlickrService.java:341-348 | the do-while loop fails exactly when the walk does, and otherwise returns the records of every page read, in order |
| Enumeration.FetchRecords | src/main/java/com/tbilou/flickrspring/service/FlickrService.java:338-348 | the same, from page 1 of a listing |
| Enumeration.WalkStep | src/main/java/com/tbilou/flickrspring/service/FlickrService.java:257-274 | one loop round adds the response's records and continues or stops as its `pages` says |
| Enumeration.WalkConsistent | src/main/java/com/tbilou/flickrspring/service/FlickrService.java:158-173 | against answers agreeing on the page count, the loop succeeds after one request per remaining page |
| Enumeration.WalkReadsEveryPage | src/main/java/com/tbilou/flickrspring/service/FlickrService.java:338-348 | such a listing is read in full: the i-th response is that of page i+1 |
| Enumeration.RecentlyUpdatedRepeatsFirstPage | src/main/java/com/tbilou/flickrspring/service/FlickrService.java:187-208 | as written, the recently-updated loop reads page 1 once per announced page |
| Enumeration.WalkTwoPages | src/main/java/com/tbilou/flickrspring/service/FlickrService.java:341-348 | a two-page listing is read as its first and second page |
| Enumeration.RecordsConcat | src/main/java/com/tbilou/flickrspring/service/FlickrService.java:343 | the records of two runs of pages are the records of each, in order |
| Calendar.YearStart | src/main/java/com/tbilou/flickrspring/service/FlickrService.java:250 | fails with date-time-out-of-range exactly outside years -999999999..999999999 |
| Calendar.YearEnd | src/main/java/com/tbilou/flickrspring/service/FlickrService.java:251 | fails with date-time-out-of-range exactly outside years -999999999..999999999 |
| Calendar.LeapsStep | src/main/java/com/tbilou/flickrspring/service/FlickrService.java:250 | the leap-day count grows by one exactly at a Gregorian leap year |
| Calendar.FirstDaySpan | src/main/java/com/tbilou/flickrspring/service/FlickrService.java:250-251 | consecutive year starts are a year's days apart; 1970 starts at day 0 |
| Calendar.YearWindow | src/main/java/com/tbilou/flickrspring/service/FlickrService.java:250-251 | the window covers every second of the year, and the next year starts one second after it ends |
| Calendar.KnownWindows | src/main/java/com/tbilou/flickrspring/service/FlickrService.java:250-251 | 1970 is 0..31535999 and 2017 is 1483228800..1514764799 |
| FlickrService.GetPhotosetsList | src/main/java/com/tbilou/flickrspring/service/FlickrService.java:61-75 | a failed list publishes nothing; otherwise the fan-out goes to the photos queue |
| FlickrService.PublishFanOut | src/main/java/com/tbilou/flickrspring/service/FlickrService.java:65-74 | the loop publishes each set's page messages, set after set, to the photos queue and touches nothing else |
| FlickrService.IndexPuts | src/main/java/com/tbilou/flickrspring/service/FlickrService.java:110-111 | one PUT per message, to that photo's document URL, in order |
| FlickrService.SendAllToElasticSearch | src/main/java/com/tbilou/flickrspring/service/FlickrService.java:133-150 | the log grows by those PUTs |
| FlickrService.GetPhotosInPhotoset | src/main/java/com/tbilou/flickrspring/service/FlickrService.java:81-112 | a failed request publishes nothing; otherwise every photo of the page goes to the download queue with the response's set title, then every photo is indexed |
| FlickrService.GetPagesForPhotoset | src/main/java/com/tbilou/flickrspring/service/FlickrService.java:114-120 | the page messages of the set, with the page count and title from its response |
| FlickrService.GetPhotosNotInSet | src/main/java/com/tbilou/flickrspring/service/FlickrService.java:153-180 | any failed page publishes nothing; otherwise every photo of every page goes to the download queue as `NotInSet` |
| FlickrService.PublishRecentlyUpdated | src/main/java/com/tbilou/flickrspring/service/FlickrService.java:182-215 | a failure changes nothing; otherwise the cursor is saved when writable, then the photo-media records go to the context queue |
| FlickrService.RecentlyUpdated | src/main/java/com/tbilou/flickrspring/service/FlickrService.java:182-215 | as written: the same, over the listing that always asks for page 1 with the saved cursor (`null` when missing) |
| FlickrService.RecentlyUpdatedPaged | src/main/java/com/tbilou/flickrspring/service/FlickrService.java:182-215 | corrected: the same, over the listing read page after page |
| FlickrService.RecentlyUpdatedPublishesTwice | src/main/java/com/tbilou/flickrspring/service/FlickrService.java:189 | as written, a two-page listing publishes its first page's photo twice |
| FlickrService.RecentlyUpdatedPagedPublishesEachOnce | src/main/java/com/tbilou/flickrspring/service/FlickrService.java:187-208 | corrected, it publishes each page's photo once, in page order |
| FlickrService.ContextOfTwoPages | src/main/java/com/tbilou/flickrspring/service/FlickrService.java:191-205 | two one-photo pages give their two context messages, in order |
| FlickrService.GetPhotosetNameForPhoto | src/main/java/com/tbilou/flickrspring/service/FlickrService.java:240-247 | a context failure publishes nothing; otherwise the message, renamed after the first set, goes to the download queue |
| FlickrService.CreatePhotosetWithPhotosFromYear | src/main/java/com/tbilou/flickrspring/service/FlickrService.java:249-279 | see below |
| FlickrService.AddPhotoToPhotoset | src/main/java/com/tbilou/flickrspring/service/FlickrService.java:281-285 | exactly one add request for the message's set and photo |
| FlickrService.Wrap32 | src/main/java/com/tbilou/flickrspring/service/FlickrService.java:311 | Java int arithmetic: values in range are unchanged; the result is congruent modulo 2^32 |
| FlickrService.ParsedPrefixStops | src/main/java/com/tbilou/flickrspring/service/FlickrService.java:297-299 | the loop reaches record i exactly when every earlier date parsed; it throws at the first unparsable date |
| FlickrService.PublishYear | src/main/java/com/tbilou/flickrspring/service/FlickrService.java:297-313 | see below |
| FlickrService.DownloadByYear | src/main/java/com/tbilou/flickrspring/service/FlickrService.java:287-317 | as written: the result is the counter after applying `counter += counter + 1` once per published photo |
| FlickrService.DownloadByYearCounted | src/main/java/com/tbilou/flickrspring/service/FlickrService.java:287-317 | corrected: the result is the number of published photos |
| FlickrService.DoubleAndIncrementCount | src/main/java/com/tbilou/flickrspring/service/FlickrService.java:311 | as written, k photos report 2^k-1 up to 31 photos and -1 (the wrapped int) from 32 on: wrong from two photos on, and three report 7 |
| FlickrService.DoubleAndIncrementInRange | src/main/java/com/tbilou/flickrspring/service/FlickrService.java:311 | as written, up to 31 photos the counter stays within `int` and reads 2^k-1 |
| FlickrService.DoubleAndIncrementWrapped | src/main/java/com/tbilou/flickrspring/service/FlickrService.java:311 | as written, once 32 photos are published the 32-bit counter sits at -1 for good |
| FlickrService.IncrementCount | src/main/java/com/tbilou/flickrspring/service/FlickrService.java:311 | corrected, k photos report k |
| FlickrService.CreateFullListOfPhotos | src/main/java/com/tbilou/flickrspring/service/FlickrService.java:319-380 | every record of the listing updated since `1/1/1990`, page after page, or the failure |
| FlickrController.GetMessages | src/main/java/com/tbilou/flickrspring/controller/FlickrController.java:70-90 | the loop builds pages 1..ceil(photos/500) of the set, in order |
| FlickrController.Photosets | src/main/java/com/tbilou/flickrspring/controller/FlickrController.java:43-68 | a failed list publishes nothing; otherwise the fan-out goes to the photosets queue, after all of it is built |
| FlickrController.GetPhotoset | src/main/java/com/tbilou/flickrspring/controller/FlickrController.java:95-110 | the set's page messages go to the photosets queue, with the page count and title from its response |
| DownloadService.Sanitize | src/main/java/com/tbilou/flickrspring/service/DownloadService.java:33 | the folder name keeps its length and holds none of `/ : " * ? < > \|` |
| DownloadService.SanitizeReplacesOnlyForbidden | src/main/java/com/tbilou/flickrspring/service/DownloadService.java:33 | each forbidden character becomes `_` and every other character is kept |
| DownloadService.SanitizeIdempotent | src/main/java/com/tbilou/flickrspring/service/DownloadService.java:33 | a clean name is unchanged and sanitizing twice equals sanitizing once |
| DownloadService.ExtensionShape | src/main/java/com/tbilou/flickrspring/service/DownloadService.java:33 | the extension is the tail after a final `.`, with no `.` or `/`; it is null exactly when no `.` is followed by a `/`-free tail |
| DownloadService.ParentOf | src/main/java/com/tbilou/flickrspring/service/DownloadService.java:34 | the parent is a proper prefix followed by `/`; null exactly when the path has no `/` |
| DownloadService.TargetPathParent | src/main/java/com/tbilou/flickrspring/service/DownloadService.java:33-34 | a file whose title and id hold no `/` lands directly in `<root>/<sanitized folder>` |
| DownloadService.TargetPathHasParent | src/main/java/com/tbilou/flickrspring/service/DownloadService.java:34 | the target always has a parent, so `getParentFile()` is never null |
| DownloadService.DistinctIdsDistinctPaths | src/main/java/com/tbilou/flickrspring/service/DownloadService.java:33 | two photos with distinct numeric ids never share a target file, whatever their roots, sets, titles and image URLs |
| DownloadService.TargetPathId | src/main/java/com/tbilou/flickrspring/service/DownloadService.java:33 | a numeric id is recovered from the target path as the text between its last `-` and its last `.` |
| DownloadService.Disk.Open | src/main/java/com/tbilou/flickrspring/service/DownloadService.java:32 | the stream is opened and the files are untouched |
| DownloadService.Disk.MakeDirs | src/main/java/com/tbilou/flickrspring/service/DownloadService.java:34 | the directory exists afterwards unless a regular file holds the name |
| DownloadService.Disk.Copy | src/main/java/com/tbilou/flickrspring/service/DownloadService.java:44-47 | succeeds exactly when the parent directory exists and the stream does not break; a broken stream leaves the bytes read so far |
| DownloadService.Disk.Delete | src/main/java/com/tbilou/flickrspring/service/DownloadService.java:50 | the file is gone and nothing else changes |
| DownloadService.Disk.Close | src/main/java/com/tbilou/flickrspring/service/DownloadService.java:53 | the stream is closed and the files are untouched |
| DownloadService.SaveStream | src/main/java/com/tbilou/flickrspring/service/DownloadService.java:34-54 | see below |
| DownloadService.DownloadAndSave | src/main/java/com/tbilou/flickrspring/service/DownloadService.java:26-57 | as written: an unopenable URL ends in a null-pointer failure and leaves the disk untouched; otherwise as `SaveStream`, after opening |
| DownloadService.DownloadAndSaveGuarded | src/main/java/com/tbilou/flickrspring/service/DownloadService.java:26-57 | corrected: the same, except that an unopenable URL ends in the wrapped runtime error; never a null-pointer failure |

The rows marked "see below" state:

- **FlickrService.CreatePhotosetWithPhotosFromYear.** A year out of range fails and logs nothing. Otherwise:
  - a failed first page, or an empty one, fails before anything is logged;
  - then the create request for a photoset titled with the year is logged, with the first photo as primary;
  - when that request fails, or a later page fails, nothing more is logged;
  - otherwise one assignment per photo of every page goes to the add queue.
- **FlickrService.PublishYear.** The photos taken in the year whose media is a photo are published in list order, up to the first unparsable date. That date throws. Otherwise the counter has been updated once per published photo.
- **DownloadService.SaveStream.** The parent directory is created and the stream is always closed. An existing target is skipped and the files are untouched. A copy succeeds only when the parent exists and the stream does not break. On failure the files are exactly as before: a partial file is deleted.

## Left out

- Java `int` overflow of the page counter: the loops' `currentPage++` is not modelled past `Integer.MAX_VALUE`. A response announcing that many pages would make the Java loop wrap and never end; the walk stops there.
- `equalsIgnoreCase` is modelled for ASCII letters only. Java's Unicode case folding is not modelled.
- Failures of a publish, of an Elasticsearch PUT and of the cursor write are not modelled as exceptions.
  - A failed PUT is logged and ignored, as in the source. Its status code is not modelled.
  - Whether the cursor file can be written is the parameter `cursorWritable`.
  - `Instant.now()` is the parameter `now`.
  - Reading the cursor is the environment's `cursorFile`.
- The OAuth signing, the broker and listener configuration, the JSON parsing and `@Cacheable` are not part of this model. With a deterministic remote the cache has no observable effect.
- The controller's `photosets()` and `photosetPages()` come from a second wrapper, `service/FlickrApiService.java`. That file is not part of this model. Its responses are modelled as the same `photosetList` and `photoset` answers.
- The controller's `PUT /photoset` calls `processPhotoset`, which is not part of this model.
- The date parsing in `downloadByYear` (`LocalDate.parse` with `yyyy-MM-dd HH:mm:ss`) is the parameter `yearOf`. Its result is `None` when the parser throws.
- Reading `flickr.json` is the parameter `list`.
- The year becomes the photoset name as a decimal string. In the source it is a JSON number.
- FlickrService.CreatePhotosetWithPhotosFromYear peels the first loop round, the one that creates the photoset. The remaining rounds are the shared page loop.
- FlickrService.CreatePhotosetWithPhotosFromYear treats a first page that lacks any field it reads as a failed page, before the create request. The source sends the create request (FlickrService.java:262) before it reads `pages`, so a first page that lacks only `pages` still creates the photoset there.
- FlickrService.GetPhotosetsList treats a list with any entry lacking `title`, `id` or `photos` as a failed request that publishes nothing. The source publishes inside its per-set loop (FlickrService.java:65-74), so the sets read before the bad entry have already been published when it throws.
- FlickrService.IncrementCount states the corrected count for up to 2^31-1 photos. Beyond that the Java counter wraps as well.
- The Java loops collect messages page by page. The model converts the concatenated records; `Messages.MessagesForConcat` shows the two agree.
- The logging statements are not modelled.
- `getFilenameExtension` is applied to the whole image URL, query string included, as the source does. It is not modelled which characters a URL can carry.
- `java.io.File` path normalisation is not modelled: duplicate or trailing separators stay as they are.
- `mkdirs` is modelled for the parent directory only, not for each missing ancestor.
- A failing `File.delete` is not modelled.
- DownloadService.Disk.Copy does not model `REPLACE_EXISTING` over an existing file. That case cannot arise, because an existing target is skipped before the copy.

## Findings

| source | as written | input that shows it | evidently intended | confidence | as-written member | corrected member |
|---|---|---|---|---|---|---|
| src/main/java/com/tbilou/flickrspring/service/FlickrService.java:189 | `photosRecentlyUpdated(lastUpdated, "1")` requests page 1 on every round of the do-while loop | a listing whose page 1 holds photo `a` and announces 2 pages: `a` is published to the context queue twice and page 2 is never read | request `String.valueOf(currentPage)`, so that each page is read once | not executed | FlickrService.RecentlyUpdatedPublishesTwice | FlickrService.RecentlyUpdatedPagedPublishesEachOnce |
| src/main/java/com/tbilou/flickrspring/service/FlickrService.java:311 | `counter+=counter+1` doubles the counter and adds one per published photo | three matching photos: the method returns `"7"` | `counter++`, returning the number of photos published | not executed | FlickrService.DoubleAndIncrementCount | FlickrService.IncrementCount |
| src/main/java/com/tbilou/flickrspring/service/DownloadService.java:48-51 | the catch block calls `targetFile.delete()` while `targetFile` is still null when `new URL` or `openStream` throws | an unreachable or malformed image URL: a NullPointerException escapes instead of the wrapped RuntimeException | guard the delete with a null check | not executed | DownloadService.DownloadAndSave | DownloadService.DownloadAndSaveGuarded |
