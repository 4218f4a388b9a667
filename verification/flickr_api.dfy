/**
 * The remote photo service as the pipeline sees it: typed responses, the remote itself as
 * a deterministic function from request URL to response, the request URLs the API wrapper
 * builds, and the two responses it reduces to a single string (`getAllContexts`,
 * `createPhotoset`).
 */
module FlickrApi {
  import opened Wrappers
  import opened Query

  /** A Java `int`, as `getAsInt()` yields it. */
  type Int32 = x: int | -0x8000_0000 <= x <= 0x7fff_ffff

  /** One photo of a listing response. */
  datatype PhotoRecord = PhotoRecord(id: string, title: string, url: string, media: string, dateTaken: string)

  /** `$.photos` of a not-in-set, recently-updated or search response. */
  datatype PhotosPage = PhotosPage(pages: Int32, photo: seq<PhotoRecord>)

  /** `$.photoset` of a `flickr.photosets.getPhotos` response. */
  datatype PhotosetPage = PhotosetPage(title: string, pages: Int32, photo: seq<PhotoRecord>)

  /** One element of `$.photosets.photoset` (`title` is `title._content`). */
  datatype PhotosetEntry = PhotosetEntry(id: string, title: string, photos: Int32)

  /** One element of a `set` array of a `flickr.photos.getAllContexts` response. */
  datatype SetContext = SetContext(id: string, title: string)

  /** Why an operation threw instead of returning. */
  datatype Failure =
    | RemoteFailure       // transport error (null body) or a response without the expected field
    | IndexOutOfBounds    // element 0 of an empty JSON array
    | DateTimeOutOfRange  // a year that LocalDateTime cannot represent
    | UnparsableDate      // a `datetaken` that the date formatter rejects

  /**
   * The remote, one function per response shape, each keyed by the full request URL.
   * `None` is a failed request: the signed GET returned null, or the body lacks the field
   * read from it.
   */
  datatype Remote = Remote(
    photosetList: string -> Option<seq<PhotosetEntry>>,
    photoset: string -> Option<PhotosetPage>,
    photos: string -> Option<PhotosPage>,
    contexts: string -> Option<seq<seq<SetContext>>>,
    created: string -> Option<string>)

  const Rest := "https://api.flickr.com/services/rest/"

  // Each request URL is `Rest?` followed by the parameters of the wrapper's format string,
  // in that string's order.

  /** `getList`: the photoset list of the account. */
  function GetListUrl(): string
  {
    Url(Rest, [Param("method", "flickr.photosets.getList"), Param("format", "json"), Param("nojsoncallback", "1")])
  }

  /** The remote's answer to the `getList` request. */
  function PhotosetListing(remote: Remote): Option<seq<PhotosetEntry>>
  {
    remote.photosetList(GetListUrl())
  }

  function GetPhotosParams(id: string, page: string): seq<Param>
  {
    [Param("method", "flickr.photosets.getPhotos"), Param("format", "json"), Param("nojsoncallback", "1"),
     Param("extras", "url_o,date_taken"), Param("photoset_id", id), Param("page", page), Param("media", "photos")]
  }

  function GetPhotosUrl(id: string, page: string): string
  {
    Url(Rest, GetPhotosParams(id, page))
  }

  function GetAllContextsParams(id: string): seq<Param>
  {
    [Param("method", "flickr.photos.getAllContexts"), Param("format", "json"), Param("nojsoncallback", "1"),
     Param("photo_id", id)]
  }

  function GetAllContextsUrl(id: string): string
  {
    Url(Rest, GetAllContextsParams(id))
  }

  function RecentlyUpdatedParams(minDate: string, page: string): seq<Param>
  {
    [Param("method", "flickr.photos.recentlyUpdated"), Param("format", "json"), Param("nojsoncallback", "1"),
     Param("min_date", minDate), Param("extras", "url_o%2C+date_taken%2C+date_upload%2C+media"),
     Param("per_page", "500"), Param("page", page), Param("media", "photos")]
  }

  function RecentlyUpdatedUrl(minDate: string, page: string): string
  {
    Url(Rest, RecentlyUpdatedParams(minDate, page))
  }

  function NotInSetParams(page: string): seq<Param>
  {
    [Param("method", "flickr.photos.getNotInSet"), Param("format", "json"), Param("nojsoncallback", "1"),
     Param("extras", "url_o"), Param("page", page), Param("media", "photos")]
  }

  function NotInSetUrl(page: string): string
  {
    Url(Rest, NotInSetParams(page))
  }

  function PhotosSearchParams(minTaken: string, maxTaken: string, page: string): seq<Param>
  {
    [Param("method", "flickr.photos.search"), Param("format", "json"), Param("nojsoncallback", "1"),
     Param("user_id", "me"), Param("min_taken_date", minTaken), Param("max_taken_date", maxTaken),
     Param("page", page), Param("per_page", "500")]
  }

  function PhotosSearchUrl(minTaken: string, maxTaken: string, page: string): string
  {
    Url(Rest, PhotosSearchParams(minTaken, maxTaken, page))
  }

  function CreatePhotosetParams(title: string, primaryPhotoId: string): seq<Param>
  {
    [Param("method", "flickr.photosets.create"), Param("format", "json"), Param("nojsoncallback", "1"),
     Param("title", title), Param("primary_photo_id", primaryPhotoId)]
  }

  function CreatePhotosetUrl(title: string, primaryPhotoId: string): string
  {
    Url(Rest, CreatePhotosetParams(title, primaryPhotoId))
  }

  function AddPhotoParams(photosetId: string, photoId: string): seq<Param>
  {
    [Param("method", "flickr.photosets.addPhoto"), Param("format", "json"), Param("nojsoncallback", "1"),
     Param("photoset_id", photosetId), Param("photo_id", photoId)]
  }

  function AddPhotoUrl(photosetId: string, photoId: string): string
  {
    Url(Rest, AddPhotoParams(photosetId, photoId))
  }

  /** `photosetPages(id)`: the getPhotos request with an empty page argument. */
  function PhotosetPagesUrl(id: string): string
  {
    GetPhotosUrl(id, "")
  }

  /**
   * `getAllContexts`: the title of the first element of the first `set` array found in the
   * response, or `"NoSet"` when there is none.
   */
  function GetAllContexts(remote: Remote, id: string): (r: Result<string, Failure>)
    ensures remote.contexts(GetAllContextsUrl(id)) == None ==> r == Err(RemoteFailure)
    ensures remote.contexts(GetAllContextsUrl(id)) == Some([]) ==> r == Ok("NoSet")
    ensures r.Ok? && r.value != "NoSet" ==>
      var sets := remote.contexts(GetAllContextsUrl(id)).value;
      sets != [] && sets[0] != [] && r.value == sets[0][0].title
    ensures r == Err(IndexOutOfBounds) <==>
      remote.contexts(GetAllContextsUrl(id)).Some? && |remote.contexts(GetAllContextsUrl(id)).value| > 0 &&
      remote.contexts(GetAllContextsUrl(id)).value[0] == []
    ensures var sets := remote.contexts(GetAllContextsUrl(id));
      sets.Some? && sets.value != [] && sets.value[0] != [] ==> r == Ok(sets.value[0][0].title)
  {
    match remote.contexts(GetAllContextsUrl(id))
    case None => Err(RemoteFailure)
    case Some(sets) =>
      if |sets| > 0 then
        if |sets[0]| > 0 then Ok(sets[0][0].title) else Err(IndexOutOfBounds)
      else Ok("NoSet")
  }

  /** `createPhotoset`: `$.photoset.id` of the response to the create request. */
  function CreatePhotoset(remote: Remote, title: string, primaryPhotoId: string): (r: Result<string, Failure>)
    ensures r.Ok? <==> remote.created(CreatePhotosetUrl(title, primaryPhotoId)).Some?
    ensures r.Ok? ==> r.value == remote.created(CreatePhotosetUrl(title, primaryPhotoId)).value
  {
    match remote.created(CreatePhotosetUrl(title, primaryPhotoId))
    case None => Err(RemoteFailure)
    case Some(photosetId) => Ok(photosetId)
  }

  // What each request carries: the value of each parameter that depends on the arguments.

  lemma GetPhotosRequest(id: string, page: string)
    ensures Find(GetPhotosParams(id, page), "method") == Some("flickr.photosets.getPhotos")
    ensures Find(GetPhotosParams(id, page), "extras") == Some("url_o,date_taken")
    ensures Find(GetPhotosParams(id, page), "photoset_id") == Some(id)
    ensures Find(GetPhotosParams(id, page), "page") == Some(page)
  {
    var ps := GetPhotosParams(id, page);
    FindAt(ps, 0);
    FindAt(ps, 3);
    FindAt(ps, 4);
    FindAt(ps, 5);
  }

  /** `photosetPages(id)` asks for the photoset with an empty page argument. */
  lemma PhotosetPagesRequest(id: string)
    ensures PhotosetPagesUrl(id) == Url(Rest, GetPhotosParams(id, ""))
    ensures Find(GetPhotosParams(id, ""), "photoset_id") == Some(id)
    ensures Find(GetPhotosParams(id, ""), "page") == Some("")
  {
    GetPhotosRequest(id, "");
  }

  lemma GetAllContextsRequest(id: string)
    ensures Find(GetAllContextsParams(id), "method") == Some("flickr.photos.getAllContexts")
    ensures Find(GetAllContextsParams(id), "photo_id") == Some(id)
  {
    var ps := GetAllContextsParams(id);
    FindAt(ps, 0);
    FindAt(ps, 3);
  }

  lemma RecentlyUpdatedRequest(minDate: string, page: string)
    ensures Find(RecentlyUpdatedParams(minDate, page), "method") == Some("flickr.photos.recentlyUpdated")
    ensures Find(RecentlyUpdatedParams(minDate, page), "min_date") == Some(minDate)
    ensures Find(RecentlyUpdatedParams(minDate, page), "per_page") == Some("500")
    ensures Find(RecentlyUpdatedParams(minDate, page), "page") == Some(page)
  {
    var ps := RecentlyUpdatedParams(minDate, page);
    FindAt(ps, 0);
    FindAt(ps, 3);
    FindAt(ps, 5);
    FindAt(ps, 6);
  }

  lemma NotInSetRequest(page: string)
    ensures Find(NotInSetParams(page), "method") == Some("flickr.photos.getNotInSet")
    ensures Find(NotInSetParams(page), "page") == Some(page)
  {
    var ps := NotInSetParams(page);
    FindAt(ps, 0);
    FindAt(ps, 4);
  }

  lemma PhotosSearchRequest(minTaken: string, maxTaken: string, page: string)
    ensures Find(PhotosSearchParams(minTaken, maxTaken, page), "method") == Some("flickr.photos.search")
    ensures Find(PhotosSearchParams(minTaken, maxTaken, page), "user_id") == Some("me")
    ensures Find(PhotosSearchParams(minTaken, maxTaken, page), "min_taken_date") == Some(minTaken)
    ensures Find(PhotosSearchParams(minTaken, maxTaken, page), "max_taken_date") == Some(maxTaken)
    ensures Find(PhotosSearchParams(minTaken, maxTaken, page), "page") == Some(page)
    ensures Find(PhotosSearchParams(minTaken, maxTaken, page), "per_page") == Some("500")
  {
    var ps := PhotosSearchParams(minTaken, maxTaken, page);
    FindAt(ps, 0);
    FindAt(ps, 3);
    FindAt(ps, 4);
    FindAt(ps, 5);
    FindAt(ps, 6);
    FindAt(ps, 7);
  }

  lemma CreatePhotosetRequest(title: string, primaryPhotoId: string)
    ensures Find(CreatePhotosetParams(title, primaryPhotoId), "method") == Some("flickr.photosets.create")
    ensures Find(CreatePhotosetParams(title, primaryPhotoId), "title") == Some(title)
    ensures Find(CreatePhotosetParams(title, primaryPhotoId), "primary_photo_id") == Some(primaryPhotoId)
  {
    var ps := CreatePhotosetParams(title, primaryPhotoId);
    FindAt(ps, 0);
    FindAt(ps, 3);
    FindAt(ps, 4);
  }

  lemma AddPhotoRequest(photosetId: string, photoId: string)
    ensures Find(AddPhotoParams(photosetId, photoId), "method") == Some("flickr.photosets.addPhoto")
    ensures Find(AddPhotoParams(photosetId, photoId), "photoset_id") == Some(photosetId)
    ensures Find(AddPhotoParams(photosetId, photoId), "photo_id") == Some(photoId)
  {
    var ps := AddPhotoParams(photosetId, photoId);
    FindAt(ps, 0);
    FindAt(ps, 3);
    FindAt(ps, 4);
  }

  /** Only the first element of the first `set` array decides the name; later sets are ignored. */
  lemma GetAllContextsFirstSetOnly(remote: Remote, id: string, first: SetContext, rest: seq<SetContext>, later: seq<seq<SetContext>>)
    requires remote.contexts(GetAllContextsUrl(id)) == Some([[first] + rest] + later)
    ensures GetAllContexts(remote, id) == Ok(first.title)
  {
  }
}
