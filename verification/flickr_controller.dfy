/**
 * The HTTP entry points of the backup (`FlickrController`): `/start` fans the whole
 * photoset list out into page work messages, `/photoset/{id}` does the same for one set.
 * Both publish to the photosets queue.
 */
module FlickrController {
  import opened Wrappers
  import opened FlickrApi
  import opened Messages
  import opened Broker
  import opened Paging

  /** `getMessages`: the work messages of one entry, pages 1 to the page count. */
  method GetMessages(entry: PhotosetEntry) returns (result: seq<Message>)
    ensures result == PageMessages(entry.id, PageCount(entry.photos), entry.title)
  {
    var photoset := entry.title;
    result := [];
    var photos := entry.photos;
    var pages := PageCount(photos);
    var p := 1;
    while p <= pages
      invariant 1 <= p <= if pages >= 1 then pages + 1 else 1
      invariant result == PageMessages(entry.id, p - 1, photoset)
      decreases pages - p
    {
      result := result + [PageWork(entry.id, p, photoset)];
      p := p + 1;
    }
  }

  /**
   * `GET /start`: the messages of every set are built first, flattened in list order, and
   * only then published.
   */
  method Photosets(env: Environment, remote: Remote) returns (r: Outcome<Failure>)
    modifies env
    ensures PhotosetListing(remote).None? ==> r == Fail(RemoteFailure) && env.log == old(env.log)
    ensures PhotosetListing(remote).Some? ==>
      r == Pass && env.log == old(env.log) + Publishes(Queue.Photosets, FanOut(PhotosetListing(remote).value))
    ensures env.cursorFile == old(env.cursorFile)
  {
    if PhotosetListing(remote).None? {
      return Fail(RemoteFailure);
    }
    var photosets := PhotosetListing(remote).value;
    var messages: seq<seq<Message>> := [];
    for i := 0 to |photosets|
      invariant |messages| == i
      invariant forall k :: 0 <= k < i ==> messages[k] == EntryMessages(photosets[k])
      invariant env.log == old(env.log) && env.cursorFile == old(env.cursorFile)
    {
      var ms := GetMessages(photosets[i]);
      messages := messages + [ms];
    }
    var flat := Flatten(messages);
    FlattenIsFanOut(messages, photosets);
    env.SendAll(Queue.Photosets, flat);
    return Pass;
  }

  /** `GET /photoset/{id}`: the page messages of one set, page count and title from its first response. */
  method GetPhotoset(env: Environment, remote: Remote, id: string) returns (r: Outcome<Failure>)
    modifies env
    ensures remote.photoset(PhotosetPagesUrl(id)).None? ==> r == Fail(RemoteFailure) && env.log == old(env.log)
    ensures remote.photoset(PhotosetPagesUrl(id)).Some? ==>
      var info := remote.photoset(PhotosetPagesUrl(id)).value;
      r == Pass && env.log == old(env.log) + Publishes(Queue.Photosets, PageMessages(id, info.pages, info.title))
    ensures env.cursorFile == old(env.cursorFile)
  {
    var photoset := remote.photoset(PhotosetPagesUrl(id));
    if photoset.None? {
      return Fail(RemoteFailure);
    }
    SendPageMessages(env, Queue.Photosets, id, photoset.value.pages, photoset.value.title);
    return Pass;
  }
}
