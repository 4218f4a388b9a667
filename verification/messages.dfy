/**
 * The queue messages of the pipeline and how a photo record of a listing response becomes
 * one. Each flow turns the records of a page into messages record by record, in response
 * order; only the recently-updated flow drops records (those whose media is not a photo).
 */
module Messages {
  import opened Wrappers
  import opened FlickrApi

  datatype Message =
    | PageWork(id: string, page: int, setName: string)
    | Photo(id: string, title: string, url: string, photosetName: Option<string>, dateTaken: Option<string>)
    | Assign(photoId: string, photosetId: string)

  /** The title a photo message carries: `StringUtils.isEmpty(title) ? id : title`. */
  function DefaultTitle(title: string, id: string): string
  {
    if title == "" then id else title
  }

  function LowerAscii(c: char): char
  {
    if 'A' <= c <= 'Z' then (c as int + 32) as char else c
  }

  /** `media.equalsIgnoreCase("photo")`. */
  predicate IsPhotoMedia(media: string)
  {
    |media| == 5 && forall i :: 0 <= i < 5 ==> LowerAscii(media[i]) == "photo"[i]
  }

  /** The message producers that turn listing records into messages. */
  datatype Flow =
    | InPhotoset(setName: string)     // getPhotosInPhotoset: to the download queue
    | NotInSet                        // getPhotosNotInSet: to the download queue
    | RecentlyUpdated                 // recentlyUpdated: to the context queue
    | Assignment(photosetId: string)  // createPhotosetWithPhotosFromYear: to the add-to-photoset queue

  function PhotosetPhotoMessage(rec: PhotoRecord, setName: string): Message
  {
    Photo(rec.id, DefaultTitle(rec.title, rec.id), rec.url, Some(setName), Some(rec.dateTaken))
  }

  function NotInSetMessage(rec: PhotoRecord): Message
  {
    Photo(rec.id, DefaultTitle(rec.title, rec.id), rec.url, Some("NotInSet"), None)
  }

  /** The reduced message of the recently-updated flow: no photoset name yet. */
  function ContextMessage(rec: PhotoRecord): Message
  {
    Photo(rec.id, DefaultTitle(rec.title, rec.id), rec.url, None, None)
  }

  function AssignMessage(rec: PhotoRecord, photosetId: string): Message
  {
    Assign(rec.id, photosetId)
  }

  /** The messages one record yields in a flow: none or one. */
  function MessageFor(flow: Flow, rec: PhotoRecord): (ms: seq<Message>)
    ensures |ms| <= 1
    ensures flow.RecentlyUpdated? ==> (|ms| == 1 <==> IsPhotoMedia(rec.media))
    ensures !flow.RecentlyUpdated? ==> |ms| == 1
    ensures forall m :: m in ms ==> (m.Assign? <==> flow.Assignment?) && !m.PageWork?
  {
    match flow
    case InPhotoset(setName) => [PhotosetPhotoMessage(rec, setName)]
    case NotInSet => [NotInSetMessage(rec)]
    case RecentlyUpdated => if IsPhotoMedia(rec.media) then [ContextMessage(rec)] else []
    case Assignment(photosetId) => [AssignMessage(rec, photosetId)]
  }

  /** The messages a sequence of records yields, in record order. */
  function MessagesFor(flow: Flow, recs: seq<PhotoRecord>): (ms: seq<Message>)
    ensures forall i :: 0 <= i < |ms| ==> (ms[i].Photo? <==> !flow.Assignment?) && (ms[i].Assign? <==> flow.Assignment?)
    decreases |recs|
  {
    if recs == [] then [] else MessagesFor(flow, recs[..|recs| - 1]) + MessageFor(flow, recs[|recs| - 1])
  }

  /** Converting page after page is converting their concatenation. */
  lemma {:induction false} MessagesForConcat(flow: Flow, a: seq<PhotoRecord>, b: seq<PhotoRecord>)
    ensures MessagesFor(flow, a + b) == MessagesFor(flow, a) + MessagesFor(flow, b)
    decreases |b|
  {
    if b != [] {
      var ab := a + b;
      assert ab[..|ab| - 1] == a + b[..|b| - 1];
      assert ab[|ab| - 1] == b[|b| - 1];
      MessagesForConcat(flow, a, b[..|b| - 1]);
    } else {
      assert a + b == a;
    }
  }

  lemma MessagesForSingle(flow: Flow, rec: PhotoRecord)
    ensures MessagesFor(flow, [rec]) == MessageFor(flow, rec)
  {
    assert [rec][..0] == [];
  }

  /** Every flow but recently-updated yields exactly one message per record, in order. */
  lemma {:induction false} OneMessagePerRecord(flow: Flow, recs: seq<PhotoRecord>)
    requires !flow.RecentlyUpdated?
    ensures |MessagesFor(flow, recs)| == |recs|
    ensures forall i :: 0 <= i < |recs| ==> MessagesFor(flow, recs)[i] == MessageFor(flow, recs[i])[0]
    decreases |recs|
  {
    if recs != [] {
      OneMessagePerRecord(flow, recs[..|recs| - 1]);
    }
  }

  /**
   * The recently-updated flow keeps exactly the photo records: each message comes from a
   * record whose media is a photo, and each such record yields its message.
   */
  lemma {:induction false} RecentlyUpdatedKeepsPhotos(recs: seq<PhotoRecord>)
    ensures |MessagesFor(RecentlyUpdated, recs)| <= |recs|
    ensures forall m :: m in MessagesFor(RecentlyUpdated, recs) ==>
      exists i :: 0 <= i < |recs| && IsPhotoMedia(recs[i].media) && m == ContextMessage(recs[i])
    ensures forall i :: 0 <= i < |recs| && IsPhotoMedia(recs[i].media) ==>
      ContextMessage(recs[i]) in MessagesFor(RecentlyUpdated, recs)
    decreases |recs|
  {
    if recs != [] {
      var init := recs[..|recs| - 1];
      RecentlyUpdatedKeepsPhotos(init);
      forall m | m in MessagesFor(RecentlyUpdated, recs)
        ensures exists i :: 0 <= i < |recs| && IsPhotoMedia(recs[i].media) && m == ContextMessage(recs[i])
      {
        if m in MessagesFor(RecentlyUpdated, init) {
          var i :| 0 <= i < |init| && IsPhotoMedia(init[i].media) && m == ContextMessage(init[i]);
          assert recs[i] == init[i];
        } else {
          assert m == ContextMessage(recs[|recs| - 1]);
        }
      }
      forall i | 0 <= i < |recs| && IsPhotoMedia(recs[i].media)
        ensures ContextMessage(recs[i]) in MessagesFor(RecentlyUpdated, recs)
      {
        if i < |init| {
          assert recs[i] == init[i];
        }
      }
    }
  }

  /**
   * The recently-updated loop read directly: walking the records from the first, skip each
   * whose media is not a photo and emit the context message of every other.
   */
  function PhotoMessages(recs: seq<PhotoRecord>): seq<Message>
    decreases |recs|
  {
    if recs == [] then []
    else if !IsPhotoMedia(recs[0].media) then PhotoMessages(recs[1..])
    else [ContextMessage(recs[0])] + PhotoMessages(recs[1..])
  }

  /** How many of the records have photo media. */
  function PhotoCount(recs: seq<PhotoRecord>): nat
    decreases |recs|
  {
    if recs == [] then 0 else (if IsPhotoMedia(recs[0].media) then 1 else 0) + PhotoCount(recs[1..])
  }

  /**
   * The recently-updated flow emits one message per photo record, in record order, and so
   * as many messages as there are photo records: a record read twice is published twice.
   */
  lemma {:induction false} RecentlyUpdatedIsPhotoFilter(recs: seq<PhotoRecord>)
    ensures MessagesFor(RecentlyUpdated, recs) == PhotoMessages(recs)
    ensures |MessagesFor(RecentlyUpdated, recs)| == PhotoCount(recs)
    decreases |recs|
  {
    if recs != [] {
      RecentlyUpdatedIsPhotoFilter(recs[1..]);
      assert recs == [recs[0]] + recs[1..];
      MessagesForConcat(RecentlyUpdated, [recs[0]], recs[1..]);
      MessagesForSingle(RecentlyUpdated, recs[0]);
    }
  }

  /** Title defaulting replaces only the empty title, never a blank one. */
  lemma TitleDefaulting(title: string, id: string)
    ensures title == "" ==> DefaultTitle(title, id) == id
    ensures title != "" ==> DefaultTitle(title, id) == title
    ensures DefaultTitle(" ", id) == " "
  {
  }
}
