/**
 * Page fan-out: a photoset of `photos` photos is listed in pages of 500, and each page
 * becomes one work message `{id, page, setName}`, pages numbered from 1.
 */
module Paging {
  import opened Messages
  import opened FlickrApi
  import opened Broker

  const PhotosPerPage := 500

  /**
   * `(int) Math.ceil((double) photos / PHOTOS_PER_PAGE)`: the least number of pages of 500
   * that hold `photos` photos (0 for an empty set; the ceiling also for a negative count).
   */
  function PageCount(photos: int): (pages: int)
    ensures (pages - 1) * PhotosPerPage < photos <= pages * PhotosPerPage
    ensures photos >= 0 ==> pages >= 0
  {
    if photos >= 0 then (photos + PhotosPerPage - 1) / PhotosPerPage
    else -((-photos) / PhotosPerPage)
  }

  /** The ceiling is unique: no other page count fits the photos exactly. */
  lemma PageCountUnique(photos: int, n: int)
    requires (n - 1) * PhotosPerPage < photos <= n * PhotosPerPage
    ensures n == PageCount(photos)
  {
  }

  /** The work messages of one photoset: pages 1 to `pages` in order, none when `pages <= 0`. */
  function PageMessages(id: string, pages: int, setName: string): (ms: seq<Message>)
    ensures |ms| == if pages > 0 then pages else 0
    ensures forall i :: 0 <= i < |ms| ==> ms[i] == PageWork(id, i + 1, setName)
    decreases pages
  {
    if pages <= 0 then [] else PageMessages(id, pages - 1, setName) + [PageWork(id, pages, setName)]
  }

  /** The work messages of one entry of the photoset list. */
  function EntryMessages(e: PhotosetEntry): seq<Message>
  {
    PageMessages(e.id, PageCount(e.photos), e.title)
  }

  /** The work messages of a whole photoset list, set after set. */
  function FanOut(sets: seq<PhotosetEntry>): seq<Message>
    decreases |sets|
  {
    if sets == [] then [] else FanOut(sets[..|sets| - 1]) + EntryMessages(sets[|sets| - 1])
  }

  /** The pages the listed sets announce, a set with no photos counting for none. */
  function TotalPages(sets: seq<PhotosetEntry>): int
    decreases |sets|
  {
    if sets == [] then 0
    else
      var pages := PageCount(sets[0].photos);
      (if pages > 0 then pages else 0) + TotalPages(sets[1..])
  }

  /** A list of lists, concatenated in order (`flatMap(List::stream)`). */
  function Flatten(lists: seq<seq<Message>>): seq<Message>
    decreases |lists|
  {
    if lists == [] then [] else Flatten(lists[..|lists| - 1]) + lists[|lists| - 1]
  }

  /** `m` is the work message of one of the pages of `e`. */
  predicate IsPageOf(m: Message, e: PhotosetEntry)
  {
    m.PageWork? && m.id == e.id && m.setName == e.title && 1 <= m.page <= PageCount(e.photos)
  }

  /** One message per page of every set: the fan-out has as many messages as pages. */
  lemma {:induction false} FanOutLength(sets: seq<PhotosetEntry>)
    ensures |FanOut(sets)| == TotalPages(sets)
    ensures forall k :: 0 <= k < |sets| && sets[k].photos > 0 ==> |FanOut(sets)| >= PageCount(sets[k].photos)
    decreases |sets|
  {
    if sets != [] {
      var init := sets[..|sets| - 1];
      FanOutLength(init);
      assert sets == init + [sets[|sets| - 1]];
      TotalPagesSnoc(init, sets[|sets| - 1]);
      forall k | 0 <= k < |sets| && sets[k].photos > 0
        ensures |FanOut(sets)| >= PageCount(sets[k].photos)
      {
        if k < |init| {
          assert sets[k] == init[k];
        }
      }
    }
  }

  /** Listing one more set adds its pages to the total. */
  lemma {:induction false} TotalPagesSnoc(sets: seq<PhotosetEntry>, e: PhotosetEntry)
    ensures TotalPages(sets + [e]) == TotalPages(sets) + (if PageCount(e.photos) > 0 then PageCount(e.photos) else 0)
    decreases |sets|
  {
    if sets != [] {
      assert (sets + [e])[1..] == sets[1..] + [e];
      TotalPagesSnoc(sets[1..], e);
    } else {
      assert ([e])[1..] == [];
    }
  }

  /** Every page 1..PageCount of every listed set has its work message in the fan-out. */
  lemma {:induction false} FanOutComplete(sets: seq<PhotosetEntry>)
    ensures forall k, p :: 0 <= k < |sets| && 1 <= p <= PageCount(sets[k].photos) ==>
      PageWork(sets[k].id, p, sets[k].title) in FanOut(sets)
    decreases |sets|
  {
    if sets != [] {
      var n := |sets| - 1;
      var init := sets[..n];
      FanOutComplete(init);
      var last := EntryMessages(sets[n]);
      assert FanOut(sets) == FanOut(init) + last;
      forall k, p | 0 <= k < |sets| && 1 <= p <= PageCount(sets[k].photos)
        ensures PageWork(sets[k].id, p, sets[k].title) in FanOut(sets)
      {
        if k < n {
          assert sets[k] == init[k];
        } else {
          assert last[p - 1] == PageWork(sets[k].id, p, sets[k].title);
        }
      }
    }
  }

  lemma EntryMessagesArePages(e: PhotosetEntry)
    ensures forall m :: m in EntryMessages(e) ==> IsPageOf(m, e)
  {
    var ms := EntryMessages(e);
    forall m | m in ms
      ensures IsPageOf(m, e)
    {
      var i :| 0 <= i < |ms| && ms[i] == m;
      assert m.page == i + 1;
    }
  }

  /** The fan-out holds nothing but work messages for pages of the listed sets. */
  lemma FanOutSound(sets: seq<PhotosetEntry>)
    ensures forall m :: m in FanOut(sets) ==> exists k :: 0 <= k < |sets| && IsPageOf(m, sets[k])
  {
    forall m | m in FanOut(sets)
      ensures exists k :: 0 <= k < |sets| && IsPageOf(m, sets[k])
    {
      var k := FanOutSource(sets, m);
    }
  }

  /** The set a fan-out message comes from. */
  lemma {:induction false} FanOutSource(sets: seq<PhotosetEntry>, m: Message) returns (k: nat)
    requires m in FanOut(sets)
    ensures k < |sets| && IsPageOf(m, sets[k])
    decreases |sets|
  {
    var n := |sets| - 1;
    var init := sets[..n];
    assert FanOut(sets) == FanOut(init) + EntryMessages(sets[n]);
    if m in FanOut(init) {
      k := FanOutSource(init, m);
      assert sets[k] == init[k];
    } else {
      EntryMessagesArePages(sets[n]);
      k := n;
    }
  }

  /** Building the per-set lists first and flattening them yields the same fan-out. */
  lemma {:induction false} FlattenIsFanOut(lists: seq<seq<Message>>, sets: seq<PhotosetEntry>)
    requires |lists| == |sets|
    requires forall k :: 0 <= k < |sets| ==> lists[k] == EntryMessages(sets[k])
    ensures Flatten(lists) == FanOut(sets)
    decreases |sets|
  {
    if sets != [] {
      FlattenIsFanOut(lists[..|lists| - 1], sets[..|sets| - 1]);
    }
  }

  /** `for (int p = 1; p <= pages; p++) convertAndSend(q, {id, p, setName})`. */
  method SendPageMessages(env: Environment, q: Queue, id: string, pages: int, setName: string)
    modifies env
    ensures env.log == old(env.log) + Publishes(q, PageMessages(id, pages, setName))
    ensures env.cursorFile == old(env.cursorFile)
  {
    var p := 1;
    while p <= pages
      invariant 1 <= p <= if pages >= 1 then pages + 1 else 1
      invariant env.log == old(env.log) + Publishes(q, PageMessages(id, p - 1, setName))
      invariant env.cursorFile == old(env.cursorFile)
      decreases pages - p
    {
      env.Send(q, PageWork(id, p, setName));
      PublishesConcat(q, PageMessages(id, p - 1, setName), [PageWork(id, p, setName)]);
      p := p + 1;
    }
  }
}
