/**
 * What the pipeline does to the world outside it, in order: messages published to queues,
 * index PUTs, remote calls that change the catalog, and writes of the sync cursor file.
 * The message broker, the index and the file itself are not modelled; publishing a message
 * is appending it to the log.
 */
module Broker {
  import opened Wrappers
  import opened Messages

  /** The configured queues (`queue.flickr.*` properties). */
  datatype Queue =
    | Photosets        // queue.flickr.photosets
    | PhotosetsPhotos  // queue.flickr.photosets.photos
    | Download         // queue.flickr.download
    | Context          // queue.flickr.context
    | PhotosetsAdd     // queue.flickr.photosets.add

  datatype Effect =
    | Publish(queue: Queue, message: Message)
    | IndexPut(url: string, body: Message)
    | SaveCursor(lastUpdated: string)
    | RemoteCall(url: string)

  /** Publishing `ms` one after the other to `q`. */
  function Publishes(q: Queue, ms: seq<Message>): (es: seq<Effect>)
    ensures |es| == |ms|
  {
    seq(|ms|, i requires 0 <= i < |ms| => Publish(q, ms[i]))
  }

  lemma PublishesConcat(q: Queue, a: seq<Message>, b: seq<Message>)
    ensures Publishes(q, a + b) == Publishes(q, a) + Publishes(q, b)
  {
    assert forall i :: 0 <= i < |a + b| ==> Publishes(q, a + b)[i] == (Publishes(q, a) + Publishes(q, b))[i];
  }

  /** Publishing one more message extends the log by its effect. */
  lemma PublishesSnoc(q: Queue, log: seq<Effect>, ms: seq<Message>, m: Message)
    ensures log + Publishes(q, ms) + [Publish(q, m)] == log + Publishes(q, ms + [m])
  {
    PublishesConcat(q, ms, [m]);
  }

  /** The messages a log publishes to `q`, in publication order. */
  function Published(log: seq<Effect>, q: Queue): seq<Message>
    decreases |log|
  {
    if log == [] then [] else
    var last := match log[|log| - 1]
      case Publish(q', m) => if q' == q then [m] else []
      case _ => [];
    Published(log[..|log| - 1], q) + last
  }

  lemma {:induction false} PublishedConcat(a: seq<Effect>, b: seq<Effect>, q: Queue)
    ensures Published(a + b, q) == Published(a, q) + Published(b, q)
    decreases |b|
  {
    if b == [] {
      assert a + b == a;
    } else {
      var ab := a + b;
      assert ab[..|ab| - 1] == a + b[..|b| - 1];
      PublishedConcat(a, b[..|b| - 1], q);
    }
  }

  /** A queue receives exactly what was published to it, and no other queue receives anything. */
  lemma {:induction false} PublishedOfPublishes(q: Queue, ms: seq<Message>, other: Queue)
    ensures Published(Publishes(q, ms), q) == ms
    ensures other != q ==> Published(Publishes(q, ms), other) == []
    decreases |ms|
  {
    if ms != [] {
      var init := ms[..|ms| - 1];
      assert Publishes(q, ms)[..|ms| - 1] == Publishes(q, init);
      PublishedOfPublishes(q, init, other);
      assert init + [ms[|ms| - 1]] == ms;
    }
  }

  /** The state outside the process: the ordered effect log and the `lastUpdated.properties` file. */
  class Environment {
    var log: seq<Effect>
    /** The `lastUpdated` property of the cursor file; `None` when the file or the key is missing. */
    var cursorFile: Option<string>

    constructor (cursorFile: Option<string>)
      ensures log == [] && this.cursorFile == cursorFile
    {
      log := [];
      this.cursorFile := cursorFile;
    }

    method Send(q: Queue, m: Message)
      modifies this
      ensures log == old(log) + [Effect.Publish(q, m)]
      ensures cursorFile == old(cursorFile)
    {
      log := log + [Effect.Publish(q, m)];
    }

    /** `messages.stream().forEach(m -> rabbitTemplate.convertAndSend(q, m))`. */
    method SendAll(q: Queue, ms: seq<Message>)
      modifies this
      ensures log == old(log) + Publishes(q, ms)
      ensures cursorFile == old(cursorFile)
    {
      for i := 0 to |ms|
        invariant log == old(log) + Publishes(q, ms[..i])
        invariant cursorFile == old(cursorFile)
      {
        Send(q, ms[i]);
        assert Publishes(q, ms[..i + 1]) == Publishes(q, ms[..i]) + [Effect.Publish(q, ms[i])];
      }
      assert ms[..|ms|] == ms;
    }

    /** One index PUT attempt; its failure is logged and swallowed, so it has no outcome. */
    method Index(url: string, body: Message)
      modifies this
      ensures log == old(log) + [Effect.IndexPut(url, body)]
      ensures cursorFile == old(cursorFile)
    {
      log := log + [Effect.IndexPut(url, body)];
    }

    /** A remote request whose response is not read (or read only for a returned id). */
    method Call(url: string)
      modifies this
      ensures log == old(log) + [Effect.RemoteCall(url)]
      ensures cursorFile == old(cursorFile)
    {
      log := log + [Effect.RemoteCall(url)];
    }

    /** Overwrites the cursor file with `lastUpdated=value`. */
    method StoreCursor(value: string)
      modifies this
      ensures log == old(log) + [SaveCursor(value)]
      ensures cursorFile == Some(value)
    {
      log := log + [SaveCursor(value)];
      cursorFile := Some(value);
    }
  }
}
