/** The event service over its stores: the event table (rows are never
    removed, only flagged as deleted), the image store that keeps each
    event's URLs in display order, and the notifications broadcast per
    event. */
module EventStore {
  import opened Wrappers
  import opened ImageUrls
  import opened Events

  /** The exceptions the service raises. */
  datatype ServiceError =
    | EventNotFound(eventId: int)
    | IndexOutOfBounds(index: int, length: int)

  /** The event table after flagging `id` as deleted: the flag of `id` is set,
      every other field of it and every other row stay as they are, and an
      unknown id leaves the table alone. */
  function SoftDelete(events: map<int, Event>, id: int): (r: map<int, Event>)
    ensures r.Keys == events.Keys
    ensures id in events ==> r[id].isDeleted && r[id].(isDeleted := events[id].isDeleted) == events[id]
    ensures forall k :: k in events && k != id ==> r[k] == events[k]
  {
    if id in events then events[id := events[id].(isDeleted := true)] else events
  }

  /** Flagging twice leaves the table as flagging once. */
  lemma SoftDeleteIdempotent(events: map<int, Event>, id: int)
    ensures SoftDelete(SoftDelete(events, id), id) == SoftDelete(events, id)
  {
  }

  /** The id save gives a converted request: the request's own id, or the
      next generated id when it carries none. */
  function SavedId(req: EventRequest, nextId: int): (id: int)
    ensures req.eventId.Some? ==> id == req.eventId.value
    ensures req.eventId.None? ==> id == nextId
  {
    match req.eventId
    case Some(k) => k
    case None => nextId
  }

  /** The id generator after a row was stored under `id`: past every stored id. */
  function NextIdAfter(nextId: int, id: int): (n: int)
    ensures n >= nextId && n > id
    ensures id < nextId ==> n == nextId
  {
    if id < nextId then nextId else id + 1
  }

  class EventService {
    /** The event table, by id. */
    var events: map<int, Event>
    /** The image store: the URLs of each event, in display order. */
    var images: map<int, seq<Url>>
    /** The notifications: for each event that has them, the representative
        image URL they were broadcast with. */
    var notified: map<int, Url>
    /** The id the table generates for the next new row. */
    var nextId: int

    /** Every row is stored under its own id, below the next generated id,
        and images and notifications belong to stored events. */
    ghost predicate Valid()
      reads this
    {
      && (forall id :: id in events ==> events[id].eventId == id && id < nextId)
      && images.Keys <= events.Keys
      && notified.Keys <= events.Keys
    }

    constructor ()
      ensures Valid()
      ensures events == map[] && images == map[] && notified == map[]
    {
      events, images, notified, nextId := map[], map[], map[], 0;
    }

    /** The URLs the image store holds for `id`, none when it has none. */
    function ImagesOf(id: int): seq<Url>
      reads this
    {
      if id in images then images[id] else []
    }

    /** The public lookup: an absent row and a soft-deleted row are the same
        not-found error; otherwise the event with its stored images. */
    function FindEventById(id: int): (r: Result<EventDto, ServiceError>)
      reads this
      ensures r.Failure? <==> id !in events || events[id].isDeleted
      ensures r.Failure? ==> r.error == EventNotFound(id)
      ensures r.Success? ==> r.value == ToDto(events[id], ImagesOf(id))
    {
      if id !in events || events[id].isDeleted then Failure(EventNotFound(id))
      else Success(ToDto(events[id], ImagesOf(id)))
    }

    /** The internal lookup: the raw row, deleted or not. A row it returns is
        found by FindEventById exactly when its flag is clear. */
    function GetEventById(id: int): (r: Option<Event>)
      reads this
      ensures r.Some? <==> id in events
      ensures r.Some? ==> r.value == events[id]
      ensures r.Some? ==> (FindEventById(id).Success? <==> !r.value.isDeleted)
      ensures r.None? ==> FindEventById(id) == Failure(EventNotFound(id))
    {
      if id in events then Some(events[id]) else None
    }

    /** The repository's save: the row is stored under its id, replacing any
        row there; the id generator moves past an explicitly given id. */
    method SaveEvent(e: Event)
      requires Valid()
      modifies this
      ensures Valid()
      ensures events == old(events)[e.eventId := e]
      ensures images == old(images) && notified == old(notified)
      ensures nextId == NextIdAfter(old(nextId), e.eventId)
    {
      events := events[e.eventId := e];
      if e.eventId >= nextId {
        nextId := e.eventId + 1;
      }
    }

    /** The image store's save: the new URLs follow the event's existing ones. */
    method SaveListEventImage(id: int, urls: seq<Url>) returns (saved: seq<Url>)
      requires Valid()
      requires id in events
      modifies this
      ensures Valid()
      ensures saved == urls
      ensures images == old(images)[id := old(ImagesOf(id)) + urls]
      ensures events == old(events) && notified == old(notified) && nextId == old(nextId)
    {
      images := images[id := ImagesOf(id) + urls];
      saved := urls;
    }

    /** The image store's delete: the event has no images afterwards. */
    method DeleteAllByEventId(id: int)
      requires Valid()
      modifies this
      ensures Valid()
      ensures images == old(images) - {id}
      ensures events == old(events) && notified == old(notified) && nextId == old(nextId)
    {
      images := images - {id};
    }

    /** Converts the request and saves it (under the request's id, or under a
        newly generated one when it has none), stores the images after the
        row's existing ones and notifies every user with the URL of the first
        saved image. With no images, taking the first one fails, and the
        transaction undoes the stored row and images; the id generator is not
        rolled back. */
    method CreateEvent(req: EventRequest, urls: seq<Url>) returns (r: Result<Event, ServiceError>)
      requires Valid()
      modifies this
      ensures Valid()
      ensures nextId == NextIdAfter(old(nextId), SavedId(req, old(nextId)))
      ensures r.Failure? <==> urls == []
      ensures r.Failure? ==> r.error == IndexOutOfBounds(0, 0)
      ensures r.Failure? ==> events == old(events) && images == old(images) && notified == old(notified)
      ensures r.Success? ==>
        var id := SavedId(req, old(nextId));
        && r.value == FromRequest(req, id)
        && events == old(events)[id := r.value]
        && images == old(images)[id := old(ImagesOf(id)) + urls]
        && notified == old(notified)[id := urls[0]]
        && FindEventById(id) == Success(ToDto(r.value, old(ImagesOf(id)) + urls))
      ensures r.Success? && req.eventId.None? ==>
        r.value.eventId !in old(events) && images[r.value.eventId] == urls
    {
      var events0, images0 := events, images;
      var event := FromRequest(req, SavedId(req, nextId));
      SaveEvent(event);
      var saved := SaveListEventImage(event.eventId, urls);
      if |saved| == 0 {
        events, images := events0, images0;
        return Failure(IndexOutOfBounds(0, 0));
      }
      notified := notified[event.eventId := saved[0]];
      r := Success(event);
    }

    /** Converts the request and saves it as CreateEvent does. When a new image
        list is given, the images of the request's id are deleted and the new
        ones saved for the saved row, so its images become exactly the new
        list; otherwise they stay. */
    method UpdateEvent(req: EventRequest, newImages: Option<seq<Url>>) returns (updated: Event)
      requires Valid()
      modifies this
      ensures Valid()
      ensures updated == FromRequest(req, SavedId(req, old(nextId)))
      ensures events == old(events)[updated.eventId := updated]
      ensures nextId == NextIdAfter(old(nextId), updated.eventId)
      ensures newImages.None? ==> images == old(images)
      ensures newImages.Some? ==> images == old(images)[updated.eventId := newImages.value]
      ensures ImagesOf(updated.eventId) ==
        if newImages.Some? then newImages.value else old(ImagesOf(updated.eventId))
      ensures notified == old(notified)
    {
      var event := FromRequest(req, SavedId(req, nextId));
      SaveEvent(event);
      updated := event;
      if newImages.Some? {
        match req.eventId {
          case Some(k) => DeleteAllByEventId(k);
          case None =>
        }
        assert ImagesOf(updated.eventId) + newImages.value == newImages.value;
        var _ := SaveListEventImage(updated.eventId, newImages.value);
        assert images == (old(images) - {updated.eventId})[updated.eventId := newImages.value];
      }
    }

    /** Soft-deletes an event: false for an unknown id, with nothing changed;
        otherwise the flag is set (whatever it was), the notifications of the
        event are retracted, and true. Afterwards the row is still there for
        GetEventById but FindEventById reports it as not found. */
    method DeleteEvent(id: int) returns (ok: bool)
      requires Valid()
      modifies this
      ensures Valid()
      ensures ok <==> id in old(events)
      ensures events == SoftDelete(old(events), id)
      ensures notified == if ok then old(notified) - {id} else old(notified)
      ensures images == old(images) && nextId == old(nextId)
      ensures ok ==> GetEventById(id).Some? && FindEventById(id) == Failure(EventNotFound(id))
    {
      if id !in events {
        return false;
      }
      var event := events[id];
      event := event.(isDeleted := true);
      SaveEvent(event);
      notified := notified - {id};
      ok := true;
    }
  }
}
