/** The records the event service works on. Times are kept as opaque
    integers: the service only copies them. */
module Events {
  import opened Wrappers
  import opened ImageUrls

  /** A row of the event table. `isDeleted` is the soft-delete flag. */
  datatype Event = Event(
    eventId: int,
    eventName: string,
    description: string,
    location: string,
    startTime: int,
    endTime: int,
    point: int,
    maxAttenders: int,
    isDeleted: bool)

  /** What an administrator submits to create or update an event. A request
      without an id describes a new row. */
  datatype EventRequest = EventRequest(
    eventId: Option<int>,
    eventName: string,
    description: string,
    location: string,
    startTime: int,
    endTime: int,
    point: int,
    maxAttenders: int)

  /** An event as the API returns it: the row's fields without the
      soft-delete flag, plus the event's image URLs in display order. */
  datatype EventDto = EventDto(
    eventId: int,
    point: int,
    maxAttenders: int,
    eventName: string,
    location: string,
    description: string,
    startTime: int,
    endTime: int,
    imageUrls: seq<Url>)

  /** One result row of the listing queries, column by column: id, name,
      start, end, location, point, description, capacity, soft-delete flag,
      the comma-joined image URLs and the total count of the query. */
  datatype Row = Row(
    eventId: int,
    eventName: string,
    startTime: int,
    endTime: int,
    location: string,
    point: int,
    description: string,
    maxAttenders: int,
    isDeleted: bool,
    imageUrls: string,
    total: int)

  /** The entity built from a request, stored under `id`; a new entity is
      not deleted. */
  function FromRequest(req: EventRequest, id: int): Event
  {
    Event(id, req.eventName, req.description, req.location,
          req.startTime, req.endTime, req.point, req.maxAttenders, false)
  }

  /** The DTO of a stored event with the given image URLs. */
  function ToDto(e: Event, urls: seq<Url>): EventDto
  {
    EventDto(e.eventId, e.point, e.maxAttenders, e.eventName, e.location,
             e.description, e.startTime, e.endTime, urls)
  }
}
