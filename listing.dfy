/** The two paged listings: each result row of the page query becomes one
    EventDto, in row order, and the response's total is read from the rows. */
module Listing {
  import opened ImageUrls
  import opened Paging
  import opened Events

  /** A page of events with the total count the query reported. */
  datatype EventResponse = EventResponse(eventDtos: seq<EventDto>, total: int)

  /** The total of a freshly built response, before any row sets it (the
      default of a primitive `long` field). */
  const InitialTotal: int := 0

  /** The DTO of one result row: columns 0 to 7 copied, the soft-delete
      column dropped, the image column split at commas. */
  function MapRow(row: Row): (d: EventDto)
    ensures forall i :: 0 <= i < |d.imageUrls| ==> Separator !in d.imageUrls[i]
  {
    EventDto(row.eventId, row.point, row.maxAttenders, row.eventName, row.location,
             row.description, row.startTime, row.endTime, Split(row.imageUrls))
  }

  /** The total left in the response once every row has overwritten it: the
      last row's, or the initial value when there are no rows. As every row
      of a page repeats the same total, that is the total of any row. */
  function PageTotal(rows: seq<Row>): (t: int)
    ensures rows == [] ==> t == InitialTotal
    ensures rows != [] ==> exists k :: 0 <= k < |rows| && t == rows[k].total
    ensures rows != [] && (forall k :: 0 <= k < |rows| ==> rows[k].total == rows[0].total) ==> t == rows[0].total
  {
    if rows == [] then InitialTotal else rows[|rows| - 1].total
  }

  /** resp holds one DTO per row, in row order, and the page total. */
  ghost predicate Flattens(rows: seq<Row>, resp: EventResponse)
  {
    && |resp.eventDtos| == |rows|
    && (forall k :: 0 <= k < |rows| ==> resp.eventDtos[k] == MapRow(rows[k]))
    && resp.total == PageTotal(rows)
  }

  /** The loop both listings run over the query's rows: append the row's DTO,
      overwrite the total. */
  method CollectRows(rows: seq<Row>) returns (resp: EventResponse)
    ensures Flattens(rows, resp)
  {
    var eventDtos: seq<EventDto> := [];
    var total := InitialTotal;
    var i := 0;
    while i < |rows|
      invariant 0 <= i <= |rows|
      invariant |eventDtos| == i
      invariant forall k :: 0 <= k < i ==> eventDtos[k] == MapRow(rows[k])
      invariant total == PageTotal(rows[..i])
    {
      eventDtos := eventDtos + [MapRow(rows[i])];
      total := rows[i].total;
      i := i + 1;
    }
    assert rows[..i] == rows;
    resp := EventResponse(eventDtos, total);
  }

  /** The unfiltered listing: the page query receives the page size and the
      offset of the requested 1-based page, computed in 32-bit arithmetic.
      That is the offset `(page - 1) * pageSize` whenever the product fits in
      an `int`; a larger one wraps around. */
  method GetEventByPage(pageSize: Int32, page: Int32, findEventsByPage: (Int32, Int32) -> seq<Row>)
    returns (resp: EventResponse)
    ensures Flattens(findEventsByPage(pageSize, OffsetAsWritten(pageSize, page)), resp)
    ensures page > IntMin && IntMin <= Offset(pageSize, page) <= IntMax ==>
      Flattens(findEventsByPage(pageSize, Offset(pageSize, page)), resp)
  {
    var offset := OffsetAsWritten(pageSize, page);
    var rows := findEventsByPage(pageSize, offset);
    resp := CollectRows(rows);
  }

  /** The status-filtered listing: the page number goes to the query as it is,
      with no offset computed. */
  method GetEventByStatus(pageSize: int, page: int, filterBy: int,
                          getEventByStatus: (int, int, int) -> seq<Row>)
    returns (resp: EventResponse)
    ensures Flattens(getEventByStatus(pageSize, page, filterBy), resp)
  {
    var rows := getEventByStatus(pageSize, page, filterBy);
    resp := CollectRows(rows);
  }

  /** The soft-delete column is read but has no effect on the DTO. */
  lemma MapRowIgnoresDeletedFlag(row: Row, flag: bool)
    ensures MapRow(row.(isDeleted := flag)) == MapRow(row)
  {
  }

  /** An image column that does not end with a comma is recovered exactly by
      joining the DTO's URLs. */
  lemma MapRowImagesJoinBack(row: Row)
    requires row.imageUrls == [] || row.imageUrls[|row.imageUrls| - 1] != Separator
    ensures Join(MapRow(row).imageUrls) == row.imageUrls
  {
    SplitJoin(row.imageUrls);
  }

  /** An event whose comma-free URLs were joined into the image column gets
      exactly those URLs back, in the same order. */
  lemma MapRowRecoversImages(row: Row, urls: seq<Url>)
    requires row.imageUrls == Join(urls)
    requires |urls| >= 1
    requires forall i :: 0 <= i < |urls| ==> Separator !in urls[i]
    requires |urls| == 1 || urls[|urls| - 1] != ""
    ensures MapRow(row).imageUrls == urls
  {
    JoinSplit(urls);
  }
}
