# Event service model

A Dafny model of the event service of an event-management backend. The
service keeps events in a table. An event is never removed: it is
"soft deleted" by setting its `isDeleted` flag. The service attaches image
URLs to events and broadcasts a notification when an event is created. It
also lists events page by page from query rows. Each row carries the event's
image URLs joined with commas and the total count of the query.

Modules:

- `Wrappers` holds `Option` and `Result`. They model Java's `Optional` and
  the exceptions the service throws.
- `ImageUrls` holds Java's `String.split(",")` exactly (`Split`), the join
  it undoes (`Join`), and the round trips between the two.
- `Paging` computes the offset of a 1-based page. It models 32-bit `int`
  wrap-around explicitly (see Findings).
- `Events` holds the records: the table row `Event`, the admin's
  `EventRequest`, the returned `EventDto`, and the 11-column listing `Row`.
- `Listing` turns rows into DTOs. `CollectRows` is the loop that both
  listings run. `GetEventByPage` and `GetEventByStatus` are the two listings.
- `EventStore` holds the class `EventService`. Its map fields are the event
  table, the image store and the notifications. Its methods are find, get,
  create, update and soft delete.

Modelling choices:

- Times are opaque integers, because the service only copies them.
- The repository's `save` is an upsert under the entity's id. Create and
  update share the same convert-and-save step, so a request that carries the
  id of a stored event replaces that row in either operation.
- A request without an id describes a new row, which gets the id `nextId`.
  Like an auto-increment column, `nextId` moves past every stored id and is
  not given back when a transaction rolls back.
- The image store's save appends to an event's URLs. Its delete removes them
  all.
- A notification is recorded as the representative URL it was broadcast with.
- The request-to-entity conversion copies the fields and leaves the
  soft-delete flag at its default, `false`. So updating a soft-deleted event
  makes it visible again.
- The listing queries are function parameters, because their SQL is not part
  of this model. The model states what the service does with whatever rows
  they return.

Notable behaviours of the code, all stated by the model:

- Page bounds are not validated. `page < 1` or `pageSize <= 0` go straight
  into the offset.
- A second soft delete of the same id returns `true` again, not `false`.
  The flag is not checked.
- Soft delete keeps the event's images.
- Creating an event without images is not rejected up front. Taking the first
  saved image fails, and the transaction undoes the row and the images.
- The status listing passes the page number to its query as it is, with no
  offset computed.
- The page offset is computed in 32-bit `int` arithmetic and wraps for large
  pages (see Findings).
- The response total is only ever read from result rows. A page past the
  last event has no rows, so it reports a total of 0, not the number of
  events.
- Creating with a request that carries a stored event's id replaces that
  row, and the new images follow the row's existing ones.

## Model

| member | source | states |
|---|---|---|
| `ImageUrls.Pieces` | src/main/java/com/app/final_project/event/EventService.java:72 | Cutting at every comma gives at least one piece. No piece holds a comma, and joining the pieces gives the string back. The last piece is non-empty when the string does not end in a comma. All pieces are empty exactly when the string is all commas. |
| `ImageUrls.DropTrailingEmpty` | src/main/java/com/app/final_project/event/EventService.java:72 | The result is a prefix of the input. It is empty or ends in a non-empty string, and everything it dropped was empty. |
| `ImageUrls.Split` | src/main/java/com/app/final_project/event/EventService.java:148 | No URL in the split list contains a comma. The list is empty exactly when the string is non-empty and made only of commas (`","` gives `[]`). Its last element is empty only for `""`, which gives `[""]`. |
| `ImageUrls.SplitJoin` | src/main/java/com/app/final_project/event/EventService.java:72 | A joined string that does not end with a comma (`""` included) is recovered by joining its split with commas. |
| `ImageUrls.JoinSplit` | src/main/java/com/app/final_project/event/EventService.java:72 | Splitting the comma-join of a non-empty list of comma-free URLs whose last URL is non-empty gives exactly that list, in order. |
| `ImageUrls.PiecesOfJoin` | src/main/java/com/app/final_project/event/EventService.java:72 | Cutting the join of comma-free parts at commas gives back the parts, empty ones included. |
| `Paging.OffsetAsWritten` | src/main/java/com/app/final_project/event/EventService.java:56 | `(page - 1) * pageSize` in Java `int` arithmetic. It equals the mathematical offset whenever `page - 1` and the product stay in the `int` range. |
| `Paging.OffsetAsWrittenOverflows` | src/main/java/com/app/final_project/event/EventService.java:56 | For page 65537 of 32768-row pages, the 32-bit offset is negative. For page 65538 of 65536-row pages, it equals the offset of page 2. |
| `Paging.Offset` | src/main/java/com/app/final_project/event/EventService.java:56 | The intended offset `(page - 1) * pageSize` without overflow (the value line 56 computes can be negative). It is never negative for `page >= 1` and `pageSize >= 0`, and it is 0 on page 1. |
| `Paging.OffsetStep` | src/main/java/com/app/final_project/event/EventService.java:56 | Each further page moves the offset by exactly `pageSize`. |
| `Listing.MapRow` | src/main/java/com/app/final_project/event/EventService.java:61-84 | The DTO of one row. No image URL in it contains a comma. |
| `Listing.PageTotal` | src/main/java/com/app/final_project/event/EventService.java:85 | The response total is the initial value (0) when there are no rows, such as on a page past the last event. Otherwise it is the total of some row. When every row repeats one total, it is that total. |
| `Listing.CollectRows` | src/main/java/com/app/final_project/event/EventService.java:58-88 | The response holds exactly one DTO per row, in row order, each the DTO of its row. Its total is the last row's, or the initial value when there are no rows. |
| `Listing.GetEventByPage` | src/main/java/com/app/final_project/event/EventService.java:53-90 | The page query gets the page size and the 32-bit offset as line 56 computes it. That is `(page - 1) * pageSize` whenever the product fits in an `int`. The response flattens the returned rows as `CollectRows` does. |
| `Listing.GetEventByStatus` | src/main/java/com/app/final_project/event/EventService.java:131-166 | The status query gets the page size, the page number unchanged and the filter. The response flattens the returned rows as `CollectRows` does. |
| `Listing.MapRowIgnoresDeletedFlag` | src/main/java/com/app/final_project/event/EventService.java:71 | The soft-delete column is read but does not affect the DTO. |
| `Listing.MapRowImagesJoinBack` | src/main/java/com/app/final_project/event/EventService.java:72 | When a row's image column does not end with a comma, joining its DTO's URLs gives the column back. |
| `Listing.MapRowRecoversImages` | src/main/java/com/app/final_project/event/EventService.java:148 | An event whose comma-free URLs (last one non-empty) were joined into the image column gets exactly those URLs back, in order. |
| `EventStore.SoftDelete` | src/main/java/com/app/final_project/event/EventService.java:116-118 | Soft delete sets the flag of a stored event. It leaves that event's other fields, every other event and the set of ids unchanged. An unknown id changes nothing. |
| `EventStore.SoftDeleteIdempotent` | src/main/java/com/app/final_project/event/EventService.java:113-118 | Soft-deleting twice leaves the table as soft-deleting once. |
| `EventStore.EventService.FindEventById` | src/main/java/com/app/final_project/event/EventService.java:38-44 | Fails with not-found exactly when the id is absent or its row is soft-deleted. Otherwise it returns the event's DTO with the event's stored image list. |
| `EventStore.EventService.GetEventById` | src/main/java/com/app/final_project/event/EventService.java:46-48 | Returns the raw row whenever the id is stored, deleted or not. Such a row is found by `FindEventById` exactly when its flag is clear, and an absent id is not found. |
| `EventStore.EventService.SaveEvent` | src/main/java/com/app/final_project/event/EventService.java:95 | Stores the row under its id. Images and notifications are unchanged, and the id generator moves past the id. |
| `EventStore.EventService.SaveListEventImage` | src/main/java/com/app/final_project/event/EventService.java:96 | Appends the URLs to the event's image list and returns them. |
| `EventStore.EventService.DeleteAllByEventId` | src/main/java/com/app/final_project/event/EventService.java:106 | Removes every image of the event. |
| `EventStore.EventService.CreateEvent` | src/main/java/com/app/final_project/event/EventService.java:92-99 | Fails exactly when there are no images. The failure is an index error on element 0 and leaves table, images and notifications unchanged. Otherwise the converted request is stored under its own id, or under a fresh generated id when it has none. The images follow the row's existing ones (exactly the given images for a new row), the notification uses the first image's URL, and the event is found with those images in order. The id generator moves past the saved id in both outcomes. |
| `EventStore.EventService.UpdateEvent` | src/main/java/com/app/final_project/event/EventService.java:101-110 | Stores the converted request under its own id, or under a fresh generated id when it has none, and moves the id generator past that id. With no new image list, the images are unchanged. With one, the event's images become exactly the new list and the old ones are gone. Notifications are unchanged. |
| `EventStore.EventService.DeleteEvent` | src/main/java/com/app/final_project/event/EventService.java:112-122 | Returns `false` for an absent id, with nothing changed. For a stored id it returns `true` (again on a repeat), soft-deletes the row, keeps every other row and the images, and removes that event's notifications. Afterwards `GetEventById` still returns the row and `FindEventById` reports not-found. |

## Findings

| source | as written | input that shows it | evidently intended | confidence | as-written member | corrected member |
|---|---|---|---|---|---|---|
| src/main/java/com/app/final_project/event/EventService.java:56 | `int offset = (page - 1) * pageSize` is 32-bit `int` arithmetic and wraps on overflow | `page = 65537`, `pageSize = 32768` gives offset -2147483648. `page = 65538`, `pageSize = 65536` gives 65536, the offset of page 2. | The offset `(page - 1) * pageSize` computed without wrap-around (for example in `long`), non-negative for valid pages | high that it wraps, medium that such page sizes reach it; not executed | `Paging.OffsetAsWritten`, `Paging.OffsetAsWrittenOverflows` | `Paging.Offset` (`Listing.GetEventByPage` is proved to pass it whenever it fits in an `int`) |

## Left out

- `getEventByIdWithLock` (src/main/java/com/app/final_project/event/EventService.java:49-51): a database row lock used only for concurrency control. The model is sequential.
- `@Transactional` atomicity in general: only the one rollback a sequential caller can observe is modelled, a failed create with no images.
- The SQL of the page query, the status query, `getListEventAttended` and `getListImagesUser` is not part of this model. The listing queries are parameters.
- `getEventAttended` and `getImagesUser` (src/main/java/com/app/final_project/event/EventService.java:124-130) pass the repository's result straight through, so there is nothing to model.
- The image and notification services are not part of this model. They are reduced to the `images` and `notified` maps. The upload of image payloads is reduced to the URLs the upload produces.
- The `Timestamp` to `LocalDateTime` conversion (src/main/java/com/app/final_project/event/EventService.java:63-66) is library time handling. Times are opaque integers.
- The conversions in `EventUtils` are not part of this model. They are modelled as field copies.
- Null arguments and nulls in query rows (the `NullPointerException` and `ClassCastException` paths) are not modelled. Columns are typed, and an absent image list is `None`.
- The total column is a Java `long` in one listing and an `Integer` in the other. Both are modelled as unbounded integers.
- The registration capacity protocol is not modelled, because the registration code in this repository is entirely commented out.
