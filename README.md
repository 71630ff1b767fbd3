# Message side of a social-media backend, in Dafny

This project models the decision logic of the message part of a small
social-media backend (Javalin handlers over a JDBC-backed service). It has four files:

- `model.dfy` (module `Model`): the value types. These are the `Message` and `Account` records, Java's
  nullable references as `Option`, the one `ServiceException` kind as
  `Result.ServiceError`, and the text validation shared by create and update.
  That validation accepts text that is present, not empty and at most 255
  characters long.
- `message_table.dfy` (module `MessageTable`): the `message` table as a value.
  A `Table` is the rows by `message_id` plus the next key of the
  auto-increment column. Each SQL statement the service runs is a function
  that returns the new table and the result (`Create`, `Lookup`, `Update`,
  `Delete`). The lemmas say what holds across calls: round trips,
  idempotent delete, preservation of the table invariant over any sequence
  of writes, and that a deleted id never comes back.
- `message_service.dfy` (module `Service`): the class `MessageService`. Its
  fields `rows` and `nextId` are the table, and its writes update them in
  place. Each write is proved to be exactly the matching `MessageTable`
  function. The two list reads are `while` loops over the unread keys, in
  no fixed order, because the source's `SELECT *` has no `ORDER BY`. They
  are proved to return each selected row once.
- `controller.dfy` (module `Controller`): the HTTP handlers.
  - `HandleCreate`, `HandleGetById`, `HandleDelete` and `HandleUpdate` give
    each handler's status, body and effect on the table as pure functions.
  - Class `SocialMediaController` holds the message service. Its handler
    methods call the service in the same order as the source, and are
    proved equal to those functions or to the list-read properties.
  - Registration and login are status mappings over the account service's
    answer.

Inputs outside the model are parameters:
- Path-id parsing and JSON decoding are `Option` values; `None` means the
  parse failed.
- The account service's `getAccountById`, `createAccount` and
  `validateLogin` are function-valued oracles.
- Whether storage works on a call is an input:
  - `dbUp` for single-statement calls;
  - `failAfter` for the list reads. When it is `Some(k)`, the result set
    fails after `k` rows have been read.

The model follows the code in these details:
- Text made only of whitespace passes validation
  (src/main/java/Service/MessageService.java:15, :83 test only `null` and
  `isEmpty`).
- A list read whose result set fails midway returns the rows read so far.
  The `catch` at src/main/java/Service/MessageService.java:55-58
  returns the partly filled list.
- The check that the poster's account exists is in the handler, not in the
  service. `createMessage` ignores its `account` argument.
- The delete handler answers 200 with no body when its lookup hits a
  storage failure. `getMessageById` turns that failure into "absent".

## Model

| member | source | states |
|---|---|---|
| `MessageTable.Create` | src/main/java/Service/MessageService.java:14-37 | Succeeds exactly when the text is present, non-empty and at most 255 characters and storage works. On failure the table is unchanged. On success exactly one row is added under the generated key, echoing the request's posted_by, text and time. |
| `MessageTable.Lookup` | src/main/java/Service/MessageService.java:61-80 | Finds a message exactly when storage works and a row has that id; the result is that row with every field copied. |
| `MessageTable.Update` | src/main/java/Service/MessageService.java:82-114 | Succeeds exactly when the text is valid, storage works and the id exists; otherwise the table is unchanged. On success only that row's text changes, and the result keeps the stored posted_by and time, ignoring the request's. |
| `MessageTable.Delete` | src/main/java/Service/MessageService.java:116-125 | Fails only when storage fails, leaving the table unchanged. On success it removes the row with that id if one exists and keeps every other row. |
| `MessageTable.CreateThenLookup` | src/main/java/Service/MessageService.java:23-33 | A created message reads back by its id equal in all fields. |
| `MessageTable.CreateAddsOneRow` | src/main/java/Service/MessageService.java:23-33 | The generated key is not in use, so a successful create grows the table by exactly one row. |
| `MessageTable.UpdateThenLookup` | src/main/java/Service/MessageService.java:99-110 | After an update the row reads back as the old row with the new text; every other id reads back as before. |
| `MessageTable.DeleteThenLookup` | src/main/java/Service/MessageService.java:116-125 | After a successful delete the id reads as absent, whether or not it existed. |
| `MessageTable.DeleteIdempotent` | src/main/java/Service/MessageService.java:118-121 | Deleting the same message twice gives the same table and result as deleting it once. |
| `MessageTable.RunPreservesInv` | src/main/java/Service/MessageService.java:15-20 | After any sequence of creates, updates and deletes, every row has valid text and is stored under its own id, and the key counter never decreases. |
| `MessageTable.DeletedStaysDeleted` | src/main/java/Service/MessageService.java:116-125 | Once a generated id is absent from the table, no later sequence of writes brings it back. |
| `Service.MessageService.constructor` | src/main/java/Controller/SocialMediaController.java:22-25 | The service starts over an empty table that satisfies the table invariant. |
| `Service.MessageService.CreateMessage` | src/main/java/Service/MessageService.java:14-39 | Changes the table as `Create` says and returns its result; the `account` argument plays no part. |
| `Service.MessageService.GetAllMessages` | src/main/java/Service/MessageService.java:41-59 | Returns only rows of the table, each at most once. With working storage, or a failure after k rows where k is at least the number of rows, it returns every row. A failure after k rows with k below that number returns exactly k rows, so a connection failure returns an empty list. |
| `Service.MessageService.GetMessageById` | src/main/java/Service/MessageService.java:61-80 | Returns what `Lookup` gives for the current table. |
| `Service.MessageService.UpdateMessage` | src/main/java/Service/MessageService.java:82-114 | Changes the table as `Update` says and returns its result. |
| `Service.MessageService.DeleteMessage` | src/main/java/Service/MessageService.java:116-125 | Changes the table as `Delete` says and returns its result. |
| `Service.MessageService.GetMessagesByAccountId` | src/main/java/Service/MessageService.java:127-146 | Returns only rows posted by the given account, each at most once. With working storage, or a failure after at least as many rows as the account has, it returns every such row. A failure after k rows with k below that number returns exactly k rows, so a connection failure returns an empty list. |
| `Controller.RegisterAccount` | src/main/java/Controller/SocialMediaController.java:41-50 | 200 with the created account exactly when the body decodes and the account service succeeds; every failure is 400 with no body. |
| `Controller.LoginAccount` | src/main/java/Controller/SocialMediaController.java:52-65 | 200 with the matching account exactly when the body decodes and the account service finds one. A parse failure, a service failure and unmatched credentials all give the same 401 with no body. |
| `Controller.HandleCreate` | src/main/java/Controller/SocialMediaController.java:67-81 | 200 exactly when the body decodes, the poster's account exists, the text is valid and storage works. The body is then the created message and that row is inserted. Every other case, including an unknown account, gives 400 and leaves the table unchanged. |
| `Controller.HandleGetById` | src/main/java/Controller/SocialMediaController.java:89-101 | An unparsable id gives 400. Otherwise the status is 200, with the stored message as body exactly when it exists and storage works, and no body otherwise. |
| `Controller.HandleDelete` | src/main/java/Controller/SocialMediaController.java:103-119 | 400 exactly for an unparsable id, or for a found message whose delete fails; the table is then unchanged. A body comes back exactly when the message was found and deleted, and it is the row as it was before deletion. An absent message gives 200 with no body and no change. |
| `Controller.HandleUpdate` | src/main/java/Controller/SocialMediaController.java:123-136 | 200 exactly when both the id and the body parse, the text is valid, storage works and the path id exists. The answer is the row under the path id with the new text and its stored owner and time. Every other case is 400 with the table unchanged. |
| `Controller.CreatedMessageReadsBack` | src/main/java/Controller/SocialMediaController.java:73-74 | The message a successful create answers with is exactly what the get-by-id handler answers with afterwards. |
| `Controller.DeleteHandlerTwice` | src/main/java/Controller/SocialMediaController.java:106-113 | After a delete through the handler, a second delete answers 200 with no body and changes nothing, and a read finds nothing. |
| `Controller.UpdateUsesOnlyBodyText` | src/main/java/Controller/SocialMediaController.java:126-129 | Two update bodies with the same text have the same effect: the body's id, owner and time are ignored and the path id is used. |
| `Controller.SocialMediaController.constructor` | src/main/java/Controller/SocialMediaController.java:22-25 | Starts with a fresh message service over an empty, valid table. |
| `Controller.SocialMediaController.CreateMessage` | src/main/java/Controller/SocialMediaController.java:67-81 | Asks for the poster's account first and creates only if it exists; response and new table are as `HandleCreate` says. |
| `Controller.SocialMediaController.GetAllMessages` | src/main/java/Controller/SocialMediaController.java:83-86 | Always 200 with a list, possibly empty. The list holds table rows, each at most once. With working storage it holds every row. A failure after k rows gives exactly k rows when the table has more, and every row otherwise; on a connection failure the list is empty. |
| `Controller.SocialMediaController.GetMessageById` | src/main/java/Controller/SocialMediaController.java:89-101 | Responds as `HandleGetById` says for the current table. |
| `Controller.SocialMediaController.DeleteMessageById` | src/main/java/Controller/SocialMediaController.java:103-119 | Looks up, then deletes only a found message; response and new table are as `HandleDelete` says. |
| `Controller.SocialMediaController.UpdateMessageById` | src/main/java/Controller/SocialMediaController.java:123-136 | Overwrites the body's id with the path id before calling the service; response and new table are as `HandleUpdate` says. |
| `Controller.SocialMediaController.GetMessagesByAccountId` | src/main/java/Controller/SocialMediaController.java:138-146 | 400 exactly when the id does not parse. Otherwise 200 with only that account's rows, each at most once, and all of them when storage works. A failure after k rows gives exactly k rows when the account has more, and all of them otherwise; on a connection failure the list is empty. |

## Left out

- The JDBC plumbing is not modelled: connections, prepared statements, result sets and generated-key retrieval. The table is a map, and a generated key is the next value of a counter that is never reused.
- The `return null` path when no generated key comes back (src/main/java/Service/MessageService.java:38): an auto-increment insert always yields a key, so `Create` always returns the new message.
- Failures in the middle of a write are not modelled, such as an insert that commits before key retrieval fails. A failing write is taken to leave the table unchanged.
- Java `int` and `long` widths are not modelled: ids, account ids and times are unbounded integers, so key overflow is not captured.
- `String.length()` counts UTF-16 code units, while the model counts `char`s of a `seq<char>`.
- Jackson decoding and encoding and the Javalin routing table (src/main/java/Controller/SocialMediaController.java:27-39) are not modelled. Decoding and `Integer.parseInt` are `Option` inputs, and `ctx.json` is the `Body` of a `Response`.
- The account service is not part of this model. Its username, password and uniqueness rules are not visible, so registration, login and account lookup are oracles.
- Logging through `printStackTrace` and exception messages are dropped; every `ServiceException` is the single `ServiceError`.
- Concurrency, isolation and the window between the lookup and the delete in the delete handler are not modelled: each call runs alone against the table.
- `Service.MessageService.GetAllMessages`: states no order for the rows returned, because the source's `SELECT *` has no `ORDER BY`. `GetMessagesByAccountId` and both list handlers likewise.
- The initial table is taken as empty. The Java `MessageService` holds no state and works over whatever rows the database already has; no lemma depends on the empty start, since every lemma is stated for any table that satisfies the invariant.
