# Inventory registry service: a Dafny model

This project models the in-memory inventory registry of a small Express service (`index.js`). The service keeps one process-wide array `inventory` of records `{id, inventory_name, description, photo}`. Its route handlers do the following:
- register a record (`POST /register`);
- list all records (`GET /inventory`);
- read, partially update or delete one record (`GET`/`PUT`/`DELETE /inventory/:id`);
- fetch or replace its photo (`GET`/`PUT /inventory/:id/photo`);
- answer every other method and path with 405.

The model has five modules:

- `Wrappers`: `Option`, standing for JavaScript's `null`/`undefined`.
- `Inventory`: the record type and the response type, including the error body `{ error }` and its messages. It also holds the `find`/`findIndex` lookup and one pure function per handler. The read-only handlers (list, get, photo fetch) give the response. The others give the response and the inventory afterwards. The lemmas that relate several handlers are here too.
- `Routing`: the route table as a function from method and path segments to the handler reached. The `app.all("*")` fallback is the `NotAllowed` result.
- `Server`: `Serve`, the effect of one request, and the class `InventoryServer`. The class holds the mutable `inventory: seq<Item>` field. Its handler methods update that field in place: append, overwrite a field of the found record, and splice. Each method is proved to have exactly the effect its `Inventory` function states, and to keep the invariant that every record has a positive id and a non-empty name.
- `Numbering`: the defect in how ids are assigned (see Findings), and the counter-based numbering the registry evidently intends.

Inputs from outside the process are parameters:
- The request body's `inventory_name` and `description` are `Option<string>`. `None` and `Some("")` are falsy, as in JavaScript.
- An uploaded photo is its stored file name (`Option<string>`).
- `parseInt` of the `:id` segment is `Option<int>`, where `None` is NaN and so matches no record. `Serve` and `Handle` take it as a function parameter `parseId`.
- `fs.existsSync` on the photo's path is membership in `cacheFiles`, the set of file names present in the cache directory.

Behaviour of the code worth knowing:
- Ids come from `inventory.length + 1`. A delete keeps ids unique. But a later register hands out an id that a live record still holds exactly when some record carries length + 1. Starting from ids 1..n, that is the case after a single delete of any record but the last.
- There is no search operation keyed on a `has_photo` flag, because no handler implements one.
- Deleting a record does not remove its photo file.
- `res.sendFile` throws when the photo's path is relative. That happens when the cache directory is given as a relative path. Express answers the throw with 500 and its default error page, and the model does the same.
- Express routes a `HEAD` request to the `GET` route of the same path, so `HEAD` on a defined `GET` path is not answered with 405.

## Model

| member | source | states |
|---|---|---|
| Inventory.FindIndex | index.js:113-114 | `findIndex`/`find` returns the index of the first record whose id equals the parsed id. It returns none exactly when no record carries it; an unparsable id matches nothing. |
| Inventory.Register | index.js:49-64 | A falsy `inventory_name` gives 400 "inventory_name is required" and an unchanged inventory. Otherwise exactly one record is appended and earlier records are untouched. The new record has id old length + 1, the given name, the description or "" when it is falsy, and the uploaded file or null. It is returned with 201. The non-empty-name and positive-id invariant is kept. |
| Inventory.ListAll | index.js:67-69 | 200 with every record of the inventory, in insertion order and none left out. Its partners are `ListedAfterRegister` and `RefusedRegisterKeepsListing`. |
| Inventory.GetItem | index.js:72-76 | 404 "Not found" when no record has the id; otherwise 200 with the first record that has it. |
| Inventory.Update | index.js:79-88 | 404 and no change for an unknown id. Otherwise only the first matching record changes: name and description are overwritten only by truthy values, and id and photo are kept. Length and the other records are unchanged. The updated record is returned with 200, and the invariant is kept. |
| Inventory.GetPhoto | index.js:91-99 | 404 "Not found" when the id is unknown, the first matching record has no photo, or its file is not in the cache directory. Otherwise: 200 with that file as image/jpeg when the cache directory is absolute, and 500 with the framework's error page when it is relative, because `sendFile` throws. |
| Inventory.ReplacePhoto | index.js:102-109 | The unknown id is checked first (404), then the missing file (400), both leaving the inventory unchanged. On success only the matching record's photo changes, to the new file name, and the record is returned with 200. |
| Inventory.Delete | index.js:112-118 | 404 and no change for an unknown id. Otherwise the first matching record is returned with 200. The length drops by one, records before it stay in place and records after it shift down by one in the same order. |
| Inventory.ListedAfterRegister | index.js:62-69 | After a successful register, the listing is the earlier inventory followed by the new record. |
| Inventory.RefusedRegisterKeepsListing | index.js:50-53 | A register refused for its name leaves the listing as it was. |
| Inventory.RegisterThenGet | index.js:55-76 | GET with the id a register returned yields the registered record, when no live record already carries that id. |
| Inventory.RegisterKeepsDense | index.js:55-62 | While nothing is deleted, record j has id j + 1. Such ids are unique, and the next id is free. |
| Inventory.DeleteThenGet | index.js:72-118 | With unique ids, after a delete both GET and DELETE of the same id answer 404. |
| Inventory.DeleteRemovesExactlyOne | index.js:116-117 | The remaining records plus the returned one are, as a multiset, the old inventory. |
| Inventory.UpdateWithNothingIsGet | index.js:83-87 | An update with no truthy field leaves the inventory unchanged and answers exactly as GET would. |
| Inventory.UnknownIdChangesNothing | index.js:72-118 | For an id no record carries, get, update, photo fetch, photo replace and delete all answer 404 and leave the inventory unchanged. |
| Inventory.DrillScenario | index.js:49-118 | Walks through register "Drill", get, update the description to "Cordless", delete, then get again, which answers 404. |
| Inventory.EmptyNameScenario | index.js:50-53 | Registering with an empty name answers 400 and stores nothing. |
| Routing.Route | index.js:49-123 | A request reaches a handler only with that route's method, or HEAD for a GET route, and exactly that route's path with a non-empty `:id`. Everything else falls through to the 405 catch-all. |
| Routing.RouteReachesEachEndpoint | index.js:49-118 | Each route is reached by its own method and path, and each GET route by HEAD as well. |
| Server.Serve | index.js:49-123 | An unmatched method or path answers 405 "Method not allowed" with the inventory unchanged. GET and HEAD requests never change the inventory. For a request without conditional or range headers and with a body that parses, every status is 200, 201, 400, 404, 405 or 500. A 500 happens only for a relative cache directory, with the error page. Only register, update, delete and photo replacement change the inventory. Every other request keeps its length and every record's id. Every request keeps the invariant. |
| Server.RunKeepsWellFormed | index.js:49-123 | Across any run of requests, served one after another, every stored record keeps a non-empty `inventory_name` and a positive id. Register demands a truthy name and update only overwrites with one. |
| Server.ServeKeepsDense | index.js:49-109 | A request that is not a delete keeps record j numbered j + 1: register appends id length + 1, and update and photo replacement never change ids. |
| Server.RunWithoutDeleteKeepsIdsUnique | index.js:49-123 | A run with no delete keeps ids 1, 2, ... in order and therefore unique. Only a delete can lead to the duplicate ids of the Finding below. |
| Server.InventoryServer.constructor | index.js:44 | The service starts with an empty inventory. |
| Server.InventoryServer.Register | index.js:49-64 | Pushes onto the inventory field with exactly the effect of `Inventory.Register`, keeping the invariant. |
| Server.InventoryServer.Update | index.js:79-88 | Assigns the found record's fields in place, with exactly the effect of `Inventory.Update`. |
| Server.InventoryServer.ReplacePhoto | index.js:102-109 | Assigns the found record's photo in place, with exactly the effect of `Inventory.ReplacePhoto`. |
| Server.InventoryServer.Delete | index.js:112-118 | Splices the found record out of the field, with exactly the effect of `Inventory.Delete`. |
| Server.InventoryServer.Handle | index.js:49-123 | Dispatches a request to its handler. The response and the new inventory are those of `Serve`. |
| Numbering.LengthIdReusesLiveId | index.js:56 | Register "Saw" and "Drill", delete id 1, register "Hammer": "Hammer" also gets id 2, ids are no longer unique, and GET /inventory/2 answers "Drill". |
| Numbering.RegisterKeepsIdsUniqueIff | index.js:55-62 | From records with distinct ids, a successful register keeps them distinct if and only if no record carries length + 1. |
| Numbering.RegisterNumbered | index.js:55-63 | Corrected register: the new record takes the id after the last one issued. This keeps ids unique, positive and no larger than the counter. |
| Numbering.DeleteNumbered | index.js:112-118 | Delete on the counter-numbered store. The counter is kept and so is id uniqueness. |
| Numbering.UpdateNumbered | index.js:79-88 | Update on the counter-numbered store. It behaves as the registry's update, and the counter and id uniqueness are kept. |
| Numbering.ReplacePhotoNumbered | index.js:102-109 | Photo replacement on the counter-numbered store. It behaves as the registry's, and the counter and id uniqueness are kept. |
| Numbering.ServeNumbered | index.js:49-123 | One request against the counter-numbered store never lowers the counter and keeps ids unique, positive and bounded by the counter. |
| Numbering.RunNumberedKeepsIdsUnique | index.js:49-123 | With the counter, any run of requests, deletes included, keeps ids unique, in contrast to `Server.RunWithoutDeleteKeepsIdsUnique`, which needs a run without deletes. |
| Numbering.RegisterNumberedThenGet | index.js:55-76 | With the counter, a registered record is always reachable by its id, and that id exceeds every earlier one. |
| Numbering.NumberedScenario | index.js:56 | With the counter, the sequence above gives "Hammer" id 3, ids stay unique and GET reaches it. |

## Left out

- Command-line options (host, port, cache path) and creation of the cache directory at start-up: process bootstrap and file-system I/O.
- Multer's disk storage and its file name `Date.now() + "-" + originalname`, which depends on the clock and the file system. The stored file name is an opaque parameter. A file that is stored for a request later refused (400 or 404) stays on disk; the model does not track the disk.
- `path.join`, `fs.existsSync` and `res.sendFile`: file existence is membership in `cacheFiles`, and the file sent is the pair (cache directory, file name), not its bytes. Paths are POSIX paths (absolute when they start with "/"). A read error while the file is being sent is not modelled.
- Request headers and body-parser failures: Express answers a GET or HEAD whose `If-None-Match` matches the ETag of `res.json` with 304, and `res.sendFile` answers conditional and `Range` requests with 304, 206, 412 or 416. `express.json()` and `express.urlencoded()` answer a malformed, oversized or wrongly encoded body with 400, 413 or 415 before any route runs, even on a path that would get 405. The model takes neither headers nor raw bodies, so `Server.Serve`'s status set holds only for requests without such headers and with a body that parses.
- JSON and urlencoded body parsing: body fields are modelled as optional text. Non-string JSON values such as numbers or arrays, and their truthiness, are not modelled.
- JavaScript `parseInt` on the `:id` segment: it is a parameter (`parseId`) or an already parsed `Option<int>`. Ids are unbounded integers, so precision loss above 2^53 is not modelled.
- Express path normalisation (case-insensitive matching, optional trailing slash, percent-decoding): a path is given as its list of segments. A `HEAD` response's body, which Node does not send, is modelled like the `GET` body.
- Errors raised by the upload middleware itself, such as an unexpected file field: framework error handling outside the handlers.
- `app.listen` and the server's transport: no logic of the registry.
- Concurrency: Node runs each handler to completion on one thread, so handlers are modelled as sequential steps.

## Findings

| source | as written | input that shows it | evidently intended | confidence | as-written member | corrected member |
|---|---|---|---|---|---|---|
| index.js:56 | a new record gets id `inventory.length + 1` | register "Saw" (id 1) and "Drill" (id 2), delete id 1, register "Hammer": it gets id 2, which "Drill" still holds, and GET /inventory/2 returns "Drill" | ids unique among records; a registered record reachable by its id | not executed | Numbering.LengthIdReusesLiveId | Numbering.RunNumberedKeepsIdsUnique |
