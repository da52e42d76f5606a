# go-url-shortener: the mapping store and its handlers, in Dafny

This project models the core of a URL shortener. The service maps short codes to original URLs. The model covers:

- **The package-level mapping store** (`Storage`). Its state is:
  - the in-memory index `URLStore`;
  - the `ExistingShortURL` variable;
  - a `short_urls` table whose `short_url` and `original_url` columns are UNIQUE;
  - the append-only event file.

  The store runs in one of three modes, fixed at start-up: database, event file, or memory. `Store` is a class holding that state in fields. Its methods (`SaveURL`, `BatchUpdateDeleteFlag`, the two loaders and `GetURLsByUser`) are proved against pure functions over a `State` value (`Save`, `Resolve`, `UserEntries`, `MarkDeleted`, `ApplyRows`, `ApplyLog`).
- **The two interface-style stores.** `MemoryBackend.MemoryStorage` is a map keyed by the part of the short URL after its last `/`. `FileBackend.FileStorage` is a slice with an in-place upsert keyed by short code.
- **The short-code generator** (`ShortId`). It encodes 6 bytes in unpadded base64url (RFC 4648: the section 5 alphabet, the section 4 encoding, no padding as in section 3.2), giving 8 characters. The model includes a decoder, proved to be a left inverse: decoding an encoding gives back the bytes. The decoder accepts non-canonical text too (`AB` decodes like `AA`).
- **Identifying the caller** (`Auth`). This covers the cookie ladder of the create handlers and `CheckIsAuthorized`, both as written and as documented.
- **The single-request handlers** (`Handlers`):
  - creating one link: `HandlePost`, `HandleJSONPost`, `CreateJSONShortURL`;
  - resolving one: `HandleGet`, `GetURL`;
  - listing a user's links: `HandleGetUserURLs`, `GetUserURLs`.

  A reply is a status and, for a success, the one string its body carries: a short link or a URL. Error replies carry `""`; the message `http.Error` writes is not modelled.
- **The batch pipelines** (`Batch`), for batch create and batch delete. A generator goroutine, five workers and a fan-in become loops over the items. The workers save the records in an order given as a permutation parameter. For batch create, the fan-in hands the answers back in a second, independent order, also a permutation parameter.
- **The gRPC authentication gate** (`Middlewares`): `requiresAuth` and `AuthInterceptor`.

Where the service consults the outside world, the model takes the outcome as a parameter:

| In the service | In the model |
|---|---|
| `crypto/rand` | `Entropy` (6 drawn bytes, or a failure) |
| a finished request context | `ctxDone` |
| JWT parsing | `userIdOf` (a token's user id, `""` when the token is invalid) |
| `GenerateToken` | `issued` |
| the configured base URL | `base` |
| reading and decoding the request body | an `Option` or a small datatype |

The code departs from the service's stated design in three places. The model follows the code in each:

- Duplicates are signalled through the shared `ExistingShortURL` variable and `ErrAlreadyExists`, not as a tagged success.
- The gRPC `GetURL` reports a deleted link with code 404, as it does an unknown one. The stated design distinguishes "gone" (410) from "not found".
- A database-mode lookup that finds no row falls through to the INSERT. `sql.ErrNoRows` is not `pgx.ErrNoRows`, so the inverted test at `internal/storage/storage.go:136-141` never returns early. A lookup that finds no row leaves `ExistingShortURL` as it was.

## Model

| member | source | states |
|---|---|---|
| Models.StatusCode | pkg/handlers/handlersGet.go:39-60 | the class of each reply status's net/http number: the success statuses are exactly the 2xx ones, the redirect exactly the 3xx one, the client errors exactly the 4xx ones and the server error exactly the 5xx one |
| Models.ShortLink | pkg/handlers/uriPost.go:86 | a short link is the base URL, one `/`, then the code, each recoverable from the link |
| Models.ShortLinkInjective | pkg/handlers/uriPost.go:86 | over one base, two links are equal iff their codes are |
| ShortId.Char | pkg/handlers/handlersGet.go:26 | every sextet maps into the URL-safe alphabet (A-Z, a-z, 0-9, `-`, `_`) |
| ShortId.Value | pkg/handlers/handlersGet.go:26 | the value of a character is a sextet, or -1 exactly for characters outside the alphabet |
| ShortId.ValueOfChar | pkg/handlers/handlersGet.go:26 | `Value` inverts `Char` on all 64 sextets |
| ShortId.Encode | pkg/handlers/handlersGet.go:26 | the encoding has the unpadded length and only URL-safe characters |
| ShortId.GroupRoundTrip | pkg/handlers/handlersGet.go:26 | a full 3-byte group encodes to 4 characters, most significant sextet first, that decode to the same bytes |
| ShortId.DecodeEncode | pkg/handlers/handlersGet.go:26 | decoding an encoding gives back exactly the bytes |
| ShortId.EncodeInjective | pkg/handlers/handlersGet.go:26 | distinct byte strings get distinct encodings |
| ShortId.GenerateShortId | pkg/handlers/handlersGet.go:20-27 | no code iff the entropy draw failed; otherwise 8 URL-safe characters that decode to the 6 drawn bytes |
| ShortId.GenerateShortIdInjective | pkg/handlers/handlersGet.go:20-27 | two successful draws give the same code iff they drew the same bytes |
| Storage.SelectMode | internal/storage/storage.go:42-84 | the database when a handle is set, else the file when a path is set, else memory; each mode iff its condition |
| Storage.FindByOriginal | internal/storage/storage.go:132-134 | the first row with that original URL, or none when no row has it |
| Storage.FindByShort | internal/storage/storage.go:190 | the first row with that short code, or none when no row has it |
| Storage.InsertRow | internal/storage/storage.go:149-154 | a clash on original_url leaves the table as it is; a clash on short_url only is an error; otherwise exactly the row is appended; both UNIQUE constraints are preserved |
| Storage.ReadablePrefix | internal/storage/storage.go:114-120 | the events before the first unreadable record, in file order, and nothing after it |
| Storage.ApplyEventsLastWins | internal/storage/storage.go:114-120 | after a replay, a code maps to the URL of the last event that wrote it |
| Storage.ApplyEventsUntouched | internal/storage/storage.go:114-120 | a code no event writes keeps its old entry, or stays absent |
| Storage.ApplyLogSnoc | internal/storage/storage.go:170-174 | appending an event to an intact file and updating the index agree |
| Storage.ApplyRowsFaithful | internal/storage/storage.go:95-101 | with unique codes, every row's code resolves to its own URL after loading the table |
| Storage.SaveDb | internal/storage/storage.go:129-160 | a URL with a row: that row's code is returned with ErrAlreadyExists and written into the record, and the table is unchanged. A row whose code is empty: ExistingShortURL is cleared, the conflicting insert changes nothing, and `("", nil)` is returned. No row but a leftover ExistingShortURL: that leftover is reported the same way. Neither: the record is inserted with `("", nil)`, or fails on a taken code. ExistingShortURL is only ever replaced by a looked-up code, and the UNIQUE constraints hold afterwards |
| Storage.Save | internal/storage/storage.go:128-182 | database mode as above; file and memory modes set only the record's index entry, never fail, and file mode appends exactly one event |
| Storage.Resolve | internal/storage/storage.go:186-206 | database mode: found iff a row has the code, with that row's URL and tombstone; other modes: the index entry, never deleted; `("", false, false)` when not found |
| Storage.SaveThenResolve | internal/storage/storage.go:128-206 | a record saved without error resolves to its URL in every mode |
| Storage.OwnedIndices | internal/storage/storage.go:211 | the positions of exactly the user's rows, in table order |
| Storage.UserEntries | internal/storage/storage.go:209-228 | one entry per row the user owns, deleted ones included, with the full short link, in table order |
| Storage.MarkDeleted | internal/storage/storage.go:232-236 | exactly the rows with that code and that owner get the tombstone; every other row is unchanged; no flag is ever reset |
| Storage.MarkDeletedKeepsUnique | internal/storage/storage.go:232-236 | the update touches neither code nor URL, so a table meeting both UNIQUE constraints still meets them |
| Storage.MarkDeletedIdempotent | internal/storage/storage.go:233 | marking twice is marking once |
| Storage.SaveTwiceDeduplicates | internal/storage/storage.go:132-146 | once a URL was inserted and ExistingShortURL reset, saving it again under any code reports the first code and adds no row |
| Storage.Store.constructor | internal/storage/storage.go:42-84 | the selected mode, an empty ExistingShortURL, and the index loaded from the table or the file |
| Storage.Store.LoadURLsFromDB | internal/storage/storage.go:87-103 | the index becomes the old index with every row's pair applied in table order |
| Storage.Store.LoadURLsFromFile | internal/storage/storage.go:106-122 | the index becomes the old index with the readable events replayed in order; the rest of the file is ignored |
| Storage.Store.SaveURL | internal/storage/storage.go:128-182 | the new state, the returned code and error, and the rewritten record are those of `Save`; the UNIQUE constraints and the file/index agreement are preserved |
| Storage.Store.GetURLsByUser | internal/storage/storage.go:209-228 | in database mode the user's entries (`UserEntries`); no entries otherwise |
| Storage.Store.BatchUpdateDeleteFlag | internal/storage/storage.go:232-236 | database mode: the table becomes `MarkDeleted` of the old one, with no error; otherwise nothing changes and the missing database handle is the error |
| MemoryBackend.LastSlash | internal/storage/memoryStorage.go:25 | the position of the last `/`, or -1 when there is none |
| MemoryBackend.ShortKey | internal/storage/memoryStorage.go:25 | the key is the suffix of the short URL after its last `/`, or the whole string when it has none |
| MemoryBackend.MemoryStorage.constructor | internal/storage/memoryStorage.go:15-19 | a new store is empty |
| MemoryBackend.MemoryStorage.Save | internal/storage/memoryStorage.go:21-29 | the entry under the record's key becomes its URL (last write wins); every other key is unchanged; never fails |
| MemoryBackend.MemoryStorage.Get | internal/storage/memoryStorage.go:31-38 | the stored URL with no error, or `""` with "not found" for an absent key |
| MemoryBackend.MemoryStorage.Ping | internal/storage/memoryStorage.go:40-42 | always healthy |
| MemoryBackend.SaveThenGet | internal/storage/memoryStorage.go:21-38 | after `Save(d)`, `Get` of d's key returns d's URL, and any other key keeps its entry |
| FileBackend.Slim | internal/storage/fileStorage.go:54-58 | only UUID, ShortURL and OriginalURL are kept; owner, tombstone and correlation id are dropped |
| FileBackend.FirstIndex | internal/storage/fileStorage.go:72-83 | the first position holding that short code, or none when no record has it |
| FileBackend.Upsert | internal/storage/fileStorage.go:61-68 | the first record with the code is replaced in place (length and other positions unchanged), or the record is appended; distinct codes stay distinct |
| FileBackend.UpsertThenFind | internal/storage/fileStorage.go:52-83 | after an upsert, the first record with the code is the new one |
| FileBackend.FileStorage.constructor | internal/storage/fileStorage.go:17-21 | a new store holds an empty slice |
| FileBackend.FileStorage.Save | internal/storage/fileStorage.go:52-70 | the slice becomes the upsert of the slimmed record |
| FileBackend.FileStorage.Get | internal/storage/fileStorage.go:72-83 | the URL of the first record with the code, or `""` with "URL not found" |
| FileBackend.FileStorage.Ping | internal/storage/fileStorage.go:85-87 | always healthy |
| FileBackend.SaveThenGet | internal/storage/fileStorage.go:52-83 | after `Save(d)`, `Get(d.ShortURL)` returns d's URL with no error |
| Auth.IdentifyCaller | pkg/handlers/uriPost.go:38-67 | 500 iff there is no cookie and no token could be issued; 400 iff the cookie cannot be read (a branch the source keeps, though net/http's `Request.Cookie` returns no error other than `http.ErrNoCookie`); 401 iff a presented token carries no user id; otherwise the token's user id |
| Auth.IssuedTokenUnchecked | pkg/handlers/uriPost.go:40-66 | an issued token's user id is taken unchecked, while the same token presented as a cookie is refused with 401 |
| Auth.CheckIsAuthorizedAsWritten | internal/auth/auth.go:91-104 | an error iff there is no readable token cookie; any token cookie passes, with its (possibly empty) user id |
| Auth.InvalidTokenAuthorizedAsWritten | internal/auth/auth.go:99-102 | a token without a user id passes the check as written, as the empty user |
| Auth.CheckIsAuthorized | internal/auth/auth.go:89-104 | authorized iff a token cookie carries a non-empty user id, and then as that user |
| Auth.CheckIsAuthorizedDiffers | internal/auth/auth.go:99-102 | the two checks differ exactly on token cookies without a user id |
| Handlers.TrimSpace | pkg/handlers/uriPost.go:78 | the result neither starts nor ends with whitespace, is an infix of the input with only whitespace around it, and is empty iff the input is all whitespace |
| Handlers.TrimSpaceIdempotent | pkg/handlers/uriPost.go:78 | trimming a trimmed string changes nothing |
| Handlers.Prepare | pkg/handlers/uriPost.go:38-101 | the refused caller's status; 500 for an unreadable body; 400 for an empty URL before any code is drawn; a panic when the draw fails; 408 when the context is done. The record is saved iff all of these pass, and it holds the URL, the fresh 8-character code, the caller's id and no tombstone |
| Handlers.Respond | pkg/handlers/uriPost.go:104-124 | 201 iff the save succeeded, with the new link; 409 iff the URL already had a code, with that code's link and ExistingShortURL reset to `""`; 500 with no link for any other error; the state is the save's apart from that reset, and exactly the save's when there was no duplicate |
| Handlers.PostTwiceConflicts | pkg/handlers/uriPost.go:104-113 | posting a URL twice in database mode answers 409 with the first request's link and keeps one row |
| Handlers.Create | pkg/handlers/uriPost.go:104-124 | the reply and the new store state are those of `Respond` |
| Handlers.HandlePost | pkg/handlers/uriPost.go:33-125 | with the trimmed body as the URL, a request stopped by `Prepare` leaves the store unchanged; otherwise reply and state are those of `Respond` |
| Handlers.HandleJSONPost | pkg/handlers/jsonPost.go:32-140 | the same protocol with the decoded, untrimmed URL field (500 when the body does not decode) |
| Handlers.CreateJSONShortURL | pkg/handlers/jsonPost.go:143-177 | an empty URL is rejected with 400 before any save; no error status iff the save succeeded, returning its short URL; a duplicate returns the held code's link together with "URL already exists"; a timeout returns no link, error "Request timed out" and 408; any other failure returns no link, error "Failed to save URL" and 500 |
| Handlers.HandleGet | pkg/handlers/handlersGet.go:33-62 | 400 for an empty id before any lookup; 404 when not found, checked before 410 for a deleted link; 307 to the original URL otherwise |
| Handlers.CreatedThenRedirects | pkg/handlers/handlersGet.go:44-61 | a link that HandlePost answered with 201 redirects to its URL |
| Handlers.DeletedThenGone | pkg/handlers/handlersGet.go:52-56 | once its owner deleted a link, HandleGet answers 410 for it |
| Handlers.GetURL | pkg/handlers/handlersGet.go:65-88 | no error iff the link is found and live, and then its URL; not found and deleted both give code 404 with an empty URL and their own messages |
| Handlers.GetURLAgreesWithHandleGet | pkg/handlers/handlersGet.go:33-88 | on a non-empty id, HandleGet redirects iff GetURL returns a URL, and to that URL |
| Handlers.HandleGetUserURLs | pkg/handlers/handlersGet.go:94-129 | 401 when the check fails; 204 for an empty listing; 200 with the user's entries otherwise |
| Handlers.ForgedTokenListsOwnerless | pkg/handlers/handlersGet.go:97-106 | under the check as written, a token without a user id lists the rows stored without an owner; the corrected check refuses it |
| Handlers.PbRoundTrip | pkg/handlers/handlersGet.go:152-160 | the conversion to the gRPC message and back drops and changes nothing |
| Handlers.GetUserURLs | pkg/handlers/handlersGet.go:132-166 | an empty listing gives no entries and "No content" with code 404; a non-empty one gives no error status and every entry converted field for field, count and order preserved |
| Batch.PermutedMultiset | pkg/handlers/batchPost.go:115-117 | any arrival order holds the same items, each as often |
| Batch.BatchEvent | pkg/handlers/batchPost.go:152-160 | the record copies URL and correlation id, carries the user, a fresh 8-character code and no tombstone |
| Batch.GeneratorBatchPost | pkg/handlers/batchPost.go:148-169 | one record per request item, in request order |
| Batch.ItemResponse | pkg/handlers/batchPost.go:125-136 | the correlation id always; the new link on success, the held code's link on a duplicate, `""` on any other error |
| Batch.RunBatch | pkg/handlers/batchPost.go:124-143 | saving the records one after another without clearing ExistingShortURL: one response per record with its correlation id, and the UNIQUE constraints preserved |
| Batch.RunBatchOutsideDatabase | pkg/handlers/batchPost.go:129-136 | outside database mode every item is answered with its own fresh link |
| Batch.PostURL | pkg/handlers/batchPost.go:120-146 | the workers save the records in the order they take them; the answers and the new state are those of `RunBatch` over that order |
| Batch.Collect | pkg/handlers/batchPost.go:115-117 | the collecting loop appends the answers in the order the fan-in delivers them |
| Batch.ProcessBatchPost | pkg/handlers/batchPost.go:105-118 | the new state is that of `RunBatch` over the workers' save order; the responses are its answers rearranged by the independent delivery order; exactly one response per item; the correlation ids match the request's as a multiset |
| Batch.DeliveredIds | pkg/handlers/batchPost.go:181-209 | answers lined up with the records in the save order, delivered in any order, carry each correlation id as often as the records do |
| Batch.ResponsesCoverIds | pkg/handlers/batchPost.go:115-117 | whatever the save order and the delivery order, the responses carry the request's correlation ids, each as often as sent |
| Batch.HandleBatchPost | pkg/handlers/batchPost.go:33-103 | a refused caller, an unreadable body (500), bad JSON or an empty batch (400) change nothing; otherwise 201 with the batch run over the generated records in the save order, its answers in the delivery order |
| Batch.BatchStaleCode | pkg/handlers/batchPost.go:129-133 | as written, after a duplicate the next, new URL is answered with the duplicate's code and never inserted |
| Batch.RunBatchReset | pkg/handlers/batchPost.go:129-133 | the batch with ExistingShortURL cleared after every duplicate: one response per record with its correlation id |
| Batch.RunBatchResetClean | pkg/handlers/batchPost.go:129-133 | with the reset, a batch that starts with no held code ends with none |
| Batch.RunBatchResetItem | pkg/handlers/batchPost.go:129-136 | with the reset, an item whose URL and code the table does not hold gets its own fresh link |
| Batch.BatchStaleCodeFixed | pkg/handlers/batchPost.go:129-136 | on the input that shows the stale code, the reset gives the new URL its own link and its row |
| Batch.MarkAll | pkg/handlers/batchDelete.go:87-101 | BatchUpdateDeleteFlag applied for each id in turn keeps the table's length |
| Batch.MarkAllPointwise | pkg/handlers/batchDelete.go:92 | afterwards a row is deleted iff it was, or it belongs to the user and its code is one of the ids; nothing else of any row changes |
| Batch.MarkAllOrderFree | pkg/handlers/batchDelete.go:103-125 | the order in which the workers reach the ids does not matter |
| Batch.MarkAllIdempotent | pkg/handlers/batchDelete.go:92 | re-running the same batch changes nothing |
| Batch.DeleteURL | pkg/handlers/batchDelete.go:87-101 | each arriving id goes to BatchUpdateDeleteFlag with the request's user, one error per id. In database mode the table becomes `MarkAll` of the ids with no errors; otherwise it is unchanged and every error is the missing database |
| Batch.ProcessDeleteBatch | pkg/handlers/batchDelete.go:72-85 | each id is passed once, with the request's user. In database mode the table becomes `MarkAll` of the ids with no errors; otherwise it is unchanged, with one error per id; errors are only collected. The outcome is `RunDeleteJob` of the job |
| Batch.HandleDeleteURLs | pkg/handlers/batchDelete.go:31-70 | 401 unless authorized; 500 for an unreadable body; 400 for bad JSON or an empty list; a job starts iff the answer is 202, with the ids and the user |
| Batch.BatchDelete | pkg/handlers/batchDelete.go:158-175 | a job starts iff the list is non-empty, answered "Batch deletion started"; otherwise InvalidArgument "Batch cannot be empty" |
| Batch.RunDeleteJobAsWritten | internal/storage/storage.go:232-236 | as written, a job outside database mode with at least one id ends the process, since Exec is called on the nil handle; in database mode it marks `MarkAll` of the ids with no errors |
| Batch.DeleteAcceptedThenCrash | pkg/handlers/batchDelete.go:64-69 | as written, outside database mode an authorized, non-empty delete request is answered 202 and its job then ends the process |
| Batch.RunDeleteJob | pkg/handlers/batchDelete.go:72-85 | with the handle tested, a job always completes: in database mode it marks `MarkAll` of the ids with no errors; otherwise the table is unchanged and every id fails with the missing database |
| Batch.DeleteAcceptedCompletes | pkg/handlers/batchDelete.go:64-69 | with the handle tested, every job a 202 starts completes, and in database mode it ends as the as-written job does |
| Batch.DeleteJobEffect | pkg/handlers/batchDelete.go:69 | a finished job marks the user's rows among the ids, leaves every other row unchanged, and re-running it changes nothing |
| Middlewares.RequiresAuth | internal/middlewares/middlewares.go:137-145 | true iff some protected entry is a prefix of the method name |
| Middlewares.RequiresAuthEdges | internal/middlewares/middlewares.go:138-144 | an empty list protects nothing; an empty entry protects every method |
| Middlewares.RequiresAuthMonotone | internal/middlewares/middlewares.go:137-145 | adding entries never unprotects a method |
| Middlewares.TokenOf | internal/middlewares/middlewares.go:106-112 | the first "token" metadata value, or `""` when there is none |
| Middlewares.AuthInterceptor | internal/middlewares/middlewares.go:98-134 | unprotected methods run with no user. A protected method with no token is refused "missing token"; one whose token carries no user id is refused "invalid token"; otherwise it runs with that user id |
| Middlewares.UnprotectedIgnoresToken | internal/middlewares/middlewares.go:101-103 | for an unprotected method, neither the metadata nor the token parser makes a difference |
| Middlewares.ProtectedNeedsUser | internal/middlewares/middlewares.go:114-132 | a protected call reaches its handler iff its token carries a user id |

## Left out

- Goroutines, channels, the WaitGroup and the mutexes (`Mu`, the stores' `mu`). Each batch pipeline runs sequentially. The order in which the workers take the items and the order in which the fan-in delivers the answers are two independent permutations. Any pair is allowed, although the fan-in keeps each worker's own answers in that worker's save order. The database check-then-insert race between the lookup and the INSERT, and races on `ExistingShortURL` between concurrent requests, are therefore outside the model.
- The SQL driver and connection handling (`sql.Open`, `Ping`, `HandlePing`, `PingServer`). The table is a sequence of rows, and `SELECT` without `ORDER BY` is taken to return rows in table order.
- Storage.Store.SaveURL: does not model database connection errors, the file-open error or the `WriteEvent` error in file mode. Its only errors are a duplicate and a taken short code.
- Storage.Store.GetURLsByUser: never fails. Query, scan and `rows.Err` errors are not modelled, and neither are the 500 replies the handlers give for them.
- Storage.Store.LoadURLsFromDB: the query and scan errors that abort loading are not modelled.
- Storage.Store.GetOriginalURL: a thin reader of `Resolve`, which carries the contract. A database error other than "no rows" reads as not found, as in the source.
- Storage.Store.BatchUpdateDeleteFlag: outside database mode the source calls a method on a nil database handle and panics. The model returns the error `NoDatabase` and changes nothing, which is the corrected behaviour of the third row under "## Findings".
- Reading and writing files: the JSON event encoding of `internal/file/file.go`, `FileStorage.saveToFile`, and the JSON load in `NewFileStorage`. The event file is a sequence of records, some unreadable; `FileStorage` starts empty.
- JWT signing and parsing, and `GenerateToken`. These are the parameters `userIdOf` and `issued`.
- `crypto/rand`. The drawn bytes are an input. In the batch generator a failed draw panics inside a goroutine and ends the process, so batch draws are always successful inputs.
- Cookies, headers, the cookie's expiry, JSON framing of bodies and replies, and the encode errors after a status was written. A reply is a status and, on success, one string.
- The message bodies of HTTP error replies. Every `http.Error` call writes a text such as "Invalid token", "Empty URL", "URL not found" or "Batch cannot be empty" (pkg/handlers/uriPost.go, jsonPost.go, handlersGet.go, batchPost.go, batchDelete.go). In the model an error reply's body is `""`, and only its status is stated. The gRPC replies of `GetURL`, `CreateJSONShortURL`, `GetUserURLs` and `BatchDelete` do carry their messages.
- Models.StatusCode: its contract states the class (2xx, 3xx, 4xx, 5xx) of each status's number, not the number itself. The handlers only branch on the status, never on its number.
- Strings are sequences of characters, so every input is taken to be valid UTF-8. Go strings are byte strings that may hold invalid UTF-8; `strings.TrimSpace` and the JSON decoder treat such bytes in ways this model does not follow.
- `SaveShortURL` is not part of this model. `CreateJSONShortURL` takes its outcome as the input `SaveShortURLResult`.
- `internalStats.go` is not part of this model: it depends on counting functions that are not shown.
- `internal/handlers`, `postgresStorage.go`, `dbStorage.go` and `internal/db/db.go` are not part of this model. They are older copies of the handlers and single-statement wrappers that the service does not wire in.

## Findings

| source | as written | input that shows it | evidently intended | confidence | as-written member | corrected member |
|---|---|---|---|---|---|---|
| pkg/handlers/batchPost.go:129-133 | after a duplicate, `ExistingShortURL` keeps the found code. The next database-mode `SaveURL` in the same batch, for a URL with no row, reports that code as a duplicate and inserts nothing | table row (`c1`, `http://a`); a batch of `http://a` (correlation `1`, code `c2`) then `http://b` (correlation `2`, code `c3`). Item `2` is answered with `/c1` and `http://b` is not stored | clear `ExistingShortURL` after each duplicate, as `HandlePost` and `HandleJSONPost` do (pkg/handlers/uriPost.go:111). Item `2` then gets `/c3` and its row | not executed | Batch.BatchStaleCode | Batch.RunBatchResetClean |
| internal/auth/auth.go:99-102 | for a token that carries no user id, `CheckIsAuthorized` returns the cookie lookup's error, which is nil at that point. So the caller passes as the empty user | a `token` cookie holding any invalid token. `HandleGetUserURLs` then lists the rows stored with an empty owner, and `HandleDeleteURLs` accepts a deletion job for the empty owner | return an error for an invalid token, as the function's documentation says | not executed | Auth.InvalidTokenAuthorizedAsWritten | Auth.CheckIsAuthorized |
| internal/storage/storage.go:232-236 | `BatchUpdateDeleteFlag` calls `DB.Exec` without testing `DB`, unlike every other storage function. Outside database mode `DB` is nil, so the first worker of a deletion job panics in its goroutine, and the panic ends the process | memory or file mode; an authorized `DELETE /api/user/urls` with body `["abc"]`. The request is answered 202, then the service stops | test the handle as the other storage functions do, and report a failure per id without stopping | not executed | Batch.DeleteAcceptedThenCrash | Batch.RunDeleteJob |
