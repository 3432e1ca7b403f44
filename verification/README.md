# A verified model of saps

This project models the stateful protocols of saps in Dafny and proves what they keep over whole
runs. `dafny verify dfyconfig.toml` checks it.

| module | what it models |
|---|---|
| `Cookies` | the cookie printer and parser, and the cookie-string serialiser of RFC 6265 they are compared with |
| `TokenHeaders` | the four places a request can carry its token in, and their order |
| `Sessions` | the `saps.auth_sessions` table and the `saps.ping` procedure: idle deletion, rotation after five minutes, a ten-second grace for the previous id |
| `AuthFlow` | `run_auth_extraction`, the role check, the cookie slot and layer, and a client with a cookie jar |
| `MetaTables` | compare-and-swap, updates and deletes by meta, the partial unique index on a pair of keys, the token's cached session |
| `Paths` | typed paths and the lexical check that keeps navigation under the root |
| `Edits` | the text edits of a transaction, in characters and in UTF-8 byte offsets |
| `Stores` | the in-memory file and folder store |
| `MemFiles` | one buffer with batched saves and a flush on drop |
| `Guards` | the blocking and the async guard over the store, with the file and folder endpoints |
| `Browser` | the browser session's buffers, taken out of their map across awaits by interleaving tasks |
| `JobTables` | the queue and schedule tables, their procedures, and one round of a worker and of a scheduler |
| `JobRuns` | any number of workers and schedulers as interleaving steps with crashes and aborts |

Code that changes state is a class whose methods follow the source's statements and are proved
against functions on snapshots of that state; the laws over runs are lemmas about these functions.
The two guards share one class: where `AsyncMemFileGuard` differs from `MemFileGuard`, the code
branches on the backend, and both meet the same contract. Every procedure or SQL statement is one
atomic step, except the claims of tasks and schedule rows, where taking the row locks and
committing are two. The unique index is checked one row version at a time. Clocks, random ids, cron
expressions, the token codec, what handlers answer and the outcome of a save are parameters or free
choices of the model. A post of a scheduler is *timely* when the clock reading it took for the
row's next firing is not behind the due instant it posts for.

## Where code and documentation disagree

The model follows the code.

- `worker_cycle` documents that a handler error marks its task exited. The `Ok(_)` arm also covers a
  handler that answers `Err`; only a panic or a failed join marks exited (`JobTables.TaskTables.WorkerTurn`).
- `move_folder` documents that nothing remains under `from`. A folder moved into its own subtree
  stays there (`Stores.MoveIntoItselfStays`, `Stores.MoveEmptiesSource`).
- The pair-scoped statements promise a count of 0 or 1 under the composite index. A JSON null is
  NULL to the index, and NULLs never collide (`MetaTables.PairCountsIffNonNull`).
- `update_auth_session_meta` documents a cache that reflects the row. It is also written when no row
  exists any more, and when another request has rotated the row to a new id in the meantime
  (`MetaTables.ReplacementReachesRowIff`, `MetaTables.RotationLosesReplacement`).
- Auto mode rotates the id before it reads `TOKEN_EXPIRE_MINS`; without that setting the client never
  learns the new id (`AuthFlow.RotationStrandsClient`).
- `post_scheduled_task` documents that one transaction prevents a duplicate fire on the next tick. The
  database's clock decides what is due and the application's clock what fires next. Where the latter
  is behind the due instant, the row is due again at or before that instant, and a scheduler with a
  right clock is enough to post the firing a second time (`JobRuns.PostMovesForwardIff`,
  `JobRuns.UntimelyPostRepeats`); this is exactly when it can happen (`JobRuns.PostIsSafeIffTimely`).

## Model

| member | source | states |
|---|---|---|
| Sessions.ApplyKeepsInv | saps/src/auth/dal/model.rs:241-295 | every ping, creation, deletion, meta change or tick keeps the ids of distinct rows apart, current and old alike, and hands out no id or slot twice |
| Sessions.IdentityOverRuns | saps/src/auth/dal/model.rs:252-255 | over every run the lookup `id = p OR old_id = p LIMIT 1` has at most one row to find |
| Sessions.RetiredForever | saps/src/auth/dal/model.rs:241-259 | an issued id that answers no more answers no ping of any later run |
| Sessions.TwoRotationsRetire | saps/src/auth/dal/model.rs:276-288 | after a row rotated away from an id and then once more, that id never resolves again, whatever ran in between or runs later |
| Sessions.InFlightPingsConverge | saps/src/auth/dal/model.rs:261-274 | after a rotation from X to Y at T, whatever runs: up to and including T + 10 s a ping with X succeeds if and only if the row is still there and not idle for that ping's own limit, and then gets the row with id Y and only refreshes last_interacted; the row is still there as long as nothing deletes it and no ping comes with an idle limit below a minute; after T + 10 s no ping with X succeeds |
| Sessions.ShortLimitsEndTheGrace | saps/src/auth/dal/model.rs:241-250 | a ping with an idle limit of zero deletes the row a microsecond after the rotation, so short limits can end the grace early |
| Sessions.RotationsAreSpaced | saps/src/auth/dal/model.rs:276-288 | over every run, consecutive rotations of a row lie strictly more than five minutes apart, the first one after date_created |
| Sessions.RotationRate | saps/src/auth/dal/model.rs:276-288 | n > 0 rotations of a row created at c and observed at t satisfy n * 5 min < t - c |
| Sessions.PingDeletesIff | saps/src/auth/dal/model.rs:241-250 | a ping deletes a row if and only if the row has the id, current or old, and its last interaction lies further back than the limit in minutes |
| Sessions.StalePingLeavesAll | saps/src/auth/dal/model.rs:261-267 | a ping with an old id more than ten seconds after the rotation gets NULL and leaves the whole table as it is, the row with its current id included |
| Sessions.PingAnswersIff | saps/src/auth/dal/model.rs:241-274 | a ping is answered if and only if a row that is not idle has the id, or had it until a rotation at most ten seconds ago |
| Sessions.AnsweredRow | saps/src/auth/dal/model.rs:269-297 | the answer is the row as it is left: refreshed, role and meta kept, no other row changed, and with a new id, the old one beside it and the clocks of the rotation exactly if the ping had the current id and that was made more than five minutes ago |
| Sessions.UnansweredPing | saps/src/auth/dal/model.rs:241-267 | a ping that is not answered changes nothing but the idle row it deletes |
| Sessions.AuthTable.Ping | saps/src/auth/dal/model.rs:230-297 | the procedure, statement by statement, ends in the table and answer of the one-row verdict (expired, stale, touched, rotated) and keeps the id invariant |
| Sessions.AuthTable.CreateAuthSession | saps/src/auth/dal/postgres_txs.rs:76-94 | the new row has an id nothing resolved to, old_id equal to id and time_minted equal to date_created |
| Sessions.AuthTable.GetAuthSession | saps/src/auth/dal/postgres_txs.rs:185-205 | the read-only lookup goes by current id alone and is unambiguous |
| Sessions.AuthTable.DeleteAuthSession | saps/src/auth/dal/postgres_txs.rs:790-798 | removes exactly the row with that current id, of which there is at most one, and reports whether there was one |
| AuthFlow.AuthServer.RunAuthExtraction | saps/src/auth/token/helper_methods/run_auth_extraction.rs:103-364 | early returns, ping and cookie write of both modes end in the specified table, answer and slot content; an error after a rotation leaves the slot as it was |
| TokenHeaders.LocateFindsIff | saps/src/auth/token/helper_methods/run_auth_extraction.rs:127-180 | a request presents a token if and only if the first of cookie, token header, WebSocket subprotocol and Authorization header that is not silent gives it; an unreadable header before that ends the search |
| TokenHeaders.CookieTokenIff | saps/src/auth/token/helper_methods/extract_token_from_cookies.rs:27-37 | the cookie gives the value of the first field named saps-token, for every text cut into fields at semicolons |
| TokenHeaders.ProtocolTokenIff | saps/src/auth/token/helper_methods/extract_bearer_token.rs:35-48 | the subprotocol gives a token exactly if it reads bearer, in any case, a comma, and a text that is not blank, white space around either part left out |
| TokenHeaders.AuthorizationTokenIff | saps/src/auth/token/helper_methods/extract_bearer_token.rs:50-67 | the Authorization header gives a token exactly if its first word is bearer, in any case, and the token its second |
| AuthFlow.NoTokenIsUnauthorized | saps/src/auth/token/helper_methods/run_auth_extraction.rs:127-180 | a request that presents no token is unauthorized in either mode, and nothing is touched |
| AuthFlow.PlaceDoesNotMatter | saps/src/auth/token/helper_methods/run_auth_extraction.rs:127-180 | two requests that present the same token, in whatever places, have the same outcome |
| AuthFlow.NeverModeVerdict | saps/src/auth/token/helper_methods/run_auth_extraction.rs:205-257 | for the token presented: forbidden exactly if it decodes and has expired, accepted exactly if it decodes, has not expired and names the current id of a row, unauthorized otherwise; the row and claims handed on are those |
| AuthFlow.AutoModeVerdict | saps/src/auth/token/helper_methods/run_auth_extraction.rs:259-364 | for the token presented: unauthorized if it does not decode or its ping, with a limit of ten minutes, is not answered; else the row and claims handed on, the renewed expiry and cookie after a rotation, and an unknown error where no expiry is configured |
| AuthFlow.ResponseSays | saps/src/auth/middleware/mod.rs:98-146 | 401, 403 and 500 for the refusals, 401 for a failing role check, the handler's status otherwise; a refreshed cookie is attached exactly if it is printable ASCII with spaces and tabs |
| AuthFlow.NeverModeAcceptsIff | saps/src/auth/token/helper_methods/run_auth_extraction.rs:205-257 | Never mode changes nothing and accepts a request if and only if it presents a token that decodes, has not expired and names the current id of a row; otherwise the response is 403 for an expired token and 401 for all else |
| AuthFlow.GraceIsForAutoOnly | saps/src/auth/token/helper_methods/run_auth_extraction.rs:205-257 | a rotated id is refused in Never mode from the rotation on, over every later run, while Auto mode still accepts it right after |
| AuthFlow.AuthServer.FromRequestParts | saps/src/auth/token/header_token.rs:948-986 | a failing role check turns the answer into an error but undoes neither the ping nor the refreshed cookie |
| AuthFlow.AuthServer.AttachRefreshedCookie | saps/src/auth/middleware/mod.rs:98-146 | for every response of the handler: the response carries the refreshed cookie in place of the handler's own whenever one was set and is a legal header value, and is the handler's or the extractor's otherwise |
| AuthFlow.CookieSlot.Set | saps/src/auth/middleware/mod.rs:68-77 | the slot holds the last cookie set |
| AuthFlow.CookieSlot.Take | saps/src/auth/middleware/mod.rs:81-83 | taking empties the slot, so a cookie is attached once |
| AuthFlow.RequestFollowsRotation | saps/src/auth/token/helper_methods/run_auth_extraction.rs:261-363 | one Auto request on a row that is not idle finds and refreshes the row and no other, whatever other cookies the jar holds and whatever the handler answers short of a token cookie of its own; the jar holds the row's current id afterwards if and only if a token expiry is configured or the row is at most five minutes old |
| AuthFlow.RotationStrandsClient | saps/src/auth/token/helper_methods/run_auth_extraction.rs:261-363 | without a token expiry a rotating request answers 500 and leaves the jar, and from ten seconds on every later request of the client gets 401, whatever else runs |
| AuthFlow.NoExpiryKeepsJar | saps/src/auth/token/helper_methods/run_auth_extraction.rs:261-363 | without a token expiry no answer renews the token: its only cookie can be the handler's own, and the token in the jar changes only through that |
| AuthFlow.KeepAlive | saps/src/auth/token/helper_methods/run_auth_extraction.rs:261-363 | for every sequence of requests at most ten minutes apart, to handlers with any answers and cookies of their own but the token, interleaved with any other sessions' events: each status is the handler's or 401, as the role check alone decides, and among whatever other cookies the jar holds the row's current id at the end |
| AuthFlow.LongGapEndsSession | saps/src/auth/dal/model.rs:241-250 | a gap of more than ten minutes: the next request deletes the row and gets 401, and so does every later request with that jar |
| AuthFlow.JarIsRead | saps/src/auth/token/helper_methods/parse_cookie_value.rs:16-25 | a jar that holds an issued token among other cookies, sent as one cookie string, is read back to exactly its claims |
| AuthFlow.IssuedCookieIsStored | saps/src/auth/token/cookies.rs:84-89 | the Set-Cookie text of an encoded token is a legal header value, and a response that carries it puts the token in place of the one in the jar |
| AuthFlow.OwnCookieStaysApart | saps/src/auth/middleware/mod.rs:98-146 | a cookie of the handler under another name, well-formed or not, leaves the token in the jar readable and unchanged |
| Cookies.ParserInvertsCookieString | saps/src/auth/token/helper_methods/parse_cookie_value.rs:16-25 | for every list of well-formed pairs joined by "; ", parsing gives the value of the first pair with the name, "=" inside values included, and None if there is none |
| Cookies.ParserReadsPieces | saps/src/auth/token/helper_methods/parse_cookie_value.rs:16-25 | on any pieces between semicolons, pieces without "=" and padded names and values included, the value of the first field with the name, or None |
| Cookies.EveryTextIsPieces | saps/src/auth/token/helper_methods/parse_cookie_value.rs:16-25 | every cookie text is such a list of pieces |
| Cookies.TrimPadded | saps/src/auth/token/helper_methods/parse_cookie_value.rs:16-25 | trimming takes exactly the white space off both ends of a text |
| Cookies.IssuedCookieAttributes | saps/src/auth/token/cookies.rs:84-89 | the issued cookie is the token followed by HttpOnly, Path=/ and Max-Age=86400 |
| Cookies.WipedCookieAttributes | saps/src/auth/token/cookies.rs:137-145 | the wiping cookie is an empty token followed by HttpOnly, Path=/ and Max-Age=0 |
| Cookies.RfcPairsAreWellFormed | saps/src/auth/token/helper_methods/parse_cookie_value.rs:16-25 | every pair of the grammar of section 4.1.1 of RFC 6265 meets that premise |
| Cookies.IssuedCookieRoundTrip | saps/src/auth/token/cookies.rs:84-89 | the name=value part of the issued cookie parses back to the token if and only if the token has no ";" and no surrounding whitespace |
| Cookies.WipedCookieIsEmpty | saps/src/auth/token/cookies.rs:137-145 | a wiped cookie reads back as the empty token |
| Paths.EscapesRoot | saps/src/files/paths.rs:103-119 | the depth loop answers true exactly when some prefix of the walk climbs above its start or restarts elsewhere |
| Paths.LeavingIsRootless | saps/src/files/paths.rs:103-119 | whether a walk leaves its starting folder does not depend on which folder that is |
| Paths.IntoParentFolder | saps/src/files/paths.rs:164-187 | fails without a parent or with an escaping one, and otherwise gives the parent under the same root |
| Paths.ParentStaysUnderRoot | saps/src/files/paths.rs:164-187 | under a normalised root, relative or absolute, navigation to the parent succeeds if and only if no step of the way leaves the root, and then the full path leads to or below the root |
| Paths.JoinIsAssociative | saps/src/files/paths.rs:255-281 | joining paths is associative, absolute and dot-led parts included |
| Paths.NavigationKeepsFull | saps/src/files/paths.rs:135-281 | full = root.join(rel), and the root, survive every chain of child and parent steps |
| Paths.ChildThenParent | saps/src/files/paths.rs:164-260 | down to a child file and up again is the starting folder, if and only if that folder does not climb above the root |
| Paths.ChildLeadsDown | saps/src/files/paths.rs:205-281 | a child file or folder is reached from its folder by walking the name, along the relative and the full path alike; an absolute name is the whole path |
| Paths.JoinLeadsOn | saps/src/files/paths.rs:255-281 | a joined path leads on from where the left one leads, unless the right one starts over |
| Paths.ParentDropsLast | saps/src/files/paths.rs:164-187 | the parent is the path without its last component; a root and the empty path have none |
| Edits.EditAllAppends | saps/src/kernel/transaction.rs:109-128 | applying a list of operations composes over appending lists |
| Edits.DeleteKeepsOffset | saps/src/kernel/transaction.rs:76-92 | deleting at a position leaves the offset of that position where it was |
| Edits.SwapIsDeleteThenInsert | saps/src/kernel/transaction.rs:76-92 | a swap is one in-place replacement, for every length of run and replacement |
| Edits.EditSplices | saps/src/kernel/transaction.rs:76-92 | told by the text around it: after the complete lines before and the column's characters, the run is replaced and everything else stays; a column or a run beyond the end ends with the text |
| Edits.EditPastTheEnd | saps/src/kernel/transaction.rs:76-92 | on a line the text does not have, an insert appends and a delete does nothing |
| Edits.BytesAreUtf8 | saps/src/files/files/mem_files/full_descriptors/tx_utils.rs:252-283 | the byte lengths behind the offsets are those of the UTF-8 encoding of section 3 of RFC 3629 |
| Edits.Utf8Decodes | saps/src/files/files/mem_files/full_descriptors/tx_utils.rs:252-283 | that encoding of a character gives the character back, whatever bytes follow |
| Edits.LineStartByte | saps/src/files/files/mem_files/full_descriptors/tx_utils.rs:296-310 | the scan returns the UTF-8 byte offset of the start of the line, or of the end of a shorter text |
| Edits.LineColToByte | saps/src/files/files/mem_files/full_descriptors/tx_utils.rs:252-259 | the byte offset of a line and column, clamped to the end of the text |
| Edits.ByteSpan | saps/src/files/files/mem_files/full_descriptors/tx_utils.rs:276-283 | the byte span of the characters that are there, of those asked for |
| Edits.CharIndexInverts | saps/src/files/files/mem_files/full_descriptors/tx_utils.rs:252-283 | character indices and their byte offsets determine each other |
| Edits.InsertText | saps/src/files/files/mem_files/full_descriptors/tx_utils.rs:34-135 | inserting through byte offsets is the documented insert in characters |
| Edits.DeleteRange | saps/src/files/files/mem_files/full_descriptors/tx_utils.rs:64-106 | deleting through byte spans is the documented delete in characters, clamped to the text |
| Stores.MemStore.MoveFile | saps/src/files/files/blocking_io/mem.rs:94-101 | moves the text, overwriting the target, or fails on a missing source with nothing changed |
| Stores.MemStore.CopyFile | saps/src/files/files/blocking_io/mem.rs:114-121 | copies the text, or fails on a missing source with nothing changed |
| Stores.MemStore.DeleteFile | saps/src/files/files/blocking_io/mem.rs:78-81 | removes the file or reports it missing |
| Stores.MemStore.DeleteFolder | saps/src/files/folders/blocking_io/mem.rs:142-154 | removes exactly the component-wise subtree; an empty one is an error |
| Stores.MemStore.MoveFolder | saps/src/files/folders/blocking_io/mem.rs:168-185 | moves the subtree key by key in some order of its keys; an empty one is an error |
| Stores.MemStore.CopyFolder | saps/src/files/folders/blocking_io/mem.rs:199-215 | copies the subtree key by key in some order of its keys; an empty one is an error |
| Stores.FolderIsDeleted | saps/src/files/folders/blocking_io/mem.rs:142-154 | a folder delete is Ok exactly if some key starts with the folder, and then exactly these keys are gone; otherwise it is not found and nothing changes |
| Stores.MoveIsOrderFreeIffSettled | saps/src/files/folders/blocking_io/mem.rs:168-185 | the move relocates the subtree as a whole, in whatever order the hash map yields its keys, if and only if no key has to go where another one still waits to be moved |
| Stores.CopyIsOrderFreeIffSettled | saps/src/files/folders/blocking_io/mem.rs:199-215 | the same for a copy, where only keys with a different text can disturb it |
| Stores.MoveEmptiesSource | saps/src/files/folders/blocking_io/mem.rs:156-185 | a folder move leaves nothing under its source, in whatever order the hash map yields its keys, if and only if no file is rebased back under it |
| Stores.MoveIntoItselfStays | saps/src/files/folders/blocking_io/mem.rs:156-185 | the documented "nothing remains under `from`" fails for a folder moved into its own subtree |
| Stores.DisjointMove | saps/src/files/folders/blocking_io/mem.rs:168-185 | between disjoint folders: `to/x` has the text of every `from/x`, nothing is left under `from`, and keys under neither, a sibling with the same string prefix included, are unchanged |
| Stores.DisjointCopy | saps/src/files/folders/blocking_io/mem.rs:199-215 | the same for a copy, which leaves `from` as it was |
| MemFiles.TransactionMeansEdits | saps/src/files/files/mem_files/guard.rs:305-355 | a transaction leaves the left fold of its documented edits, whichever of the single-character and bulk paths each one takes, and touches no other stored file |
| MemFiles.TransactionIsItsPrimitives | saps/src/files/files/mem_files/guard.rs:305-324 | on buffer and store a transaction is its inserts and deletes, swaps taken apart and empty edits left out |
| MemFiles.StoreLagsByFewEdits | saps/src/files/files/mem_files/constants.rs:5-7 | from a saved buffer, any transaction leaves the store behind by fewer than five edits, each of one character, and by nothing else |
| MemFiles.EditIsStoredIff | saps/src/files/files/mem_files/guard.rs:305-355 | an edit of one character is stored only as the fifth unsaved one, a longer one at once, an empty one not at all |
| MemFiles.EveryFifthEditSaves | saps/src/files/files/mem_files/constants.rs:5-7 | over any run of single-character edits the count is their number modulo five, and the store has exactly the edits up to the last multiple of five |
| MemFiles.MemFile.Save | saps/src/files/files/mem_files/full_mem_file.rs:120-125 | writes the buffer's text to its path and starts the count of unsaved edits anew |
| MemFiles.MemFile.RecordSingleEdit | saps/src/files/files/mem_files/full_descriptors/tx_blocking.rs:128-134 | every fifth single-character edit saves |
| MemFiles.MemFile.ApplyInsert | saps/src/files/files/mem_files/guard.rs:329-340 | an insert by the length of its run: nothing, one character, or a bulk edit |
| MemFiles.MemFile.ApplyDelete | saps/src/files/files/mem_files/guard.rs:345-355 | a delete by the length of its run |
| MemFiles.MemFile.ApplyTransactionOps | saps/src/files/files/mem_files/guard.rs:305-324 | the loop over the operations is the specified fold on buffer and store |
| MemFiles.MemFile.Drop | saps/src/files/files/mem_files/full_mem_file.rs:159-166 | only a blocking buffer with flush_on_drop writes on the way out |
| Guards.StepIsTransparent | saps/src/files/files/mem_files/guard.rs:127-284 | each of read, write, delete, move, copy, exists, reset, drop_file, drop_dir, snapshot, transactions and the folder operations answers as one plain map from path to text would and leaves that map as the view "buffer if resident, else store" |
| Guards.GuardIsTransparent | saps/src/files/files/mem_files/guard.rs:127-284 | the same for every sequence of operations: all answers and the final view are the plain map's |
| Guards.FileOpsSay | saps/src/files/files/mem_files/guard.rs:127-284 | each file operation's answer and view, the missing file of a read, delete, move, copy or transaction included |
| Guards.FolderOpsSay | saps/src/files/folders/blocking_io/mem.rs:142-215 | a folder operation is not found exactly if no visible key lies under the folder, and then changes nothing; a delete takes exactly the subtree |
| Guards.BuffersSay | saps/src/files/files/mem_files/guard.rs:127-284 | what the view does not show: which operations write the store, which buffers they evict, and that a snapshot stores and keeps every buffer |
| Guards.TransactLags | saps/src/files/files/mem_files/guard.rs:231-243 | through the guard, a transaction on a buffer without unsaved edits leaves the store behind by fewer than five single-character edits, and other files alone |
| Guards.GuardsAgree | saps/src/files/files/mem_files/guard.rs:127-284 | two guards that start with equal views, whatever is in their buffers and in whatever key orders their settled folder operations run: after every prefix of the operations answers and views are equal, and after a snapshot so are the stores |
| Guards.SeriesIsOneTransaction | saps/src/files/files/mem_files/guard.rs:259-268 | a series of transactions is one transaction of all their operations |
| Guards.NothingComesBack | saps/src/files/api/files/move_file.rs:66-75 | a written or copied text is in the store at once, and after a delete, move or copy no buffer is left that could flush an old text over the result |
| Guards.FolderMoveCarriesEdits | saps/src/files/api/folders/move_folder.rs:68-77 | between disjoint folders `to/x` gets the current text of every `from/x`, unsaved edits included, nothing is left under `from`, and everything else is unchanged |
| Guards.FolderCopyCarriesEdits | saps/src/files/api/folders/copy.rs:70-79 | the same for a copy, which leaves `from` as it was |
| Guards.FolderDeleteIsComplete | saps/src/files/api/folders/delete.rs:61-68 | leaves neither buffer nor stored file under the folder and everything else alone |
| Guards.SnapshotStoresView | saps/src/files/files/mem_files/guard.rs:279-284 | after a snapshot the store holds the view |
| Guards.Guard.GetFile | saps/src/files/files/mem_files/guard.rs:127-136 | lazy load: a missing file is an error, a resident buffer wins over the store |
| Guards.Guard.ResetFile | saps/src/files/files/mem_files/guard.rs:172-182 | the old buffer goes without a flush and the new text is in its place; the store does not change |
| Guards.Guard.DropFile | saps/src/files/files/mem_files/guard.rs:194-196 | the buffer is flushed and gone, by the drop flush or by the async guard's explicit save |
| Guards.Guard.DropDir | saps/src/files/files/mem_files/guard.rs:209-212 | flushes and evicts exactly the component-wise subtree, in whatever order the map yields it |
| Guards.Guard.ApplyTransaction | saps/src/files/files/mem_files/guard.rs:231-243 | loads, then edits the buffer; a missing file is an error |
| Guards.Guard.ApplyTransactions | saps/src/files/files/mem_files/guard.rs:259-268 | the loop that stops at the first failure is the specified fold |
| Guards.Guard.Snapshot | saps/src/files/files/mem_files/async_guard.rs:229-234 | saves every buffer of either guard, in whatever order, and keeps it |
| Guards.Guard.Close | saps/src/files/files/mem_files/full_mem_file.rs:64-77 | dropping the blocking guard makes the store equal the view, in whatever order the buffers go; dropping the async one leaves the store alone |
| Guards.Guard.ReadText | saps/src/files/api/files/read.rs:57-62 | answers the buffer's text, loading it first |
| Guards.Guard.WriteText | saps/src/files/api/files/write.rs:65-72 | reset and save: buffer and store both hold the new text |
| Guards.Guard.DeletePath | saps/src/files/api/files/delete.rs:57-64 | no flush brings the deleted file back |
| Guards.Guard.MovePath | saps/src/files/api/files/move_file.rs:66-75 | both buffers are flushed and gone before the store moves |
| Guards.Guard.CopyPath | saps/src/files/api/files/copy.rs:67-76 | the source is saved and kept and the target evicted before the store copies |
| Guards.Guard.PathExists | saps/src/files/api/files/exists.rs:50-52 | true for a live buffer or a stored file |
| Guards.Guard.DeleteFolder | saps/src/files/api/folders/delete.rs:61-68 | evicts the subtree's buffers, then deletes it |
| Guards.Guard.MoveFolderPath | saps/src/files/api/folders/move_folder.rs:68-77 | evicts both subtrees, then moves in an order that is legal on the view |
| Guards.Guard.CopyFolderPath | saps/src/files/api/folders/copy.rs:70-79 | snapshots, evicts the target subtree, then copies in an order that is legal on the view |
| Browser.TakeKeepsInv | saps/src/files/files/mem_files/browser_state.rs:185-293 | every stretch of code between two awaits, save failures included, keeps ownership, texts and log in step |
| Browser.BuffersAreNeverLost | saps/src/files/files/mem_files/browser_state.rs:185-293 | at every moment of every interleaving a buffer is in the map or with exactly one task |
| Browser.SessionSerializes | saps/src/files/files/mem_files/browser_state.rs:185-293 | when all tasks are done every job has answered and the same files are open; each text is that of the tasks run one at a time, and nothing else is in it: a transaction that answered Ok is in it once and whole, one whose save failed up to that edit, an update once whether or not its save failed, and a refused or undecodable one not at all |
| Browser.WholeTransaction | saps/src/files/files/mem_files/browser_state.rs:302-351 | a whole entry of the log does to a text what the transaction is documented to do |
| Browser.EditIsBatchedAsInGuard | saps/src/files/files/mem_files/browser_state.rs:326-351 | as long as saves succeed, each edit leaves the buffer and store that the guards' save batching leaves |
| Browser.RefusedIffAway | saps/src/files/files/mem_files/browser_state.rs:185-225 | a transaction or update is refused as "not open" if and only if its path is no file of the session or its buffer is with another task at that moment, and as undecodable if and only if it is an update that the open text does not take |
| Browser.AcceptedJobTakes | saps/src/files/files/mem_files/browser_state.rs:185-293 | a job that is not refused leaves the map with its buffer and nothing else, an update with the text already merged; a flush takes every buffer |
| Browser.AnswersOkIff | saps/src/files/files/mem_files/browser_state.rs:185-293 | whatever runs in between: a transaction, update or flush that was not refused answers Ok if and only if every save it asked for went through, and the save error otherwise |
| Browser.FlushAnswersOkIff | saps/src/files/files/mem_files/browser_state.rs:281-293 | a flush answers Ok if and only if each of its saves went through |
| Browser.SaveReachesStore | saps/src/files/files/mem_files/browser_state.rs:185-351 | a save that goes through stores the text of the buffer and counts from zero; a failed one, and any other step, leaves the store as it is |
| Browser.TasksNeverStick | saps/src/files/files/mem_files/browser_state.rs:185-293 | every unfinished task has a step to take, whatever the others do |
| Browser.FlushStoresWhatItTook | saps/src/files/files/mem_files/browser_state.rs:281-293 | a flush that answers Ok, whatever ran meanwhile, has stored the text of every buffer that was in the map when it began, and put it back unchanged |
| Browser.BrowserState.WriteTransactionToFile | saps/src/files/files/mem_files/browser_state.rs:185-198 | uninterrupted, for any choice of which saves work: Ok exactly if all the saves asked for work, with buffer and store as the batched path leaves them; else the edits stop at the first failed save, with that edit in the buffer and the store as the edits before it left it; other files stay |
| Browser.BrowserState.ApplyUpdateToFile | saps/src/files/files/mem_files/browser_state.rs:216-229 | uninterrupted: not open, undecodable, Ok or the save error, each exactly when; the merged text stays in the buffer even when its save fails |
| Browser.BrowserState.FlushEverything | saps/src/files/files/mem_files/browser_state.rs:281-293 | uninterrupted, for any choice of which saves work: Ok exactly if all do; each buffer whose save works is stored and counts from zero, each other one and its stored text stay as they were |
| JobTables.TaskTables.GetNextTask | saps/src/background_tasks/dal/model.rs:246-271 | claims a row at least as old as every other unclaimed row that no claim in flight holds; nothing only if every unclaimed row is so held |
| JobTables.TaskTables.InsertBackgroundTask | saps/src/background_tasks/dal/postgres_txs.rs:39-58 | inserts the row as given, or nothing when the id is taken |
| JobTables.TaskTables.MarkTask | saps/src/background_tasks/dal/postgres_txs.rs:112-151 | sets status and time_finished and does not unlock |
| JobTables.MarkSays | saps/src/background_tasks/dal/postgres_txs.rs:112-151 | a mark writes the status and, as the finishing time, the instant of the mark; when the task was posted, its job, its lock and every other task stay |
| JobTables.TaskTables.ClaimDueScheduledTasks | saps/src/scheduled_tasks/dal/model.rs:134-152 | locks and returns exactly the unlocked rows due by now that no claim in flight holds |
| JobTables.TaskTables.PostScheduledTask | saps/src/scheduled_tasks/dal/postgres_txs.rs:78-117 | both writes if the id is free and the transaction goes through, else neither; the answer tells whether there was a row to advance |
| JobTables.TaskTables.WorkerTurn | saps/src/background_tasks/worker_pool.rs:208-281 | one round: without a handler the task just stays locked; it is exited if and only if its handler panicked, and completed when the handler answers, an Err included |
| JobTables.TaskTables.SchedulerTurn | saps/src/scheduled_tasks/scheduler.rs:100-135 | one round, with the application's own clock readings: exactly the free due rows are claimed; each is advanced to its next firing and has one new queue row with its job and due instant, unless its cron does not parse, its transaction fails or its id is in use, and then it stays locked at its old due instant; nothing else changes |
| JobRuns.TakeKeepsInv | saps/src/background_tasks/worker_pool.rs:208-281 | every step of any worker or scheduler, every crash and every abort keeps the claim, post and log invariants |
| JobRuns.EndToEnd | saps/src/scheduled_tasks/dal/postgres_txs.rs:78-117 | over every interleaving and every crash, whatever the clocks: no task is claimed or run twice and each fired task carries its row's job and a past firing of its cron; with timely posts each pair of schedule row and due instant has at most one queue row and at most one handler run; and a run stays safe, in the sense that no continuation with timely posts gives a firing a second queue row, if and only if all its posts are timely |
| JobRuns.PostIsSafeIffTimely | saps/src/scheduled_tasks/scheduler.rs:100-135 | after a post every continuation with timely posts gives each firing at most one queue row, if and only if that post was timely |
| JobRuns.UntimelyPostRepeats | saps/src/scheduled_tasks/scheduler.rs:112-124 | whatever was posted before: after a post with a reading behind its due instant there is a continuation with timely posts alone in which that firing has two queue rows |
| JobRuns.LaggingClockPostsTwice | saps/src/scheduled_tasks/scheduler.rs:112-116 | a concrete instance: a scheduler whose clock is one unit behind the database's posts one firing twice |
| JobRuns.LaggingStart | saps/src/scheduled_tasks/dal/model.rs:167-195 | the state from which it does so is one a run reaches |
| JobRuns.ClaimsNeverOverlap | saps/src/background_tasks/dal/model.rs:253-269 | claims in flight included, no task is with two workers and no schedule row with two schedulers |
| JobRuns.AdvancePosts | saps/src/scheduled_tasks/dal/postgres_txs.rs:80-117 | a step adds a queue row for a schedule row if and only if it posts, for the instant at which the row was due, and moves that row forward if and only if the post is timely; no other step does either |
| JobRuns.PostsMatchAdvances | saps/src/scheduled_tasks/dal/postgres_txs.rs:80-117 | over every run, queue rows posted for a row are at least its advances, and exactly these if and only if every post for it is timely |
| JobRuns.LaterPostsAreLater | saps/src/scheduled_tasks/scheduler.rs:100-135 | with timely posts the due instants posted for a row are strictly increasing |
| JobRuns.PostsNeverExceedFirings | saps/src/scheduled_tasks/scheduler.rs:100-135 | with timely posts, at any point of any run the posts for a row up to an instant never exceed the firings of its cron up to it |
| JobRuns.PostMovesForwardIff | saps/src/scheduled_tasks/scheduler.rs:112-124 | whatever the clocks: a post moves the row strictly forward if and only if the application's reading is not behind the instant it posts for; every firing after the reading is still due; the row is unlocked and names the new task |
| JobRuns.OrphanNeverFires | saps/src/scheduled_tasks/scheduler.rs:126-134 | a row left locked by a crash or a failed post never changes or fires again |
| JobRuns.LostTaskNeverRuns | saps/src/background_tasks/worker_pool.rs:208-281 | a claimed task whose worker is gone is never run afterwards |
| JobRuns.MarkedTasksRan | saps/src/background_tasks/worker_pool.rs:262-279 | over every run, a fired task that is marked did run and stays locked; it is exited if and only if its handler panicked, and completed when it answered, an Err included |
| JobRuns.WorkerRound | saps/src/background_tasks/worker_pool.rs:208-281 | a worker left alone claims, runs and marks its task: locked, exited after a panic and completed otherwise, finished at that instant, run and claimed once more; nothing else changes |
| JobRuns.ClaimsOldestIff | saps/src/background_tasks/dal/model.rs:253-269 | a worker can claim a task if and only if it is unlocked, in no other claim in flight, and the oldest such |
| JobRuns.EnqueuedTaskWaits | saps/src/background_tasks/dal/postgres_txs.rs:39-58 | an enqueued task that is unlocked and no younger than the free ones can be claimed next |
| JobRuns.ChoosesDueRows | saps/src/scheduled_tasks/dal/model.rs:134-152 | a scheduler takes exactly the unlocked rows that are due and in no claim in flight |
| JobRuns.LettingGoOrphans | saps/src/scheduled_tasks/scheduler.rs:100-135 | a failed post, a bad cron string and a crash after the claim each leave the row locked and in nobody's hands |
| JobRuns.UncommittedChoiceIsFree | saps/src/scheduled_tasks/dal/model.rs:134-152 | a crash before the claim commits leaves its rows to the next scheduler |
| MetaTables.PairIndexHolds | saps/src/auth/dal/model.rs:375-400 | over every run of inserts, updates, swaps and deletes, written row by row in any order and checked one version at a time: no two rows that hold both keys with values other than JSON null agree on the pair |
| MetaTables.CollidesIff | saps/src/auth/dal/model.rs:375-400 | two rows collide in the index exactly if both hold both keys, not null, with the same texts |
| MetaTables.TextSays | saps/src/auth/dal/model.rs:375-400 | the text of a value: none for null alone, a string itself, a number in decimal |
| MetaTables.WriteSays | saps/src/auth/dal/postgres_txs.rs:76-415 | what each accepted write of one row leaves: the inserted, replaced, updated, swapped or shortened row, its count, and nothing else |
| MetaTables.WriteRejectedIff | saps/src/auth/dal/model.rs:375-400 | a write of one row is rejected if and only if it inserts a taken id or its new version agrees on the pair with another row; dropping a key never is |
| MetaTables.DeletesExactly | saps/src/auth/dal/postgres_txs.rs:719-776 | a delete by meta or by ids removes exactly the rows it names, counts them, and leaves the others alone |
| MetaTables.UpsertSays | saps/src/auth/dal/postgres_txs.rs:629-703 | an accepted update by meta sets the key on exactly the rows that contain the wanted pairs, and counts them |
| MetaTables.UpsertRejectedIff | saps/src/auth/dal/postgres_txs.rs:629-703 | it is rejected if and only if two of the rows it would leave agree on the pair |
| MetaTables.RowByRowIsWhole | saps/src/auth/dal/postgres_txs.rs:629-703 | for every order of its rows, a statement checked row by row takes effect if and only if the rows it asks for are distinct on the pair, and otherwise changes nothing |
| MetaTables.PairCountsIffNonNull | saps/src/auth/dal/postgres_txs.rs:679-703 | the documented "0 or 1" of pair-scoped statements holds if and only if neither value is a JSON null |
| MetaTables.RowsAreConserved | saps/src/auth/dal/postgres_txs.rs:719-776 | rows before plus rows inserted equal rows after plus rows reported deleted; a rejected statement changes nothing |
| MetaTables.RunsConserveRows | saps/src/auth/dal/postgres_txs.rs:719-776 | over every run, rows before plus accepted inserts equal rows after plus the deletions reported |
| MetaTables.UpsertsTouchMatchesOnly | saps/src/auth/dal/postgres_txs.rs:629-703 | an accepted update sets the key on every matching row, keeps its other keys, and leaves other rows alone |
| MetaTables.NoLostUpdates | saps/src/auth/dal/postgres_txs.rs:351-382 | in any interleaving of swaps from v to v + 1 on one key, with anything foreign to the key and any rotation of any row's id in between, the stored value is the initial one plus the swaps that succeeded |
| MetaTables.RotationsKeepIndex | saps/src/auth/dal/model.rs:276-288 | rotations in between leave the pair index intact over every run |
| MetaTables.ReplacementReachesRowIff | saps/src/auth/token/header_token.rs:352-364 | a meta replacement that is not rejected reaches a row if and only if the token's id is the current id of one |
| MetaTables.RotationLosesReplacement | saps/src/auth/token/header_token.rs:352-364 | a rotation by another request in between loses the replacement: Ok, no row touched, the row's meta as it was |
| MetaTables.SwapsTouchOneKey | saps/src/auth/dal/postgres_txs.rs:351-382 | swaps on one key leave every other row and every other key of the row unchanged |
| MetaTables.SwapSucceedsIff | saps/src/auth/dal/postgres_txs.rs:320-382 | the full verdict: no row touched where the key is absent or differs, rejected where another row has the new version's index entry, one row otherwise; a key outside the index is never rejected |
| MetaTables.MetaTable.CompareAndSwap | saps/src/auth/dal/postgres_txs.rs:351-382 | the check and the write are one step, rejected on a collision |
| MetaTables.MetaTable.WriteRows | saps/src/auth/dal/postgres_txs.rs:629-703 | the loop that writes versions one by one succeeds if and only if the final rows are distinct, and otherwise changes nothing |
| MetaTables.MetaTable.UpsertByMetaPairs | saps/src/auth/dal/postgres_txs.rs:629-703 | updates exactly the matching rows and counts them, or rejects |
| MetaTables.MetaTable.DeleteByMetaPairs | saps/src/auth/dal/postgres_txs.rs:719-776 | deletes exactly the matching rows, and the count accounts for the difference |
| MetaTables.HeaderToken.CompareAndSwap | saps/src/auth/token/header_token.rs:472-489 | the table changes as by the statement alone; the cached session follows a swap that went through and stays otherwise |
| MetaTables.HeaderToken.UpsertMetaKey | saps/src/auth/token/header_token.rs:377-390 | the table changes as by the statement alone; the cached session becomes the updated row, or stays when the row is gone |
| MetaTables.HeaderToken.UpdateMeta | saps/src/auth/token/header_token.rs:352-364 | the table changes as by the statement alone, so not at all when no row has the id; the cached meta is replaced in either case, and equals the row's afterwards if and only if the id was the current id of a row |

## Left out

- The yrs document: merging, state vectors and encoded diffs. A buffer is its text, and an update is any partial function on texts.
- Byte offsets above 4 GB, which the source truncates to 32 bits, and the overflow of the 32-bit depth counter in `escapes_root`.
- Parsing of path text into components, Windows prefixes inside a path, and `set_extension`: paths are sequences of components.
- Store keys other than plain names: joining an absolute key under an empty `from` would replace the target folder, and a leading "." component would compare differently.
- Write failures of the stores under the guards. The in-memory stores never fail; the browser model has failing saves.
- `add_file` and `load_all` on a path that is already resident with unsaved edits.
- `create_folder`, `child_files` and the other folder listings, and the plain endpoints that only forward to the store.
- The disk, redb and IndexedDB engines, connection pools, configuration providers, migrations and tracing.
- Database errors other than a failed post, a rejected statement and a failed save, malformed ids in tokens, and roles that do not parse.
- The token's signature and encoding: the codec is any pair of functions in which decoding undoes encoding and tokens are safe in a cookie.
- Statements of one `saps.ping` interleaving with another ping: its SELECT takes no row lock, so convergence is a claim about atomic pings.
- Row visibility under a snapshot older than the claim: a claim sees the committed rows at the moment it takes its locks.
- Clocks of the application other than the scheduler's reading for the next firing: the session clock is the database's, and `time_completed` and `time_posted` are arbitrary readings.
- `saps.claim_task`, which nothing calls, and the wiping of the schedule table by a new migration.
- What a handler itself does to the tables.
- Cron syntax: an expression is the set of its firing instants.
- Meta values that are arrays, objects or fractional numbers, and meta columns that are not objects: containment is not equality there.
- `subpaths_of`, opening, removing and wiping browser files, and a task cancelled at an await: a cancelled task would drop its buffer.
- `extract_path`, the role-check structs, the error-code mappings and the `meta_get` accessors would only add easy members.
- JobRuns.EndToEnd: at most once, not exactly once, because a crash after a claim loses the run (`JobRuns.OrphanNeverFires`, `JobRuns.LostTaskNeverRuns`).
- Sessions.AuthTable.CreateAuthSession: draws a fresh id where the source inserts the random id of the session it is given; an id that collides with another row's is excluded.
- AuthFlow.AuthServer.RunAuthExtraction: ids that do not parse, which end early in the source, are absent.
- AuthFlow.CookieSlot.Set: a poisoned mutex, which drops the cookie, is absent.
- AuthFlow.CookieSlot.Take: a poisoned mutex, which yields nothing, is absent.
- Edits.LineColToByte: the cut of large offsets to 32 bits is absent.
- Edits.ByteSpan: the cut of large offsets to 32 bits is absent.
- MemFiles.MemFile.Save: the error of a failing store write is absent, because the in-memory stores never fail; `Browser` models it.
- Guards.Guard.Snapshot: the stop at the first failing save is absent for the same reason.
- Paths.ParentStaysUnderRoot: roots behind a Windows prefix are absent.
- AuthFlow.KeepAlive: handlers that set or wipe the token cookie themselves, as login and logout do, start or end a session of their own and are excluded; the jar is a list of pairs by name, without domains, paths and expiry.
