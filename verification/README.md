# maja_three_2022 core, modelled in Dafny

This project models the parts of the repository that hold real logic.

- **Web server, account management.** `SQLiteAuth` and `AccountDataFormParser` do session lookup, login, register, logout and delete against the Prisma `user` table. They also set the session cookie and validate submitted forms. The older `UserManager` has its own form parsers, `user_exists`, `authenticate` and two stubs.
- **Web server, chat relay.** `setup_websocket` keeps a registry of connections that are admitted by their session cookie. It relays every message to all of them and announces disconnects.
- **Factory simulation.** `try_to_use_parts` draws parts from a shared list, deletes satisfied keys and rolls back on a shortfall. Four machine classes consume and produce parts. `EngineFactory` runs them as a fail-fast line.
- **Sorter hierarchy.** It has an in-place quicksort with a Lomuto partition, a "bubble" sort that swaps without comparing, and a Fisher–Yates shuffle.

The project has seven files:

| file | contents |
|---|---|
| `common.dfy` | Shared value types (`Option`, `Result` carrying an `HttpError`, `Settled` for promises). PBKDF2 as a function value. |
| `user_store.dfy` | The `user` table as a class over a sequence of rows with unique keys. |
| `account_manager.dfy` | `SQLiteAuth`, its cookie handling and the form parser. |
| `user_manager.dfy` | `UserManager`. |
| `chat_relay.dfy` | The websocket registry with an outbox of every emit. |
| `factory.dfy` | The factory simulation. |
| `sorters.dfy` | The sorters. |

Code that mutates state is modelled as classes with `modifies` clauses:

- the user table;
- the registry;
- the shared part arrays (`PartList`);
- the key object `try_to_use_parts` mutates (`PartNameCollection`);
- machines and engines;
- arrays for the sorters.

Pure code is modelled as functions.

Modelling choices for inputs and failures:

- **Fresh values and the hash.** Session tokens and salts are parameters. The hash is `pbkdf2(password, salt, 1000, 64, "sha512")` for a given deterministic `pbkdf2`. The key derivation is section 5.2 of RFC 8018, with HMAC-SHA-512.
- **Store failures.** `Fault` says which repository call of an operation is the first the store fails to serve. A call the source wraps in `wrap_database_response` becomes the classified 500 error. A call it leaves unwrapped becomes a `Rejected` promise.

## Model

| member | source | states |
|---|---|---|
| UserStore.Locate | webserver/src/lib/implementations/auth.ts:40-42 | The lookup by unique key finds the first matching row, or -1 exactly when no row matches. |
| UserStore.LocateUnique | webserver/src/lib/implementations/auth.ts:40-42 | With unique id, username and session, the row a key matches is the one the lookup finds. |
| UserStore.UserTable.FindUnique | webserver/src/lib/implementations/auth.ts:40-42 | `findUnique` rejects exactly when the store fails. Otherwise it resolves to a row matching the key, or to null exactly when no row matches. |
| UserStore.UserTable.Update | webserver/src/lib/implementations/auth.ts:132-137 | `update` rejects when the store fails, no row matches, or the new session is held by another row, and then changes nothing. Otherwise it rewrites the session of the matching row alone and keeps the keys unique. |
| UserStore.UserTable.Create | webserver/src/lib/implementations/auth.ts:168-177 | `create` rejects on a taken username or session, changing nothing. Otherwise it appends one row with the next id and returns it. |
| UserStore.UserTable.Delete | webserver/src/lib/implementations/auth.ts:206-210 | `delete` rejects when no row matches. Otherwise it removes exactly the matching row, keeps the others in order and keeps the keys unique. |
| UserStore.WrapDatabaseResponse | webserver/src/lib/database.ts:9-25 | A resolved value becomes `Ok` of that value. A rejection becomes the error "internal-database-error" with code 500. |
| AccountManager.SQLiteAuth.GetUserBySession | webserver/src/lib/implementations/auth.ts:37-61 | The call rejects exactly when the unwrapped lookup fails. It gives "provided-session-nonexistant" exactly when no row holds the session. Otherwise it gives that row's username, session, id, salt and hash. |
| AccountManager.SQLiteAuth.GetCurrentUser | webserver/src/lib/implementations/auth.ts:63-97 | Without a "session" cookie the result is "not-logged-in" (401) and the store is not consulted. Otherwise the result is the lookup of the cookie's session. |
| AccountManager.SQLiteAuth.Login | webserver/src/lib/implementations/auth.ts:99-143 | Store failure gives the 500 error. An unknown username gives "UndefinedUsername" (400). A recomputed hash that differs gives "IncorrectPassword". Each failure leaves the table unchanged. Success writes the fresh session onto exactly that user's row, keeps its username, salt and hash, and returns the session. |
| AccountManager.SQLiteAuth.Register | webserver/src/lib/implementations/auth.ts:145-183 | A taken username gives "UsernameAlreadyUsed" and creates nothing. Failing steps return the 500 error with nothing created. Success appends one row with the username, the fresh salt, the hash of the password under it and the fresh session, and returns that session. |
| AccountManager.SQLiteAuth.LogoutAsWritten | webserver/src/lib/implementations/auth.ts:185-201 | `logout` as written. An unknown session or a store failure gives the 500 error. Otherwise the session is cleared only if the client library reads `undefined` as null; if it reads it as "leave alone", nothing changes. |
| AccountManager.SQLiteAuth.Logout | webserver/src/lib/implementations/auth.ts:185-201 | `logout` with the session written as null. The row holding the session loses it and every other row is unchanged. An unknown session or a store failure gives the 500 error. |
| AccountManager.SQLiteAuth.Delete | webserver/src/lib/implementations/auth.ts:203-216 | Removes exactly the row with the id and keeps the others in order. An unknown id or a store failure gives the 500 error and changes nothing. |
| AccountManager.SQLiteAuth.SessionCookieOptions | webserver/src/lib/implementations/auth.ts:218-226 | The session cookie has path "/", httpOnly, sameSite strict and maxAge 1200. It is secure exactly in production. |
| AccountManager.SQLiteAuth.SetSessionCookie | webserver/src/lib/implementations/auth.ts:218-226 | The session cookie now holds the session with those options. Every other cookie is unchanged. |
| AccountManager.SQLiteAuth.ResetSessionCookie | webserver/src/lib/implementations/auth.ts:228-230 | The session cookie is removed. Every other cookie is unchanged. |
| AccountManager.ParseForLogin | webserver/src/lib/implementations/auth.ts:234-260 | Succeeds exactly when both fields are present, with exactly their values (empty strings accepted). Otherwise "UndefinedUsername" is checked before "UndefinedPassword". |
| AccountManager.ParseForRegister | webserver/src/lib/implementations/auth.ts:262-288 | The same checks as the login parser, with the errors "MissingUsername" and "MissingPassword". |
| AccountManager.ParsersRecoverCredentials | webserver/src/lib/implementations/auth.ts:234-288 | Both parsers read back exactly the credentials a form was built from. |
| AccountManager.RegisterThenLogin | webserver/src/lib/implementations/auth.ts:118-180 | After register, a login with another password fails "IncorrectPassword". A login with the same password passes the hash check and replaces the session with its own fresh one. |
| AccountManager.LogoutEndsSession | webserver/src/lib/implementations/auth.ts:185-201 | After a successful `Logout`, looking the session up gives "provided-session-nonexistant". |
| AccountManager.LogoutAsWrittenKeepsSession | webserver/src/lib/implementations/auth.ts:193 | If `undefined` means "leave alone", `logout` as written succeeds and the session still identifies its user. |
| UserManager.ParseLoginForm | webserver/src/lib/user-manager.ts:23-67 | A missing or empty username gives "MissingUsername" before the password is examined. A missing or empty password gives "MissingPassword". Otherwise both values come back unchanged. |
| UserManager.ParseRegisterForm | webserver/src/lib/user-manager.ts:69-113 | The same checks, errors and result as the login parser. |
| UserManager.ParsersAgree | webserver/src/lib/user-manager.ts:23-113 | The two parsers give the same answer on every form. |
| UserManager.Register | webserver/src/lib/user-manager.ts:199-210 | Always fails with "NotImplemented", code -1. |
| UserManager.Logout | webserver/src/lib/user-manager.ts:212-223 | Always fails with "NotImplemented", code -1. |
| UserManager.UserManager.UserExists | webserver/src/lib/user-manager.ts:115-145 | A store failure gives "DatabaseError" (500), and nothing else does. Otherwise it reports a row with that username, or absent exactly when no row has that username. |
| UserManager.UserManager.Authenticate | webserver/src/lib/user-manager.ts:147-197 | Store failure gives "DatabaseError". An unknown username gives "UserDoesNotExist" (400). A differing hash gives "IncorrectPassword". None of these changes the table. The unwrapped update rejects the call when it fails. Success stores the fresh session on that user's row alone and returns it. |
| ChatRelay.Broadcast | webserver/websocket.ts:61-65 | One `forEach` emits to each recipient in order: the k-th emit goes to the k-th recipient with the author, the content and the k-th clock reading. |
| ChatRelay.BroadcastReachesEachOnce | webserver/websocket.ts:60-66 | A broadcast to distinct recipients reaches each of them exactly once and no one else. |
| ChatRelay.IndexOf | webserver/websocket.ts:45-46 | `indexOf` gives the first position of the connection, or a negative value exactly when it is absent. |
| ChatRelay.SessionUser | webserver/websocket.ts:36-39 | The awaited lookup yields a username only when some row holds the session, and then that row's username. A healthy store yields one for every such session, and a failing store yields none. |
| ChatRelay.Admission | webserver/websocket.ts:24-37 | A user is admitted only with a cookie header that holds a "session" cookie naming a session some row holds, and then under that row's username. A healthy store admits every such connection. |
| ChatRelay.Registry.constructor | webserver/websocket.ts:22 | The registry starts empty with nothing emitted. |
| ChatRelay.Registry.BeginConnect | webserver/websocket.ts:24-36 | A connection without a cookie header or without a "session" cookie is dropped and nothing changes. Otherwise it waits on the lookup of that session. The registry, the handlers and the outbox are unchanged. |
| ChatRelay.Registry.CompleteConnectAsWritten | webserver/websocket.ts:36-44 | When the lookup resolves, the waiting connection is named after the session's user and appended after the earlier entries, which keep their order. This happens even if it disconnected while waiting. A failed lookup leaves the registry and the connection untouched. Nothing is emitted. |
| ChatRelay.Registry.CompleteConnect | webserver/websocket.ts:36-44 | The corrected completion also drops a connection that disconnected while waiting. So if no registered connection was closed before, none is after. |
| ChatRelay.Registry.Relay | webserver/websocket.ts:61-65 | The outbox gains exactly the broadcast to the registry, in registry order. The registry is unchanged. |
| ChatRelay.Registry.Disconnect | webserver/websocket.ts:44-58 | The connection is marked closed. An unregistered connection, including one still waiting on its lookup, changes nothing else and emits nothing. No other registered connection is removed, and a registry without closed connections keeps none. A registered one is removed, and only it. Then everyone left, in order, gets a "Server" message saying `User "<name>" disconnected`, falling back to "Unknown User". |
| ChatRelay.ConnectWhileOpen | webserver/websocket.ts:24-44 | For a socket that stays open until its handler completes, the two halves register it, named after the user, exactly when `Admission` admits it. Otherwise the registry and the socket are untouched. |
| ChatRelay.Registry.Message | webserver/websocket.ts:60-66 | A message from an admitted connection goes verbatim to every registered connection, sender included, in order, under the sender's name. The registry is unchanged. |
| ChatRelay.ClosedDuringLookupStaysRegistered | webserver/websocket.ts:36-44 | A connection that disconnects while its lookup is pending is still registered by the handler as written. It cannot disconnect again, and a later message from a second tab of the same user is emitted to it first. |
| ChatRelay.ClosedDuringLookupDropped | webserver/websocket.ts:36-44 | With the corrected completion the same sequence leaves only the second tab registered, no closed connection registered, and the message emitted to the second tab alone. |
| Factory.PartNamed | oop/factory/implementations.ts:75-93 | The part a name denotes, if any, carries that name. |
| Factory.NamedByName | oop/factory/implementations.ts:75-93 | Part names tell the four part classes apart. |
| Factory.FindIndex | oop/factory/implementations.ts:30 | `findIndex` gives the first position holding a part with that name: no earlier part has it. It gives -1 exactly when no part has that name. |
| Factory.SpliceFirst | oop/factory/implementations.ts:30-38 | Splicing out the position `findIndex` found removes the first part of that name and keeps every other part in order. |
| Factory.Keys | oop/factory/implementations.ts:25 | `Object.keys` lists the key names in order. |
| Factory.PartNameCollectionToString | oop/factory/implementations.ts:13-17 | The rendering is empty exactly when the collection is. |
| Factory.RenderRoundTrip | oop/factory/implementations.ts:15 | Each rendered `Nx name` entry reads back as the entry it came from. |
| Factory.DecimalRoundTrip | oop/factory/implementations.ts:15 | A printed integer count, negative ones included, reads back as the same integer. |
| Factory.RemainingNames | oop/factory/implementations.ts:41-43 | The keys left after drawing are among the keys asked for. |
| Factory.DrawnWhenEnough | oop/factory/implementations.ts:28-39 | When every count is covered, exactly the demanded parts are drawn. |
| Factory.RemainingWhenEnough | oop/factory/implementations.ts:41-43 | When every count is covered, no key with a positive count is left. |
| Factory.DrawKey | oop/factory/implementations.ts:29-39 | The inner loop draws parts of the key's name until its count is used up or none is left, and reports whether the count was met. Having drawn `t` parts, the list is the original without its first `t` parts of that name, with the rest in order. The drawn parts are appended to the used parts. |
| Factory.DrawOne | oop/factory/implementations.ts:30-38 | One iteration splices the part at the found position out of the list, appends it to the used parts and decrements the key. |
| Factory.DrawForKey | oop/factory/implementations.ts:29-39 | After the inner loop for key `i`, the key is settled, its count is met exactly when every key so far is covered, and the list and used parts are, in order, what the keys up to `i` leave and draw. |
| Factory.UseKey | oop/factory/implementations.ts:28-44 | One key draws what it can and is deleted when its count reached 0. Success drops when it is short. |
| Factory.UseKeys | oop/factory/implementations.ts:25-44 | After all keys, the collection holds exactly the remaining counts in key order. The list is exactly `LeftOver`, meaning each key in turn removed the first parts of its name. The used parts are exactly `DrawnSeq`, in draw order. The drawn and kept parts make up the original list. Success holds exactly when every count was covered, and a shortfall does not stop later keys. |
| Factory.AllKeysSettled | oop/factory/implementations.ts:46-54 | On success the list lost exactly the demanded parts. |
| Factory.TryToUseParts | oop/factory/implementations.ts:19-55 | Success holds exactly when every count is covered. Then exactly the demanded parts are gone, and the list is the original without, per key in order, the first parts of that key's name. On failure the list is that remainder followed by the drawn parts in draw order, the same multiset as before. The result is then the caller's own mutated collection. In both cases the collection ends holding each key whose count did not reach 0, with what is left of its count, in key order. |
| Factory.Engine.constructor | oop/factory/implementations.ts:95-97 | A new engine has an empty parts list and is not complete. |
| Factory.Operator.Interact | oop/factory/implementations.ts:64-66 | `interact` reports whether the engine is complete (`Engine.use`). |
| Factory.NeedsCovered | oop/factory/implementations.ts:125 | A machine's needs are in a multiset exactly when each part class is covered. |
| Factory.RecipeDemand | oop/factory/implementations.ts:239-243 | Each machine's literal collection (this one and those at lines 125, 163 and 201) demands exactly the machine's needs. |
| Factory.RecipeEnough | oop/factory/implementations.ts:239-243 | A machine's collection is covered by a list exactly when the list contains the machine's needs. |
| Factory.Machine.constructor | oop/factory/implementations.ts:108-110 | A new machine draws from the given array and has no operator. |
| Factory.Machine.Occupy | oop/factory/implementations.ts:112-117 | Succeeds exactly when no operator is set. A second call returns false and keeps the first operator. |
| Factory.Machine.Assemble | oop/factory/implementations.ts:119-139 | Without an operator it fails and changes nothing. Otherwise the machine draws its needs, from the shared list or, for the assembler, from the item. It succeeds exactly when they are there, and then consumes exactly them and (except the assembler) pushes its product. On failure nothing is lost. |
| Factory.BuiltForAssembler | oop/factory/implementations.ts:239-243 | The four parts the first four machines push are exactly what the assembler needs. |
| Factory.StageStep | oop/factory/implementations.ts:284-288 | Machine i, after i successes, succeeds exactly when the list lets the line get past it, and moves the line's progress forward by one. |
| Factory.LineCompletes | oop/factory/implementations.ts:281-292 | The whole line gets through exactly when the list holds at least four iron plates and a steel plate. |
| Factory.EngineFactory.constructor | oop/factory/implementations.ts:263-275 | Five machines in line order all share the new empty list, and machine k is occupied by "Operator k+1". |
| Factory.EngineFactory.AddPart | oop/factory/implementations.ts:277-279 | The parts join the end of the shared list. |
| Factory.EngineFactory.Stage | oop/factory/implementations.ts:285 | Machine i, after i successes, succeeds exactly when the line gets past it. |
| Factory.EngineFactory.Produce | oop/factory/implementations.ts:281-292 | The machines run in order and stop at the first failure. The engine is complete exactly when all five succeed, exactly when the list held four iron plates and a steel plate. The list lost exactly what the successful machines consumed. |
| Factory.Demo | oop/factory/main.ts:6-17 | Four iron plates and a steel plate yield an engine that works for an operator. |
| Sorters.SwapElements | oop/inheritance/implementations.ts:74 | The destructuring swap exchanges the two elements. |
| Sorters.SwapPermutes | oop/inheritance/implementations.ts:74 | A swap keeps the multiset. |
| Sorters.PartitionLoopInv | oop/inheritance/implementations.ts:70-75 | The partition loop keeps elements below the pivot left of `swap_index` and the rest between it and `i`, permuting only inside the range. |
| Sorters.Partition | oop/inheritance/implementations.ts:62-80 | Returns p in [start, end] holding the old `array[start]`. Everything in [start, p) is below it and everything in (p, end] is at least it. Only [start, end] changes, and as a permutation. |
| Sorters.QuickSort | oop/inheritance/implementations.ts:82-90 | A range with left >= right is left untouched. Otherwise [left, right] ends ascending and permuted, and nothing outside it changes. |
| Sorters.QuickSortStep | oop/inheritance/implementations.ts:85-87 | Partitioning and then sorting both sides sorts the range. |
| Sorters.QuickSorterSort | oop/inheritance/implementations.ts:92-94 | The array is sorted ascending in place as a permutation of the input, and the same array is returned. |
| Sorters.ReversedAt | oop/inheritance/implementations.ts:47-57 | Reversal keeps the length and mirrors each index. |
| Sorters.ReversedPermutes | oop/inheritance/implementations.ts:47-57 | Reversal is a permutation. |
| Sorters.ReversedTwice | oop/inheritance/implementations.ts:47-57 | Reversing twice gives back the input. |
| Sorters.InnerPassRotates | oop/inheritance/implementations.ts:51-53 | An inner pass of unconditional swaps carries the first element to the end of the pass. |
| Sorters.OuterPassReverses | oop/inheritance/implementations.ts:50-54 | The outer passes of unconditional swaps reverse the copy. |
| Sorters.Copy | oop/inheritance/implementations.ts:48 | The spread copy is a new array with the same contents. |
| Sorters.BubbleSorterSort | oop/inheritance/implementations.ts:47-57 | `BubbleSorter.sort` as written returns a new array holding the input reversed, and the input is untouched. |
| Sorters.BubbleSorterSortUnsorted | oop/inheritance/implementations.ts:52 | On [1, 2] the as-written sort returns [2, 1], which is not ascending. |
| Sorters.BubblePass | oop/inheritance/implementations.ts:51-53 | A comparing pass over [0, bound) extends the sorted tail down to bound - 1 as a permutation. |
| Sorters.BubbleSort | oop/inheritance/implementations.ts:47-57 | The comparing sort returns a new ascending array that is a permutation of the input. |
| Sorters.ShuffleFromPermutes | oop/inheritance/implementations.ts:19-26 | Whatever the draws, the Fisher–Yates swaps give a permutation. |
| Sorters.Shuffle | oop/inheritance/implementations.ts:13-29 | Given draws with 0 <= r < currentIndex, the array is shuffled in place as a permutation and the same array is returned. |

## Left out

- `generate_uid` and `crypto.randomBytes` (webserver/src/lib/implementations/auth.ts:27-29, 164): the fresh session and salt are parameters. Freshness is stated as a precondition where it matters.
- `hash_password` (webserver/src/lib/implementations/auth.ts:31-35): PBKDF2 is a deterministic function value passed to the account manager, and its cryptographic strength is not modelled.
- The Prisma client: the `user` table is a sequence of rows whose keys are unique. Its behaviour on a missing row or a clashing unique key follows Prisma's documented rejections.
- Which call fails is chosen by `Fault`, so connectivity is abstract.
- Interleaving of HTTP requests: each request handler of the account manager and `UserManager` is modelled as atomic. Two requests that interleave at their `await`s are not modelled. The websocket `connection` handler is split at its `await` (`BeginConnect`, `CompleteConnect`), so a disconnect can fall between the two halves.
- `logout` of a session that no row holds: Prisma's `update` rejects, so the call returns the 500 error (webserver/src/lib/implementations/auth.ts:188-196). Such a logout is not treated as a harmless no-op.
- The lookups of `get_user_by_session` and `get_current_user` and `authenticate`'s update are not wrapped in `wrap_database_response` (webserver/src/lib/implementations/auth.ts:40, 76; webserver/src/lib/user-manager.ts:187). A store failure there is `Rejected`, not a classified error.
- `UserManager`'s `HTTPError` nests `{name, message}` under `error`. It is flattened into the same `HttpError` value.
- `UserManager`: the `typeof ... !== "string"` branches cannot be taken, because `toString()` always yields a string, so they are not modelled.
- `UserManager.UserManager.Authenticate` returns the session string rather than the `{session}` object.
- Forms are maps of text fields. A `File` field, which `toString()` turns into "[object File]", is not modelled.
- socket.io, `cookie.parse` and `Date.now` (webserver/websocket.ts:15-20, 29, 49): the parsed cookie map is an input, every emit is appended to an outbox, and a clock function gives the timestamp each recipient of one `forEach` reads. The values of the timestamps are not constrained.
- ChatRelay.Registry.BeginConnect requires a connection that is not registered, not waiting and not closed. Each `connection` event brings a new, open socket.
- ChatRelay.Registry.Disconnect requires a connection that has not disconnected before. socket.io fires `disconnect` once per socket.
- ChatRelay.Registry.Message relays from any connection whose handlers were installed, even one that has since disconnected. This matches the code, where the handler stays installed.
- `console.log` and `console.error`, and the missing-parts messages they print, are not modelled. This includes SteelWelder's message, which says "PipeMaker".
- Factory.Machine.Assemble requires that the item's part array is not the shared array. The factory always hands a fresh engine, and aliasing between the two is not modelled.
- Factory.PartNameCollectionToString: its contract states only the empty case. The format of each entry is stated by `Factory.RenderRoundTrip`.
- `DefaultSorter.sort` (oop/inheritance/implementations.ts:10-12): JavaScript's default string-order `Array.prototype.sort` is not modelled.
- `timed_sort`, `DefaultSorterTimeLogger` and `QuickSorterTimeFileDumper` (oop/inheritance/implementations.ts:4-9, 32-43, 97-114): timing, logging and file output are not modelled.
- Numbers: the model stores the sorters' `number[]` contents and the factory's counts as unbounded integers. JavaScript numbers are IEEE 754 doubles. So fractional values are not modelled. NaN is not modelled either: every comparison with it is false, so `partition`'s `array[i] >= pivot` test moves it below any pivot, and a NaN pivot moves every element below itself. ±Infinity and the loss of exactness above 2^53 are not modelled either.
- `Math.random` draws are the `draws` parameter of `Shuffle`.

## Findings

| source | as written | input that shows it | evidently intended | confidence | as-written member | corrected member |
|---|---|---|---|---|---|---|
| webserver/src/lib/implementations/auth.ts:193 | `logout` updates the row with `data: {session: undefined}`. Prisma reads `undefined` as "leave this field alone". | Log in, then log out with the returned session. Logout succeeds, yet the session still identifies the user. | Logout writes `null` into the session column, so the session no longer identifies anyone. | not executed; depends on the client library's reading of `undefined` | AccountManager.LogoutAsWrittenKeepsSession | AccountManager.LogoutEndsSession |
| webserver/websocket.ts:36-44 | The `connection` handler awaits the session lookup, then pushes the socket and installs its `disconnect` handler without checking whether the socket closed meanwhile. | A client disconnects while the lookup is pending. No `disconnect` listener exists yet, so nothing happens. Afterwards the closed socket is pushed and stays in `sockets` for good, receiving every later broadcast. | After the `await`, a socket that has disconnected is dropped, so no registered socket is closed. | not executed; depends on the lookup being slower than the disconnect | ChatRelay.ClosedDuringLookupStaysRegistered | ChatRelay.Registry.CompleteConnect |
| oop/inheritance/implementations.ts:52 | `BubbleSorter.sort` swaps neighbours without comparing them, so it reverses the copy. | [1, 2] gives [2, 1]. | Swap only when `new_array[j] > new_array[j + 1]`, so the copy comes out ascending. | not executed | Sorters.BubbleSorterSortUnsorted | Sorters.BubbleSort |
