# Todo list service: connection pools and request helpers, in Dafny

This project models the core of a small Java todo-list web service. The
main subject is its database connection-pool manager, which the
repository implements four times:

- `DatabaseManagerImpl` (v1): a LIFO idle list, a leased list and a
  periodic health check that drops broken connections and tops the idle
  list back up to five.
- `DatabaseManagerImplv2` (v2): the same pool without the health check.
- `DatabaseManagerImplv3` (v3): a bounded FIFO queue of ten.
- `DatabaseManagerImplv4` (v4): a lock, last-use timestamps, a guarded
  release and a sweep that closes connections idle for more than five
  minutes.

Each pool is a Dafny `class` whose fields are the Java fields: `seq` for
the lists and the queue, `map` for the timestamps. Every public method is
one atomic step that changes those fields. Each class carries a
`Valid()` invariant where the source keeps one (v3, v4). Misuse that the
source does not prevent is shown by small client methods that return
what they observe.

Around the pools sit the request helpers:

- the three `parseQuery` copies;
- `Integer.parseInt`, `String.split` and `lastIndexOf`/`substring`, as
  the handlers use them;
- the in-memory todo lists of `TodosHandler` and `TodoListHttpServer`;
- the hand-built JSON array of `TodoListHttpServer.handleGet`;
- the Content-Type gate, method dispatch and path ids of `TodoController`;
- `printBinary`;
- pagination in `TodoRepository`;
- the two `ConfigLoader` classes, with `db.properties` as a map.

Modelling choices:

- A connection is a number (`ConnId`).
- `createConnection()` is an input: `Some(c)` is the new connection, and
  `None` is the `RuntimeException` it throws when the driver fails.
- `isClosed()` is an input set `broken` of the connections that report
  closed or whose probe throws. The source treats both the same way.
- A ghost set `closed` records the connections the pool has closed itself.
- `System.currentTimeMillis()` is an input `now`.
- A handler's answer is its status code (`Outcome.Status`), or `Aborted`
  when an exception escapes the handler.
- Repository calls that need the database are inputs: `present`,
  `updated`, `deleted` and `created`.

## Model

| member | source | states |
|---|---|---|
| JavaText.Wrap32 | app/src/main/java/todolist/repositories/TodoRepository.java:131 | Java `int` arithmetic: values in range are kept, and every result is congruent to the exact value modulo 2^32 |
| JavaText.Wrap64 | app/src/main/java/todolist/repositories/TodoRepository.java:131 | Java `long` arithmetic: the result lies in the `long` range, equals the exact value when that fits, and is congruent to it modulo 2^64 |
| JavaText.IntToDecimal | app/src/main/java/todolist/repositories/TodoRepository.java:105 | `String.valueOf(int)`: a leading '-' exactly for a negative value, followed by digits that spell its magnitude |
| JavaText.ParseInt | app/src/main/java/todolist/TodosHandler.java:108 | `Integer.parseInt` succeeds only on a non-empty string that starts with a sign or digit and continues with digits only; a negative result needs a leading '-' |
| JavaText.ParseIntOfDecimal | app/src/main/java/todolist/repositories/TodoRepository.java:105-107 | `Integer.parseInt(String.valueOf(n))` gives back `n` for every `int` `n` |
| JavaText.ParseIntRejectsNonNumeric | app/src/main/java/todolist/controllers/TodoController.java:142-143 | a string with a character that is not a digit after the optional sign does not parse (`NumberFormatException`) |
| JavaText.ParseIntOfDigits | app/src/main/java/todolist/controllers/TodoController.java:81-83 | an unsigned digit string parses exactly when its value is at most `Integer.MAX_VALUE`, and then to that value |
| JavaText.IndexOf | app/src/main/java/todolist/controllers/TodoController.java:233 | `indexOf(c)`: the first position holding `c`, with no `c` before it, or the length when `c` does not occur |
| JavaText.Split | app/src/main/java/todolist/controllers/TodoController.java:233-235 | `split(c)`: no piece holds `c`; a string without `c` comes back whole; no pieces at all only when the string is nothing but `c`; otherwise the last piece is not empty |
| JavaText.SplitJoin | app/src/main/java/todolist/controllers/TodoController.java:233-235 | splitting on a one-character separator undoes joining separator-free pieces whose last piece is not empty (trailing empty strings are dropped) |
| JavaText.JoinSplitAll | app/src/main/java/todolist/controllers/TodoController.java:233 | the pieces of a string cut at every separator join back into that string |
| JavaText.TrailingSegment | app/src/main/java/todolist/controllers/TodoController.java:80 | `substring(lastIndexOf('/') + 1)` is a suffix of the path, contains no '/', and is preceded by '/' unless it is the whole path |
| JavaText.TrailingSegmentAfterSlash | app/src/main/java/todolist/controllers/TodoController.java:80 | whatever precedes the last '/', the segment after it is exactly what is extracted |
| JavaText.Contains | app/src/main/java/todolist/controllers/TodoController.java:30 | `contains` holds exactly when the searched string starts at some position of the text |
| JavaText.ContainsInfix | app/src/main/java/todolist/controllers/TodoController.java:30 | `contains` holds for any text surrounding the searched string |
| Query.PairOf | app/src/main/java/todolist/controllers/TodoController.java:235-238 | a piece contributes a pair exactly when splitting it on '=' gives two parts, and the pair is those two parts |
| Query.ParseQuery | app/src/main/java/todolist/controllers/TodoController.java:226-242 | the loop over the '&' pieces builds the map `Params` defines; a null query gives the empty map (identical copies at TodosHandler.java:187-203 and TodoListHttpServer.java:129-145) |
| Query.Params | app/src/main/java/todolist/TodosHandler.java:194-201 | the keys of the map are exactly the keys of the pieces that split into two parts on '=' |
| Query.Lookup | app/src/main/java/todolist/TodoListHttpServer.java:99-100 | `params.get(key)` is absent for a null query; otherwise present exactly when some piece splits into that key and a value, and then equal to the value of the last such piece |
| Query.ParamsHasKey | app/src/main/java/todolist/controllers/TodoController.java:234-238 | a key is in the map if and only if some piece splits into exactly that key and a value |
| Query.ParamsLastWins | app/src/main/java/todolist/controllers/TodoController.java:237 | when a key appears twice, the later piece's value is kept |
| Query.ParamsBindingIsLast | app/src/main/java/todolist/controllers/TodoController.java:234-238 | every value in the map comes from the last piece that carries its key |
| Query.ParseQueryOfEncode | app/src/main/java/todolist/controllers/TodoController.java:233-238 | parsing `k1=v1&k2=v2&…` built from well-formed pairs gives back their map |
| Query.EmptyValueDropped | app/src/main/java/todolist/controllers/TodoController.java:235-236 | a piece `k=` is ignored, because split drops the trailing empty value |
| Query.EmptyKeyKept | app/src/main/java/todolist/controllers/TodoController.java:235-237 | a piece `=v` binds the empty key |
| PoolCommon.RemoveFirst | app/src/main/java/todolist/utils/database/DatabaseManagerImpl.java:132 | `List.remove(Object)` removes one occurrence: the multiset loses exactly one copy, and an absent element leaves the list unchanged |
| PoolCommon.RemoveFirstNoDuplicates | app/src/main/java/todolist/utils/database/DatabaseManagerImplv4.java:164 | in a duplicate-free list, removal deletes every trace of the element and keeps the list duplicate-free |
| PoolCommon.Without | app/src/main/java/todolist/utils/database/DatabaseManagerImpl.java:91-102 | `removeIf`: the survivors are exactly the elements not removed, none are added, a list with nothing to remove is unchanged, and a duplicate-free list stays so |
| PoolCommon.WithoutMultiset | app/src/main/java/todolist/utils/database/DatabaseManagerImpl.java:91-102 | each surviving element keeps its number of occurrences; a removed element has none left |
| PoolCommon.WithoutAppend | app/src/main/java/todolist/utils/database/DatabaseManagerImpl.java:91-102 | removal distributes over concatenation, so the survivors keep their original order |
| PoolV1.TopUp | app/src/main/java/todolist/utils/database/DatabaseManagerImpl.java:105-108 | the refill loop appends new connections in creation order until the idle list has five; if a creation throws, it stops at that position below five |
| PoolV1.DatabaseManager.constructor | app/src/main/java/todolist/utils/database/DatabaseManagerImpl.java:26-40 | five pre-warmed idle connections, nothing leased, health check started |
| PoolV1.DatabaseManager.GetConnection | app/src/main/java/todolist/utils/database/DatabaseManagerImpl.java:115-127 | takes the most recently added idle connection; with none idle it creates one when fewer than ten are leased, otherwise it fails with pool exhausted |
| PoolV1.DatabaseManager.ReleaseConnection | app/src/main/java/todolist/utils/database/DatabaseManagerImpl.java:130-133 | appends to the idle list unconditionally and removes one occurrence from the leased list |
| PoolV1.DatabaseManager.HealthCheck | app/src/main/java/todolist/utils/database/DatabaseManagerImpl.java:84-111 | one timer tick drops the broken idle connections, then tops up to five; if a creation throws, the timer thread dies |
| PoolV1.DatabaseManager.GetPoolSize | app/src/main/java/todolist/utils/database/DatabaseManagerImpl.java:136-138 | counts idle connections only |
| PoolV1.DatabaseManager.Shutdown | app/src/main/java/todolist/utils/database/DatabaseManagerImpl.java:141-147 | closes every leased and idle connection, empties both lists, leaves the timer running |
| PoolV1.DoubleReleaseLeasesTwice | app/src/main/java/todolist/utils/database/DatabaseManagerImpl.java:130-133 | after one connection is released twice, two calls to getConnection both return it |
| PoolV1.TopUpOvershootsCapacity | app/src/main/java/todolist/utils/database/DatabaseManagerImpl.java:105-108 | the refill ignores leased connections, so more than ten can be open at once |
| PoolV1.SweepRefillsAfterShutdown | app/src/main/java/todolist/utils/database/DatabaseManagerImpl.java:141-147 | after shutdown, the still-running timer refills the pool to five |
| PoolV2.DatabaseManager.constructor | app/src/main/java/todolist/utils/database/DatabaseManagerImplv2.java:24-32 | five pre-warmed idle connections, nothing leased |
| PoolV2.DatabaseManager.GetConnection | app/src/main/java/todolist/utils/database/DatabaseManagerImplv2.java:77-89 | same LIFO lease and exhaustion rule as v1 |
| PoolV2.DatabaseManager.ReleaseConnection | app/src/main/java/todolist/utils/database/DatabaseManagerImplv2.java:92-95 | appends unconditionally, removes one leased occurrence |
| PoolV2.DatabaseManager.GetPoolSize | app/src/main/java/todolist/utils/database/DatabaseManagerImplv2.java:98-100 | counts idle connections only |
| PoolV2.DatabaseManager.Shutdown | app/src/main/java/todolist/utils/database/DatabaseManagerImplv2.java:103-108 | closes every leased and idle connection and empties both lists |
| PoolV2.RepeatedReleaseOvershootsCapacity | app/src/main/java/todolist/utils/database/DatabaseManagerImplv2.java:92-95 | releasing one connection again and again grows the idle list past ten, all copies of it |
| PoolV3.DatabaseManager.constructor | app/src/main/java/todolist/utils/database/DatabaseManagerImplv3.java:22-30 | a queue of capacity ten holding the five pre-warmed connections |
| PoolV3.DatabaseManager.GetConnection | app/src/main/java/todolist/utils/database/DatabaseManagerImplv3.java:64-72 | takes the head of the queue (FIFO); on an empty queue `take` would block, and nothing changes |
| PoolV3.DatabaseManager.ReleaseConnection | app/src/main/java/todolist/utils/database/DatabaseManagerImplv3.java:75-87 | queues at the tail while there is room, closes the connection otherwise; the queue never exceeds ten |
| PoolV3.DatabaseManager.GetPoolSize | app/src/main/java/todolist/utils/database/DatabaseManagerImplv3.java:90-92 | the queue length |
| PoolV3.DatabaseManager.Shutdown | app/src/main/java/todolist/utils/database/DatabaseManagerImplv3.java:95-99 | closes and removes the queued connections; leased ones stay open |
| PoolV3.QueueIsFirstInFirstOut | app/src/main/java/todolist/utils/database/DatabaseManagerImplv3.java:64-72 | connections come out in the order they went in |
| PoolV3.ReleaseBeyondCapacityCloses | app/src/main/java/todolist/utils/database/DatabaseManagerImplv3.java:75-87 | a release into a full queue closes the connection instead of queueing it |
| PoolV4.Evicted | app/src/main/java/todolist/utils/database/DatabaseManagerImplv4.java:96-114 | a sweep drops exactly the idle connections that are broken or idle for more than 300000 ms |
| PoolV4.DatabaseManager.constructor | app/src/main/java/todolist/utils/database/DatabaseManagerImplv4.java:35-46 | empty pool, no timestamps, sweep started |
| PoolV4.DatabaseManager.GetConnection | app/src/main/java/todolist/utils/database/DatabaseManagerImplv4.java:123-157 | LIFO lease; a broken idle connection is replaced by a new one; with none idle, a new one is leased while fewer than ten are leased; every lease gets a timestamp; no duplicates and at most ten connections are kept |
| PoolV4.DatabaseManager.ReleaseConnection | app/src/main/java/todolist/utils/database/DatabaseManagerImplv4.java:160-170 | only a leased, non-null connection returns to the idle list with a fresh timestamp; anything else changes nothing |
| PoolV4.DatabaseManager.HealthCheck | app/src/main/java/todolist/utils/database/DatabaseManagerImplv4.java:88-120 | removes the evicted idle connections and their timestamps, closes the timed-out ones, and leaves no broken or stale idle connection |
| PoolV4.DatabaseManager.GetPoolSize | app/src/main/java/todolist/utils/database/DatabaseManagerImplv4.java:173-175 | counts idle connections only |
| PoolV4.DatabaseManager.Shutdown | app/src/main/java/todolist/utils/database/DatabaseManagerImplv4.java:178-186 | stops the sweep, closes every connection, clears lists and timestamps |
| PoolV4.DoubleReleaseIsIgnored | app/src/main/java/todolist/utils/database/DatabaseManagerImplv4.java:164-167 | releasing the same connection twice returns it to the idle list once |
| PoolV4.EleventhLeaseIsRefused | app/src/main/java/todolist/utils/database/DatabaseManagerImplv4.java:126-134 | with ten leased and none idle, the next request fails with pool exhausted |
| TodosHandler.Handler.constructor | app/src/main/java/todolist/TodosHandler.java:18 | the list starts empty |
| TodosHandler.Handler.HandlePost | app/src/main/java/todolist/TodosHandler.java:80-92 | the body is appended and 201 is answered |
| TodosHandler.Handler.HandlePatch | app/src/main/java/todolist/TodosHandler.java:95-138 | as written: 400 for an empty list or a bad id, 404 for a negative id, an uncaught exception for an id past the end, otherwise the entry is replaced and 200 is answered |
| TodosHandler.Handler.HandlePatchChecked | app/src/main/java/todolist/TodosHandler.java:118-125 | corrected: every index outside the list answers 404 and nothing escapes; 200 exactly for a valid index, which is replaced |
| TodosHandler.Handler.HandleDelete | app/src/main/java/todolist/TodosHandler.java:141-184 | an empty list answers 200 unchanged; a missing or non-numeric `id` gives 400; an index in range is removed with 200, else 404 |
| TodosHandler.Handler.Handle | app/src/main/java/todolist/TodosHandler.java:21-48 | GET answers 200 and leaves the list alone; POST appends with 201; PATCH and DELETE answer and change the list exactly as `handlePatch` (so an id past the end throws) and `handleDelete` do; other methods get 405; only PATCH can throw |
| TodosHandler.PatchPastEndAborts | app/src/main/java/todolist/TodosHandler.java:118 | on a one-entry list, PATCH of index 1 throws as written and answers 404 when bounds-checked |
| TodoListHttpServer.PortFromEnv | app/src/main/java/todolist/TodoListHttpServer.java:20-28 | the port is `PORT` when it parses as an int, and 8080 when it is unset or does not parse |
| TodoListHttpServer.PortFromDecimal | app/src/main/java/todolist/TodoListHttpServer.java:22-25 | any int written in decimal in `PORT` becomes the port |
| TodoListHttpServer.Items | app/src/main/java/todolist/TodoListHttpServer.java:66-71 | nothing for no items; otherwise text that starts and ends with a quote, two quotes per item plus one comma between neighbours around the items' characters |
| TodoListHttpServer.Render | app/src/main/java/todolist/TodoListHttpServer.java:65-72 | the body is bracketed by '[' and ']', is `[]` exactly for the empty list, and has three characters per item plus the items' own and the brackets |
| TodoListHttpServer.ItemsSnoc | app/src/main/java/todolist/TodoListHttpServer.java:66-71 | appending an item to the list appends a comma and its quoted text to the rendering |
| TodoListHttpServer.DecodeRender | app/src/main/java/todolist/TodoListHttpServer.java:64-72 | items without a double quote are recovered from the rendered array |
| TodoListHttpServer.RenderIsAmbiguous | app/src/main/java/todolist/TodoListHttpServer.java:67 | with no escaping, one item holding `","` renders exactly like two items |
| TodoListHttpServer.RenderedStep | app/src/main/java/todolist/TodoListHttpServer.java:66-71 | one loop iteration adds the quoted item, then a comma unless it is the last |
| TodoListHttpServer.Server.constructor | app/src/main/java/todolist/TodoListHttpServer.java:18 | the list starts empty |
| TodoListHttpServer.Server.HandleGet | app/src/main/java/todolist/TodoListHttpServer.java:64-79 | the StringBuilder loop produces `Render` of the list, with status 200 |
| TodoListHttpServer.Server.HandlePost | app/src/main/java/todolist/TodoListHttpServer.java:82-94 | the body is appended and 201 is answered |
| TodoListHttpServer.Server.HandleDelete | app/src/main/java/todolist/TodoListHttpServer.java:97-126 | missing or non-numeric `id` gives 400; an index in range is removed with 200; any other index gives 404, even on an empty list |
| TodoListHttpServer.Server.Handle | app/src/main/java/todolist/TodoListHttpServer.java:41-62 | GET answers 200 with the rendered list; POST appends with 201; DELETE answers and changes the list exactly as `handleDelete` does; other methods get 405 and change nothing; no exception escapes |
| TodoController.AnyJson | app/src/main/java/todolist/controllers/TodoController.java:30 | `anyMatch` holds exactly when some header value contains `application/json` |
| TodoController.Dispatch | app/src/main/java/todolist/controllers/TodoController.java:25-54 | 400 exactly when the header is missing or no value contains `application/json`; otherwise GET/POST/PATCH/DELETE go to their handler and every other method gets 405 |
| TodoController.JsonWithCharsetIsAccepted | app/src/main/java/todolist/controllers/TodoController.java:30 | a value such as `application/json; charset=UTF-8` passes the gate |
| TodoController.GetTodoId | app/src/main/java/todolist/controllers/TodoController.java:77-87 | GET has an id exactly when the trailing segment is a non-empty digit string whose value fits in an int; the id is that value and never negative |
| TodoController.PathId | app/src/main/java/todolist/controllers/TodoController.java:139-151 | PATCH and DELETE read whatever `Integer.parseInt` makes of the trailing segment; a failure means an empty, non-digit or oversized segment |
| TodoController.GetIdIsPathId | app/src/main/java/todolist/controllers/TodoController.java:80-82 | every id GET accepts is read identically by PATCH and DELETE |
| TodoController.GetTodoIdOfDecimal | app/src/main/java/todolist/controllers/TodoController.java:79-83 | a non-negative id written after the last '/' is read back by GET |
| TodoController.SignedIdOnlyForPatchAndDelete | app/src/main/java/todolist/controllers/TodoController.java:81 | `/todos/-1` carries id -1 for PATCH and DELETE, while GET treats it as no id |
| TodoController.HandleGet | app/src/main/java/todolist/controllers/TodoController.java:76-107 | always 200; the whole list exactly when there is no id, otherwise the todo or a not-found message depending on whether it exists |
| TodoController.PostStatus | app/src/main/java/todolist/controllers/TodoController.java:110-135 | 201 exactly when a todo was created, 400 otherwise |
| TodoController.PatchStatus | app/src/main/java/todolist/controllers/TodoController.java:138-187 | 400 for an unparsable id, 404 for an unknown one, 200 exactly when the todo exists and was updated, 400 when it exists but the update fails or the body is bad |
| TodoController.DeleteStatus | app/src/main/java/todolist/controllers/TodoController.java:190-218 | 400 exactly for an unparsable id, 200 exactly when the todo was deleted, 404 otherwise |
| TodoController.MissingIdIsBadRequest | app/src/main/java/todolist/controllers/TodoController.java:142-143 | a path ending in '/' is a bad PATCH and a bad DELETE |
| TodoController.ToBinaryString | app/src/main/java/todolist/controllers/TodoController.java:249 | `Integer.toBinaryString` of a non-negative value spells that value in bits with no leading zero |
| TodoController.Format8 | app/src/main/java/todolist/controllers/TodoController.java:249 | `String.format("%8s", s)`: at least eight characters, `s` at the right end, spaces before it |
| TodoController.ReplaceSpaces | app/src/main/java/todolist/controllers/TodoController.java:250 | `replace(' ', '0')`: same length, every space becomes '0' and every other character is kept |
| TodoController.Unsigned | app/src/main/java/todolist/controllers/TodoController.java:249-250 | `b & 0xFF` lies in 0..255 and is congruent to the byte modulo 256 |
| TodoController.ByteBitsValue | app/src/main/java/todolist/controllers/TodoController.java:249-250 | each byte prints as exactly eight bits that spell its unsigned value |
| TodoController.ByteBitsInjective | app/src/main/java/todolist/controllers/TodoController.java:249-250 | two different bytes never print the same |
| TodoController.BinaryBlocks | app/src/main/java/todolist/controllers/TodoController.java:247-251 | the output has 8 × the byte count bits, and block i is byte i's rendering |
| TodoController.PrintBinary | app/src/main/java/todolist/controllers/TodoController.java:245-253 | the StringBuilder loop produces eight bits per byte, in order (identical copy at TodosHandler.java:51-59) |
| TodoRepository.ParsePaginationOrDefault | app/src/main/java/todolist/repositories/TodoRepository.java:104-118 | the parameter when it parses to a positive int, otherwise the default; so the result is positive or the default |
| TodoRepository.MissingKeyGivesDefault | app/src/main/java/todolist/repositories/TodoRepository.java:105 | an absent key yields the default, whatever its sign |
| TodoRepository.PositiveValueKept | app/src/main/java/todolist/repositories/TodoRepository.java:107-109 | a positive decimal value is taken as is |
| TodoRepository.PaginationAsWritten | app/src/main/java/todolist/repositories/TodoRepository.java:129-131 | page and per_page are at least 1; the int offset equals (page - 1) × perPage whenever that fits in an int |
| TodoRepository.PaginationOf | app/src/main/java/todolist/repositories/TodoRepository.java:129-131 | corrected: the offset is exactly (page - 1) × perPage, never negative, computed in long |
| TodoRepository.DefaultPagination | app/src/main/java/todolist/repositories/TodoRepository.java:120-122 | `getTodos()` is page 1 of 10 rows from offset 0 |
| TodoRepository.AsWrittenAgreesWhileInRange | app/src/main/java/todolist/repositories/TodoRepository.java:131 | the int and long offsets agree whenever the product fits in an int |
| TodoRepository.OffsetOverflows | app/src/main/java/todolist/repositories/TodoRepository.java:131 | page 65537 with 32768 per page gives the negative int offset -2^31 |
| ConfigFailure.FirstMissing | app/src/main/java/todolist/utils/loader/ConfigLoader.java:19-23 | the index of the first requested key that the properties lack, with all earlier keys present; none exactly when every key is present |
| ConfigFailure.Collected | app/src/main/java/todolist/utils/loader/ConfigLoader.java:18-27 | the map's keys are exactly the requested keys, each bound to its property value |
| LoaderConfigLoader.LoadKeys | app/src/main/java/todolist/utils/loader/ConfigLoader.java:9-32 | a missing file fails as "not set"; otherwise the first missing key fails with its name; otherwise the requested keys and their values; every failure is "Error loading configuration." |
| LoaderConfigLoader.LoadRenamed | app/src/main/java/todolist/utils/loader/ConfigLoader.java:34-59 | fails when the file or some original key is missing, naming that key; otherwise the result's keys are exactly the mapped names, each holding the value of an original key mapped to it, and exactly that key's value when no two keys share a name |
| LoaderConfigLoader.LoadKey | app/src/main/java/todolist/utils/loader/ConfigLoader.java:61-76 | only a missing file fails; otherwise the value is present exactly when the key is, and null otherwise |
| ConfigConfigLoader.LoadKeys | app/src/main/java/todolist/utils/config/ConfigLoader.java:9-35 | a missing file fails as "not set"; any missing key fails as "not fully set"; otherwise the requested keys and their values; every failure is "Error loading configuration." |

## Left out

- JDBC: a connection is a number and `isClosed()` is an input. Opening, closing and driver errors are not modelled beyond that.
- Threads, `synchronized`, the v4 `ReentrantLock` and the v3 `BlockingQueue` locking: each public method is one atomic step.
- Timer and executor scheduling: one call to `HealthCheck` is one tick. The 60-second period is not modelled.
- `System.currentTimeMillis()` is the input `now`.
- `loadDatabaseConfig` and the `Runtime.addShutdownHook` registrations: classpath resource I/O and JVM hooks.
- Pool constructors take their five pre-warmed connections as an input, so a creation failure during pre-warm is not modelled.
- `releaseConnection(null)` in v1, v2 and v3 is not modelled; connections are plain numbers there. For v3, `put(null)` would throw a `NullPointerException`. The v4 release takes an `Option` because its null check matters.
- `InterruptedException` in v3 and `SQLException` from `close()` are not modelled.
- PoolV3.DatabaseManager.GetConnection: a `take` on an empty queue blocks until another thread releases. The model answers `None` and changes nothing.
- HTTP I/O: `HttpExchange`, response bodies, headers set on the response, and `exchange.close()`. Only status codes are modelled.
- Gson serialisation: the `TodosHandler.handleGet` body and every JSON body in `TodoController`.
- TodoController.HandleGet: the body is abstracted to which todo it shows. Its JSON text is not modelled.
- TodoController.PostStatus, TodoController.PatchStatus, TodoController.DeleteStatus: the repository results are inputs. The SQL behind them is not modelled.
- The SQL, Redis and Mongo repository bodies, Kafka, App wiring and the entity classes are outside the core.
- JavaText.ParseInt: accepts ASCII digits only. Java's `Character.digit` also accepts other Unicode decimal digits.
- TodoController.PrintBinary: takes the bytes `str.getBytes()` would produce. The platform default charset is not modelled.
- TodoListHttpServer.PortFromEnv: `HttpServer.create` rejects ports outside 0..65535. That check belongs to the JDK and is not modelled.
- LoaderConfigLoader.LoadRenamed: `HashMap` iteration order is not modelled. When several original keys are missing, the model only says that the failure names one of them. When two original keys map to one name, it only says that one of their values is kept.
- `Properties.load` I/O errors are not modelled: the properties are either missing (`None`) or a map.

## Findings

| source | as written | input that shows it | evidently intended | confidence | as-written member | corrected member |
|---|---|---|---|---|---|---|
| app/src/main/java/todolist/utils/database/DatabaseManagerImpl.java:130-133 | `releaseConnection` appends to the idle list whether or not the connection was leased (the same in DatabaseManagerImplv2.java:92-95) | lease connection 5, release it twice, then lease twice | a connection is handed to one caller at a time; only a leased connection returns to the pool, as v4 does | high, not executed | PoolV1.DoubleReleaseLeasesTwice | PoolV4.DatabaseManager.ReleaseConnection |
| app/src/main/java/todolist/TodosHandler.java:118 | `todoList.get(todoId)` runs on an id past the end of the list; the `IndexOutOfBoundsException` escapes the handler | a list with one entry, PATCH `/todos/1` | answer 404, as the message for a missing item says | high, not executed | TodosHandler.PatchPastEndAborts | TodosHandler.Handler.HandlePatchChecked |
| app/src/main/java/todolist/repositories/TodoRepository.java:131 | `(page - 1) * perPage` is computed in `int` and wraps around | `page=65537&per_page=32768`: the offset becomes -2147483648 | a non-negative offset equal to the product | medium, not executed | TodoRepository.OffsetOverflows | TodoRepository.PaginationOf |
