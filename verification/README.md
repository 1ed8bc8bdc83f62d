# Verified model of the Django starter's stateful cores

The starter is mostly wiring around Django; a dozen self-contained pieces of it carry real invariants. This project
models those pieces in Dafny, branch by branch, and proves what their code, comments and documentation promise, or,
where a promise is not kept, exactly when it is.

`dafny verify dfyconfig.toml` checks everything.

## The modules

| file | models |
|---|---|
| `BreadthFirst`, `CascadeGraph`, `SoftDelete` | the soft delete and its depth-capped breadth-first cascade over a mutable, possibly cyclic graph of rows |
| `FireAndForget` | the bounded fire-and-forget queue: producers, consumer thread, executor, `stop` and the lock-guarded drop counter, as interleaved atomic steps |
| `ShutdownDrain` | `drain` and `drain_all` against one shared deadline |
| `LogEscaping`, `LogRedaction`, `LogRecovery` | the log sanitizer: escaping passes, the cut in the middle, recursive redaction, and what can be read back from the log |
| `ExceptionStatus` | the exception-to-status map: first-match lookup, and its cache under double-checked locking |
| `EngineCache` | the SQLAlchemy engine cache, its second dictionary, and disposal outside the lock |
| `ApiKeys` | creation, prefix lookup, row-locked revocation and soft deletion of API keys |
| `TextSearch`, `TextFile`, `BlockSplice`, `SettingsDoc` | the generated block of `docs/configuration.md` and its `--write` / `--check` modes |
| `Pagination` | page numbers, slices, `total_pages` and `has_next` |
| `DomainContext` | nested `domain_context` blocks and the logging filter |
| `Rbac` | the resource registry, the permission backend and the per-request permission cache |
| `Wrappers`, `Numerals` | `Option`; decimal and hexadecimal digits |

Concurrent pieces are state machines: a thread's program counter names the statement it is about to run, each
statement that touches shared state is one atomic step, and every theorem is about all runs, of any length, of any
number of threads. Sequential pieces that change state are classes and methods, proved against specification functions.

## Where code and documentation part

The model follows the code.

- `stop` is documented to "drain and stop" the consumer. It does not: once the flag is set the consumer takes at most
  one more task and leaves the rest in the queue, tasks accepted after the stop included
  (`FireAndForget.StopBoundsWork`, `FireAndForget.StopAbandonsTheQueue`, `FireAndForget.StopCanLoseWork`).
- `drain` is documented to block until tasks are submitted to the executor. It watches the queue only, so one task can
  still be in the consumer's hand or have been refused (`FireAndForget.EmptyQueueHidesAtMostOneTask`,
  `FireAndForget.DrainCanHideATask`); the unfinished count tells (`FireAndForget.NoneUnfinishedIff`).
- The cascade's depth cap is documented as the protection against cycles. The walk ends on every table without it; what
  the cap does is leave active rows behind, and the warning also fires for a row at the cap that has no children
  (`SoftDelete.Database.CascadeSoftDeleteBfs`, `SoftDelete.NoOrphansIffNothingBeyondCap`, `SoftDelete.CapLeavesAnActiveChild`).
- The sanitizer is documented to keep newlines and control characters out of the log. It escapes the characters below 32
  only: DEL, the block C1 and the Unicode line separators pass unchanged (`LogEscaping.ControlSurvivesIff`,
  `LogEscaping.LineBreakSurvivesIff`, `LogEscaping.SomeControlsAreLogged`), and dict keys are copied without any escaping
  (`LogRedaction.LogIsCleanIff`, `LogRedaction.KeyWithLineBreakIsLogged`).
- `max_length` does not always bound a cut text: below 22 the halves are zero or negative slices and the result is longer
  than the limit and than the bound that holds from 22 up (`LogEscaping.CutIsBoundedIff`); from 22 up it is within the limit
  itself only while the value's length has few enough digits (`LogEscaping.CutFitsIff`). A negative width limit breaks the width bounds
  (`LogRedaction.DictWidthIff`, `LogRedaction.ItemsWidthIff`).
- Prose around the block of the settings document is documented to be preserved. With the end marker only before the begin
  marker, everything after the begin marker is dropped (`BlockSplice.ProseIsKeptIff`, `SettingsDoc.WrongOrderLosesProse`). `--check` fails straight after `--write` for a
  document with a begin marker and no end marker, whose text behind the marker the second write drops
  (`SettingsDoc.HalfBlockFailsCheck`, `BlockSplice.HalfBlockLosesProse`); and after any number of writes when a variable's
  name, type or default holds the end marker, where the document grows with every write, or a carriage return, which
  reading a file turns into a newline (`SettingsDoc.WriteThenCheckIff`, `SettingsDoc.MarkedTablesGrow`,
  `SettingsDoc.MarkedDefaultNeverChecks`, `SettingsDoc.ReturnInNameNeverChecks`).
- One `dispose()` that raises makes `dispose_all_engines` skip the rest of its list: those engines are out of
  the cache and never disposed (`EngineCache.EnginesAreConserved`, `EngineCache.RunSkipsIff`, `EngineCache.OneRaiseCanSkip`).
- For a key with characters outside ASCII whose first eight characters are a live prefix, the constant-time comparison
  raises instead of rejecting (`ApiKeys.LookupAgreesWithScanIff`, `ApiKeys.LookupCanRaise`).
- The permission cache's key does not name the user, so `user_has_permission` for one user on a request can be answered
  for another who asked first (`Rbac.CacheIsRightIff`, `Rbac.CacheMixesUsers`).
- A page number below one shows page one while `has_next` counts from the number given, so following `has_next` from there
  repeats rows (`Pagination.WalkIsPartitionIff`).

## Model

The results come first, component by component; the rows after them, marked *step*, are the steps those results rest on.

| member | source | states |
|---|---|---|
| `SoftDelete.Database.Delete` | apps/core/base/service.py:352-385 | which of the four ways a delete ends; a soft one deactivates and stamps exactly the rows within the cap of the root over chains of active CASCADE children, each written once, and each row but the root because a cascading foreign key of it names the root or another row changed; otherwise nothing is changed here |
| `SoftDelete.Database.CascadeSoftDeleteBfs` | apps/core/base/service.py:387-433 | terminates on every table; deactivates exactly the reach minus the root, once each; pops each reached row once; warns exactly once for each row whose shortest distance is the cap |
| `SoftDelete.NoOrphansIffNothingBeyondCap` | apps/core/base/service.py:391-394 | no active CASCADE child of a deactivated row is left exactly when no row lies one step beyond the cap, and then the whole closure was taken |
| `SoftDelete.OrphansAreBeyondTheCap` | apps/core/base/service.py:405-415 | the rows left hanging are exactly those at distance cap + 1 |
| `SoftDelete.CapLeavesAnActiveChild` | apps/core/base/service.py:391-394 | for every cap, a chain one row longer than it reaches keeps an active CASCADE child of a deactivated row |
| `CascadeGraph.ReachIsByChains` | apps/core/base/service.py:403-433 | the reach is exactly the ends of chains of at most so many CASCADE foreign keys over initially active rows |
| `CascadeGraph.ReachIsClosedBelow` | apps/core/base/service.py:416-433 | every row reached but the root is active and refers, by a cascading foreign key to a soft-deletable model, to a row reached before it; and every such row of a row above the cap is reached |
| `CascadeGraph.NothingCascades` | apps/core/base/service.py:417-418 | where no foreign key cascades only the root is reached |
| `SoftDelete.ChangedRowsHang` | apps/core/base/service.py:416-433 | a row changed by the cascade refers by a cascading key to the root or to another row that was changed |
| `BreadthFirst.FinishedSearch` | apps/core/base/service.py:403-433 | a finished search has seen exactly the nodes within the cap, each recorded at its shortest distance |
| `BreadthFirst.WithinIsBoundedReachability` | apps/core/base/service.py:403-433 | the layers are bounded reachability by paths |
| `BreadthFirst.LayersSaturate` | apps/core/base/service.py:405-415 | once one layer is empty nothing lies at any greater distance |
| `FireAndForget.DeliveryFromStart` | apps/core/dispatch/fire_and_forget.py:69-104 | in every reachable state accepted = handed over ++ refused ++ in hand ++ queued, in order; at most one refused or in hand; a positive capacity is never exceeded; the unfinished count is exact |
| `FireAndForget.EmptyQueueHidesAtMostOneTask` | apps/core/dispatch/fire_and_forget.py:113-126 | with the queue seen empty, all accepted tasks are handed over exactly when none is in hand or refused; at most one is missing |
| `FireAndForget.NoneUnfinishedIff` | apps/core/dispatch/fire_and_forget.py:88-126 | the same from what a caller can read: with the executor up, no unfinished task means all are handed over and accounted for, and conversely |
| `FireAndForget.NoneUnfinishedMeansDelivered` | apps/core/dispatch/fire_and_forget.py:88-126 | on every run, no unfinished task and the executor up mean that everything accepted was handed over in order |
| `FireAndForget.DrainCanHideATask` | apps/core/dispatch/fire_and_forget.py:113-126 | a three-step run to an empty queue with an accepted task not handed over |
| `FireAndForget.StopAbandonsTheQueue` | apps/core/dispatch/fire_and_forget.py:88-132 | on every run after stop that ends with the consumer gone, submissions accepted meanwhile included: it took at most one more task, exactly one if it waited in `get` with a task there, and left all others in the queue; with no later submission the number is determined |
| `FireAndForget.StopBoundsWork` | apps/core/dispatch/fire_and_forget.py:88-132 | in every state after stop, at most one task beyond those taken before has left the queue, only if the consumer was in `get`, and those taken are the first ones accepted |
| `FireAndForget.StoppedConsumerCanLeave` | apps/core/dispatch/fire_and_forget.py:88-132 | once stop is set the consumer can always leave without another submission |
| `FireAndForget.StopCanLoseWork` | apps/core/dispatch/fire_and_forget.py:128-132 | a four-step run in which an accepted task is neither handed over nor refused |
| `FireAndForget.DropCounterIsExact` | apps/core/dispatch/fire_and_forget.py:69-86 | the counter equals the completed increments, no snapshot is reported twice, and once producers are idle the reports are exactly 1 to n |
| `FireAndForget.SubmitAcceptsIff` | apps/core/dispatch/fire_and_forget.py:69-86 | in every reachable state a submission is accepted and queued last exactly when the capacity is not positive or fewer tasks than it are queued; otherwise nothing changes but its producer, which goes on to count the drop |
| `FireAndForget.DropsAreFullQueues` | apps/core/dispatch/fire_and_forget.py:69-86 | on every run the counter and the drops still on their way to it are together as many as the submissions that found exactly the capacity queued; with idle producers the counter alone |
| `FireAndForget.DropIsCounted` | apps/core/dispatch/fire_and_forget.py:74-86 | a producer turned away that gets the lock adds one, reports the new count, gives the lock back and is done, and touches nothing of the queue |
| `FireAndForget.ProducersDoNotBlock` | apps/core/dispatch/fire_and_forget.py:75-77 | a producer that has not returned can go on, or waits for the holder of the counter's lock, which can |
| `FireAndForget.EverythingCanBeDelivered` | apps/core/dispatch/fire_and_forget.py:88-104 | from every reachable state before stop, with the executor up, the consumer alone can hand over everything accepted and finish it |
| `FireAndForget.ConsumerLeavesForReason` | apps/core/dispatch/fire_and_forget.py:88-104 | the consumer leaves its loop only after stop or after a refusal, and refuses only with the executor down |
| `FireAndForget.ShutDownRefuses` | apps/core/dispatch/fire_and_forget.py:97-104 | a run for `stop` and one for interpreter exit in which the executor is shut down with a task in the consumer's hand, which is refused |
| `ShutdownDrain.Drain` | apps/core/dispatch/fire_and_forget.py:113-126 | looks first, then every 50 ms until empty or past the deadline; the last look decides the answer |
| `ShutdownDrain.DrainAll` | apps/core/dispatch/fire_and_forget.py:165-183 | True exactly when every queue was empty at its last look; total overrun below one sleep for any number of queues; no sleep without a budget |
| `LogEscaping.PassesAreOneMap` | apps/core/utils/log_sanitization.py:106-111 | the sequential passes equal one per-character map |
| `LogEscaping.EscapingIsDecodable` | apps/core/utils/log_sanitization.py:106-111 | a text decodes to a value exactly when it is the value's escape; so escaping is injective |
| `LogEscaping.SanitizedIsFreeOfC0` | apps/core/utils/log_sanitization.py:104-117 | no character below 32 is left for any value and limit, and an uncut result still tells the value |
| `LogEscaping.ControlSurvivesIff` | apps/core/utils/log_sanitization.py:106-111 | an escaped text has a control character exactly when the value has DEL or one of 128 to 159 |
| `LogEscaping.LineBreakSurvivesIff` | apps/core/utils/log_sanitization.py:106-111 | an escaped text breaks a line exactly when the value has U+0085, U+2028 or U+2029 |
| `LogEscaping.SanitizedControls` | apps/core/utils/log_sanitization.py:104-117 | the same for the whole function, where a cut can lose such characters and none is added |
| `LogEscaping.SomeControlsAreLogged` | apps/core/utils/log_sanitization.py:104-117 | three such characters that are logged as they are |
| `LogEscaping.CutIsBoundedIff` | apps/core/utils/log_sanitization.py:113-115 | a cut text has at most limit - 8 + digits characters exactly when the limit is at least 22, and then its halves do not overlap |
| `LogEscaping.CutFitsIff` | apps/core/utils/log_sanitization.py:113-115 | a cut text stays within the limit itself exactly when the limit is at least 22 and the value's length is below a power of ten |
| `LogRedaction.SanitizeValue` | apps/core/utils/log_sanitization.py:64-101 | the recursive dispatcher computes the specification of redaction |
| `LogRedaction.SanitizeDictForLog` | apps/core/utils/log_sanitization.py:120-155 | so does the loop over dict keys with its break, skip and truncation note |
| `LogRedaction.SanitizeIterableForLog` | apps/core/utils/log_sanitization.py:158-176 | and the loop over a sliced list |
| `LogRedaction.SecretsDoNotInterfere` | apps/core/utils/log_sanitization.py:64-176 | two values that differ only under excluded or sensitive keys (or past the limits), at any depth and inside lists, are logged identically |
| `LogRedaction.LogIsRedacted` | apps/core/utils/log_sanitization.py:137-155 | at any depth no excluded key is logged and a sensitive key holds only the mask; only an entry that reads as the truncation note is exempt |
| `LogRedaction.LogIsBounded` | apps/core/utils/log_sanitization.py:64-176 | at most six container levels, `max_keys + 1` entries and `max_items + 1` items |
| `LogRedaction.DictWidthIff` | apps/core/utils/log_sanitization.py:134-153 | the width of a dict is bounded exactly when the limit is not negative |
| `LogRedaction.ItemsWidthIff` | apps/core/utils/log_sanitization.py:166-174 | the width of a list is bounded exactly when the limit is not negative |
| `LogRedaction.LogIsCleanIff` | apps/core/utils/log_sanitization.py:64-176 | every text and key of the log, at any depth, is free of characters below 32 exactly when the shown keys, and the mask and type names where they are shown, are |
| `LogRedaction.KeyWithLineBreakIsLogged` | apps/core/utils/log_sanitization.py:141-150 | a dict key with a newline that is logged as it is |
| `LogRecovery.LogTells` | apps/core/utils/log_sanitization.py:64-176 | what the log still tells, for every value, limit and depth: null, booleans and numbers are unchanged; a text decodes to the value or is cut by the stated halves and length; bytes tell their length; every key that is not excluded and every item is there, in order, up to the limits, and the notes tell how many are not |
| `LogRecovery.PlainIsReadBack` | apps/core/utils/log_sanitization.py:64-176 | a value with nothing hidden and nothing over a limit is read back from its log |
| `LogRecovery.PlainLogsDiffer` | apps/core/utils/log_sanitization.py:64-176 | so two such values that differ are logged differently |
| `ExceptionStatus.StatusFor` | apps/core/exceptions/handler.py:87-96 | override, else first `isinstance` match, else 500 |
| `ExceptionStatus.ResolvedStays` | apps/core/exceptions/handler.py:196-215 | an exception type that resolved keeps its code under any further registrations |
| `ExceptionStatus.FirstMatchIsNearestIff` | apps/core/exceptions/handler.py:202-203 | the first match is the nearest registered ancestor for every exception exactly when no class first follows one of its proper ancestors |
| `ExceptionStatus.CoreMapIsSpecificFirst` | apps/core/exceptions/handler.py:218-229 | the handler's own registrations are in such an order |
| `ExceptionStatus.InstanceIffAncestor` | apps/core/exceptions/handler.py:93-96 | an exception is an instance of exactly its class and the classes above it |
| `ExceptionStatus.SubclassIsAnsweredAsParent` | apps/core/exceptions/handler.py:93-96 | a class without an entry of its own is answered as its parent is |
| `ExceptionStatus.RegisteredIsAnswered` | apps/core/exceptions/handler.py:196-215 | with a specific-first order and no class twice, each registered class is answered with its own code |
| `ExceptionStatus.CoreCodes` | apps/core/exceptions/handler.py:218-229 | the codes of the handler's own registrations, by class |
| `ExceptionStatus.CoreMapAnswers` | apps/core/exceptions/handler.py:218-229 | an S3 error without an entry is answered as its parent; the two base classes have no entry |
| `ExceptionStatus.ReadsRefineTheList` | apps/core/exceptions/handler.py:57-69 | under every interleaving each call returns a prefix of the list with every registration finished before it began; lock free implies cache empty or equal to the list |
| `ExceptionStatus.HandlerIsNotStale` | apps/core/exceptions/handler.py:93-96 | a type resolved by a finished registration gets from the cached copy what the whole list gives |
| `ExceptionStatus.RegisterTakesEffect` | apps/core/exceptions/handler.py:196-215 | a call of `register_exception_mapping` that has ended put its entry on the list while it ran |
| `ExceptionStatus.ReadTakesEffect` | apps/core/exceptions/handler.py:57-69 | a call of the reader that has ended returned a prefix of the list with every registration finished before it began |
| `ExceptionStatus.EveryCallCanEnd` | apps/core/exceptions/handler.py:57-69 | from every reachable state the calls of any threads can all return, one after the other, and leave the lock free |
| `EngineCache.EnginesAreConserved` | apps/core/utils/db.py:134-189 | one engine per key and key per engine, equal keys in both dictionaries whenever the lock is free, no second `dispose()`; with all threads idle every engine is cached or had its `dispose()` called exactly when none raised with engines behind it, and cached or disposed exactly when none raised |
| `EngineCache.RunSkipsIff` | apps/core/utils/db.py:186-187 | over any run, an engine is removed and never disposed of exactly when some `dispose()` raised with further engines behind it in its list |
| `EngineCache.OneRaiseCanSkip` | apps/core/utils/db.py:179-187 | a run with two engines in which the second is neither cached nor ever disposed |
| `EngineCache.GetsAgreeUntilRemoved` | apps/core/utils/db.py:134-164 | two calls for one URL with no removal of it between them return the same engine |
| `EngineCache.FetchNeverFails` | apps/core/utils/db.py:164 | the final dictionary read under the lock always finds its key |
| `EngineCache.DisposeTakesEffect` | apps/core/utils/db.py:167-176 | a `dispose_engine` call that has ended other than by an exception took the lock; later there was a moment without the key; the engine cached for it when it took the lock has had its `dispose()` call |
| `EngineCache.DisposeAllTakesEffect` | apps/core/utils/db.py:179-189 | a `dispose_all_engines` call that has ended emptied the cache at some moment, and every engine cached when it took the lock has had its `dispose()` call exactly when none of its calls raised with engines behind it |
| `EngineCache.GetTakesEffect` | apps/core/utils/db.py:134-164 | what `get_engine` returns was cached for that URL at some moment during the call |
| `EngineCache.EveryCallCanEnd` | apps/core/utils/db.py:134-189 | from every reachable state the calls of any threads can all end, one after the other, whether `create_engine` and `dispose()` raise or not, and leave the lock free |
| `ApiKeys.LookupAgreesWithScanIff` | apps/accounts/authentication.py:28-46 | the prefix lookup answers as a full scan of live rows does, except exactly for a non-ASCII key that hits a live prefix, where it raises |
| `ApiKeys.LookupCanRaise` | apps/accounts/authentication.py:42 | one live row and one key for which the comparison raises |
| `ApiKeys.HistoriesAreSane` | apps/accounts/models.py:132-138 | every history keeps prefixes unique and equal to the first eight characters of the secret |
| `ApiKeys.NothingIsUndone` | apps/accounts/services.py:31-58 | a revocation stamp never changes, an inactive key never becomes active, and owner, prefix and secret never change |
| `ApiKeys.StampedOnce` | apps/accounts/services.py:55-58 | the number of calls answered (True, False) for a key is one if its row is stamped, else zero |
| `ApiKeys.AlreadyRevokedHasCause` | apps/accounts/services.py:53-54 | (False, True) is answered only after an earlier (True, False) for that key |
| `ApiKeys.NoEntryAfterwards` | apps/accounts/authentication.py:36-43 | no lookup after a committed revocation or deletion is answered with that key |
| `ApiKeys.RowsAreMadeOnce` | apps/accounts/models.py:184-208 | over every history a key has exactly one creation, whose owner and token are the row's owner and secret |
| `ApiKeys.NewKeysAreLive` | apps/accounts/models.py:198-208 | straight after its creation a key is active, unstamped and unused |
| `ApiKeys.EntryNamesTheMaker` | apps/accounts/authentication.py:28-47 | whoever is let in with a key gave the token of an earlier creation of it, made for that enabled owner |
| `ApiKeys.NewKeyIsAnswered` | apps/accounts/authentication.py:28-47 | a key just made is accepted for an enabled owner and answered as disabled otherwise |
| `ApiKeys.EventsChangeOneRow` | apps/accounts/services.py:31-58 | what each operation does to the table: the one row it may change, and that row's new fields in full |
| `ApiKeys.TokensAreBase64Url` | apps/accounts/models.py:197 | the generator's tokens are the texts of 43 characters over the URL-safe alphabet of section 5 of RFC 4648 |
| `ApiKeys.RunsAreSerial` | apps/accounts/services.py:31-58 | every interleaving of row-locked revoke and delete transactions, aborts, creations and lookups answers and ends as the indivisible operations in commit order |
| `ApiKeys.RevocationIsWriteOnce` | apps/accounts/services.py:31-58 | the whole lifecycle over any interleaving: sane rows, at most one stamp, which never changes, deactivation for ever, (False, True) only after (True, False), no entry after a stamp or deletion |
| `ApiKeys.RunsUndoNothing` | apps/core/base/service.py:352-385 | from any point of a run to any later one, stamps, deactivations and the identity of a key are kept |
| `ApiKeys.NoDeadlock` | apps/accounts/services.py:45-50 | a transaction that cannot go on waits for one that can |
| `ApiKeys.EveryTxnCanEnd` | apps/accounts/services.py:45-50 | from every reachable state every transaction can end, committed or aborted, after the one that has its row locked, if any, and leaves the row unlocked |
| `ApiKeys.EndsAlone` | apps/accounts/services.py:45-58 | a transaction whose row is not locked by another ends without another moving: aborted it changes no row and answers nothing, otherwise it gives exactly one answer, for its key and user |
| `ApiKeys.TxnTakesEffect` | apps/accounts/services.py:31-58 | a transaction that has ended without being aborted was answered for its key and user after it began |
| `ApiKeys.KeyStore.Create` | apps/accounts/models.py:198-208 | one attempt inserts a fresh active row exactly when the prefix is free, else changes nothing |
| `ApiKeys.KeyStore.CreateKey` | apps/accounts/models.py:184-212 | up to three tokens are tried, each after a collision the database refused; the first free one makes the key, a collision seen by validation is raised at once, three refusals fail, and then nothing changes |
| `ApiKeys.KeyStore.Revoke` | apps/accounts/services.py:31-58 | both flags and the new row, for missing, inactive, revoked and live keys |
| `ApiKeys.KeyStore.AuthenticateKey` | apps/accounts/authentication.py:20-58 | the answer, in the order of the code's checks; on acceptance only, `last_used_at` is written and a cache entry made for 300 s, unless one is alive |
| `ApiKeys.UseIsWrittenIff` | apps/accounts/authentication.py:49-56 | an acceptance writes `last_used_at` exactly when no write for that key is less than 300 s old |
| `BlockSplice.KeepsBothSides` | scripts/dump_settings_schema.py:117-120 | with both markers in order, the text before the first begin and after the first end following it is kept verbatim |
| `BlockSplice.ProseIsKeptIff` | scripts/dump_settings_schema.py:114-123 | the text outside the block is kept exactly when an end marker stands behind the first begin marker or one of the two markers is missing |
| `BlockSplice.IdempotentIff` | scripts/dump_settings_schema.py:114-132 | splicing twice equals splicing once exactly unless the rows hold the end marker or the document has a begin marker and no end marker |
| `BlockSplice.LaterSplicesAddExcess` | scripts/dump_settings_schema.py:114-132 | from the second application on each further one adds what stands behind the first end marker of the block: a fixed point exactly when the rows hold no end marker |
| `BlockSplice.NotFixedAfterHalfBlock` | scripts/dump_settings_schema.py:117-123 | with half a block the second application differs from the first, whatever the rows, and is strictly shorter if they hold no end marker |
| `BlockSplice.HalfBlockLosesProse` | scripts/dump_settings_schema.py:117-123 | with half a block the first application keeps the text and the second drops what stood behind the begin marker |
| `BlockSplice.NewDocument` | scripts/dump_settings_schema.py:124-132 | in a new document the first begin marker stands behind the header, the first end marker behind the rows, and a newline ends it |
| `SettingsDoc.RenderTable` | scripts/dump_settings_schema.py:98-111 | the lines joined are the block: begin marker, body, end marker |
| `SettingsDoc.CellsAreUnderTheirTitles` | scripts/dump_settings_schema.py:98-111 | name, type, default and line can be read back from a row under their titles, if none holds a bar |
| `SettingsDoc.TableIsGoodIff` | scripts/dump_settings_schema.py:98-111 | the first end marker behind the rows is the table's own last line exactly when no variable holds the marker |
| `SettingsDoc.WriteThenCheckIff` | scripts/dump_settings_schema.py:146-166 | `--check` passes after n writes exactly when no variable holds the end marker or a carriage return and either n is at least two or the file did not have half a block |
| `SettingsDoc.WrittenIsReadBackIff` | scripts/dump_settings_schema.py:114-116 | what is written is read back as it is exactly when no variable has a carriage return |
| `SettingsDoc.MarkedTablesGrow` | scripts/dump_settings_schema.py:146-166 | with a variable that holds the end marker the document grows with every write from the second on |
| `SettingsDoc.MarkedDefaultNeverChecks` | scripts/dump_settings_schema.py:146-166 | one such variable, starting from no document |
| `SettingsDoc.ReturnInNameNeverChecks` | scripts/dump_settings_schema.py:83-93 | a name with a carriage return, for which no check passes |
| `SettingsDoc.HalfBlockFailsCheck` | scripts/dump_settings_schema.py:146-166 | one document with half a block, for any variables |
| `SettingsDoc.WrongOrderLosesProse` | scripts/dump_settings_schema.py:117-120 | a document with the markers in the wrong order, whose prose behind them is gone after one write |
| `SettingsDoc.HeaderIsWrittenOnce` | scripts/dump_settings_schema.py:114-132 | written where there was no document and then again for other variables, the file is the header, the new table and a newline |
| `Pagination.Follow` | apps/core/responses/paginated.py:55-57 | a client following `has_next` gets the stated number of pages, and their rows are all rows once in order exactly when it starts at page one (or there are none) |
| `Pagination.WalkIsPartitionIff` | apps/core/base/repository.py:73-84 | the pages a walk visits partition the rows exactly from page one |
| `Pagination.HasNextIff` | apps/core/responses/paginated.py:55-57 | `has_next` holds exactly when the next page has rows, and then this page is full |
| `Pagination.HasPreviousIff` | apps/core/responses/paginated.py:55-57 | `has_previous` holds and the previous page has rows exactly for page numbers from two to one past the last page |
| `Pagination.RowIsOnItsPage` | apps/core/base/repository.py:83-84 | row i stands on page i / size + 1 at place i % size, and that page is counted |
| `Pagination.BadSizes` | apps/core/base/repository.py:83-84 | a negative size raises for every page; size zero gives empty pages and none to follow |
| `DomainContext.Context.Run` | apps/core/utils/logging.py:55-87 | however a program of nested blocks, logs, raises and handlers ends, the variables are as before, and each record carries the request id and the innermost enclosing identifiers it did not have |
| `DomainContext.Context.Filter` | apps/core/utils/logging.py:102-118 | the context's non-empty request id wins over the record's; an identifier is added exactly when it is set and the record lacks it |
| `DomainContext.InnermostIsLastSupplied` | apps/core/utils/logging.py:73-75 | the identifier in force is that of the last enclosing block that supplies one |
| `DomainContext.InnermostFromEntry` | apps/core/utils/logging.py:73-75 | with none supplied it is the one at entry |
| `DomainContext.WrappingChangesNothing` | apps/core/utils/logging.py:55-87 | wrapping any program in a block changes neither how it ends nor which records it logs |
| `DomainContext.BlocksAreTransparent` | apps/core/utils/logging.py:55-87 | the enclosing blocks do not decide which records are logged, only what they are stamped with |
| `DomainContext.ExceptionsSkip` | apps/core/utils/logging.py:83-87 | an exception skips what follows it up to the handler, and nothing else is skipped |
| `Rbac.Registry.Register` | apps/core/rbac_registry.py:28-50 | a new key is stored, the same pair is a no-op, a conflict raises and changes nothing |
| `Rbac.KeysKeepTheirResource` | apps/core/rbac_registry.py:31-35 | over any registrations, refused ones included, no key changes its resource |
| `Rbac.FirstRegistrationWins` | apps/core/rbac_registry.py:31-35 | the first registration of a name decides for ever |
| `Rbac.AppResourcesAreItsModels` | apps/core/rbac_registry.py:53-61 | a resource belongs to an app exactly when some model of it has that resource |
| `Rbac.CaseDoesNotMatter` | apps/core/rbac_registry.py:53-55 | names that differ in the case of ASCII letters have the same resource |
| `Rbac.ParseIff` | apps/accounts/backends.py:51-55 | a permission string parses to three parts exactly when it is those parts, with no dot in them and no underscore in the prefix |
| `Rbac.ModulePermsIff` | apps/accounts/backends.py:62-79 | the sidebar shows an app exactly when the user is active and is a superuser or holds something on one of its models |
| `Rbac.PermImpliesModulePerms` | apps/accounts/backends.py:39-79 | a granted permission implies module permission for its app |
| `Rbac.BackendAgreesWithViews` | apps/core/permissions.py:10-50 | the backend and the view-level check give one answer for a mapped model |
| `Rbac.OneGrantOneString` | apps/accounts/backends.py:25-60 | granting one action on a model answers that action's permission string and no other |
| `Rbac.Request.Check` | apps/core/permissions.py:27-46 | the cached check answers and fills its cache as specified, superuser and anonymous users bypassing it |
| `Rbac.CacheIsTransparent` | apps/core/permissions.py:32-46 | for one user with fixed roles every call is answered as without the cache |
| `Rbac.CacheIsRightIff` | apps/core/permissions.py:27-46 | for all roles a call is answered as without the cache exactly when its user is not authenticated, or nobody authenticated asked for the permission before on this request, or the first who did is the same user |
| `Rbac.LaterAskersDoNotDisturb` | apps/core/permissions.py:27-46 | another user who asks second does not disturb the first one's answers |
| `Rbac.CacheMixesUsers` | apps/core/permissions.py:38-40 | two users for whom it is wrong |
| `SoftDelete.Database.EnqueueChildren` | apps/core/base/service.py:416-433 | *step:* after the loop over the relations of a popped row, each of its candidate children is recorded at most one level down, earlier records are unchanged and the walk invariant still holds |
| `SoftDelete.Database.EnqueueRelation` | apps/core/base/service.py:416-433 | *step:* one relation: skipped unless it cascades to a soft-deletable model, else its unseen children are taken and appended behind the frontier |
| `SoftDelete.Database.DeactivateChildren` | apps/core/base/service.py:422-431 | *step:* lists exactly the active children through one relation, each once, and deactivates exactly those |
| `SoftDelete.Database.Materialise` | apps/core/base/service.py:424 | *step:* a queryset becomes a list of its rows, each once, in any order |
| `SoftDelete.StillActive` | apps/core/base/service.py:423-431 | *step:* midway through a walk, the active children of a row are its original candidates not yet seen: the cleared flag is the visited mark |
| `SoftDelete.DeleteCascaded` | apps/core/base/service.py:371-380 | *step:* flagging the root first and cascading after takes exactly what the table before the delete determines |
| `CascadeGraph.ReachIsCandidates` | apps/core/base/service.py:423 | *step:* the reach holds only the root and initially active rows |
| `CascadeGraph.FollowsCascadesOnly` | apps/core/base/service.py:416-431 | *step:* the walk goes from a row exactly to the active rows that hang from it by a cascading key |
| `BreadthFirst.AppendChildren` | apps/core/base/service.py:432-433 | *step:* appending unseen successors of the front row one level down keeps soundness, order, spread and distinctness of the frontier |
| `BreadthFirst.CloseFront` | apps/core/base/service.py:404-415 | *step:* popping a row whose children are all seen, or that sits at the cap, keeps the search invariant |
| `BreadthFirst.SearchIsComplete` | apps/core/base/service.py:403-433 | *step:* whatever lies within some distance was seen at that depth at most |
| `FireAndForget.TasksAreConserved` | apps/core/dispatch/fire_and_forget.py:69-104 | *step:* every run keeps the delivery invariant |
| `FireAndForget.StepKeepsDelivery` | apps/core/dispatch/fire_and_forget.py:69-104 | *step:* so does every single step of any thread |
| `FireAndForget.RunKeepsCounting` | apps/core/dispatch/fire_and_forget.py:75-77 | *step:* the lock protects the read-modify-write and every snapshot is carried or logged, never both |
| `FireAndForget.RunOwes` | apps/core/dispatch/fire_and_forget.py:69-86 | *step:* increments and drops on their way to the counter grow by exactly the submissions to a full queue |
| `LogRedaction.DictExactly` | apps/core/utils/log_sanitization.py:134-155 | *step:* a sanitized dict holds exactly the truncation note, if it is truncated, and for each other shown key what its last entry becomes |
| `LogRecovery.DictKeysInOrder` | apps/core/utils/log_sanitization.py:134-155 | *step:* the keys of a sanitized dict are the shown keys in the order of their first entry, and then the note |
| `ExceptionStatus.LookupIsFirstHit` | apps/core/exceptions/handler.py:93-96 | *step:* the lookup answers with the first entry that matches, and with nothing exactly when none does |
| `ExceptionStatus.StepKeepsInv` | apps/core/exceptions/handler.py:57-69 | *step:* every step of a reader or registrar keeps the lock and cache invariant |
| `EngineCache.StepKeepsInv` | apps/core/utils/db.py:134-189 | *step:* every step keeps mutual exclusion, the agreement of the dictionaries and one place per engine |
| `EngineCache.HeldAreCalled` | apps/core/utils/db.py:174-187 | *step:* engines a thread has removed are all disposed of by the end of its call unless one raises with engines behind it |
| `ApiKeys.StepKeepsHistory` | apps/core/base/service.py:352-385 | *step:* each answering step of a transaction is the indivisible operation on the committed table |
| `TextSearch.FindIsFirst` | scripts/dump_settings_schema.py:117-119 | *step:* the search finds an occurrence exactly when there is one, and the first |
| `TextSearch.PartitionOf` | scripts/dump_settings_schema.py:118-119 | *step:* `partition` splits at the first occurrence |
| `TextSearch.FirstAfterSeparator` | scripts/dump_settings_schema.py:123 | *step:* a newline the marker does not hold keeps occurrences behind it first |
| `TextFile.ContainsRead` | scripts/dump_settings_schema.py:116-117 | *step:* reading a file with universal newlines neither makes nor breaks an occurrence of a one-line pattern |
| `TextFile.ReadHasNoReturn` | scripts/dump_settings_schema.py:116 | *step:* no carriage return is ever read, and a text is read as it is exactly when it has none |
| `BlockSplice.AddsExcessWhereBlockStands` | scripts/dump_settings_schema.py:117-120 | *step:* splicing a document in which the block stands at the first begin marker inserts the block's excess behind it |
| `BlockSplice.SpliceWhereBlockStands` | scripts/dump_settings_schema.py:117-120 | *step:* where any block stands, its excess is left behind the table that takes its place |
| `BlockSplice.AppendsOtherwise` | scripts/dump_settings_schema.py:121-123 | *step:* without both markers only trailing white space is dropped and the block is appended |
| `BlockSplice.RStripSplits` | scripts/dump_settings_schema.py:123 | *step:* what is stripped is white space and what is left does not end in white space |
| `BlockSplice.DropsTheTail` | scripts/dump_settings_schema.py:117-120 | *step:* with no end marker behind the first begin marker, everything after it is dropped |
| `BlockSplice.SplicedHasBoth` | scripts/dump_settings_schema.py:114-132 | *step:* every result holds both markers |
| `SettingsDoc.RowIsFreeIff` | scripts/dump_settings_schema.py:105-108 | *step:* a row holds the end marker exactly when the name, the type or the default does |
| `SettingsDoc.RowHasReturnIff` | scripts/dump_settings_schema.py:105-108 | *step:* a row has a carriage return exactly when the name, the type or the default does |
| `SettingsDoc.MarkersAreProper` | scripts/dump_settings_schema.py:39-40 | *step:* the two markers cannot overlap themselves or each other and hold no newline |
| `Pagination.PageIsSlice` | apps/core/base/repository.py:83-84 | *step:* a page is the slice between two multiples of the size; a page number of one or less is page one |
| `DomainContext.Context.Push` | apps/core/utils/logging.py:76-82 | *step:* setting a variable and keeping its token leaves unwinding unchanged |
| `DomainContext.Context.Pop` | apps/core/utils/logging.py:85-87 | *step:* tokens are reset in reverse order |
| `Rbac.EntryIsFirstAskers` | apps/core/permissions.py:32-46 | *step:* an entry exists exactly when someone asked, and holds the answer for the first who did |

## Left out

- SoftDelete.Database.Delete: does not model what the framework's own `instance.delete()` removes in a hard delete, the pre- and post-delete hooks (empty in the base class), or a failing save.
- SoftDelete.Database.CascadeSoftDeleteBfs: does not model other writers between its queries; relations are plain foreign keys (one-to-one and hidden accessors are out).
- FireAndForget.DeliveryFromStart: the queue's own operations are atomic; what the executor does with a task it took, `is_saturated`, and a thread that fails to start are out.
- ShutdownDrain.DrainAll: time is in whole milliseconds and passes only in the 50 ms sleep, which may run late by a bounded amount.
- LogRedaction.SanitizeValue: the key pattern and the excluded names are arbitrary predicates; the fallback of a zero limit to the settings and the switch that disables sanitizing are out.
- LogRedaction.LogIsRedacted: does not tell a truncation note from a caller's own entry that reads the same.
- ExceptionStatus.FirstMatchIsNearestIff: exception classes form a single-inheritance tree.
- EngineCache.GetsAgreeUntilRemoved: a URL stands for its hash, so colliding hashes are out; so are the keyword arguments of an engine.
- ApiKeys.KeyStore.CreateKey: the tokens, and whether validation or the database sees a collision, are parameters.
- ApiKeys.KeyStore.AuthenticateKey: encrypted secrets are read as plaintext; the check of the debounce entry and the write are one step.
- ApiKeys.RunsAreSerial: `last_used_at` may be touched at any time the row is not locked, not only after a lookup.
- SettingsDoc.RenderTable: the rows are given; collecting them from the syntax tree and sorting them is out.
- SettingsDoc.WriteThenCheckIff: a POSIX system, where newlines are written as they are; a file that is not UTF-8 and a name that cannot be encoded are out.
- Pagination.Follow: the page count is the exact ceiling, where the code divides floating-point numbers; Django's own `Page` branch is out.
- DomainContext.Context.Run: one thread, in a context whose request identifier does not change.
- Rbac.AppResourcesAreItsModels: lower-casing is per ASCII letter, and an app's resources are a set, where the code lists them in order with repetitions.
- The service's list limits, updates and bulk operations; HTTP, storage and mail clients; health probes; middleware; token refresh; serializers: wiring, input and output, or easy members.
