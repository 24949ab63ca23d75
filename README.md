# events-api in Dafny

A model of the core of `events-api`, a small event-scheduling service, with proofs about it. Events carry:
- a time, a title, a location, a venue and a participant count;
- creation and modification stamps.

The service has these parts:
- **Value objects.** They validate the values they wrap when constructed.
- **The `Event` entity.** Its `update_*` methods change it in place, and `as_dict` serialises it.
- **Two repositories.** One is list-backed, used by the tests. The other is SQLite-backed and notifies subscribed observers of every CREATE, DELETE and UPDATE.
- **A reminder service.** It is such an observer. It mirrors the stored events with a `checked` flag, and marks the events that start within the next 30 minutes.
- **Route helpers.** These are the sort of a listing, the client form of an event, and the partial update of `update_event`.
- **SQL builders.** These produce the strings the SQLite handler builds from a dict's keys.

Files, one module each:

| file | module | models |
|---|---|---|
| `wrappers.dfy` | `Wrappers` | `Option`, `Result`, `Outcome` (an operation that returns nothing or raises) |
| `exceptions.dfy` | `Exceptions` | the Python exceptions the core raises, as one datatype |
| `seqs.dfy` | `Seqs` | list comprehensions with a condition (`Filter`) and their laws |
| `date_time.dfy` | `DateTimes` | naive `datetime` values, their order, and strftime/strptime with `"%m/%d/%Y, %H:%M:%S"` |
| `events_args.dfy` | `EventsArgs` | `src/domain/vo/events_args.py` |
| `event.dfy` | `EventEntity` | `src/domain/entities/event.py` |
| `repository_impl.dfy` | `InMemoryRepository` | `tests/adapters/repository_implementation.py` |
| `events_sql_repo.dfy` | `SqlRepository` | `src/application/events_sql_repo.py` |
| `reminder_service.dfy` | `ReminderService` | `src/application/services/reminder_service.py` |
| `sorting.dfy` | `DescendingSort` | `list.sort(key=..., reverse=True)` |
| `events_routes.dfy` | `EventsRoutes` | `src/application/routers/events_routes.py` |
| `sqlite_handler.dfy` | `SqliteHandler` | the string building of `src/application/utils/sqlite_handler.py` |

How the model represents things:
- **Objects the source updates in place are classes.** These are `Event`, both repositories, and the reminder service. Their methods state the whole new state.
- **Pure code is functions.** This covers validation, `as_dict`, `from_row_to_event` and the SQL read queries.
- **Loops stay loops with invariants.** This covers the in-place sort on an array, the UPDATE scan and the reminder pass.
- **The SQLite table** is the sequence of its rows in insertion order. Each row holds the `as_dict` values.
- **Observers** are identified by a number. The calls the repository makes on them are recorded in a log, `deliveries`. What an observer's `update` answers (normally, or with an exception) is a parameter, `answer`, since any object with that method can subscribe.
- **Raised exceptions** are `Err`/`Fail` values.
- **The wall clock** `now`, a fresh uuid and a failure of the SQLite store are parameters.

## Model

| member | source | states |
|---|---|---|
| EventsArgs.TypeValidator | src/domain/vo/events_args.py:8-17 | as written: with no fields it reads an unassigned local (UnboundLocalError); otherwise the answer is whether the LAST field's value has its annotated type |
| EventsArgs.TypeValidatorMissesEarlierFields | src/domain/vo/events_args.py:13-17 | there are fields whose first entry is mistyped while the last one checks out, so the as-written check passes fields that are not all well typed |
| EventsArgs.ValidateAllFields | src/domain/vo/events_args.py:8-17 | the corrected validator answers True iff every field holds a value of its annotated type |
| EventsArgs.SingleFieldValidation | src/domain/vo/events_args.py:19-21 | for a single-field value object the as-written and the corrected check agree |
| EventsArgs.ValidateString | src/domain/vo/events_args.py:19-21 | `__post_init__` on a `str` field accepts exactly the strings, keeping them unchanged (no case folding, "" included), and raises ValueError otherwise |
| EventsArgs.NewTitle | src/domain/vo/events_args.py:24-26 | `Title(value=v)` succeeds iff v is a str, stores it unchanged, ValueError otherwise |
| EventsArgs.NewLocation | src/domain/vo/events_args.py:29-31 | `Location(value=v)` succeeds iff v is a str, stores it unchanged, ValueError otherwise |
| EventsArgs.NewVenue | src/domain/vo/events_args.py:34-36 | `Venue(value=v)` succeeds iff v is a str, stores it unchanged, ValueError otherwise |
| EventsArgs.NewParticipants | src/domain/vo/events_args.py:39-50 | succeeds iff the value's type is exactly int (bool refused) and 0 <= value <= 10**200, both inclusive; ValueError otherwise |
| EventsArgs.NewTime | src/domain/vo/events_args.py:53-55 | `Time(value=v)` succeeds iff v is a datetime (a float timestamp is refused) and keeps it; ValueError otherwise |
| EventsArgs.NewEventTime | src/domain/vo/events_args.py:58-67 | succeeds iff v is a datetime not earlier than now (equal to now accepted); a past datetime raises ValueError; a non-datetime fails the comparison with TypeError, as no type check runs |
| EventEntity.AsDict | src/domain/entities/event.py:81-100 | id, title, location, venue and count copied; each of the three timestamps rendered so that strptime reads back the timestamp cut to whole seconds |
| EventEntity.AsDictUpToSeconds | src/domain/entities/event.py:87-99 | two events serialise identically iff they agree once every timestamp is cut to whole seconds |
| DateTimes.ParseFormat | src/domain/entities/event.py:87-89 | strptime of the strftime text gives the datetime without its microseconds |
| DateTimes.FormatParse | src/application/events_sql_repo.py:135-144 | a text in the fixed-width "MM/DD/YYYY, HH:MM:SS" form that Parse reads (the form every stored text has) is re-rendered by strftime as the same text |
| DateTimes.FormatInjectiveUpToSeconds | src/domain/entities/event.py:87-99 | two datetimes render the same iff they agree to the second |
| InMemoryRepository.WithoutId | tests/adapters/repository_implementation.py:18-19 | the comprehension keeps, in order, exactly the events with another id, each as often as it occurred; it is shorter iff the id was present, and the list itself when absent |
| InMemoryRepository.FirstWithId | tests/adapters/repository_implementation.py:25-28 | None iff no event has the id; otherwise the event at the first position holding the id |
| InMemoryRepository.EventsRepositoryImpl.GetOne | tests/adapters/repository_implementation.py:25-28 | the scan returns the first event with the id, or None iff there is none |
| InMemoryRepository.EventsRepositoryImpl.GetAll | tests/adapters/repository_implementation.py:22-23 | the stored list itself, in insertion order |
| InMemoryRepository.EventsRepositoryImpl.GetByLocation | tests/adapters/repository_implementation.py:30-35 | exactly the events at the location, each as often as stored, in repository order |
| InMemoryRepository.EventsRepositoryImpl.GetByVenue | tests/adapters/repository_implementation.py:37-40 | exactly the events at the venue, each as often as stored, in repository order |
| InMemoryRepository.AddThenFind | tests/adapters/repository_implementation.py:13-14 | after `add`, `get_one` finds the id, and returns the added event when the id was new |
| InMemoryRepository.DeleteThenFind | tests/adapters/repository_implementation.py:16-28 | after `delete(id)`, `get_one(id)` finds nothing |
| SqlRepository.FromRowToEvent | src/application/events_sql_repo.py:125-145 | loads iff the three timestamps parse and the count is a valid Participants (no futurity check, since Time and not EventTime is used), ValueError otherwise; the loaded timestamps are what strptime reads from the row, and a loaded event serialises back to the very row |
| SqlRepository.FromRowOfAsDict | src/application/events_sql_repo.py:125-145 | loading `as_dict(e)` gives e with its timestamps cut to whole seconds |
| SqlRepository.FromRows | src/application/events_sql_repo.py:73 | every row loads, in order and serialising back to the rows, or ValueError |
| SqlRepository.GetAll | src/application/events_sql_repo.py:71-73 | succeeds iff every row loads, and the loaded events serialise back to the table, row for row; the only error is ValueError |
| SqlRepository.GetOne | src/application/events_sql_repo.py:75-85 | EventDoesntExists iff no row has the id; otherwise the first row with the id, loaded, so ValueError is the only other error and an Ok event has the id and a stored row |
| SqlRepository.RowsWithId | src/application/events_sql_repo.py:76-79 | the rows selected by id are exactly the stored rows with that id, in table order, and there is one iff the table holds the id |
| SqlRepository.GetByLocation | src/application/events_sql_repo.py:87-96 | succeeds iff every row at the location loads; the events are then exactly the rows at the location, in table order; the only error is ValueError |
| SqlRepository.GetByVenue | src/application/events_sql_repo.py:98-106 | succeeds iff every row at the venue loads; the events are then exactly the rows at the venue, in table order; the only error is ValueError |
| SqlRepository.DeleteRows | src/application/events_sql_repo.py:62-64 | the DELETE statement: no row keeps the id, the rest stay in order, each as often as before |
| SqlRepository.UpdateRows | src/application/events_sql_repo.py:111-117 | the UPDATE statement: rows with the id become the new row in place, every other row is unchanged |
| SqlRepository.FanOut | src/application/events_sql_repo.py:43-45 | one `update(method, details)` per observer, in registration order |
| SqlRepository.FirstRaising | src/application/events_sql_repo.py:43-45 | the position of the first call whose `update` raises, every earlier one answering normally, or the number of calls |
| SqlRepository.Delivered | src/application/events_sql_repo.py:43-45 | the calls made are a prefix of the fan-out, all but the last answered normally, cut short only right after one that raised, and the whole fan-out when none raises |
| SqlRepository.NotifyOutcome | src/application/events_sql_repo.py:43-45 | the loop ends normally iff no observer's `update` raises; otherwise with the exception of the last call made |
| SqlRepository.FilterKeepsUniqueIds | src/application/events_sql_repo.py:59-69 | deleting rows keeps `event_id` a key |
| SqlRepository.UpdateRowsKeepsKey | src/application/events_sql_repo.py:108-123 | an UPDATE that does not clash with another row's key keeps `event_id` a key |
| SqlRepository.UpdateRowsAbsent | src/application/events_sql_repo.py:108-117 | an UPDATE whose id matches no row leaves the table unchanged |
| SqlRepository.RemoveUnique | src/application/events_sql_repo.py:39-41 | `list.remove` on a list without duplicates drops exactly that observer and keeps the list duplicate-free |
| SqlRepository.EventsRepositorySQLImpl.AddObserver | src/application/events_sql_repo.py:33-37 | a registered observer is a no-op; a new one is appended and handed the `as_dict` rows of every stored event |
| SqlRepository.EventsRepositorySQLImpl.RemoveObserver | src/application/events_sql_repo.py:39-41 | the observer is no longer registered, the others keep their order; a no-op for an unregistered one |
| SqlRepository.EventsRepositorySQLImpl.NotifyObservers | src/application/events_sql_repo.py:43-45 | the log grows by the notifications in registration order up to and including the first whose `update` raises, and that exception is the result; the table and the observers do not change |
| SqlRepository.EventsRepositorySQLImpl.Add | src/application/events_sql_repo.py:47-57 | stores the `as_dict` row and then notifies CREATE with the id and that row, raising an observer's exception after the commit; a failed store raises QueryException and notifies nobody |
| SqlRepository.EventsRepositorySQLImpl.Delete | src/application/events_sql_repo.py:59-69 | a missing id raises EventDoesntExists before any change or notification; otherwise the row goes and DELETE is sent with the id only, raising an observer's exception after the commit |
| SqlRepository.EventsRepositorySQLImpl.Update | src/application/events_sql_repo.py:108-123 | no existence check: the row under the id is overwritten (table unchanged for an absent id) and UPDATE is sent with the new event's id and row, raising an observer's exception after the commit |
| SqlRepository.AddThenGetOne | src/application/events_sql_repo.py:47-57 | after `add` of a new id, `get_one` returns the event to the second |
| SqlRepository.DeleteThenGetOne | src/application/events_sql_repo.py:59-69 | after `delete(id)`, `get_one(id)` raises EventDoesntExists |
| ReminderService.Unchecked | src/application/services/reminder_service.py:14-15 | the mirror becomes exactly the given rows, none of them checked |
| ReminderService.LastIndex | src/application/services/reminder_service.py:28-35 | -1 or a position holding the id, with no record after it holding the id |
| ReminderService.LastMatch | src/application/services/reminder_service.py:28-35 | None iff no record has the id; otherwise the record at the last position holding it, the one whose values `to_check` keeps |
| ReminderService.CarriedFlag | src/application/services/reminder_service.py:32-37 | the new record is checked iff its event time string is unchanged and the old record was checked (a missing flag counts as False) |
| ReminderService.UpdatedFlag | src/application/services/reminder_service.py:26-37 | UnboundLocalError iff no record has the id; TypeError iff the event is missing while one has; otherwise the flag carried from the last matching record |
| ReminderService.Notified | src/application/services/reminder_service.py:17-38 | as written: CREATE appends the row with the flag False; DELETE keeps, in order, exactly the records without the id, each as often as before; UPDATE keeps every record and appends the row with UpdatedFlag's flag; TypeError for a CREATE without an event, and for an UPDATE without one whose id the mirror holds; UnboundLocalError for an UPDATE of an id the mirror lacks |
| ReminderService.IntendedNotified | src/application/services/reminder_service.py:17-38 | CREATE and DELETE as written; UPDATE fails exactly when the as-written one does, and otherwise ends with the new row carrying UpdatedFlag's flag |
| ReminderService.ScanForUpdate | src/application/services/reminder_service.py:27-35 | the loop of the UPDATE branch yields exactly the flag, or the error, of UpdatedFlag, and on success `repo_copy_wo_obj` is the mirror without the event's records, in order |
| ReminderService.ReminderServiceImpl.GetRepoState | src/application/services/reminder_service.py:14-15 | the mirror is replaced by the snapshot |
| ReminderService.ReminderServiceImpl.Update | src/application/services/reminder_service.py:17-38 | CREATE and DELETE as written; UPDATE corrected to store `repo_copy_wo_obj` plus the new record (see Findings); the mirror stays as it was when the branch raises |
| ReminderService.MirrorFollowsCreate | src/application/services/reminder_service.py:19-22 | a mirror whose rows are the table still is after `add`'s CREATE |
| ReminderService.MirrorFollowsDelete | src/application/services/reminder_service.py:23-25 | a mirror whose rows are the table still is after `delete`'s DELETE |
| ReminderService.CreateThenDelete | src/application/services/reminder_service.py:19-25 | CREATE of a new id followed by its DELETE restores the mirror |
| ReminderService.UpdateKeepsStaleRecord | src/application/services/reminder_service.py:26-38 | as written, after UPDATE the event's records are all the old ones plus the new one, so at least two |
| ReminderService.IntendedUpdateReplaces | src/application/services/reminder_service.py:27-37 | the corrected UPDATE leaves exactly one record for the event, holding the new row and UpdatedFlag's flag, and the other records as they were |
| ReminderService.UpdateRearms | src/application/services/reminder_service.py:31-37 | an UPDATE that changes the event time leaves the new record unchecked; one that keeps the time carries the last old record's flag |
| ReminderService.FirstFailing | src/application/services/reminder_service.py:52-54 | the first record whose time strptime rejects, or whose time minus 30 minutes is out of range; every record before it reads |
| ReminderService.MarkSpec | src/application/services/reminder_service.py:53-62 | marking a record changes only its flag; the record ends checked iff it was checked, or its time reads and `event_time - 30min < now < event_time`; a checked or unreadable record is untouched |
| ReminderService.Scanned | src/application/services/reminder_service.py:52-62 | same rows in the same order; the records before the first unreadable one are marked, the rest untouched |
| ReminderService.ScanOutcome | src/application/services/reminder_service.py:52-57 | the pass completes iff every record's time reads; otherwise it raises the error of the first unreadable record, ValueError or OverflowError |
| ReminderService.Visit | src/application/services/reminder_service.py:53-62 | one record's step of the loop raises exactly that record's ScanError; otherwise it reports the record due iff the record is in the window and unchecked, and the mark it sets is Mark |
| ReminderService.ScanRecords | src/application/services/reminder_service.py:52-62 | the loop over the records leaves the list Scanned and ends with ScanOutcome: marks made before a raising record are kept |
| ReminderService.ReminderServiceImpl.ScanPass | src/application/services/reminder_service.py:46-62 | one pass of the loop sets the mirror to Scanned and ends with ScanOutcome, for any `time_before` |
| ReminderService.ScanIdempotent | src/application/services/reminder_service.py:52-62 | a second pass at the same clock reading changes nothing and ends the same way |
| ReminderService.RemindedOnce | src/application/services/reminder_service.py:57-62 | a record marked by one pass is not due in any later pass, whatever the clock then reads |
| ReminderService.ScanMarksWindow | src/application/services/reminder_service.py:55-62 | a readable record is checked after the pass iff it was, or its event starts within the next 30 minutes |
| DescendingSort.SortDesc | src/application/routers/events_routes.py:50-57 | the specification of the sort is in non-increasing key order |
| DescendingSort.SortDescPermutes | src/application/routers/events_routes.py:50-57 | the sort only rearranges: the same multiset of events |
| DescendingSort.SortDescStable | src/application/routers/events_routes.py:50-57 | events with equal keys come out in their original relative order |
| DescendingSort.SortDescOfSorted | src/application/routers/events_routes.py:50-57 | a list already in non-increasing order is left as it is |
| DescendingSort.InsertDescSorted | src/application/routers/events_routes.py:50-57 | inserting into a non-increasing list keeps it non-increasing |
| DescendingSort.SortInPlace | src/application/routers/events_routes.py:50-57 | the array, sorted in place by insertion, holds the specification's result |
| EventsRoutes.SortEvents | src/application/routers/events_routes.py:43-57 | the events, in place, in non-increasing order of the chosen key (event time, count or creation time), a permutation of the input, stable |
| EventsRoutes.ParseEventToClient | src/application/routers/events_routes.py:60-75 | id, title, location, venue and count copied, event time formatted to the second; ValueError iff the count is not positive |
| EventsRoutes.ClientMatchesRow | src/application/routers/events_routes.py:60-75 | the client fields equal the stored row's, and the time sent reads back as the event time to the second |
| EventsRoutes.ToClientAll | src/application/routers/events_routes.py:93 | one client event per event, in order, or ValueError iff some count is not positive |
| EventsRoutes.ToClientLoop | src/application/routers/events_routes.py:92-93 | building the response event by event gives ToClientAll |
| EventsRoutes.ListEvents | src/application/routers/events_routes.py:89-93 | the listing endpoints' body: copy, sort when a key is given, convert; the result is the Listing of the events |
| EventsRoutes.Listing | src/application/routers/events_routes.py:78-93 | what a listing endpoint answers: the conversion of the events in repository order, or of SortDesc by the key when one is given |
| EventsRoutes.ListingOrder | src/application/routers/events_routes.py:153-157 | with no key the listing keeps repository order; by participants the counts sent never increase |
| EventsRoutes.ApplyUpdate | src/application/routers/events_routes.py:198-211 | only the supplied (truthy) fields are replaced, the id and creation time are kept, and `modify_time` is now iff something was supplied; a past time or an invalid count raises ValueError |
| EventsRoutes.ApplyEmptyUpdate | src/application/routers/events_routes.py:198-211 | an update that supplies nothing leaves the event as it was |
| EventsRoutes.ApplyUpdateIdempotent | src/application/routers/events_routes.py:198-211 | applying the same update twice at the same moment is applying it once |
| EventsRoutes.UpdateFields | src/application/routers/events_routes.py:198-211 | the `update_*` calls on the `Event` object yield exactly ApplyUpdate's event or its ValueError |
| EventsRoutes.UpdateEvent | src/application/routers/events_routes.py:193-214 | an id `get_one` cannot find answers not-found with no write; otherwise the updated event replaces the old one under the same id, and a rejected value raises before any write |
| EventEntity.Event.Create | src/domain/entities/event.py:102-131 | a fresh id outside the ids in use, the five components unchanged, creation and modification both stamped now |
| EventEntity.Event.constructor | src/domain/entities/event.py:15-33 | `__init__` stores the eight given components unchanged |
| EventEntity.Event.UpdateTime | src/domain/entities/event.py:35-42 | only the event time is replaced and `modify_time` becomes now |
| EventEntity.Event.UpdateTitle | src/domain/entities/event.py:44-51 | only the title is replaced and `modify_time` becomes now |
| EventEntity.Event.UpdateParticipants | src/domain/entities/event.py:53-61 | only the count is replaced and `modify_time` becomes now |
| EventEntity.Event.UpdateLocation | src/domain/entities/event.py:63-70 | only the location is replaced and `modify_time` becomes now |
| EventEntity.Event.UpdateVenue | src/domain/entities/event.py:72-79 | only the venue is replaced and `modify_time` becomes now |
| InMemoryRepository.EventsRepositoryImpl.Add | tests/adapters/repository_implementation.py:13-14 | the event is appended; earlier entries are unchanged |
| InMemoryRepository.EventsRepositoryImpl.Delete | tests/adapters/repository_implementation.py:16-20 | every event with the id is removed, the rest keep their order, and the answer is True iff the id was present |
| InMemoryRepository.EventsRepositoryImpl.Update | tests/adapters/repository_implementation.py:42-47 | a present id: its entries removed, the new event appended, True; an absent id: list unchanged, False |
| SqliteHandler.ConvertDictToQueryStrings | src/application/utils/sqlite_handler.py:178-192 | `columns` is the keys joined by ","; `values` is ":key" per key joined by ", " after one space; both "" for an empty dict |
| SqliteHandler.SetClause | src/application/utils/sqlite_handler.py:163-165 | the SET clause is "key = :key" per key, in order, joined by "," (the trailing comma cut off) |
| SqliteHandler.InsertStringsLineUp | src/application/utils/sqlite_handler.py:189-192 | for keys without commas the column list splits back into the keys, and the i-th placeholder names the i-th key |
| SqliteHandler.SetClauseLinesUp | src/application/utils/sqlite_handler.py:163-171 | for keys without commas the SET clause splits back into one assignment per key, in order |
| SqliteHandler.SplitJoin | src/application/utils/sqlite_handler.py:189-192 | splitting a joined list on a separator no part contains recovers the parts |

## Left out

- The HTTP layer is not modelled: FastAPI routing, `Depends`, `JSONResponse`, status codes other than the not-found answer, and `main.py`. It is framework glue.
- SQLite I/O is a sequence of rows. This covers `connect`, `execute`, `commit` and `fetchall`, and the `setup`, `create_table` and `check_if_table_exists` calls. A failing insert, delete or update is the parameter `storeFails`. Read errors (QueryException from `get_one` and the filters) are not modelled.
- `read_with_conditions` and the handler's `delete` and `update` build `WHERE col = "value"` with the value in double quotes. In SQLite a double-quoted string that names a column is read as that column, and a value holding a `"` breaks the statement. The model reads these queries as plain equality on the column.
- The reminder thread, its endless loop, `time.sleep`, `print` and `logging` are left out. One pass of the loop body is modelled. Its condition `check_time + timedelta(minutes=1)` is always true.
- `datetime.now()`, `datetime.utcnow()` and `uuid.uuid4()` are parameters (`now`, `freshId`). The reminder pass compares event times, which are stored in local time, with a UTC reading. The time zone is outside the model, so `now` is one datetime.
- ReminderService.ReminderServiceImpl.ScanPass takes `now` as a datetime, not as integer seconds, because event times are compared as datetimes.
- Ids are strings everywhere, which is `str(uuid)`. In the source, a `uuid.UUID` compared with a stored string id never matches. That affects the DELETE notification the reminder receives: `delete` sends the route's `uuid.UUID` (src/application/events_sql_repo.py:68-69), so the reminder's DELETE drops nothing. UPDATE is not affected, because `update` sends the id of the event `get_one` loaded, which is the stored string (src/application/events_sql_repo.py:121-123, 133-134). The model does not reproduce this accident of dynamic typing.
- Repositories hold event values, not shared objects. The in-memory `get_one` returns the stored object itself, and `update_event` changes it in place. In the source, a count rejected after other fields were set leaves those fields changed in the repository. EventsRoutes.UpdateEvent leaves the repository unchanged on any error. The dicts the SQL repository hands to observers are also shared: the reminder writes `checked` into them. The model gives each observer its own copy. With the in-memory repository `get_all` returns the stored list itself, so the listing's `sort_events` (src/application/routers/events_routes.py:89-91) reorders the repository's own list; the model sorts a copy. The SQL repository builds a fresh list, so it is unaffected.
- EventsRoutes.UpdateEvent works over the in-memory repository, as the route tests do. The SQL repository's `get_one` raises EventDoesntExists instead of answering None. That case is SqlRepository.GetOne.
- Request validation by the pydantic schemas (`FutureDatetime`, `PositiveInt`) is left out. The library's checks cannot be seen. The exception is `ReturnableEvent.number_of_participants`, whose `PositiveInt` refusal of 0 is modelled in ParseEventToClient.
- `SortKey`'s definition is not part of this model. It is taken as the three-member enum the route matches on. Every member is truthy, so a given key always sorts.
- DateTimes.Parse accepts only the fixed-width form "MM/DD/YYYY, HH:MM:SS". strptime also accepts one-digit fields, which no stored text contains. DateTimes.Format pads the year to four digits; glibc's `%Y` does not pad years below 1000.
- `list.sort` (timsort) is an insertion sort in the model. Both are stable descending sorts, so the results are equal, and equality with the specification is proved.
- The interface docstrings of the repositories (for example that `update` raises on an absent id) are not followed. The model does what the code does.
- `src/application/events_sql_repo.py:8-11` imports `Event` from `src.domain.event.event`, and the value objects (`Title`, `Participants`, `Time`, ...), `RepoMethod` and `RepoActionDetails` from `src.domain.event.events_args`. Those two modules are not part of this model. They are taken to be the classes of `src/domain/entities/event.py` and `src/domain/vo/events_args.py`, with `RepoMethod` and `RepoActionDetails` as the reminder uses them. SqlRepository.FromRowToEvent's validity rules (a count checked as `Participants`, timestamps loaded as `Time` without a futurity check) rest on this.
- SqlRepository.EventsRepositorySQLImpl.AddObserver takes `get_repo_state` not to raise, as the reminder's does not. An observer whose `get_repo_state` raised would propagate that exception after the registration.
- A participant count beyond SQLite's 64-bit integers makes the binding raise OverflowError. SqlRepository.EventsRepositorySQLImpl.Add and Update model this before the store.

## Findings

| source | as written | input that shows it | evidently intended | confidence | as-written member | corrected member |
|---|---|---|---|---|---|---|
| src/application/services/reminder_service.py:26-38 | the UPDATE branch builds `repo_copy_wo_obj` without the event's records, never stores it, and appends the new record to the old mirror | a mirror holding one record with the event's id, then UPDATE for that id: the mirror then holds two records of the event, the stale one reminded of at its old time | the event's records replaced by the new one; ReminderService.ReminderServiceImpl.Update does this | not executed | ReminderService.UpdateKeepsStaleRecord | ReminderService.IntendedUpdateReplaces |
| src/domain/vo/events_args.py:13-17 | `type_validator` compares types after the loop, so only the last field is checked | fields `a: int = "x"` and `b: str = "y"`: validated as True | every field compared with its annotation | not executed | EventsArgs.TypeValidatorMissesEarlierFields | EventsArgs.ValidateAllFields |
