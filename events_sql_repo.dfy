/**
 * The SQLite-backed events repository and its observer protocol. The `events` table is modelled as
 * its rows in rowid (insertion) order, each row holding the `as_dict` values under their column
 * names; `event_id` is the primary key. Calls made on observers are recorded, in order, in
 * `deliveries`.
 */
module SqlRepository {
  import opened Wrappers
  import opened Exceptions
  import opened Seqs
  import opened DateTimes
  import opened EventsArgs
  import opened EventEntity

  datatype RepoMethod = CREATE | DELETE | UPDATE

  /** What a notification carries: the event's id and, for CREATE and UPDATE, its `as_dict` row. */
  datatype RepoActionDetails = RepoActionDetails(eventId: EventId, event: Option<EventRecord>)

  /** The identity of a subscribed observer object. */
  type ObserverId = nat

  /** One call the repository made on an observer. */
  datatype Delivery =
    | RepoState(observer: ObserverId, repo: seq<EventRecord>)                              // get_repo_state(repo)
    | Notification(observer: ObserverId, repoMethod: RepoMethod, details: RepoActionDetails)  // update(method, details)

  predicate HasRow(table: seq<EventRecord>, id: EventId) {
    exists i :: 0 <= i < |table| && table[i].eventId == id
  }

  /** The primary-key constraint on `event_id`. */
  predicate UniqueIds(table: seq<EventRecord>) {
    forall i, j :: 0 <= i < j < |table| ==> table[i].eventId != table[j].eventId
  }

  predicate NoDuplicates(observers: seq<ObserverId>) {
    forall i, j :: 0 <= i < j < |observers| ==> observers[i] != observers[j]
  }

  /** Deleting rows keeps `event_id` a key. */
  lemma {:induction false} FilterKeepsUniqueIds(table: seq<EventRecord>, p: EventRecord -> bool)
    requires UniqueIds(table)
    ensures UniqueIds(Filter(table, p))
    decreases |table|
  {
    if table != [] {
      var rest := Filter(table[1..], p);
      FilterKeepsUniqueIds(table[1..], p);
      FilterMembers(table[1..], p);
      if p(table[0]) {
        var r := [table[0]] + rest;
        forall j | 0 < j < |r| ensures r[0].eventId != r[j].eventId {
          assert r[j] in rest;
          var k :| 0 <= k < |table[1..]| && table[1..][k] == r[j];
          assert table[k + 1] == r[j];
        }
      }
    }
  }

  /** Python's `list.remove(x)` on a list without duplicates is the filter that drops `x`. */
  lemma {:induction false} RemoveUnique(s: seq<ObserverId>, i: nat, x: ObserverId)
    requires NoDuplicates(s) && i < |s| && s[i] == x
    ensures s[..i] + s[i + 1..] == Filter(s, (o: ObserverId) => o != x)
    ensures NoDuplicates(s[..i] + s[i + 1..])
  {
    forall k | 0 <= k < |s| && k != i ensures s[k] != x {
      if k < i { assert s[k] != s[i]; } else { assert s[i] != s[k]; }
    }
    RemoveOnly(s[..i], x, s[i + 1..]);
    assert s == s[..i] + [x] + s[i + 1..];
    RemoveKeepsNoDuplicates(s, i);
  }

  lemma {:induction false} RemoveOnly(head: seq<ObserverId>, x: ObserverId, tail: seq<ObserverId>)
    requires forall k :: 0 <= k < |head| ==> head[k] != x
    requires forall k :: 0 <= k < |tail| ==> tail[k] != x
    ensures head + tail == Filter(head + [x] + tail, (o: ObserverId) => o != x)
    decreases |head|
  {
    var p := (o: ObserverId) => o != x;
    if head == [] {
      FilterCons(x, tail, p);
      FilterAll(tail, p);
      assert head + [x] + tail == [x] + tail;
    } else {
      RemoveOnly(head[1..], x, tail);
      FilterCons(head[0], head[1..] + [x] + tail, p);
      assert head + [x] + tail == [head[0]] + (head[1..] + [x] + tail);
      assert head + tail == [head[0]] + (head[1..] + tail);
    }
  }

  lemma {:induction false} RemoveKeepsNoDuplicates(s: seq<ObserverId>, i: nat)
    requires NoDuplicates(s) && i < |s|
    ensures NoDuplicates(s[..i] + s[i + 1..])
  {
    var r := s[..i] + s[i + 1..];
    forall a, b | 0 <= a < b < |r| ensures r[a] != r[b] {
      var a' := if a < i then a else a + 1;
      var b' := if b < i then b else b + 1;
      assert r[a] == s[a'] && r[b] == s[b'];
    }
  }

  // ---------------------------------------------------------------------------------------------
  // from_row_to_event and the read operations, as functions of the table
  // ---------------------------------------------------------------------------------------------

  /**
   * `from_row_to_event`: the three timestamps go through strptime and `Time` (not `EventTime`, so a
   * past event time loads), the count through `Participants`; the first failure raises ValueError.
   * Whatever loads serialises back to the very row it came from.
   */
  function FromRowToEvent(row: EventRecord): (r: Result<EventData, Error>)
    ensures r.Ok? <==> Parse(row.eventTime).Some? && Parse(row.creationTime).Some? &&
                       Parse(row.modifyTime).Some? && 0 <= row.participants <= MaxParticipants
    ensures r.Ok? ==> AsDict(r.value) == row
    ensures r.Ok? ==> r.value.eventTime.value == Parse(row.eventTime).value &&
                      r.value.creationTime.value == Parse(row.creationTime).value &&
                      r.value.modifyTime.value == Parse(row.modifyTime).value
    ensures r.Err? ==> r.error == ValueError
  {
    var eventTime := Parse(row.eventTime);
    if eventTime.None? then Err(ValueError)
    else
      var participants := NewParticipants(PyInt(row.participants));
      if participants.Err? then Err(ValueError)
      else
        var creationTime := Parse(row.creationTime);
        if creationTime.None? then Err(ValueError)
        else
          var modifyTime := Parse(row.modifyTime);
          if modifyTime.None? then Err(ValueError)
          else
            FormatParse(row.eventTime);
            FormatParse(row.creationTime);
            FormatParse(row.modifyTime);
            Ok(EventData(row.eventId, Time(eventTime.value), Title(row.title), Location(row.location),
                         Venue(row.venue), participants.value, Time(creationTime.value), Time(modifyTime.value)))
  }

  /** Storing an event and loading it back gives the event with its timestamps cut to whole seconds. */
  lemma {:induction false} FromRowOfAsDict(e: EventData)
    ensures FromRowToEvent(AsDict(e)) == Ok(TruncatedEvent(e))
  {
    var row := AsDict(e);
    assert FromRowToEvent(row).Ok?;
    var loaded := FromRowToEvent(row).value;
    AsDictUpToSeconds(loaded, e);
    assert TruncatedEvent(loaded) == loaded;
  }

  function AsDicts(events: seq<EventData>): (rows: seq<EventRecord>)
    ensures |rows| == |events|
    ensures forall i :: 0 <= i < |events| ==> rows[i] == AsDict(events[i])
  {
    seq(|events|, i requires 0 <= i < |events| => AsDict(events[i]))
  }

  /**
   * `[from_row_to_event(row) for row in rows]`: ValueError as soon as one row does not load (every
   * failure of `from_row_to_event` is a ValueError, so which row fails first does not matter).
   */
  function FromRows(rows: seq<EventRecord>): (r: Result<seq<EventData>, Error>)
    ensures r.Ok? <==> forall i :: 0 <= i < |rows| ==> FromRowToEvent(rows[i]).Ok?
    ensures r.Ok? ==> |r.value| == |rows| &&
                      forall i :: 0 <= i < |rows| ==> FromRowToEvent(rows[i]) == Ok(r.value[i])
    ensures r.Ok? ==> AsDicts(r.value) == rows
    ensures r.Err? ==> r.error == ValueError
  {
    if forall i :: 0 <= i < |rows| ==> FromRowToEvent(rows[i]).Ok? then
      var events := seq(|rows|, i requires 0 <= i < |rows| => FromRowToEvent(rows[i]).value);
      assert forall i :: 0 <= i < |rows| ==> AsDict(events[i]) == rows[i];
      Ok(events)
    else
      Err(ValueError)
  }

  /** `get_all`: every row, loaded, in table order. */
  function GetAll(table: seq<EventRecord>): (r: Result<seq<EventData>, Error>)
    ensures r.Ok? <==> forall i :: 0 <= i < |table| ==> FromRowToEvent(table[i]).Ok?
    ensures r.Ok? ==> AsDicts(r.value) == table
    ensures r.Err? ==> r.error == ValueError
  {
    FromRows(table)
  }

  /** The rows `read_with_conditions(..., "event_id", id)` selects, in table order. */
  function RowsWithId(table: seq<EventRecord>, id: EventId): (rows: seq<EventRecord>)
    ensures forall row :: row in rows <==> row in table && row.eventId == id
    ensures |rows| > 0 <==> HasRow(table, id)
    ensures IsSubseq(rows, table)
  {
    var p := (row: EventRecord) => row.eventId == id;
    FilterMembers(table, p);
    FilterSubseq(table, p);
    assert HasRow(table, id) ==> Filter(table, p) != [] by {
      if HasRow(table, id) {
        var i :| 0 <= i < |table| && table[i].eventId == id;
        assert table[i] in table;
      }
    }
    var rows := Filter(table, p);
    assert |rows| > 0 ==> HasRow(table, id) by {
      if |rows| > 0 {
        assert rows[0] in table;
        var i :| 0 <= i < |table| && table[i] == rows[0];
      }
    }
    rows
  }

  /**
   * `get_one`: EventDoesntExists when no row has the id; otherwise the first such row, loaded
   * (ValueError when it does not load), which serialises back to the stored row.
   */
  function GetOne(table: seq<EventRecord>, id: EventId): (r: Result<EventData, Error>)
    ensures r == Err(EventDoesntExists) <==> !HasRow(table, id)
    ensures HasRow(table, id) ==> r == FromRowToEvent(RowsWithId(table, id)[0])
    ensures r.Err? ==> r.error == EventDoesntExists || r.error == ValueError
    ensures r.Ok? ==> r.value.eventId == id && AsDict(r.value) in table
  {
    var res := RowsWithId(table, id);
    if res == [] then Err(EventDoesntExists)
    else
      assert res[0] in res;
      FromRowToEvent(res[0])
  }

  /** Loading the rows a condition selects succeeds iff every stored row meeting it loads. */
  lemma FromRowsOfFilter(table: seq<EventRecord>, p: EventRecord -> bool)
    ensures FromRows(Filter(table, p)).Ok? <==> forall row :: row in table && p(row) ==> FromRowToEvent(row).Ok?
  {
    var rows := Filter(table, p);
    FilterMembers(table, p);
    if FromRows(rows).Ok? {
      forall row | row in table && p(row) ensures FromRowToEvent(row).Ok? {
        var i :| 0 <= i < |rows| && rows[i] == row;
      }
    } else {
      var i :| 0 <= i < |rows| && !FromRowToEvent(rows[i]).Ok?;
      assert rows[i] in rows;
    }
  }

  /** `get_by_location`: the events stored at the location, in table order. */
  function GetByLocation(table: seq<EventRecord>, requiredLocation: Location): (r: Result<seq<EventData>, Error>)
    ensures r.Ok? <==> forall row :: row in table && row.location == requiredLocation.value ==> FromRowToEvent(row).Ok?
    ensures r.Ok? ==> AsDicts(r.value) == Filter(table, (row: EventRecord) => row.location == requiredLocation.value)
    ensures r.Err? ==> r.error == ValueError
    ensures r.Ok? ==> forall e :: e in r.value ==> e.location == requiredLocation
  {
    var p := (row: EventRecord) => row.location == requiredLocation.value;
    FilterMembers(table, p);
    FromRowsOfFilter(table, p);
    var res := FromRows(Filter(table, p));
    assert res.Ok? ==> forall i :: 0 <= i < |res.value| ==> AsDict(res.value[i]) in table;
    res
  }

  /** `get_by_venue`: the events stored at the venue, in table order. */
  function GetByVenue(table: seq<EventRecord>, requiredVenue: Venue): (r: Result<seq<EventData>, Error>)
    ensures r.Ok? <==> forall row :: row in table && row.venue == requiredVenue.value ==> FromRowToEvent(row).Ok?
    ensures r.Ok? ==> AsDicts(r.value) == Filter(table, (row: EventRecord) => row.venue == requiredVenue.value)
    ensures r.Err? ==> r.error == ValueError
    ensures r.Ok? ==> forall e :: e in r.value ==> e.venue == requiredVenue
  {
    var p := (row: EventRecord) => row.venue == requiredVenue.value;
    FilterMembers(table, p);
    FromRowsOfFilter(table, p);
    var res := FromRows(Filter(table, p));
    assert res.Ok? ==> forall i :: 0 <= i < |res.value| ==> AsDict(res.value[i]) in table;
    res
  }

  /** `DELETE FROM events WHERE event_id = id`. */
  function DeleteRows(table: seq<EventRecord>, id: EventId): (r: seq<EventRecord>)
    ensures !HasRow(r, id)
    ensures IsSubseq(r, table)
    ensures forall row :: multiset(r)[row] == if row.eventId == id then 0 else multiset(table)[row]
  {
    var p := (row: EventRecord) => row.eventId != id;
    FilterMembers(table, p);
    FilterSubseq(table, p);
    FilterCount(table, p);
    var r := Filter(table, p);
    assert forall i :: 0 <= i < |r| ==> r[i] in r;
    r
  }

  /** `UPDATE events SET <every column> WHERE event_id = id`: matching rows become `item`, in place. */
  function UpdateRows(table: seq<EventRecord>, id: EventId, item: EventRecord): (r: seq<EventRecord>)
    ensures |r| == |table|
    ensures forall i :: 0 <= i < |table| && table[i].eventId != id ==> r[i] == table[i]
    ensures forall i :: 0 <= i < |table| && table[i].eventId == id ==> r[i] == item
  {
    seq(|table|, i requires 0 <= i < |table| => if table[i].eventId == id then item else table[i])
  }

  /** The UPDATE would give two rows the same `event_id`, which SQLite refuses. */
  predicate UpdateBreaksKey(table: seq<EventRecord>, id: EventId, item: EventRecord) {
    HasRow(table, id) && item.eventId != id && HasRow(table, item.eventId)
  }

  /** An UPDATE that SQLite accepts keeps `event_id` a key. */
  lemma {:induction false} UpdateRowsKeepsKey(table: seq<EventRecord>, id: EventId, item: EventRecord)
    requires UniqueIds(table) && !UpdateBreaksKey(table, id, item)
    ensures UniqueIds(UpdateRows(table, id, item))
  {
    var r := UpdateRows(table, id, item);
    forall i, j | 0 <= i < j < |r| ensures r[i].eventId != r[j].eventId {
      if table[i].eventId == id && table[j].eventId == id {
        assert false;
      } else if table[i].eventId == id {
        assert r[i] == item && r[j] == table[j];
        if item.eventId != id {
          assert !HasRow(table, item.eventId);
        }
      } else if table[j].eventId == id {
        assert r[j] == item && r[i] == table[i];
        if item.eventId != id {
          assert !HasRow(table, item.eventId);
        }
      }
    }
  }

  /** An UPDATE whose id matches no row leaves the table as it is. */
  lemma {:induction false} UpdateRowsAbsent(table: seq<EventRecord>, id: EventId, item: EventRecord)
    requires !HasRow(table, id)
    ensures UpdateRows(table, id, item) == table
  {
    var r := UpdateRows(table, id, item);
    forall i | 0 <= i < |table| ensures r[i] == table[i] {
      assert table[i].eventId != id;
    }
  }

  /** SQLite stores integers in 64 bits; binding a larger Python int raises OverflowError, not a sqlite3 error. */
  predicate FitsInteger(n: int) {
    -0x8000_0000_0000_0000 <= n < 0x8000_0000_0000_0000
  }

  /** `add` reaches the store and commits: the count fits SQLite's integers, and the insert succeeds. */
  predicate Inserts(table: seq<EventRecord>, newEvent: EventData, storeFails: bool) {
    FitsInteger(newEvent.participants.value) && !storeFails && !HasRow(table, newEvent.eventId)
  }

  /** `update` reaches the store and commits: the count fits, and the UPDATE breaks no key. */
  predicate Overwrites(table: seq<EventRecord>, eventId: EventId, newEvent: EventData, storeFails: bool) {
    FitsInteger(newEvent.participants.value) && !storeFails && !UpdateBreaksKey(table, eventId, AsDict(newEvent))
  }

  /** The calls `notify_observers(method, details)` makes: one `update` per observer, in registration order. */
  function FanOut(observers: seq<ObserverId>, repoMethod: RepoMethod, details: RepoActionDetails): (r: seq<Delivery>)
    ensures |r| == |observers|
    ensures forall i :: 0 <= i < |r| ==> r[i] == Notification(observers[i], repoMethod, details)
  {
    seq(|observers|, i requires 0 <= i < |observers| => Notification(observers[i], repoMethod, details))
  }

  /**
   * The position of the first call whose `update` raises, or the number of calls. What an observer's
   * `update` answers is given by `answer`, since an observer is any object with that method.
   */
  function FirstRaising(calls: seq<Delivery>, answer: Delivery -> Outcome<Error>): (k: nat)
    ensures k <= |calls|
    ensures forall j :: 0 <= j < k ==> answer(calls[j]).Pass?
    ensures k < |calls| ==> answer(calls[k]).Fail?
    decreases |calls|
  {
    if calls == [] then 0
    else if answer(calls[0]).Fail? then 0
    else
      var k := FirstRaising(calls[1..], answer);
      assert forall j :: 1 <= j < k + 1 ==> calls[j] == calls[1..][j - 1];
      1 + k
  }

  /**
   * The calls the `for observer in self.observers` loop makes: each in turn, up to and including the
   * first whose `update` raises, which ends the loop.
   */
  function Delivered(calls: seq<Delivery>, answer: Delivery -> Outcome<Error>): (r: seq<Delivery>)
    ensures |r| <= |calls| && r == calls[..|r|]
    ensures forall j :: 0 <= j < |r| - 1 ==> answer(r[j]).Pass?
    ensures |r| < |calls| ==> |r| >= 1 && answer(r[|r| - 1]).Fail?
    ensures (forall j :: 0 <= j < |calls| ==> answer(calls[j]).Pass?) ==> r == calls
  {
    var k := FirstRaising(calls, answer);
    if k < |calls| then calls[..k + 1] else calls
  }

  /** How the loop ends: normally when no `update` raises, otherwise with the last call's exception. */
  function NotifyOutcome(calls: seq<Delivery>, answer: Delivery -> Outcome<Error>): (r: Outcome<Error>)
    ensures r.Pass? <==> forall j :: 0 <= j < |calls| ==> answer(calls[j]).Pass?
    ensures r.Fail? ==> |Delivered(calls, answer)| >= 1 &&
                        r == answer(Delivered(calls, answer)[|Delivered(calls, answer)| - 1])
  {
    var k := FirstRaising(calls, answer);
    if k < |calls| then answer(calls[k]) else Pass
  }

  class EventsRepositorySQLImpl {
    var table: seq<EventRecord>
    var observers: seq<ObserverId>
    var deliveries: seq<Delivery>

    ghost predicate Valid()
      reads this
    {
      UniqueIds(table) && NoDuplicates(observers)
    }

    /** `__init__` and `setup` on a database whose `events` table is created empty. */
    constructor ()
      ensures Valid() && table == [] && observers == [] && deliveries == []
    {
      table, observers, deliveries := [], [], [];
    }

    /**
     * `add_observer`: a no-op for an observer already registered; otherwise the observer is appended
     * and immediately handed `as_dict` of every stored event, which is the table itself. When a row
     * cannot be loaded the call raises after the registration and before the hand-over.
     */
    method AddObserver(observer: ObserverId) returns (r: Outcome<Error>)
      requires Valid()
      modifies this
      ensures Valid() && table == old(table)
      ensures observer in old(observers) ==>
        observers == old(observers) && deliveries == old(deliveries) && r == Pass
      ensures observer !in old(observers) ==> observers == old(observers) + [observer]
      ensures observer !in old(observers) && GetAll(table).Ok? ==>
        r == Pass && deliveries == old(deliveries) + [RepoState(observer, table)]
      ensures observer !in old(observers) && GetAll(table).Err? ==>
        r == Fail(GetAll(table).error) && deliveries == old(deliveries)
    {
      if observer !in observers {
        observers := observers + [observer];
        var events := GetAll(table);
        if events.Err? {
          return Fail(events.error);
        }
        deliveries := deliveries + [RepoState(observer, AsDicts(events.value))];
      }
      r := Pass;
    }

    /** `remove_observer`: a registered observer is taken out, the others keep their order; otherwise a no-op. */
    method RemoveObserver(observer: ObserverId)
      requires Valid()
      modifies this
      ensures Valid() && table == old(table) && deliveries == old(deliveries)
      ensures observers == Filter(old(observers), (o: ObserverId) => o != observer)
      ensures observer !in observers
    {
      var i := 0;
      while i < |observers| && observers[i] != observer
        invariant 0 <= i <= |observers|
        invariant observer !in observers[..i]
      {
        i := i + 1;
      }
      if i < |observers| {
        RemoveUnique(observers, i, observer);
        observers := observers[..i] + observers[i + 1..];
      } else {
        assert observers[..i] == observers;
        FilterAll(observers, (o: ObserverId) => o != observer);
      }
    }

    /**
     * `notify_observers`: `update(method, details)` on each observer in registration order; an
     * exception from one `update` ends the loop and propagates, so later observers are not called.
     */
    method NotifyObservers(repoMethod: RepoMethod, details: RepoActionDetails, answer: Delivery -> Outcome<Error>)
      returns (r: Outcome<Error>)
      modifies this
      ensures table == old(table) && observers == old(observers)
      ensures deliveries == old(deliveries) + Delivered(FanOut(observers, repoMethod, details), answer)
      ensures r == NotifyOutcome(FanOut(observers, repoMethod, details), answer)
    {
      ghost var calls := FanOut(observers, repoMethod, details);
      for i := 0 to |observers|
        invariant table == old(table) && observers == old(observers)
        invariant i <= FirstRaising(calls, answer)
        invariant deliveries == old(deliveries) + calls[..i]
      {
        var call := Notification(observers[i], repoMethod, details);
        deliveries := deliveries + [call];
        assert calls[..i + 1] == calls[..i] + [call];
        var outcome := answer(call);
        if outcome.Fail? {
          return outcome;
        }
      }
      assert calls[..|observers|] == calls;
      r := Pass;
    }

    /**
     * `add`: the `as_dict` row is inserted, then CREATE is sent with the event's id and that same row.
     * When the store fails (`storeFails`, or the id is already a key) it raises QueryException and
     * nobody is notified; a count beyond SQLite's 64-bit integers raises OverflowError first.
     */
    method Add(newEvent: EventData, storeFails: bool, answer: Delivery -> Outcome<Error>) returns (r: Outcome<Error>)
      requires Valid()
      modifies this
      ensures Valid() && observers == old(observers)
      ensures !FitsInteger(newEvent.participants.value) ==> r == Fail(OverflowError)
      ensures FitsInteger(newEvent.participants.value) && (storeFails || HasRow(old(table), newEvent.eventId)) ==>
        r == Fail(QueryException)
      ensures !Inserts(old(table), newEvent, storeFails) ==> table == old(table) && deliveries == old(deliveries)
      ensures Inserts(old(table), newEvent, storeFails) ==>
        var calls := FanOut(observers, CREATE, RepoActionDetails(newEvent.eventId, Some(AsDict(newEvent))));
        table == old(table) + [AsDict(newEvent)] &&
        deliveries == old(deliveries) + Delivered(calls, answer) && r == NotifyOutcome(calls, answer)
    {
      var itemToInsert := AsDict(newEvent);
      if !FitsInteger(itemToInsert.participants) {
        return Fail(OverflowError);
      }
      if storeFails || HasRow(table, itemToInsert.eventId) {
        return Fail(QueryException);
      }
      table := table + [itemToInsert];
      r := NotifyObservers(CREATE, RepoActionDetails(newEvent.eventId, Some(itemToInsert)), answer);
    }

    /**
     * `delete`: `get_one` first, so a missing id raises EventDoesntExists before the table or any
     * observer is touched; then the row goes and DELETE is sent carrying only the id.
     */
    method Delete(eventId: EventId, storeFails: bool, answer: Delivery -> Outcome<Error>) returns (r: Outcome<Error>)
      requires Valid()
      modifies this
      ensures Valid() && observers == old(observers)
      ensures !HasRow(old(table), eventId) ==> r == Fail(EventDoesntExists)
      ensures GetOne(old(table), eventId).Err? ==> r == Fail(GetOne(old(table), eventId).error)
      ensures GetOne(old(table), eventId).Ok? && storeFails ==> r == Fail(QueryException)
      ensures !(GetOne(old(table), eventId).Ok? && !storeFails) ==> table == old(table) && deliveries == old(deliveries)
      ensures GetOne(old(table), eventId).Ok? && !storeFails ==>
        var calls := FanOut(observers, DELETE, RepoActionDetails(eventId, None));
        table == DeleteRows(old(table), eventId) && !HasRow(table, eventId) &&
        deliveries == old(deliveries) + Delivered(calls, answer) && r == NotifyOutcome(calls, answer)
    {
      var found := GetOne(table, eventId);
      if found.Err? {
        return Fail(found.error);
      }
      if storeFails {
        return Fail(QueryException);
      }
      FilterKeepsUniqueIds(table, (row: EventRecord) => row.eventId != eventId);
      FilterMembers(table, (row: EventRecord) => row.eventId != eventId);
      table := DeleteRows(table, eventId);
      assert forall i :: 0 <= i < |table| ==> table[i] in table;
      r := NotifyObservers(DELETE, RepoActionDetails(eventId, None), answer);
    }

    /**
     * `update`: the row keyed `eventId` is overwritten with `as_dict(newEvent)` and UPDATE is sent with
     * `newEvent`'s id and row. Existence is not checked: for an absent id the table stays as it is and
     * UPDATE is sent all the same. QueryException when the store fails or the new id clashes with
     * another row's key; OverflowError first for a count beyond SQLite's 64-bit integers.
     */
    method Update(eventId: EventId, newEvent: EventData, storeFails: bool, answer: Delivery -> Outcome<Error>)
      returns (r: Outcome<Error>)
      requires Valid()
      modifies this
      ensures Valid() && observers == old(observers)
      ensures !FitsInteger(newEvent.participants.value) ==> r == Fail(OverflowError)
      ensures FitsInteger(newEvent.participants.value) && (storeFails || UpdateBreaksKey(old(table), eventId, AsDict(newEvent))) ==>
        r == Fail(QueryException)
      ensures !Overwrites(old(table), eventId, newEvent, storeFails) ==> table == old(table) && deliveries == old(deliveries)
      ensures Overwrites(old(table), eventId, newEvent, storeFails) ==>
        var calls := FanOut(observers, UPDATE, RepoActionDetails(newEvent.eventId, Some(AsDict(newEvent))));
        table == UpdateRows(old(table), eventId, AsDict(newEvent)) &&
        deliveries == old(deliveries) + Delivered(calls, answer) && r == NotifyOutcome(calls, answer)
      ensures Overwrites(old(table), eventId, newEvent, storeFails) && !HasRow(old(table), eventId) ==> table == old(table)
    {
      var itemToInsert := AsDict(newEvent);
      if !FitsInteger(itemToInsert.participants) {
        return Fail(OverflowError);
      }
      if storeFails || UpdateBreaksKey(table, eventId, itemToInsert) {
        return Fail(QueryException);
      }
      UpdateRowsKeepsKey(table, eventId, itemToInsert);
      if !HasRow(table, eventId) {
        UpdateRowsAbsent(table, eventId, itemToInsert);
      }
      table := UpdateRows(table, eventId, itemToInsert);
      r := NotifyObservers(UPDATE, RepoActionDetails(newEvent.eventId, Some(itemToInsert)), answer);
    }
  }

  /** After a successful `add`, `get_one` on the new id returns the added event, to the second. */
  lemma {:induction false} AddThenGetOne(table: seq<EventRecord>, e: EventData)
    requires !HasRow(table, e.eventId)
    ensures GetOne(table + [AsDict(e)], e.eventId) == Ok(TruncatedEvent(e))
  {
    var t := table + [AsDict(e)];
    var p := (row: EventRecord) => row.eventId == e.eventId;
    FilterAppend(table, [AsDict(e)], p);
    FilterNone(table, p);
    FromRowOfAsDict(e);
  }

  /** After a successful `delete(id)`, `get_one(id)` raises EventDoesntExists. */
  lemma {:induction false} DeleteThenGetOne(table: seq<EventRecord>, id: EventId)
    ensures GetOne(DeleteRows(table, id), id) == Err(EventDoesntExists)
  {
    var t := DeleteRows(table, id);
    FilterMembers(table, (row: EventRecord) => row.eventId != id);
    assert forall i :: 0 <= i < |t| ==> t[i] in t;
    FilterNone(t, (row: EventRecord) => row.eventId == id);
  }
}
