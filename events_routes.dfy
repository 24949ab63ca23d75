/**
 * The logic of the events routes: the descending, stable in-place sort of a listing, the mapping of
 * an event to its client form, the listing endpoints' ordering, and the partial update of
 * `update_event`. The routes run over the list-backed repository, whose `get_one` answers None for
 * an unknown id.
 */
module EventsRoutes {
  import opened Wrappers
  import opened Exceptions
  import opened Seqs
  import opened DateTimes
  import opened EventsArgs
  import opened EventEntity
  import opened InMemoryRepository
  import opened DescendingSort

  datatype SortKey = DATE | NUMBER_OF_PARTICIPANTS | CREATION_TIME

  /** The sort key's value for an event; datetimes are compared as their ticks. */
  function Key(sk: SortKey, e: EventData): int {
    match sk
    case DATE => Ticks(e.eventTime.value)
    case NUMBER_OF_PARTICIPANTS => e.participants.value
    case CREATION_TIME => Ticks(e.creationTime.value)
  }

  function KeyOf(sk: SortKey): EventData -> int {
    (e: EventData) => Key(sk, e)
  }

  /**
   * `sort_events(sort_key, events)`: the events reordered in place by the chosen key, non-increasing
   * and stable, as Python's `list.sort(key=..., reverse=True)` leaves them.
   */
  method SortEvents(sk: SortKey, a: array<EventData>)
    modifies a
    ensures a[..] == SortDesc(old(a[..]), KeyOf(sk))
    ensures SortedDesc(a[..], KeyOf(sk)) && multiset(a[..]) == multiset(old(a[..]))
  {
    SortDescPermutes(a[..], KeyOf(sk));
    SortInPlace(a, KeyOf(sk));
  }

  // ---------------------------------------------------------------------------------------------
  // parse_event_to_client and the listing endpoints
  // ---------------------------------------------------------------------------------------------

  /** The response model; `number_of_participants` is a pydantic `PositiveInt`. */
  datatype ReturnableEvent = ReturnableEvent(
    eventId: string, eventTitle: string, eventLocation: string, eventVenue: string,
    numberOfParticipants: int, eventTime: string)

  /**
   * `parse_event_to_client`: the id, title, location, venue and count as stored, the event time
   * formatted to the second; an event with no participants fails `PositiveInt` validation.
   */
  function ParseEventToClient(e: EventData): (r: Result<ReturnableEvent, Error>)
    ensures r.Ok? <==> e.participants.value > 0
    ensures r.Err? ==> r.error == ValueError
    ensures r.Ok? ==> r.value.eventId == e.eventId && r.value.eventTitle == e.title.value &&
                      r.value.eventLocation == e.location.value && r.value.eventVenue == e.venue.value &&
                      r.value.numberOfParticipants == e.participants.value
    ensures r.Ok? ==> r.value.eventTime == Format(e.eventTime.value)
  {
    if e.participants.value <= 0 then Err(ValueError)
    else
      Ok(ReturnableEvent(e.eventId, e.title.value, e.location.value, e.venue.value,
                         e.participants.value, Format(e.eventTime.value)))
  }

  /**
   * The client sees the stored row's values, and reads back the event's time, to the second, from
   * the string it is sent.
   */
  lemma ClientMatchesRow(e: EventData)
    requires ParseEventToClient(e).Ok?
    ensures var c, row := ParseEventToClient(e).value, AsDict(e);
      c.eventId == row.eventId && c.eventTitle == row.title && c.eventLocation == row.location &&
      c.eventVenue == row.venue && c.numberOfParticipants == row.participants && c.eventTime == row.eventTime
    ensures Parse(ParseEventToClient(e).value.eventTime) == Some(Truncated(e.eventTime.value))
  {
    ParseFormat(e.eventTime.value);
  }

  /** `[dict(parse_event_to_client(event)) for event in events]`. */
  function ToClientAll(events: seq<EventData>): (r: Result<seq<ReturnableEvent>, Error>)
    ensures r.Ok? <==> forall i :: 0 <= i < |events| ==> events[i].participants.value > 0
    ensures r.Ok? ==> |r.value| == |events| &&
                      forall i :: 0 <= i < |events| ==> Ok(r.value[i]) == ParseEventToClient(events[i])
    ensures r.Err? ==> r.error == ValueError
  {
    if forall i :: 0 <= i < |events| ==> events[i].participants.value > 0 then
      Ok(seq(|events|, i requires 0 <= i < |events| => ParseEventToClient(events[i]).value))
    else
      Err(ValueError)
  }

  /** What a listing endpoint answers: the events in repository order, or sorted when a key is given. */
  function Listing(events: seq<EventData>, sortKey: Option<SortKey>): (r: Result<seq<ReturnableEvent>, Error>)
    ensures sortKey.None? ==> r == ToClientAll(events)
    ensures sortKey.Some? ==> r == ToClientAll(SortDesc(events, KeyOf(sortKey.value)))
  {
    match sortKey
    case None => ToClientAll(events)
    case Some(sk) => ToClientAll(SortDesc(events, KeyOf(sk)))
  }

  /** Converting one more event extends the converted list by that event's client view. */
  lemma ToClientSnoc(events: seq<EventData>, i: nat, client: ReturnableEvent)
    requires i < |events| && ToClientAll(events[..i]).Ok? && ParseEventToClient(events[i]) == Ok(client)
    ensures ToClientAll(events[..i + 1]) == Ok(ToClientAll(events[..i]).value + [client])
  {
    var front, all := events[..i], events[..i + 1];
    assert forall k :: 0 <= k < i ==> all[k] == front[k];
    assert all[i] == events[i];
    var sf := seq(i, k requires 0 <= k < i => ParseEventToClient(front[k]).value);
    var sa := seq(i + 1, k requires 0 <= k < i + 1 => ParseEventToClient(all[k]).value);
    assert ToClientAll(front) == Ok(sf);
    assert forall k :: 0 <= k < i + 1 ==> all[k].participants.value > 0;
    assert ToClientAll(all) == Ok(sa);
    forall k | 0 <= k < i + 1 ensures sa[k] == (sf + [client])[k] {
      if k < i {
        assert all[k] == front[k];
      }
    }
    assert sa == sf + [client];
  }

  /** The response list comprehension, as a loop that stops at the first event that fails validation. */
  method ToClientLoop(events: seq<EventData>) returns (r: Result<seq<ReturnableEvent>, Error>)
    ensures r == ToClientAll(events)
  {
    var message: seq<ReturnableEvent> := [];
    for i := 0 to |events|
      invariant ToClientAll(events[..i]) == Ok(message)
    {
      var client := ParseEventToClient(events[i]);
      if client.Err? {
        assert ToClientAll(events).Err?;
        return Err(client.error);
      }
      ToClientSnoc(events, i, client.value);
      message := message + [client.value];
    }
    assert events[..|events|] == events;
    r := Ok(message);
  }

  /** The body of `get_all_events`, `get_events_by_location` and `get_events_by_venue` after the query. */
  method ListEvents(events: seq<EventData>, sortKey: Option<SortKey>) returns (r: Result<seq<ReturnableEvent>, Error>)
    ensures r == Listing(events, sortKey)
  {
    var a := new EventData[|events|](i requires 0 <= i < |events| => events[i]);
    assert a[..] == events;
    if sortKey.Some? {
      SortEvents(sortKey.value, a);
    }
    r := ToClientLoop(a[..]);
  }

  /**
   * Without a sort key a listing keeps repository order; sorted by participants, the counts the
   * client sees never increase down the list.
   */
  lemma ListingOrder(events: seq<EventData>, sortKey: Option<SortKey>)
    requires Listing(events, sortKey).Ok?
    ensures |Listing(events, sortKey).value| == |events|
    ensures sortKey.None? ==>
      forall i :: 0 <= i < |events| ==> Listing(events, sortKey).value[i].eventId == events[i].eventId
    ensures sortKey == Some(NUMBER_OF_PARTICIPANTS) ==>
      var listed := Listing(events, sortKey).value;
      forall i, j :: 0 <= i < j < |listed| ==> listed[i].numberOfParticipants >= listed[j].numberOfParticipants
  {
    if sortKey == Some(NUMBER_OF_PARTICIPANTS) {
      var ordered := SortDesc(events, KeyOf(NUMBER_OF_PARTICIPANTS));
      var listed := Listing(events, sortKey).value;
      assert forall i :: 0 <= i < |ordered| ==> Ok(listed[i]) == ParseEventToClient(ordered[i]);
    }
  }

  // ---------------------------------------------------------------------------------------------
  // update_event
  // ---------------------------------------------------------------------------------------------

  /** The request body; each field may be missing. */
  datatype UpdateEventData = UpdateEventData(
    newEventTitle: Option<string>, newEventLocation: Option<string>, newEventVenue: Option<string>,
    newNumberOfParticipants: Option<int>, newEventTime: Option<DateTime>)

  /** Python truthiness of an optional string: present and non-empty. */
  predicate SuppliedStr(v: Option<string>) {
    v.Some? && v.value != ""
  }

  /** Python truthiness of an optional int: present and non-zero. */
  predicate SuppliedInt(v: Option<int>) {
    v.Some? && v.value != 0
  }

  predicate SuppliesSomething(item: UpdateEventData) {
    item.newEventTime.Some? || SuppliedStr(item.newEventTitle) || SuppliedStr(item.newEventVenue) ||
    SuppliedStr(item.newEventLocation) || SuppliedInt(item.newNumberOfParticipants)
  }

  /**
   * The event after the `update_*` calls for the supplied fields, in the route's order (time, title,
   * venue, location, participants). The new time must not be before `now`, the count must be a valid
   * `Participants`; each failure raises ValueError.
   */
  function ApplyUpdate(e: EventData, item: UpdateEventData, now: DateTime): (r: Result<EventData, Error>)
    ensures r.Ok? <==> (item.newEventTime.Some? ==> !Before(item.newEventTime.value, now)) &&
                       (SuppliedInt(item.newNumberOfParticipants) ==> item.newNumberOfParticipants.value <= MaxParticipants &&
                                                                       item.newNumberOfParticipants.value >= 0)
    ensures r.Err? ==> r.error == ValueError
    ensures r.Ok? ==> r.value.eventId == e.eventId && r.value.creationTime == e.creationTime
    ensures r.Ok? ==> r.value.eventTime.value == item.newEventTime.GetOr(e.eventTime.value)
    ensures r.Ok? ==> r.value.title == if SuppliedStr(item.newEventTitle) then Title(item.newEventTitle.value) else e.title
    ensures r.Ok? ==> r.value.venue == if SuppliedStr(item.newEventVenue) then Venue(item.newEventVenue.value) else e.venue
    ensures r.Ok? ==> r.value.location ==
                      if SuppliedStr(item.newEventLocation) then Location(item.newEventLocation.value) else e.location
    ensures r.Ok? ==> r.value.participants.value ==
                      if SuppliedInt(item.newNumberOfParticipants) then item.newNumberOfParticipants.value
                      else e.participants.value
    ensures r.Ok? ==> r.value.modifyTime == if SuppliesSomething(item) then Time(now) else e.modifyTime
  {
    var afterTime := ApplyTime(e, item, now);
    if afterTime.Err? then afterTime
    else ApplyCount(ApplyTexts(afterTime.value, item, now), item, now)
  }

  /** The `update_time` step: the new time is checked against `now` and stored. */
  function ApplyTime(e: EventData, item: UpdateEventData, now: DateTime): Result<EventData, Error> {
    if item.newEventTime.None? then Ok(e)
    else
      var t := NewEventTime(PyDateTime(item.newEventTime.value), now);
      if t.Err? then Err(t.error) else Ok(e.(eventTime := t.value, modifyTime := Time(now)))
  }

  /** The `update_title`, `update_venue` and `update_location` steps, which cannot fail. */
  function ApplyTexts(e1: EventData, item: UpdateEventData, now: DateTime): EventData {
    var e2 := if SuppliedStr(item.newEventTitle) then e1.(title := Title(item.newEventTitle.value), modifyTime := Time(now)) else e1;
    var e3 := if SuppliedStr(item.newEventVenue) then e2.(venue := Venue(item.newEventVenue.value), modifyTime := Time(now)) else e2;
    if SuppliedStr(item.newEventLocation) then e3.(location := Location(item.newEventLocation.value), modifyTime := Time(now)) else e3
  }

  /** The `update_participants` step: the count is validated as `Participants` and stored. */
  function ApplyCount(e4: EventData, item: UpdateEventData, now: DateTime): Result<EventData, Error> {
    if SuppliedInt(item.newNumberOfParticipants) then
      var n := NewParticipants(PyInt(item.newNumberOfParticipants.value));
      if n.Err? then Err(n.error) else Ok(e4.(participants := n.value, modifyTime := Time(now)))
    else Ok(e4)
  }

  /** A request that supplies nothing leaves the event exactly as it was. */
  lemma ApplyEmptyUpdate(e: EventData, now: DateTime)
    ensures ApplyUpdate(e, UpdateEventData(None, None, None, None, None), now) == Ok(e)
  {
  }

  /** Sending the same update twice at the same moment has the effect of sending it once. */
  lemma ApplyUpdateIdempotent(e: EventData, item: UpdateEventData, now: DateTime)
    requires ApplyUpdate(e, item, now).Ok?
    ensures ApplyUpdate(ApplyUpdate(e, item, now).value, item, now) == ApplyUpdate(e, item, now)
  {
  }

  /**
   * The `update_*` calls of `update_event` on the event found: each supplied field is set on the
   * `Event` object in the route's order, and a rejected time or count raises before the rest.
   */
  method UpdateFields(e: EventData, item: UpdateEventData, now: DateTime) returns (r: Result<EventData, Error>)
    ensures r == ApplyUpdate(e, item, now)
  {
    var eventToUpdate := new Event(e.eventId, e.eventTime, e.title, e.location, e.venue, e.participants,
                                   e.creationTime, e.modifyTime);
    if item.newEventTime.Some? {
      var t := NewEventTime(PyDateTime(item.newEventTime.value), now);
      if t.Err? {
        return Err(t.error);
      }
      eventToUpdate.UpdateTime(t.value, now);
    }
    assert eventToUpdate.Snapshot() == ApplyTime(e, item, now).value;
    ghost var afterTime := eventToUpdate.Snapshot();
    if SuppliedStr(item.newEventTitle) {
      eventToUpdate.UpdateTitle(Title(item.newEventTitle.value), now);
    }
    if SuppliedStr(item.newEventVenue) {
      eventToUpdate.UpdateVenue(Venue(item.newEventVenue.value), now);
    }
    if SuppliedStr(item.newEventLocation) {
      eventToUpdate.UpdateLocation(Location(item.newEventLocation.value), now);
    }
    assert eventToUpdate.Snapshot() == ApplyTexts(afterTime, item, now);
    if SuppliedInt(item.newNumberOfParticipants) {
      var n := NewParticipants(PyInt(item.newNumberOfParticipants.value));
      if n.Err? {
        return Err(n.error);
      }
      eventToUpdate.UpdateParticipants(n.value, now);
    }
    r := Ok(eventToUpdate.Snapshot());
  }

  /** What `update_event` answers when it does not raise. */
  datatype Reply = NotFound | Updated(eventId: EventId)

  /**
   * `update_event(event_id, item)`: 400 when `get_one` finds nothing, with no write; otherwise the
   * event found is updated field by field and written back under `event_id` with `update`. A
   * rejected value raises before the write.
   */
  method UpdateEvent(repository: EventsRepositoryImpl, eventId: EventId, item: UpdateEventData, now: DateTime)
    returns (r: Result<Reply, Error>)
    modifies repository
    ensures r == Ok(NotFound) <==> !InMemoryRepository.HasId(old(repository.events), eventId)
    ensures r.Ok? && r.value.Updated? ==> r.value.eventId == eventId
    ensures InMemoryRepository.HasId(old(repository.events), eventId) ==>
      var updated := ApplyUpdate(FirstWithId(old(repository.events), eventId).value, item, now);
      (r.Err? <==> updated.Err?) &&
      (updated.Ok? ==> r == Ok(Updated(eventId)) &&
                       repository.events == WithoutId(old(repository.events), eventId) + [updated.value])
    ensures r.Err? || r == Ok(NotFound) ==> repository.events == old(repository.events)
  {
    var found := repository.GetOne(eventId);
    if found.None? {
      return Ok(NotFound);
    }
    var updated := UpdateFields(found.value, item, now);
    if updated.Err? {
      return Err(updated.error);
    }
    var _ := repository.Update(eventId, updated.value);
    r := Ok(Updated(updated.value.eventId));
  }
}
