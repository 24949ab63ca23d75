/** The event entity: its identity, its value objects and its creation and modification stamps. */
module EventEntity {
  import opened Wrappers
  import opened DateTimes
  import opened EventsArgs

  /** `str(uuid)` of an event; the model uses this one representation of an id everywhere. */
  type EventId = string

  /** The state of one `Event` object, as a value. */
  datatype EventData = EventData(
    eventId: EventId,
    eventTime: Time,
    title: Title,
    location: Location,
    venue: Venue,
    participants: Participants,
    creationTime: Time,
    modifyTime: Time)

  /** The dict `Event.as_dict` returns; one field per key, in the dict's key order. */
  datatype EventRecord = EventRecord(
    eventId: string,
    eventTime: string,
    title: string,
    participants: int,
    location: string,
    venue: string,
    creationTime: string,
    modifyTime: string)

  /** The keys of the `as_dict` dict, in insertion order. */
  const RecordKeys: seq<string> :=
    ["event_id", "event_time", "title", "number_of_participants", "location", "venue",
     "creation_time", "modify_time"]

  /** The event with every timestamp cut to whole seconds. */
  function TruncatedEvent(e: EventData): EventData {
    e.(eventTime := Time(Truncated(e.eventTime.value)),
       creationTime := Time(Truncated(e.creationTime.value)),
       modifyTime := Time(Truncated(e.modifyTime.value)))
  }

  /**
   * `Event.as_dict`: the id as a string, the strings and the count copied, and each timestamp
   * rendered as "%m/%d/%Y, %H:%M:%S", which reads back as the timestamp cut to whole seconds.
   */
  function AsDict(e: EventData): (r: EventRecord)
    ensures r.eventId == e.eventId && r.title == e.title.value && r.location == e.location.value
    ensures r.venue == e.venue.value && r.participants == e.participants.value
    ensures Parse(r.eventTime) == Some(Truncated(e.eventTime.value))
    ensures Parse(r.creationTime) == Some(Truncated(e.creationTime.value))
    ensures Parse(r.modifyTime) == Some(Truncated(e.modifyTime.value))
  {
    ParseFormat(e.eventTime.value);
    ParseFormat(e.creationTime.value);
    ParseFormat(e.modifyTime.value);
    EventRecord(
      e.eventId,
      Format(e.eventTime.value),
      e.title.value,
      e.participants.value,
      e.location.value,
      e.venue.value,
      Format(e.creationTime.value),
      Format(e.modifyTime.value))
  }

  /** `as_dict` forgets exactly the sub-second part of the three timestamps. */
  lemma {:induction false} AsDictUpToSeconds(a: EventData, b: EventData)
    ensures AsDict(a) == AsDict(b) <==> TruncatedEvent(a) == TruncatedEvent(b)
  {
    FormatInjectiveUpToSeconds(a.eventTime.value, b.eventTime.value);
    FormatInjectiveUpToSeconds(a.creationTime.value, b.creationTime.value);
    FormatInjectiveUpToSeconds(a.modifyTime.value, b.modifyTime.value);
  }

  /** An `Event` object: its fields are replaced in place by the `update_*` methods. */
  class Event {
    var eventId: EventId
    var eventTime: Time
    var title: Title
    var location: Location
    var venue: Venue
    var participants: Participants
    var creationTime: Time
    var modifyTime: Time

    function Snapshot(): EventData
      reads this
    {
      EventData(eventId, eventTime, title, location, venue, participants, creationTime, modifyTime)
    }

    /** `Event.__init__`: stores the eight given components as they are. */
    constructor (eventId: EventId, eventTime: Time, title: Title, location: Location, venue: Venue,
                 participants: Participants, creationTime: Time, modifyTime: Time)
      ensures Snapshot() ==
        EventData(eventId, eventTime, title, location, venue, participants, creationTime, modifyTime)
    {
      this.eventId := eventId;
      this.eventTime := eventTime;
      this.title := title;
      this.participants := participants;
      this.location := location;
      this.venue := venue;
      this.creationTime := creationTime;
      this.modifyTime := modifyTime;
    }

    /**
     * `Event.create`: a new id (`freshId`, drawn outside any id in use, standing for `uuid.uuid4()`),
     * the five given components unchanged, and creation and modification both stamped `now`.
     */
    constructor Create(freshId: EventId, idsInUse: set<EventId>, eventTime: Time, title: Title,
                       location: Location, venue: Venue, participants: Participants, now: DateTime)
      requires freshId !in idsInUse
      ensures Snapshot() ==
        EventData(freshId, eventTime, title, location, venue, participants, Time(now), Time(now))
      ensures eventId !in idsInUse && creationTime == modifyTime
    {
      var creationTime := Time(now);
      this.eventId := freshId;
      this.eventTime := eventTime;
      this.title := title;
      this.participants := participants;
      this.location := location;
      this.venue := venue;
      this.creationTime := creationTime;
      this.modifyTime := creationTime;
    }

    /** `update_time`: a new event time; `modify_time` becomes `now`; nothing else changes. */
    method UpdateTime(newTime: Time, now: DateTime)
      modifies this
      ensures Snapshot() == old(Snapshot()).(eventTime := newTime, modifyTime := Time(now))
    {
      eventTime := newTime;
      modifyTime := Time(now);
    }

    /** `update_title`: a new title; `modify_time` becomes `now`; nothing else changes. */
    method UpdateTitle(newTitle: Title, now: DateTime)
      modifies this
      ensures Snapshot() == old(Snapshot()).(title := newTitle, modifyTime := Time(now))
    {
      title := newTitle;
      modifyTime := Time(now);
    }

    /** `update_participants`: a new count; `modify_time` becomes `now`; nothing else changes. */
    method UpdateParticipants(newParticipants: Participants, now: DateTime)
      modifies this
      ensures Snapshot() == old(Snapshot()).(participants := newParticipants, modifyTime := Time(now))
    {
      participants := newParticipants;
      modifyTime := Time(now);
    }

    /** `update_location`: a new location; `modify_time` becomes `now`; nothing else changes. */
    method UpdateLocation(newLocation: Location, now: DateTime)
      modifies this
      ensures Snapshot() == old(Snapshot()).(location := newLocation, modifyTime := Time(now))
    {
      location := newLocation;
      modifyTime := Time(now);
    }

    /** `update_venue`: a new venue; `modify_time` becomes `now`; nothing else changes. */
    method UpdateVenue(newVenue: Venue, now: DateTime)
      modifies this
      ensures Snapshot() == old(Snapshot()).(venue := newVenue, modifyTime := Time(now))
    {
      venue := newVenue;
      modifyTime := Time(now);
    }
  }
}
