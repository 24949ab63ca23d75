/**
 * The list-backed events repository the route tests use in place of the SQL one. Events are kept
 * in insertion order; lookups and filters scan the whole list.
 */
module InMemoryRepository {
  import opened Wrappers
  import opened Seqs
  import opened EventsArgs
  import opened EventEntity

  predicate HasId(s: seq<EventData>, id: EventId) {
    exists i :: 0 <= i < |s| && s[i].eventId == id
  }

  /** The list without the events carrying `id`: `[e for e in s if e.event_id != id]`. */
  function WithoutId(s: seq<EventData>, id: EventId): (r: seq<EventData>)
    ensures !HasId(r, id)
    ensures |r| < |s| <==> HasId(s, id)
    ensures !HasId(s, id) ==> r == s
    ensures forall e :: e in r <==> e in s && e.eventId != id
    ensures IsSubseq(r, s)
    ensures forall e :: multiset(r)[e] == if e.eventId == id then 0 else multiset(s)[e]
  {
    var p := (e: EventData) => e.eventId != id;
    var r := Filter(s, p);
    FilterCount(s, p);
    FilterMembers(s, p);
    FilterSubseq(s, p);
    FilterLength(s, p);
    assert forall i :: 0 <= i < |r| ==> r[i] in r;
    assert !HasId(s, id) ==> r == s by {
      if !HasId(s, id) {
        FilterAll(s, (e: EventData) => e.eventId != id);
      }
    }
    r
  }

  /** The first event of `s` whose id is `id`, or None. */
  function FirstWithId(s: seq<EventData>, id: EventId): (r: Option<EventData>)
    ensures r.None? <==> !HasId(s, id)
    ensures r.Some? ==> exists i :: 0 <= i < |s| && s[i] == r.value && s[i].eventId == id &&
                                    forall j :: 0 <= j < i ==> s[j].eventId != id
    decreases |s|
  {
    if s == [] then None
    else if s[0].eventId == id then Some(s[0])
    else
      var r := FirstWithId(s[1..], id);
      assert HasId(s, id) ==> HasId(s[1..], id) by {
        if HasId(s, id) {
          var i :| 0 <= i < |s| && s[i].eventId == id;
          assert s[1..][i - 1] == s[i];
        }
      }
      assert r.Some? ==> exists i :: 0 <= i < |s| && s[i] == r.value && s[i].eventId == id &&
                                     forall j :: 0 <= j < i ==> s[j].eventId != id by {
        if r.Some? {
          var i :| 0 <= i < |s[1..]| && s[1..][i] == r.value && s[1..][i].eventId == id &&
                   forall j :: 0 <= j < i ==> s[1..][j].eventId != id;
          assert s[i + 1] == r.value && forall j :: 0 <= j < i + 1 ==> s[j].eventId != id;
        }
      }
      r
  }

  class EventsRepositoryImpl {
    var events: seq<EventData>

    constructor ()
      ensures events == []
    {
      events := [];
    }

    /** `add`: the event goes to the end; earlier entries are untouched. */
    method Add(newEvent: EventData)
      modifies this
      ensures events == old(events) + [newEvent]
    {
      events := events + [newEvent];
    }

    /**
     * `delete`: every event with the id is removed, the rest keep their order, and the answer is
     * whether the list got shorter, which is whether the id was present.
     */
    method Delete(id: EventId) returns (removed: bool)
      modifies this
      ensures events == WithoutId(old(events), id)
      ensures removed <==> HasId(old(events), id)
    {
      var ogLen := |events|;
      events := WithoutId(events, id);
      removed := ogLen != |events|;
    }

    /** `get_all`: the stored list itself, in insertion order. */
    function GetAll(): (r: seq<EventData>)
      reads this
      ensures r == events
    {
      events
    }

    /** `get_one`: a scan that returns the first event with the id, or None when there is none. */
    method GetOne(id: EventId) returns (r: Option<EventData>)
      ensures r == FirstWithId(events, id)
      ensures r.None? <==> !HasId(events, id)
      ensures r.Some? ==> r.value in events && r.value.eventId == id
    {
      var i := 0;
      while i < |events|
        invariant 0 <= i <= |events|
        invariant FirstWithId(events, id) == FirstWithId(events[i..], id)
      {
        if events[i].eventId == id {
          return Some(events[i]);
        }
        assert events[i..][1..] == events[i + 1..];
        i := i + 1;
      }
      return None;
    }

    /** `get_by_location`: exactly the events at the location, in repository order. */
    function GetByLocation(requiredLocation: Location): (r: seq<EventData>)
      reads this
      ensures forall e :: e in r <==> e in events && e.location == requiredLocation
      ensures forall e :: multiset(r)[e] == if e.location == requiredLocation then multiset(events)[e] else 0
      ensures IsSubseq(r, events)
    {
      var p := (e: EventData) => e.location == requiredLocation;
      FilterCount(events, p);
      FilterMembers(events, p);
      FilterSubseq(events, p);
      Filter(events, p)
    }

    /** `get_by_venue`: exactly the events at the venue, in repository order. */
    function GetByVenue(requiredVenue: Venue): (r: seq<EventData>)
      reads this
      ensures forall e :: e in r <==> e in events && e.venue == requiredVenue
      ensures forall e :: multiset(r)[e] == if e.venue == requiredVenue then multiset(events)[e] else 0
      ensures IsSubseq(r, events)
    {
      var p := (e: EventData) => e.venue == requiredVenue;
      FilterCount(events, p);
      FilterMembers(events, p);
      FilterSubseq(events, p);
      Filter(events, p)
    }

    /**
     * `update`: when the id is present its entries are removed and `newEvent` is appended, answering
     * True; otherwise the list is left as it is and the answer is False.
     */
    method Update(id: EventId, newEvent: EventData) returns (updated: bool)
      modifies this
      ensures updated <==> HasId(old(events), id)
      ensures updated ==> events == WithoutId(old(events), id) + [newEvent]
      ensures !updated ==> events == old(events)
    {
      var removed := Delete(id);
      if removed {
        events := events + [newEvent];
        return true;
      } else {
        return false;
      }
    }
  }

  /** After `add`, `get_one` on the new event's id finds an event with that id. */
  lemma {:induction false} AddThenFind(s: seq<EventData>, e: EventData)
    ensures FirstWithId(s + [e], e.eventId).Some?
    ensures !HasId(s, e.eventId) ==> FirstWithId(s + [e], e.eventId) == Some(e)
  {
    assert (s + [e])[|s|] == e;
    if !HasId(s, e.eventId) {
      var r := FirstWithId(s + [e], e.eventId);
      var i :| 0 <= i < |s + [e]| && (s + [e])[i] == r.value && (s + [e])[i].eventId == e.eventId &&
               forall j :: 0 <= j < i ==> (s + [e])[j].eventId != e.eventId;
    }
  }

  /** After `delete(id)`, `get_one(id)` finds nothing. */
  lemma DeleteThenFind(s: seq<EventData>, id: EventId)
    ensures FirstWithId(WithoutId(s, id), id) == None
  {
  }
}
