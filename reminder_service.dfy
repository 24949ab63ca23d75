/**
 * The reminder service: an observer of the SQL repository that keeps its own mirror of the stored
 * events, each with a `checked` flag, and periodically marks the events that start within the next
 * 30 minutes so that each is reminded of once. One pass of the reminder loop is modelled, with the
 * clock reading `now` as a parameter.
 */
module ReminderService {
  import opened Wrappers
  import opened Exceptions
  import opened Seqs
  import opened DateTimes
  import opened EventEntity
  import opened SqlRepository

  /** A mirrored event: its `as_dict` row and the "checked" key, which may be missing. */
  datatype MirrorRecord = MirrorRecord(record: EventRecord, checked: Option<bool>)

  /** `e.get("checked", False)`. */
  predicate IsChecked(m: MirrorRecord) {
    m.checked.GetOr(false)
  }

  function Records(mirror: seq<MirrorRecord>): (rows: seq<EventRecord>)
    ensures |rows| == |mirror|
    ensures forall i :: 0 <= i < |mirror| ==> rows[i] == mirror[i].record
  {
    seq(|mirror|, i requires 0 <= i < |mirror| => mirror[i].record)
  }

  /** `get_repo_state(repo)`: the mirror becomes the repository's rows, none of them checked yet. */
  function Unchecked(rows: seq<EventRecord>): (mirror: seq<MirrorRecord>)
    ensures Records(mirror) == rows
    ensures forall i :: 0 <= i < |mirror| ==> !IsChecked(mirror[i])
  {
    var mirror := seq(|rows|, i requires 0 <= i < |rows| => MirrorRecord(rows[i], None));
    assert Records(mirror) == rows;
    mirror
  }

  /** The last position of the mirror holding the id, or -1. */
  function LastIndex(mirror: seq<MirrorRecord>, id: EventId): (k: int)
    ensures -1 <= k < |mirror|
    ensures k >= 0 ==> mirror[k].record.eventId == id
    ensures forall j :: k < j < |mirror| ==> mirror[j].record.eventId != id
    decreases |mirror|
  {
    if mirror == [] then -1
    else if mirror[|mirror| - 1].record.eventId == id then |mirror| - 1
    else
      var front := mirror[..|mirror| - 1];
      assert forall j :: 0 <= j < |front| ==> front[j] == mirror[j];
      LastIndex(front, id)
  }

  /** The last record of the mirror with the id; the UPDATE branch's loop keeps overwriting `to_check`. */
  function LastMatch(mirror: seq<MirrorRecord>, id: EventId): (r: Option<MirrorRecord>)
    ensures r.None? <==> forall i :: 0 <= i < |mirror| ==> mirror[i].record.eventId != id
    ensures r.Some? ==> r.value.record.eventId == id && r.value == mirror[LastIndex(mirror, id)]
  {
    var k := LastIndex(mirror, id);
    if k < 0 then None else Some(mirror[k])
  }

  lemma LastMatchAppend(mirror: seq<MirrorRecord>, e: MirrorRecord, id: EventId)
    ensures LastMatch(mirror + [e], id) == if e.record.eventId == id then Some(e) else LastMatch(mirror, id)
  {
    assert (mirror + [e])[..|mirror|] == mirror;
  }

  /**
   * The "checked" value given to an updated event: `not to_check`, where `to_check` is True when the
   * event time changed and otherwise the negation of the old record's flag. A rescheduled event will
   * be reminded of again; an event whose time stayed keeps its reminder state.
   */
  function CarriedFlag(last: MirrorRecord, newRecord: EventRecord): (flag: bool)
    ensures flag <==> newRecord.eventTime == last.record.eventTime && IsChecked(last)
  {
    var toCheck := if newRecord.eventTime != last.record.eventTime then true else !IsChecked(last);
    !toCheck
  }

  predicate HasId(m: MirrorRecord, id: EventId) {
    m.record.eventId == id
  }

  /**
   * The flag UPDATE gives the new record, or what it raises: `details.event["event_time"]` on a None
   * event is a TypeError at the first record with the id; with no such record `to_check` is never
   * assigned, an UnboundLocalError.
   */
  function UpdatedFlag(mirror: seq<MirrorRecord>, details: RepoActionDetails): (r: Result<bool, Error>)
    ensures r == Err(UnboundLocalError) <==> forall i :: 0 <= i < |mirror| ==> !HasId(mirror[i], details.eventId)
    ensures r == Err(TypeError) <==> details.event.None? && exists i :: 0 <= i < |mirror| && HasId(mirror[i], details.eventId)
    ensures r.Ok? ==> details.event.Some? && LastMatch(mirror, details.eventId).Some?
    ensures r.Ok? ==> (r.value <==> LastMatch(mirror, details.eventId).value.record.eventTime == details.event.value.eventTime &&
                                    IsChecked(LastMatch(mirror, details.eventId).value))
  {
    var last := LastMatch(mirror, details.eventId);
    if last.None? then Err(UnboundLocalError)
    else if details.event.None? then Err(TypeError)
    else Ok(CarriedFlag(last.value, details.event.value))
  }

  /**
   * What `update(method, details)` does to the mirror, as the code is written. CREATE appends the
   * event unchecked (TypeError on a None event); DELETE drops every record with the id; UPDATE
   * appends the new event with the carried flag of the last record with the id, without removing
   * that record. An UPDATE for an id the mirror lacks reads `to_check` unassigned.
   */
  function Notified(mirror: seq<MirrorRecord>, repoMethod: RepoMethod, details: RepoActionDetails)
    : (r: Result<seq<MirrorRecord>, Error>)
    ensures repoMethod == CREATE ==> (r.Ok? <==> details.event.Some?)
    ensures repoMethod == DELETE ==> r.Ok?
    ensures repoMethod == UPDATE ==>
      (r.Ok? <==> details.event.Some? && exists i :: 0 <= i < |mirror| && HasId(mirror[i], details.eventId))
    ensures repoMethod == UPDATE && !(exists i :: 0 <= i < |mirror| && HasId(mirror[i], details.eventId)) ==>
      r == Err(UnboundLocalError)
    ensures r.Err? ==> r.error == TypeError || r.error == UnboundLocalError
    ensures r.Err? ==> r.error == (if repoMethod == CREATE then TypeError else UpdatedFlag(mirror, details).error)
    ensures repoMethod != DELETE && r.Ok? ==> |r.value| == |mirror| + 1 && r.value[..|mirror|] == mirror
    ensures repoMethod != DELETE && r.Ok? ==> r.value[|mirror|].record == details.event.value
    ensures repoMethod == CREATE && r.Ok? ==> r.value[|mirror|].checked == Some(false)
    ensures repoMethod == UPDATE && r.Ok? ==>
      UpdatedFlag(mirror, details).Ok? && r.value[|mirror|].checked == Some(UpdatedFlag(mirror, details).value)
    ensures repoMethod == DELETE ==> forall m :: m in r.value <==> m in mirror && !HasId(m, details.eventId)
    ensures repoMethod == DELETE ==> IsSubseq(r.value, mirror)
    ensures repoMethod == DELETE ==>
      forall m :: multiset(r.value)[m] == if HasId(m, details.eventId) then 0 else multiset(mirror)[m]
  {
    match repoMethod
    case CREATE =>
      if details.event.None? then Err(TypeError)
      else Ok(mirror + [MirrorRecord(details.event.value, Some(false))])
    case DELETE =>
      var p := (m: MirrorRecord) => !HasId(m, details.eventId);
      FilterMembers(mirror, p);
      FilterSubseq(mirror, p);
      FilterCount(mirror, p);
      Ok(Filter(mirror, p))
    case UPDATE =>
      var flag := UpdatedFlag(mirror, details);
      if flag.Err? then Err(flag.error)
      else
        var r := mirror + [MirrorRecord(details.event.value, Some(flag.value))];
        assert r[..|mirror|] == mirror;
        Ok(r)
  }

  /**
   * The UPDATE the code evidently intends: the records with the id are replaced by the new one (the
   * code builds exactly that list, `repo_copy_wo_obj`, and then appends to the old mirror instead).
   * CREATE and DELETE are as written.
   */
  function IntendedNotified(mirror: seq<MirrorRecord>, repoMethod: RepoMethod, details: RepoActionDetails)
    : (r: Result<seq<MirrorRecord>, Error>)
    ensures r.Ok? <==> Notified(mirror, repoMethod, details).Ok?
    ensures r.Err? ==> r == Notified(mirror, repoMethod, details)
    ensures repoMethod != UPDATE ==> r == Notified(mirror, repoMethod, details)
    ensures repoMethod == UPDATE && r.Ok? ==>
      UpdatedFlag(mirror, details).Ok? && |r.value| >= 1 &&
      r.value[|r.value| - 1] == MirrorRecord(details.event.value, Some(UpdatedFlag(mirror, details).value))
  {
    match repoMethod
    case UPDATE =>
      var flag := UpdatedFlag(mirror, details);
      if flag.Err? then Err(flag.error)
      else
        var rest := Filter(mirror, (m: MirrorRecord) => !HasId(m, details.eventId));
        Ok(rest + [MirrorRecord(details.event.value, Some(flag.value))])
    case _ => Notified(mirror, repoMethod, details)
  }

  // ---------------------------------------------------------------------------------------------
  // The reminder pass
  // ---------------------------------------------------------------------------------------------

  /** `timedelta(minutes=30)` in microseconds. */
  const ReminderLead: int := 30 * 60 * MicrosPerSecond

  /**
   * What reading a record's `event_time` raises, if anything: strptime's ValueError, or the
   * OverflowError of `event_time - timedelta(minutes=30)` falling before year 1.
   */
  function ScanError(m: MirrorRecord): Option<Error> {
    var eventTime := Parse(m.record.eventTime);
    if eventTime.None? then Some(ValueError)
    else if Ticks(eventTime.value) < ReminderLead then Some(OverflowError)
    else None
  }

  /** `event_time - timedelta(minutes=30) < now < event_time`. */
  predicate InWindow(eventTime: DateTime, now: DateTime) {
    Ticks(eventTime) - ReminderLead < Ticks(now) < Ticks(eventTime)
  }

  /**
   * The record is reminded of in this pass: its time reads, its event starts within 30 minutes and it
   * is not yet checked.
   */
  predicate Due(m: MirrorRecord, now: DateTime) {
    var eventTime := Parse(m.record.eventTime);
    eventTime.Some? && InWindow(eventTime.value, now) && !IsChecked(m)
  }

  /** The record after the pass looked at it. */
  function Mark(m: MirrorRecord, now: DateTime): MirrorRecord {
    if Due(m, now) then m.(checked := Some(true)) else m
  }

  /**
   * Marking changes only the flag, sets it exactly for a readable record in the window, and never
   * clears it.
   */
  lemma MarkSpec(m: MirrorRecord, now: DateTime)
    ensures Mark(m, now).record == m.record
    ensures IsChecked(Mark(m, now)) <==>
            IsChecked(m) || (Parse(m.record.eventTime).Some? && InWindow(Parse(m.record.eventTime).value, now))
    ensures IsChecked(m) || Parse(m.record.eventTime).None? ==> Mark(m, now) == m
  {
  }

  /** The index of the first record the pass cannot read, or the mirror's length. */
  function FirstFailing(mirror: seq<MirrorRecord>): (k: nat)
    ensures k <= |mirror|
    ensures forall j :: 0 <= j < k ==> ScanError(mirror[j]).None?
    ensures k < |mirror| ==> ScanError(mirror[k]).Some?
    decreases |mirror|
  {
    if mirror == [] then 0
    else if ScanError(mirror[0]).Some? then 0
    else
      var k := FirstFailing(mirror[1..]);
      assert forall j :: 1 <= j < k + 1 ==> mirror[j] == mirror[1..][j - 1];
      1 + k
  }

  /** The mirror with its first `i` records marked and the rest as they were. */
  function MarkedPrefix(mirror: seq<MirrorRecord>, i: nat, now: DateTime): (r: seq<MirrorRecord>)
    requires i <= |mirror|
    ensures |r| == |mirror|
  {
    seq(i, j requires 0 <= j < i => Mark(mirror[j], now)) + mirror[i..]
  }

  /** The first `i` records are marked and the others kept. */
  lemma MarkedPrefixAt(mirror: seq<MirrorRecord>, i: nat, now: DateTime)
    requires i <= |mirror|
    ensures forall j :: 0 <= j < i ==> MarkedPrefix(mirror, i, now)[j] == Mark(mirror[j], now)
    ensures forall j :: i <= j < |mirror| ==> MarkedPrefix(mirror, i, now)[j] == mirror[j]
  {
  }

  /** Marking one more record: the record at `i` is still the original, and it is replaced by its mark. */
  lemma MarkedStep(mirror: seq<MirrorRecord>, i: nat, now: DateTime)
    requires i < |mirror|
    ensures MarkedPrefix(mirror, i, now)[i] == mirror[i]
    ensures MarkedPrefix(mirror, i + 1, now) == MarkedPrefix(mirror, i, now)[i := Mark(mirror[i], now)]
    ensures Mark(mirror[i], now) == mirror[i] ==> MarkedPrefix(mirror, i + 1, now) == MarkedPrefix(mirror, i, now)
  {
    var a := MarkedPrefix(mirror, i, now);
    var b := MarkedPrefix(mirror, i + 1, now);
    var c := a[i := Mark(mirror[i], now)];
    forall j | 0 <= j < |mirror| ensures b[j] == c[j] {
      if j < i {
        assert b[j] == Mark(mirror[j], now) == a[j];
      } else if i < j {
        assert b[j] == mirror[j] == a[j];
      }
    }
  }

  /**
   * The mirror after one pass: every record before the first unreadable one marked, the rest as they
   * were. Only flags change, and only from unset or False to True.
   */
  function Scanned(mirror: seq<MirrorRecord>, now: DateTime): (r: seq<MirrorRecord>)
    ensures |r| == |mirror| && Records(r) == Records(mirror)
    ensures forall i :: 0 <= i < FirstFailing(mirror) ==> r[i] == Mark(mirror[i], now)
    ensures forall i :: FirstFailing(mirror) <= i < |mirror| ==> r[i] == mirror[i]
  {
    var k := FirstFailing(mirror);
    var r := MarkedPrefix(mirror, k, now);
    MarkedPrefixAt(mirror, k, now);
    forall i | 0 <= i < k ensures r[i].record == mirror[i].record {
      MarkSpec(mirror[i], now);
    }
    assert Records(r) == Records(mirror);
    r
  }

  /** The scanned mirror is the mirror with every record before the first unreadable one marked. */
  lemma ScannedMarks(mirror: seq<MirrorRecord>, now: DateTime)
    ensures Scanned(mirror, now) == MarkedPrefix(mirror, FirstFailing(mirror), now)
  {
  }

  /** A scan that has read every record before `i` and fails at `i` has found the first failure. */
  lemma {:induction false} FailingAt(mirror: seq<MirrorRecord>, i: nat)
    requires i <= FirstFailing(mirror) && i < |mirror| && ScanError(mirror[i]).Some?
    ensures i == FirstFailing(mirror)
  {
  }

  /** A scan that has read every record up to `i` has not reached the first failure. */
  lemma {:induction false} ReadableAt(mirror: seq<MirrorRecord>, i: nat)
    requires i <= FirstFailing(mirror) && i < |mirror| && ScanError(mirror[i]).None?
    ensures i < FirstFailing(mirror)
  {
  }

  /** How the pass ends: normally, or with the error of the first unreadable record. */
  function ScanOutcome(mirror: seq<MirrorRecord>): (r: Outcome<Error>)
    ensures r.Pass? <==> forall i :: 0 <= i < |mirror| ==> ScanError(mirror[i]).None?
    ensures r.Fail? ==> r.error == ValueError || r.error == OverflowError
    ensures r.Fail? ==> FirstFailing(mirror) < |mirror| && Some(r.error) == ScanError(mirror[FirstFailing(mirror)])
  {
    var k := FirstFailing(mirror);
    if k == |mirror| then Pass else Fail(ScanError(mirror[k]).value)
  }

  /** What one more record adds to the filtered copy and to the last match. */
  lemma ScanStep(mirror: seq<MirrorRecord>, i: nat, id: EventId)
    requires i < |mirror|
    ensures Filter(mirror[..i + 1], (m: MirrorRecord) => !HasId(m, id)) ==
            Filter(mirror[..i], (m: MirrorRecord) => !HasId(m, id)) + (if HasId(mirror[i], id) then [] else [mirror[i]])
    ensures LastMatch(mirror[..i + 1], id) == if HasId(mirror[i], id) then Some(mirror[i]) else LastMatch(mirror[..i], id)
  {
    var p := (m: MirrorRecord) => !HasId(m, id);
    assert mirror[..i + 1] == mirror[..i] + [mirror[i]];
    FilterAppend(mirror[..i], [mirror[i]], p);
    LastMatchAppend(mirror[..i], mirror[i], id);
  }

  /**
   * The loop of `update`'s UPDATE branch: it builds the mirror without the event's records and
   * recomputes `to_check` at every record with the id, so the last one decides.
   */
  method ScanForUpdate(mirror: seq<MirrorRecord>, details: RepoActionDetails)
    returns (r: Result<bool, Error>, repoCopyWoObj: seq<MirrorRecord>)
    ensures r == UpdatedFlag(mirror, details)
    ensures r.Ok? ==> repoCopyWoObj == Filter(mirror, (m: MirrorRecord) => !HasId(m, details.eventId))
  {
    var p := (m: MirrorRecord) => !HasId(m, details.eventId);
    repoCopyWoObj := [];
    var toCheck: Option<bool> := None;
    for i := 0 to |mirror|
      invariant repoCopyWoObj == Filter(mirror[..i], p)
      invariant details.event.None? ==> LastMatch(mirror[..i], details.eventId).None?
      invariant toCheck.None? <==> LastMatch(mirror[..i], details.eventId).None?
      invariant toCheck.Some? ==> details.event.Some?
      invariant toCheck.Some? ==>
        !toCheck.value == CarriedFlag(LastMatch(mirror[..i], details.eventId).value, details.event.value)
    {
      var e := mirror[i];
      ScanStep(mirror, i, details.eventId);
      if !HasId(e, details.eventId) {
        repoCopyWoObj := repoCopyWoObj + [e];
      } else {
        if details.event.None? {
          return Err(TypeError), repoCopyWoObj;
        }
        if details.event.value.eventTime != e.record.eventTime {
          toCheck := Some(true);
        } else {
          toCheck := Some(!IsChecked(e));
        }
      }
    }
    assert mirror[..|mirror|] == mirror;
    if toCheck.None? {
      return Err(UnboundLocalError), repoCopyWoObj;
    }
    r := Ok(!toCheck.value);
  }

  /**
   * The loop body of the reminder for one record: strptime of its time, the window test against
   * `now`, and the error either step raises.
   */
  method Visit(event: MirrorRecord, now: DateTime) returns (err: Option<Error>, due: bool)
    ensures err == ScanError(event)
    ensures err.None? ==> (due <==> Due(event, now))
    ensures err.None? ==> Mark(event, now) == if due then event.(checked := Some(true)) else event
  {
    var eventTime := Parse(event.record.eventTime);
    if eventTime.None? {
      return Some(ValueError), false;
    }
    if Ticks(eventTime.value) < ReminderLead {
      return Some(OverflowError), false;
    }
    err := None;
    due := InWindow(eventTime.value, now) && !IsChecked(event);
  }

  /**
   * The `for event in self.events_repo` loop of the reminder: records are visited in order and the
   * due ones marked checked, until a record's time cannot be read, which ends the loop with that
   * error and keeps the marks already made.
   */
  method ScanRecords(mirror: seq<MirrorRecord>, now: DateTime) returns (cur: seq<MirrorRecord>, r: Outcome<Error>)
    ensures cur == Scanned(mirror, now)
    ensures r == ScanOutcome(mirror)
  {
    cur := mirror;
    for i := 0 to |mirror|
      invariant i <= FirstFailing(mirror)
      invariant cur == MarkedPrefix(mirror, i, now)
    {
      var err, due := Visit(mirror[i], now);
      if err.Some? {
        FailingAt(mirror, i);
        ScannedMarks(mirror, now);
        return cur, Fail(err.value);
      }
      ReadableAt(mirror, i);
      MarkedStep(mirror, i, now);
      if due {
        cur := cur[i := mirror[i].(checked := Some(true))];
      }
    }
    ScannedMarks(mirror, now);
    r := Pass;
  }

  class ReminderServiceImpl {
    var eventsRepo: seq<MirrorRecord>

    constructor ()
      ensures eventsRepo == []
    {
      eventsRepo := [];
    }

    /** `get_repo_state`: the mirror is replaced by the repository's rows. */
    method GetRepoState(repo: seq<EventRecord>)
      modifies this
      ensures eventsRepo == Unchecked(repo)
    {
      eventsRepo := Unchecked(repo);
    }

    /**
     * `update(method, details)`, with the UPDATE branch corrected: the list without the event's
     * records that the loop builds becomes the mirror, and the new record is appended to it.
     */
    method Update(repoMethod: RepoMethod, details: RepoActionDetails) returns (r: Outcome<Error>)
      modifies this
      ensures r.Pass? <==> IntendedNotified(old(eventsRepo), repoMethod, details).Ok?
      ensures r.Pass? ==> eventsRepo == IntendedNotified(old(eventsRepo), repoMethod, details).value
      ensures r.Fail? ==> eventsRepo == old(eventsRepo) && r.error == IntendedNotified(old(eventsRepo), repoMethod, details).error
    {
      match repoMethod
      case CREATE =>
        if details.event.None? {
          return Fail(TypeError);
        }
        eventsRepo := eventsRepo + [MirrorRecord(details.event.value, Some(false))];
        r := Pass;
      case DELETE =>
        eventsRepo := Filter(eventsRepo, (m: MirrorRecord) => !HasId(m, details.eventId));
        r := Pass;
      case UPDATE =>
        var flag, repoCopyWoObj := ScanForUpdate(eventsRepo, details);
        if flag.Err? {
          return Fail(flag.error);
        }
        eventsRepo := repoCopyWoObj + [MirrorRecord(details.event.value, Some(flag.value))];
        r := Pass;
    }

    /**
     * One pass of `reminder(time_before)`'s loop at clock reading `now`: the due records of the
     * mirror are marked checked, in place, until a record's time cannot be read. `time_before`
     * plays no part.
     */
    method ScanPass(timeBefore: int, now: DateTime) returns (r: Outcome<Error>)
      modifies this
      ensures eventsRepo == Scanned(old(eventsRepo), now)
      ensures r == ScanOutcome(old(eventsRepo))
    {
      var scanned;
      scanned, r := ScanRecords(eventsRepo, now);
      eventsRepo := scanned;
    }
  }

  // ---------------------------------------------------------------------------------------------
  // Properties
  // ---------------------------------------------------------------------------------------------

  lemma {:induction false} RecordsFilter(mirror: seq<MirrorRecord>, id: EventId)
    ensures Records(Filter(mirror, (m: MirrorRecord) => !HasId(m, id))) ==
            Filter(Records(mirror), (row: EventRecord) => row.eventId != id)
    decreases |mirror|
  {
    if mirror != [] {
      RecordsFilter(mirror[1..], id);
      assert Records(mirror[1..]) == Records(mirror)[1..];
    }
  }

  /** A mirror that matches the table keeps matching it across a successful `add`'s CREATE. */
  lemma MirrorFollowsCreate(mirror: seq<MirrorRecord>, table: seq<EventRecord>, row: EventRecord)
    requires Records(mirror) == table
    ensures Notified(mirror, CREATE, RepoActionDetails(row.eventId, Some(row))).Ok?
    ensures Records(Notified(mirror, CREATE, RepoActionDetails(row.eventId, Some(row))).value) == table + [row]
  {
    var r := Notified(mirror, CREATE, RepoActionDetails(row.eventId, Some(row))).value;
    assert Records(r) == Records(mirror) + [row];
  }

  /** A mirror that matches the table keeps matching it across a successful `delete`'s DELETE. */
  lemma {:induction false} MirrorFollowsDelete(mirror: seq<MirrorRecord>, table: seq<EventRecord>, id: EventId)
    requires Records(mirror) == table
    ensures Notified(mirror, DELETE, RepoActionDetails(id, None)).Ok?
    ensures Records(Notified(mirror, DELETE, RepoActionDetails(id, None)).value) == DeleteRows(table, id)
  {
    RecordsFilter(mirror, id);
  }

  /** CREATE followed by DELETE of an id the mirror did not hold restores the mirror. */
  lemma {:induction false} CreateThenDelete(mirror: seq<MirrorRecord>, row: EventRecord)
    requires forall i :: 0 <= i < |mirror| ==> !HasId(mirror[i], row.eventId)
    ensures Notified(Notified(mirror, CREATE, RepoActionDetails(row.eventId, Some(row))).value,
                     DELETE, RepoActionDetails(row.eventId, None)) == Ok(mirror)
  {
    var p := (m: MirrorRecord) => !HasId(m, row.eventId);
    var added := mirror + [MirrorRecord(row, Some(false))];
    assert Notified(mirror, CREATE, RepoActionDetails(row.eventId, Some(row))).value == added;
    FilterAppend(mirror, [MirrorRecord(row, Some(false))], p);
    FilterAll(mirror, p);
    FilterNone([MirrorRecord(row, Some(false))], p);
    assert Filter(added, p) == mirror;
  }

  /**
   * As written, an UPDATE keeps every earlier record of the event and adds the new one, so an
   * updated event is mirrored at least twice (and reminded of from its stale time as well).
   */
  lemma {:induction false} UpdateKeepsStaleRecord(mirror: seq<MirrorRecord>, details: RepoActionDetails)
    requires Notified(mirror, UPDATE, details).Ok?
    requires details.event.value.eventId == details.eventId
    ensures Filter(Notified(mirror, UPDATE, details).value, (m: MirrorRecord) => HasId(m, details.eventId)) ==
            Filter(mirror, (m: MirrorRecord) => HasId(m, details.eventId)) + [Notified(mirror, UPDATE, details).value[|mirror|]]
    ensures |Filter(Notified(mirror, UPDATE, details).value, (m: MirrorRecord) => HasId(m, details.eventId))| >= 2
  {
    var r := Notified(mirror, UPDATE, details).value;
    var q := (m: MirrorRecord) => HasId(m, details.eventId);
    assert r == mirror + [r[|mirror|]];
    FilterAppend(mirror, [r[|mirror|]], q);
    assert Filter([r[|mirror|]], q) == [r[|mirror|]];
    var i :| 0 <= i < |mirror| && HasId(mirror[i], details.eventId);
    FilterMembers(mirror, q);
    assert mirror[i] in Filter(mirror, q);
  }

  /**
   * The intended UPDATE leaves exactly one record for the event, holding the new row and the flag
   * carried from the last old record, and the other records as they were.
   */
  lemma {:induction false} IntendedUpdateReplaces(mirror: seq<MirrorRecord>, details: RepoActionDetails)
    requires IntendedNotified(mirror, UPDATE, details).Ok?
    requires details.event.value.eventId == details.eventId
    ensures var r := IntendedNotified(mirror, UPDATE, details).value;
            Filter(r, (m: MirrorRecord) => HasId(m, details.eventId)) == [r[|r| - 1]] &&
            r[|r| - 1].record == details.event.value &&
            r[|r| - 1].checked == Some(UpdatedFlag(mirror, details).value) &&
            Filter(r, (m: MirrorRecord) => !HasId(m, details.eventId)) ==
            Filter(mirror, (m: MirrorRecord) => !HasId(m, details.eventId))
  {
    var r := IntendedNotified(mirror, UPDATE, details).value;
    var p := (m: MirrorRecord) => !HasId(m, details.eventId);
    var q := (m: MirrorRecord) => HasId(m, details.eventId);
    var rest := Filter(mirror, p);
    FilterMembers(mirror, p);
    var added := r[|r| - 1];
    assert r == rest + [added];
    assert forall i :: 0 <= i < |rest| ==> rest[i] in rest;
    FilterAppend(rest, [added], q);
    FilterNone(rest, q);
    assert Filter([added], q) == [added];
    FilterAppend(rest, [added], p);
    FilterAll(rest, p);
    assert Filter([added], p) == [];
  }

  /**
   * An UPDATE that moves the event to another time arms its reminder again: the new record is
   * unchecked, whatever the old one's flag. One that keeps the time keeps the old record's flag.
   */
  lemma UpdateRearms(mirror: seq<MirrorRecord>, details: RepoActionDetails)
    requires IntendedNotified(mirror, UPDATE, details).Ok?
    ensures var r := IntendedNotified(mirror, UPDATE, details).value;
            var last := LastMatch(mirror, details.eventId).value;
            |r| >= 1 &&
            (details.event.value.eventTime != last.record.eventTime ==> !IsChecked(r[|r| - 1])) &&
            (details.event.value.eventTime == last.record.eventTime ==> r[|r| - 1].checked == Some(IsChecked(last)))
  {
  }

  /** Two mirrors with the same rows fail at the same record. */
  lemma {:induction false} FirstFailingOfRecords(a: seq<MirrorRecord>, b: seq<MirrorRecord>)
    requires Records(a) == Records(b)
    ensures FirstFailing(a) == FirstFailing(b)
    decreases |a|
  {
    if a != [] {
      assert a[0].record == Records(a)[0] == Records(b)[0] == b[0].record;
      assert Records(a[1..]) == Records(a)[1..];
      assert Records(b[1..]) == Records(b)[1..];
      FirstFailingOfRecords(a[1..], b[1..]);
    }
  }

  /** A second pass at the same clock reading changes nothing, and ends the same way. */
  lemma {:induction false} ScanIdempotent(mirror: seq<MirrorRecord>, now: DateTime)
    ensures Scanned(Scanned(mirror, now), now) == Scanned(mirror, now)
    ensures ScanOutcome(Scanned(mirror, now)) == ScanOutcome(mirror)
  {
    var once := Scanned(mirror, now);
    FirstFailingOfRecords(once, mirror);
    var k := FirstFailing(mirror);
    forall i | 0 <= i < k ensures Mark(once[i], now) == once[i] {
      assert once[i].record == Records(once)[i] == Records(mirror)[i] == mirror[i].record;
    }
    if k < |mirror| {
      assert once[k] == mirror[k];
    }
  }

  /**
   * Each event is reminded of at most once: a record made due-and-marked by one pass is not due in
   * any later pass, whatever the clock then reads.
   */
  lemma RemindedOnce(mirror: seq<MirrorRecord>, now1: DateTime, now2: DateTime, i: nat)
    requires i < FirstFailing(mirror) && Due(mirror[i], now1)
    ensures i < FirstFailing(Scanned(mirror, now1))
    ensures !Due(Scanned(mirror, now1)[i], now2)
  {
    FirstFailingOfRecords(Scanned(mirror, now1), mirror);
  }

  /** A pass marks exactly the readable records whose event starts within the next 30 minutes. */
  lemma ScanMarksWindow(mirror: seq<MirrorRecord>, now: DateTime, i: nat)
    requires i < FirstFailing(mirror)
    ensures IsChecked(Scanned(mirror, now)[i]) <==>
            IsChecked(mirror[i]) || InWindow(Parse(mirror[i].record.eventTime).value, now)
    ensures Scanned(mirror, now)[i].record == mirror[i].record
  {
  }
}
