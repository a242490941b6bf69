/**
  The calendar: each user's events, one per date, optionally timed and optionally linked
  to a note. The list view formats each event for a calendar widget; a single event is
  read, partially updated or deleted only by its owner.
*/
module Calendar {
  import opened Optional
  import opened Chrono
  import opened Models

  type Events = map<Id, CalendarEvent>
  type Notes = map<Id, Note>

  /** `CalendarEvent.query.filter_by(user_id=caller)`, as a set of keys. */
  function OwnedEvents(events: Events, caller: UserId): set<Id> {
    set k | k in events && OwnedBy(events[k].userId, caller)
  }

  /** `s[:n] + ('...' if len(s) > n else '')` */
  function Preview(s: string, n: nat): (r: string)
    ensures |s| <= n ==> r == s
    ensures |s| > n ==> |r| == n + 3 && r[..n] == s[..n] && r[n..] == "..."
  {
    if |s| > n then s[..n] + "..." else s
  }

  /** Python's truthiness of the nullable `note_id`: null and 0 are false. */
  predicate Truthy(noteId: Option<int>) {
    noteId.Some? && noteId.value != 0
  }

  /**
    A stored event as the handlers produce it: a real date, and times with zero seconds,
    since every time comes from strptime with '%H:%M'.
  */
  predicate WellFormedEvent(e: CalendarEvent) {
    && ValidDate(e.eventDate)
    && (e.startTime.Some? ==> ValidTime(e.startTime.value) && e.startTime.value.second == 0)
    && (e.endTime.Some? ==> ValidTime(e.endTime.value) && e.endTime.value.second == 0)
  }

  // ---------------------------------------------------------------------------
  // get_all_events
  // ---------------------------------------------------------------------------

  /**
    One entry of GET /calendar/events. `allDay` is true exactly when the reply carries
    the key; `end`, `startTime`, `endTime` and `noteContent` are absent keys when `None`.
  */
  datatype EventView = EventView(
    id: Id,
    title: string,
    color: string,
    start: string,
    end: Option<string>,
    allDay: bool,
    description: string,
    noteId: Option<int>,
    hasNote: bool,
    startTime: Option<string>,
    endTime: Option<string>,
    noteContent: Option<string>)

  /** The list entry of one event. The linked note is looked up whoever owns it. */
  function ViewOf(id: Id, e: CalendarEvent, notes: Notes): EventView {
    var day := FormatDate(e.eventDate);
    EventView(
      id,
      if e.title == "" then "Untitled" else e.title,
      if e.color == "" then DEFAULT_COLOR else e.color,
      if e.startTime.Some? then day + "T" + FormatHMS(e.startTime.value) else day,
      if e.endTime.Some? then Some(day + "T" + FormatHMS(e.endTime.value)) else None,
      e.startTime.None?,
      e.description,
      if Truthy(e.noteId) then e.noteId else None,
      Truthy(e.noteId),
      if e.startTime.Some? then Some(FormatHM(e.startTime.value)) else None,
      if e.endTime.Some? then Some(FormatHM(e.endTime.value)) else None,
      if Truthy(e.noteId) && Exists(notes, e.noteId.value)
      then Some(Preview(notes[e.noteId.value as Id].data, 200))
      else None)
  }

  /** The reply of GET /calendar/events, in key order (the query has no ORDER BY). */
  function EventViews(events: Events, notes: Notes, caller: UserId): seq<EventView> {
    var ids := Ascending(OwnedEvents(events, caller));
    seq(|ids|, i requires 0 <= i < |ids| => ViewOf(ids[i], events[ids[i]], notes))
  }

  /** `get_all_events`: one entry per event, appended in query order. */
  method GetAllEvents(db: Database, caller: UserId) returns (views: seq<EventView>)
    ensures views == EventViews(db.events, db.notes, caller)
  {
    var ids := Ascending(OwnedEvents(db.events, caller));
    ghost var expected := EventViews(db.events, db.notes, caller);
    views := [];
    for i := 0 to |ids|
      invariant views == expected[..i]
    {
      views := views + [ViewOf(ids[i], db.events[ids[i]], db.notes)];
    }
    assert expected[..|ids|] == expected;
  }

  /** The list holds each of the caller's events once, by ascending key, and no other. */
  lemma EventViewsListCallersEvents(events: Events, notes: Notes, caller: UserId)
    ensures var views := EventViews(events, notes, caller);
      && |views| == |OwnedEvents(events, caller)|
      && (forall i | 0 <= i < |views| ::
            views[i].id in events && OwnedBy(events[views[i].id].userId, caller)
            && views[i] == ViewOf(views[i].id, events[views[i].id], notes))
      && (forall i, j | 0 <= i < j < |views| :: views[i].id < views[j].id)
  {
  }

  lemma EventViewsCoverEvents(events: Events, notes: Notes, caller: UserId)
    ensures var views := EventViews(events, notes, caller);
      forall k | k in events && OwnedBy(events[k].userId, caller) :: exists i | 0 <= i < |views| :: views[i].id == k
  {
    var ids := Ascending(OwnedEvents(events, caller));
    var views := EventViews(events, notes, caller);
    forall k | k in events && OwnedBy(events[k].userId, caller)
      ensures exists i | 0 <= i < |views| :: views[i].id == k
    {
      assert k in OwnedEvents(events, caller);
      var i :| 0 <= i < |ids| && ids[i] == k;
      assert views[i].id == k;
    }
  }

  /**
    The timing keys: an event without a start time is all-day and its `start` is its
    date; a timed one starts at "dateTHH:MM:SS". `end` is there exactly when an end
    time is. The first ten characters of `start` read back as the event's date.
  */
  lemma EventViewTiming(id: Id, e: CalendarEvent, notes: Notes)
    requires WellFormedEvent(e)
    ensures var v := ViewOf(id, e, notes);
      && (v.allDay <==> e.startTime.None?)
      && (v.allDay ==> v.start == FormatDate(e.eventDate) && v.startTime.None?)
      && (!v.allDay ==> v.start == FormatDate(e.eventDate) + "T" + FormatHMS(e.startTime.value)
                        && v.startTime == Some(FormatHM(e.startTime.value)))
      && (v.end.Some? <==> e.endTime.Some?)
      && (v.end.None? ==> v.endTime.None?)
      && (v.end.Some? ==> v.end.value == FormatDate(e.eventDate) + "T" + FormatHMS(e.endTime.value)
                          && v.endTime == Some(FormatHM(e.endTime.value)))
      && |v.start| >= 10 && ParseDate(v.start[..10]) == Some(e.eventDate)
  {
    var v := ViewOf(id, e, notes);
    var day := FormatDate(e.eventDate);
    assert v.start[..10] == day;
    ParseFormattedDate(e.eventDate);
  }

  /**
    The display defaults: an empty title shows as "Untitled", an empty colour as the
    default blue, and `hasNote` holds exactly when the link is set and non-zero.
  */
  lemma EventViewDefaults(id: Id, e: CalendarEvent, notes: Notes)
    ensures var v := ViewOf(id, e, notes);
      && v.title != "" && (e.title != "" ==> v.title == e.title)
      && v.color != "" && (e.color != "" ==> v.color == e.color) && (e.color == "" ==> v.color == DEFAULT_COLOR)
      && (v.hasNote <==> e.noteId.Some? && e.noteId.value != 0)
      && (v.noteId.Some? <==> v.hasNote)
      && (v.hasNote ==> v.noteId == e.noteId)
  {
  }

  /**
    The note preview: shown exactly when the event links an existing note, as the first
    200 characters of it followed by "..." when it is longer. The link is followed without
    looking at the note's owner.
  */
  lemma EventViewNoteContent(id: Id, e: CalendarEvent, notes: Notes)
    ensures var v := ViewOf(id, e, notes);
      && (v.noteContent.Some? <==> Truthy(e.noteId) && Exists(notes, e.noteId.value))
      && (v.noteContent.Some? ==>
            var data := notes[e.noteId.value as Id].data;
            && |v.noteContent.value| <= 203
            && (|data| <= 200 ==> v.noteContent.value == data)
            && (|data| > 200 ==> v.noteContent.value == data[..200] + "..."))
  {
  }

  /**
    The list of one user can show another user's note: an event linked to a note of
    `other` carries that note's text.
  */
  lemma ForeignNoteShown(caller: UserId, other: UserId)
    requires caller != other
    ensures var notes := map[1 := Note("private", DateTime(Date(2024, 1, 1), Time(0, 0, 0)), Some(other))];
      var event := CalendarEvent("t", "", Date(2024, 1, 2), None, None, DEFAULT_COLOR,
        DateTime(Date(2024, 1, 1), Time(0, 0, 0)), Some(caller), Some(1));
      var views := EventViews(map[1 := event], notes, caller);
      |views| == 1 && views[0].noteContent == Some("private") && !OwnedBy(notes[1].userId, caller)
  {
    var notes := map[1 := Note("private", DateTime(Date(2024, 1, 1), Time(0, 0, 0)), Some(other))];
    var event := CalendarEvent("t", "", Date(2024, 1, 2), None, None, DEFAULT_COLOR,
      DateTime(Date(2024, 1, 1), Time(0, 0, 0)), Some(caller), Some(1));
    var events := map[1 := event];
    assert OwnedEvents(events, caller) == {1};
    var ids := Ascending({1});
    assert |ids| == 1 && ids[0] == 1;
  }

  // ---------------------------------------------------------------------------
  // create_event
  // ---------------------------------------------------------------------------

  /** The keys of the JSON body of POST /calendar/events; absent keys are `None`. */
  datatype EventRequest = EventRequest(
    title: Option<string>,
    date: Option<string>,
    startTime: Option<string>,
    endTime: Option<string>,
    description: Option<string>,
    color: Option<string>,
    noteId: Option<int>)

  /** `data.get(key)` is truthy: present and not the empty string. */
  predicate Given(v: Option<string>) {
    v.Some? && v.value != ""
  }

  /** A truthy time key that strptime refuses. */
  predicate BadTime(v: Option<string>) {
    Given(v) && ParseTime(v.value).None?
  }

  /** The time a truthy key stores; none for an absent or empty key. */
  function RequestedTime(v: Option<string>): Option<Time> {
    if Given(v) then ParseTime(v.value) else None
  }

  /** POST /calendar/events. Every failure answers 400 and stores nothing. */
  function EventCreated(events: Events, caller: UserId, req: EventRequest, now: DateTime): Step<CalendarEvent, Reply<Id>> {
    if !Given(req.title) || !Given(req.date) then Step(Failure(BAD_REQUEST), events)
    else if ParseDate(req.date.value).None? then Step(Failure(BAD_REQUEST), events)
    else if BadTime(req.startTime) || BadTime(req.endTime) then Step(Failure(BAD_REQUEST), events)
    else
      var id := NextId(events);
      var event := CalendarEvent(
        req.title.value, req.description.GetOr(""), ParseDate(req.date.value).value,
        RequestedTime(req.startTime), RequestedTime(req.endTime), req.color.GetOr(DEFAULT_COLOR),
        now, Some(caller), req.noteId);
      Step(Success(id), events[id := event])
  }

  method CreateEvent(db: Database, caller: UserId, req: EventRequest, now: DateTime) returns (r: Reply<Id>)
    modifies db`events
    ensures Step(r, db.events) == EventCreated(old(db.events), caller, req, now)
  {
    if !Given(req.title) || !Given(req.date) {
      return Failure(BAD_REQUEST);
    }
    var eventDate := ParseDate(req.date.value);
    if eventDate.None? {
      return Failure(BAD_REQUEST);
    }
    var startTime: Option<Time> := None;
    var endTime: Option<Time> := None;
    if Given(req.startTime) {
      startTime := ParseTime(req.startTime.value);
      if startTime.None? {
        return Failure(BAD_REQUEST);
      }
    }
    if Given(req.endTime) {
      endTime := ParseTime(req.endTime.value);
      if endTime.None? {
        return Failure(BAD_REQUEST);
      }
    }
    var id := NextId(db.events);
    db.events := db.events[id := CalendarEvent(
      req.title.value, req.description.GetOr(""), eventDate.value, startTime, endTime,
      req.color.GetOr(DEFAULT_COLOR), now, Some(caller), req.noteId)];
    r := Success(id);
  }

  /**
    Creation fails exactly when the title or date is missing or empty, or a date or
    given time does not parse; then nothing is stored. Otherwise the new event is the
    caller's, under a fresh key, well formed, with the description and colour defaults
    applied, and nothing else changes.
  */
  lemma CreateEventStoresRequest(events: Events, caller: UserId, req: EventRequest, now: DateTime)
    ensures var s := EventCreated(events, caller, req, now);
      && (s.reply.Failure? <==>
            !Given(req.title) || !Given(req.date) || ParseDate(req.date.value).None?
            || BadTime(req.startTime) || BadTime(req.endTime))
      && (s.reply.Failure? ==> s.reply.status == BAD_REQUEST && s.rows == events)
      && (s.reply.Success? ==>
            var id := s.reply.value;
            var e := s.rows[id];
            && id !in events && s.rows.Keys == events.Keys + {id}
            && (forall k | k in events :: s.rows[k] == events[k])
            && OwnedBy(e.userId, caller) && WellFormedEvent(e)
            && e.title == req.title.value && Some(e.eventDate) == ParseDate(req.date.value)
            && (req.description.None? ==> e.description == "")
            && (req.description.Some? ==> e.description == req.description.value)
            && (req.color.None? ==> e.color == DEFAULT_COLOR)
            && (req.color.Some? ==> e.color == req.color.value)
            && (e.startTime.None? <==> !Given(req.startTime))
            && (Given(req.startTime) ==> e.startTime == ParseTime(req.startTime.value))
            && (e.endTime.None? <==> !Given(req.endTime))
            && (Given(req.endTime) ==> e.endTime == ParseTime(req.endTime.value))
            && e.noteId == req.noteId)
  {
    var s := EventCreated(events, caller, req, now);
    if s.reply.Success? {
      InsertFresh(events, s.reply.value, s.rows[s.reply.value]);
    }
  }

  /**
    What a user types is what the calendar shows. An event created with times in the
    canonical 'HH:MM' form lists with `start` = "<date>T" + the start as typed + ":00" and
    `end` = "<date>T" + the end as typed + ":00", on the date that was sent. Without a
    start time it is all-day on that date; without an end time it has no `end`.
  */
  lemma CreatedEventListsAsTyped(events: Events, notes: Notes, caller: UserId, req: EventRequest, now: DateTime)
    requires EventCreated(events, caller, req, now).reply.Success?
    ensures var s := EventCreated(events, caller, req, now);
      var v := ViewOf(s.reply.value, s.rows[s.reply.value], notes);
      var day := FormatDate(ParseDate(req.date.value).value);
      && (Given(req.startTime) && |req.startTime.value| == 5 ==>
            v.start == day + "T" + req.startTime.value + ":00" && v.startTime == req.startTime && !v.allDay)
      && (!Given(req.startTime) ==> v.start == day && v.startTime.None? && v.allDay)
      && (Given(req.endTime) && |req.endTime.value| == 5 ==>
            v.end == Some(day + "T" + req.endTime.value + ":00") && v.endTime == req.endTime)
      && (!Given(req.endTime) ==> v.end.None? && v.endTime.None?)
  {
    var s := EventCreated(events, caller, req, now);
    var e := s.rows[s.reply.value];
    assert e.startTime == RequestedTime(req.startTime) && e.endTime == RequestedTime(req.endTime);
    assert e.eventDate == ParseDate(req.date.value).value;
    ViewOfTypedStart(s.reply.value, e, notes, req.startTime);
    ViewOfTypedEnd(s.reply.value, e, notes, req.endTime);
  }

  lemma ViewOfTypedStart(id: Id, e: CalendarEvent, notes: Notes, typed: Option<string>)
    requires !BadTime(typed) && e.startTime == RequestedTime(typed)
    ensures var v := ViewOf(id, e, notes);
      && (Given(typed) && |typed.value| == 5 ==>
            v.start == FormatDate(e.eventDate) + "T" + typed.value + ":00" && v.startTime == typed && !v.allDay)
      && (!Given(typed) ==> v.start == FormatDate(e.eventDate) && v.startTime.None? && v.allDay)
  {
    if Given(typed) && |typed.value| == 5 {
      FormatParsedTime(typed.value);
    }
  }

  lemma ViewOfTypedEnd(id: Id, e: CalendarEvent, notes: Notes, typed: Option<string>)
    requires !BadTime(typed) && e.endTime == RequestedTime(typed)
    ensures var v := ViewOf(id, e, notes);
      && (Given(typed) && |typed.value| == 5 ==>
            v.end == Some(FormatDate(e.eventDate) + "T" + typed.value + ":00") && v.endTime == typed)
      && (!Given(typed) ==> v.end.None? && v.endTime.None?)
  {
    if Given(typed) && |typed.value| == 5 {
      FormatParsedTime(typed.value);
      var day := FormatDate(e.eventDate) + "T";
      assert day + (typed.value + ":00") == day + typed.value + ":00";
    }
  }

  // ---------------------------------------------------------------------------
  // get_single_event
  // ---------------------------------------------------------------------------

  /** The reply of GET /calendar/events/<id>: missing times are empty strings. */
  datatype EventDetail = EventDetail(
    id: Id,
    title: string,
    description: string,
    date: string,
    startTime: string,
    endTime: string,
    color: string,
    noteId: Option<int>)

  function DetailOf(id: Id, e: CalendarEvent): EventDetail {
    EventDetail(
      id, e.title, e.description, FormatDate(e.eventDate),
      if e.startTime.Some? then FormatHM(e.startTime.value) else "",
      if e.endTime.Some? then FormatHM(e.endTime.value) else "",
      e.color, e.noteId)
  }

  /**
    GET /calendar/events/<id>. Here the handler answers a missing event with 404: the
    NotFound is caught and turned into 404 like any other error.
  */
  function SingleEvent(events: Events, caller: UserId, id: int): Reply<EventDetail> {
    if !Exists(events, id) then Failure(NOT_FOUND)
    else if !OwnedBy(events[id as Id].userId, caller) then Failure(FORBIDDEN)
    else Success(DetailOf(id as Id, events[id as Id]))
  }

  /**
    Only the owner reads an event: a missing one is 404, another user's 403. The detail
    reads back: its date parses to the event's date, and each time string is empty
    exactly when the time is unset and otherwise parses to that time.
  */
  lemma SingleEventReadsBack(events: Events, caller: UserId, id: int)
    ensures var r := SingleEvent(events, caller, id);
      && (r.Success? <==> Exists(events, id) && OwnedBy(events[id as Id].userId, caller))
      && (!Exists(events, id) ==> r == Failure(NOT_FOUND))
      && (Exists(events, id) && !OwnedBy(events[id as Id].userId, caller) ==> r == Failure(FORBIDDEN))
      && (r.Success? && WellFormedEvent(events[id as Id]) ==>
            var e := events[id as Id];
            && r.value.id == id as Id
            && ParseDate(r.value.date) == Some(e.eventDate)
            && (r.value.startTime == "" <==> e.startTime.None?)
            && (e.startTime.Some? ==> ParseTime(r.value.startTime) == e.startTime)
            && (r.value.endTime == "" <==> e.endTime.None?)
            && (e.endTime.Some? ==> ParseTime(r.value.endTime) == e.endTime))
  {
    if Exists(events, id) && OwnedBy(events[id as Id].userId, caller) && WellFormedEvent(events[id as Id]) {
      var e := events[id as Id];
      ParseFormattedDate(e.eventDate);
      if e.startTime.Some? {
        ParseFormattedTime(e.startTime.value);
      }
      if e.endTime.Some? {
        ParseFormattedTime(e.endTime.value);
      }
    }
  }

  // ---------------------------------------------------------------------------
  // update_single_event
  // ---------------------------------------------------------------------------

  /**
    The keys of the JSON body of PUT /calendar/events/<id>; absent keys are `None`.
    `noteId` is `Some(None)` for an explicit null.
  */
  datatype EventPatch = EventPatch(
    title: Option<string>,
    description: Option<string>,
    date: Option<string>,
    startTime: Option<string>,
    endTime: Option<string>,
    color: Option<string>,
    noteId: Option<Option<int>>)

  /** A present time key: empty clears the time, anything else must parse. */
  predicate BadTimeKey(v: Option<string>) {
    v.Some? && v.value != "" && ParseTime(v.value).None?
  }

  /** The stored time after a time key: unchanged when absent, none when empty. */
  function TimeAfter(old_: Option<Time>, v: Option<string>): Option<Time> {
    if v.None? then old_ else if v.value == "" then None else ParseTime(v.value)
  }

  function PatchedEvent(e: CalendarEvent, p: EventPatch): CalendarEvent
    requires p.date.Some? ==> ParseDate(p.date.value).Some?
  {
    CalendarEvent(
      p.title.GetOr(e.title),
      p.description.GetOr(e.description),
      if p.date.Some? then ParseDate(p.date.value).value else e.eventDate,
      TimeAfter(e.startTime, p.startTime),
      TimeAfter(e.endTime, p.endTime),
      p.color.GetOr(e.color),
      e.createdAt,
      e.userId,
      p.noteId.GetOr(e.noteId))
  }

  /** PUT /calendar/events/<id>. A missing event is 400 here (NotFound is caught). */
  function EventUpdated(events: Events, caller: UserId, id: int, p: EventPatch): Step<CalendarEvent, Reply<()>> {
    if !Exists(events, id) then Step(Failure(BAD_REQUEST), events)
    else if !OwnedBy(events[id as Id].userId, caller) then Step(Failure(FORBIDDEN), events)
    else if (p.date.Some? && ParseDate(p.date.value).None?) || BadTimeKey(p.startTime) || BadTimeKey(p.endTime)
    then Step(Failure(BAD_REQUEST), events)
    else Step(Success(()), events[id as Id := PatchedEvent(events[id as Id], p)])
  }

  /** `update_single_event`: assigns the present keys one by one, then commits. */
  method UpdateEvent(db: Database, caller: UserId, id: int, p: EventPatch) returns (r: Reply<()>)
    modifies db`events
    ensures Step(r, db.events) == EventUpdated(old(db.events), caller, id, p)
  {
    if !Exists(db.events, id) {
      return Failure(BAD_REQUEST);
    }
    var event := db.events[id as Id];
    if !OwnedBy(event.userId, caller) {
      return Failure(FORBIDDEN);
    }
    if p.title.Some? {
      event := event.(title := p.title.value);
    }
    if p.description.Some? {
      event := event.(description := p.description.value);
    }
    if p.date.Some? {
      var d := ParseDate(p.date.value);
      if d.None? {
        return Failure(BAD_REQUEST);   // rollback
      }
      event := event.(eventDate := d.value);
    }
    if p.startTime.Some? {
      if BadTimeKey(p.startTime) {
        return Failure(BAD_REQUEST);
      }
      event := event.(startTime := TimeAfter(event.startTime, p.startTime));
    }
    if p.endTime.Some? {
      if BadTimeKey(p.endTime) {
        return Failure(BAD_REQUEST);
      }
      event := event.(endTime := TimeAfter(event.endTime, p.endTime));
    }
    if p.color.Some? {
      event := event.(color := p.color.value);
    }
    if p.noteId.Some? {
      event := event.(noteId := p.noteId.value);
    }
    db.events := db.events[id as Id := event];
    r := Success(());
  }

  /**
    Only the owner changes an event, and only in the keys present; an empty time key
    clears the time. A failed update leaves the table unchanged, and a successful one
    keeps the event well formed.
  */
  lemma UpdateEventChangesOnlyPresentKeys(events: Events, caller: UserId, id: int, p: EventPatch)
    ensures var s := EventUpdated(events, caller, id, p);
      && (s.reply.Failure? ==> s.rows == events)
      && (!Exists(events, id) ==> s.reply == Failure(BAD_REQUEST))
      && (Exists(events, id) && !OwnedBy(events[id as Id].userId, caller) ==> s.reply == Failure(FORBIDDEN))
      && (Exists(events, id) && OwnedBy(events[id as Id].userId, caller) ==>
            && (s.reply.Failure? <==>
                  (p.date.Some? && ParseDate(p.date.value).None?) || BadTimeKey(p.startTime) || BadTimeKey(p.endTime))
            && (s.reply.Failure? ==> s.reply.status == BAD_REQUEST))
      && (s.reply.Success? ==>
            var old_ := events[id as Id];
            var new_ := s.rows[id as Id];
            && s.rows.Keys == events.Keys
            && (forall k | k in events && k != id as Id :: s.rows[k] == events[k])
            && new_.userId == old_.userId && new_.createdAt == old_.createdAt
            && (p.title.None? ==> new_.title == old_.title)
            && (p.title.Some? ==> new_.title == p.title.value)
            && (p.description.None? ==> new_.description == old_.description)
            && (p.description.Some? ==> new_.description == p.description.value)
            && (p.date.None? ==> new_.eventDate == old_.eventDate)
            && (p.date.Some? ==> Some(new_.eventDate) == ParseDate(p.date.value))
            && (p.startTime.None? ==> new_.startTime == old_.startTime)
            && (p.startTime == Some("") ==> new_.startTime.None?)
            && (Given(p.startTime) ==> new_.startTime.Some? && new_.startTime == ParseTime(p.startTime.value))
            && (p.endTime.None? ==> new_.endTime == old_.endTime)
            && (p.endTime == Some("") ==> new_.endTime.None?)
            && (Given(p.endTime) ==> new_.endTime.Some? && new_.endTime == ParseTime(p.endTime.value))
            && (p.color.None? ==> new_.color == old_.color)
            && (p.color.Some? ==> new_.color == p.color.value)
            && (p.noteId.None? ==> new_.noteId == old_.noteId)
            && (p.noteId.Some? ==> new_.noteId == p.noteId.value)
            && (WellFormedEvent(old_) ==> WellFormedEvent(new_)))
  {
  }

  /** The body that names no key. */
  const EMPTY_PATCH := EventPatch(None, None, None, None, None, None, None)

  /** An owner's update with no keys succeeds and changes nothing. */
  lemma EmptyPatchChangesNothing(events: Events, caller: UserId, id: int)
    requires Exists(events, id) && OwnedBy(events[id as Id].userId, caller)
    ensures EventUpdated(events, caller, id, EMPTY_PATCH) == Step(Success(()), events)
  {
    var e := events[id as Id];
    assert PatchedEvent(e, EMPTY_PATCH) == e;
    assert events[id as Id := e] == events;
  }

  /**
    Reading an event and sending its detail back as the update body leaves the event as
    it was: the date and time strings of the detail parse back to the stored values.
  */
  lemma UpdateWithOwnDetailChangesNothing(events: Events, caller: UserId, id: int)
    requires Exists(events, id) && OwnedBy(events[id as Id].userId, caller)
    requires WellFormedEvent(events[id as Id])
    ensures var d := SingleEvent(events, caller, id).value;
      var p := EventPatch(Some(d.title), Some(d.description), Some(d.date), Some(d.startTime),
                          Some(d.endTime), Some(d.color), Some(d.noteId));
      EventUpdated(events, caller, id, p) == Step(Success(()), events)
  {
    var e := events[id as Id];
    var d := SingleEvent(events, caller, id).value;
    SingleEventReadsBack(events, caller, id);
    var p := EventPatch(Some(d.title), Some(d.description), Some(d.date), Some(d.startTime),
                        Some(d.endTime), Some(d.color), Some(d.noteId));
    assert TimeAfter(e.startTime, p.startTime) == e.startTime;
    assert TimeAfter(e.endTime, p.endTime) == e.endTime;
    assert PatchedEvent(e, p) == e;
    assert events[id as Id := e] == events;
  }

  // ---------------------------------------------------------------------------
  // delete_single_event
  // ---------------------------------------------------------------------------

  /** DELETE /calendar/events/<id>. A missing event is 400 (NotFound is caught). */
  function EventDeleted(events: Events, caller: UserId, id: int): Step<CalendarEvent, Reply<()>> {
    if !Exists(events, id) then Step(Failure(BAD_REQUEST), events)
    else if !OwnedBy(events[id as Id].userId, caller) then Step(Failure(FORBIDDEN), events)
    else Step(Success(()), events - {id as Id})
  }

  method DeleteEvent(db: Database, caller: UserId, id: int) returns (r: Reply<()>)
    modifies db`events
    ensures Step(r, db.events) == EventDeleted(old(db.events), caller, id)
  {
    if !Exists(db.events, id) {
      return Failure(BAD_REQUEST);
    }
    if !OwnedBy(db.events[id as Id].userId, caller) {
      return Failure(FORBIDDEN);
    }
    db.events := db.events - {id as Id};
    r := Success(());
  }

  /**
    Only the owner deletes an event, and only that event goes: the caller's other events
    and everyone else's stay as they were.
  */
  lemma DeleteEventRemovesOnlyTarget(events: Events, caller: UserId, id: int)
    ensures var s := EventDeleted(events, caller, id);
      && (s.reply.Success? <==> Exists(events, id) && OwnedBy(events[id as Id].userId, caller))
      && (s.reply.Failure? ==> s.rows == events)
      && (!Exists(events, id) ==> s.reply == Failure(BAD_REQUEST))
      && (Exists(events, id) && !OwnedBy(events[id as Id].userId, caller) ==> s.reply == Failure(FORBIDDEN))
      && (s.reply.Success? ==>
            && id as Id !in s.rows
            && (forall k | k in events && k != id as Id :: k in s.rows && s.rows[k] == events[k])
            && |OwnedEvents(s.rows, caller)| == |OwnedEvents(events, caller)| - 1)
  {
    var s := EventDeleted(events, caller, id);
    if s.reply.Success? {
      assert OwnedEvents(s.rows, caller) == OwnedEvents(events, caller) - {id as Id};
    }
  }

  // ---------------------------------------------------------------------------
  // get_user_notes
  // ---------------------------------------------------------------------------

  datatype NotePreview = NotePreview(id: Id, content: string, fullContent: string, createdAt: string)

  function OwnedNotes(notes: Notes, caller: UserId): set<Id> {
    set k | k in notes && OwnedBy(notes[k].userId, caller)
  }

  function PreviewOf(id: Id, n: Note): NotePreview {
    NotePreview(id, Preview(n.data, 100), n.data, FormatDateTimeMinutes(n.date))
  }

  /** The reply of GET /calendar/notes, in key order. */
  function NotePreviews(notes: Notes, caller: UserId): seq<NotePreview> {
    var ids := Ascending(OwnedNotes(notes, caller));
    seq(|ids|, i requires 0 <= i < |ids| => PreviewOf(ids[i], notes[ids[i]]))
  }

  /** `get_user_notes`: one entry per note of the caller, appended in query order. */
  method GetUserNotes(db: Database, caller: UserId) returns (previews: seq<NotePreview>)
    ensures previews == NotePreviews(db.notes, caller)
  {
    var ids := Ascending(OwnedNotes(db.notes, caller));
    ghost var expected := NotePreviews(db.notes, caller);
    previews := [];
    for i := 0 to |ids|
      invariant previews == expected[..i]
    {
      previews := previews + [PreviewOf(ids[i], db.notes[ids[i]])];
    }
    assert expected[..|ids|] == expected;
  }

  /**
    The note picker lists only the caller's notes, each with its full text and a preview
    of at most 103 characters that starts like the note.
  */
  lemma NotePreviewsShowCallersNotes(notes: Notes, caller: UserId)
    ensures var ps := NotePreviews(notes, caller);
      && |ps| == |OwnedNotes(notes, caller)|
      && (forall i | 0 <= i < |ps| ::
           && ps[i].id in notes && OwnedBy(notes[ps[i].id].userId, caller)
           && ps[i].fullContent == notes[ps[i].id].data
           && |ps[i].content| <= 103
           && (|ps[i].fullContent| <= 100 ==> ps[i].content == ps[i].fullContent)
           && (|ps[i].fullContent| > 100 ==> ps[i].content == ps[i].fullContent[..100] + "..."))
      && (forall i, j | 0 <= i < j < |ps| :: ps[i].id < ps[j].id)
      && (forall k | k in OwnedNotes(notes, caller) :: exists i | 0 <= i < |ps| :: ps[i].id == k)
  {
    var ids := Ascending(OwnedNotes(notes, caller));
    var ps := NotePreviews(notes, caller);
    forall i | 0 <= i < |ps|
      ensures ps[i].id == ids[i] && ps[i].id in notes && OwnedBy(notes[ps[i].id].userId, caller)
      ensures ps[i].fullContent == notes[ps[i].id].data
      ensures |ps[i].content| <= 103
      ensures |ps[i].fullContent| <= 100 ==> ps[i].content == ps[i].fullContent
      ensures |ps[i].fullContent| > 100 ==> ps[i].content == ps[i].fullContent[..100] + "..."
    {
      PreviewOfNote(ids[i], notes[ids[i]]);
    }
    forall k | k in OwnedNotes(notes, caller)
      ensures exists i | 0 <= i < |ps| :: ps[i].id == k
    {
      var i :| 0 <= i < |ids| && ids[i] == k;
      assert ps[i].id == k;
    }
  }

  lemma PreviewOfNote(id: Id, n: Note)
    ensures var p := PreviewOf(id, n);
      && p.id == id && p.fullContent == n.data && |p.content| <= 103
      && (|n.data| <= 100 ==> p.content == n.data)
      && (|n.data| > 100 ==> p.content == n.data[..100] + "...")
  {
  }

  // ---------------------------------------------------------------------------
  // get_calendar_statistics
  // ---------------------------------------------------------------------------

  datatype EventStats = EventStats(total: nat, today: nat, month: nat)

  function EventsOn(events: Events, caller: UserId, today: Date): set<Id> {
    set k | k in events && OwnedBy(events[k].userId, caller) && events[k].eventDate == today
  }

  function EventsInMonth(events: Events, caller: UserId, today: Date): set<Id> {
    set k | k in events && OwnedBy(events[k].userId, caller)
              && events[k].eventDate.month == today.month && events[k].eventDate.year == today.year
  }

  /** GET /calendar/stats */
  function CalendarStats(events: Events, caller: UserId, today: Date): EventStats {
    EventStats(
      |OwnedEvents(events, caller)|,
      |EventsOn(events, caller, today)|,
      |EventsInMonth(events, caller, today)|)
  }

  /** Today's events are among this month's, which are among all of the caller's. */
  lemma StatsNested(events: Events, caller: UserId, today: Date)
    ensures var st := CalendarStats(events, caller, today);
      st.today <= st.month <= st.total
  {
    SubsetCard(EventsOn(events, caller, today), EventsInMonth(events, caller, today));
    SubsetCard(EventsInMonth(events, caller, today), OwnedEvents(events, caller));
  }
}
