/**
  Notes: adding one from the home page form, deleting one, and editing one in place.
  Only a note's owner deletes or edits it.
*/
module Views {
  import opened Optional
  import opened Chrono
  import opened Models

  type Notes = map<Id, Note>
  type Events = map<Id, CalendarEvent>

  // ---------------------------------------------------------------------------
  // home (POST)
  // ---------------------------------------------------------------------------

  /**
    What a POST to the home page does: add the note, flash "too short", or fail with a
    server error when the form has no `note` field (`len(None)` raises).
  */
  datatype HomeOutcome = NoteAdded(id: Id) | NoteTooShort | ServerError

  function NoteSubmitted(notes: Notes, caller: UserId, form: Option<string>, now: DateTime): Step<Note, HomeOutcome> {
    if form.None? then Step(ServerError, notes)
    else if |form.value| < 1 then Step(NoteTooShort, notes)
    else
      var id := NextId(notes);
      Step(NoteAdded(id), notes[id := Note(form.value, now, Some(caller))])
  }

  /** The POST branch of `home`. */
  method Home(db: Database, caller: UserId, form: Option<string>, now: DateTime) returns (outcome: HomeOutcome)
    modifies db`notes
    ensures Step(outcome, db.notes) == NoteSubmitted(old(db.notes), caller, form, now)
  {
    if form.None? {
      return ServerError;
    }
    var note := form.value;
    if |note| < 1 {
      outcome := NoteTooShort;
    } else {
      var id := NextId(db.notes);
      db.notes := db.notes[id := Note(note, now, Some(caller))];
      outcome := NoteAdded(id);
    }
  }

  /**
    A note is stored exactly when the submitted text is not empty; it is stored as typed,
    owned by the caller, under a fresh key, and no other note changes.
  */
  lemma HomeStoresNonEmptyNote(notes: Notes, caller: UserId, form: Option<string>, now: DateTime)
    ensures var s := NoteSubmitted(notes, caller, form, now);
      && (s.reply.NoteAdded? <==> form.Some? && form.value != "")
      && (!s.reply.NoteAdded? ==> s.rows == notes)
      && (s.reply.NoteAdded? ==>
            && s.reply.id !in notes && s.rows.Keys == notes.Keys + {s.reply.id}
            && (forall k | k in notes :: s.rows[k] == notes[k])
            && s.rows[s.reply.id] == Note(form.value, now, Some(caller)))
  {
    if form.Some? && form.value != "" {
      var id := NextId(notes);
      InsertFresh(notes, id, Note(form.value, now, Some(caller)));
    }
  }

  /** There is no trimming: a note of one space is accepted. */
  lemma WhitespaceNoteAccepted(notes: Notes, caller: UserId, now: DateTime)
    ensures NoteSubmitted(notes, caller, Some(" "), now).reply.NoteAdded?
  {
  }

  // ---------------------------------------------------------------------------
  // delete_note
  // ---------------------------------------------------------------------------

  /** The notes and events tables. */
  datatype NoteStore = NoteStore(notes: Notes, events: Events)

  /** The reply of a delete request and the tables it leaves. */
  datatype Deletion = Deletion(reply: Reply<()>, store: NoteStore)

  /**
    POST /delete-note. A body without `noteId` raises KeyError, a server error that
    changes nothing. Otherwise the reply is `{}`, and the note goes only when it exists
    and the caller owns it; the events that linked it stay and lose the link.
  */
  function NoteDeleted(store: NoteStore, caller: UserId, noteId: Option<int>): Deletion {
    if noteId.None? then Deletion(Failure(SERVER_ERROR), store)
    else
      var id := noteId.value;
      if Exists(store.notes, id) && OwnedBy(store.notes[id as Id].userId, caller)
      then Deletion(Success(()), NoteStore(store.notes - {id as Id}, UnlinkNote(store.events, id as Id)))
      else Deletion(Success(()), store)
  }

  method DeleteNote(db: Database, caller: UserId, noteId: Option<int>) returns (r: Reply<()>)
    modifies db`notes, db`events
    ensures Deletion(r, NoteStore(db.notes, db.events)) == NoteDeleted(NoteStore(old(db.notes), old(db.events)), caller, noteId)
  {
    if noteId.None? {
      return Failure(SERVER_ERROR);
    }
    var id := noteId.value;
    if Exists(db.notes, id) {
      if OwnedBy(db.notes[id as Id].userId, caller) {
        db.notes := db.notes - {id as Id};
        db.events := UnlinkNote(db.events, id as Id);
      }
    }
    r := Success(());
  }

  /** The caller owns an existing note with this id. */
  predicate OwnsNote(notes: Notes, caller: UserId, id: int) {
    Exists(notes, id) && OwnedBy(notes[id as Id].userId, caller)
  }

  /**
    Delete removes exactly the caller's own note and nothing else: other notes stay,
    no event is deleted, and events lose only a link to the deleted note. A missing
    note or another user's note leaves everything unchanged, and so does a body
    without an id, which is the only request that does not answer `{}`.
  */
  lemma DeleteNoteRemovesOnlyTarget(store: NoteStore, caller: UserId, noteId: Option<int>)
    ensures var d := NoteDeleted(store, caller, noteId);
      && (d.reply.Failure? <==> noteId.None?)
      && (d.reply.Failure? ==> d.reply.status == SERVER_ERROR && d.store == store)
      && (noteId.Some? && !OwnsNote(store.notes, caller, noteId.value) ==> d.store == store)
      && (noteId.Some? && OwnsNote(store.notes, caller, noteId.value) ==>
            var after := d.store;
            var id := noteId.value;
            && after.notes.Keys == store.notes.Keys - {id as Id}
            && (forall k | k in after.notes :: after.notes[k] == store.notes[k])
            && after.events.Keys == store.events.Keys
            && (forall k | k in after.events :: after.events[k].noteId != Some(id))
            && (forall k | k in store.events && store.events[k].noteId != Some(id) :: after.events[k] == store.events[k]))
  {
  }

  /** Deleting the same note twice is deleting it once. */
  lemma DeleteNoteIdempotent(store: NoteStore, caller: UserId, noteId: Option<int>)
    ensures var once := NoteDeleted(store, caller, noteId);
      NoteDeleted(once.store, caller, noteId) == once
  {
  }

  // ---------------------------------------------------------------------------
  // edit_note
  // ---------------------------------------------------------------------------

  /** The keys `noteId` and `newData` of the JSON body; absent keys are `None`. */
  datatype EditRequest = EditRequest(noteId: Option<int>, newData: Option<string>)

  /** The success reply: the stored content and the new timestamp as '%Y-%m-%d %H:%M:%S'. */
  datatype Edited = Edited(noteId: Id, newData: string, newDate: string)

  /** `not note_id or not new_data`: absent, 0 or empty. */
  predicate Incomplete(req: EditRequest) {
    req.noteId.None? || req.noteId.value == 0 || req.newData.None? || req.newData.value == ""
  }

  /** POST /edit-note: 400, then 404, then 403, each leaving the note unchanged. */
  function NoteEdited(notes: Notes, caller: UserId, req: EditRequest, now: DateTime): Step<Note, Reply<Edited>> {
    if Incomplete(req) then Step(Failure(BAD_REQUEST), notes)
    else if !Exists(notes, req.noteId.value) then Step(Failure(NOT_FOUND), notes)
    else
      var id := req.noteId.value as Id;
      if !OwnedBy(notes[id].userId, caller) then Step(Failure(FORBIDDEN), notes)
      else
        Step(Success(Edited(id, req.newData.value, FormatDateTimeSeconds(now))),
             notes[id := notes[id].(data := req.newData.value, date := now)])
  }

  /** `edit_note`: the checks in order, then `data` and `date` overwritten in place. */
  method EditNote(db: Database, caller: UserId, req: EditRequest, now: DateTime) returns (r: Reply<Edited>)
    modifies db`notes
    ensures Step(r, db.notes) == NoteEdited(old(db.notes), caller, req, now)
  {
    if Incomplete(req) {
      return Failure(BAD_REQUEST);
    }
    var noteId := req.noteId.value;
    if !Exists(db.notes, noteId) {
      return Failure(NOT_FOUND);
    }
    var note := db.notes[noteId as Id];
    if !OwnedBy(note.userId, caller) {
      return Failure(FORBIDDEN);
    }
    note := note.(data := req.newData.value);
    note := note.(date := now);
    db.notes := db.notes[noteId as Id := note];
    r := Success(Edited(noteId as Id, note.data, FormatDateTimeSeconds(note.date)));
  }

  /**
    The error precedence: an incomplete request is 400 before any lookup; then an unknown
    id is 404; then another user's note is 403. Every failure leaves the notes unchanged.
  */
  lemma EditErrorPrecedence(notes: Notes, caller: UserId, req: EditRequest, now: DateTime)
    ensures var s := NoteEdited(notes, caller, req, now);
      && (s.reply.Failure? ==> s.rows == notes)
      && (s.reply == Failure(BAD_REQUEST) <==> Incomplete(req))
      && (s.reply == Failure(NOT_FOUND) <==> !Incomplete(req) && !Exists(notes, req.noteId.value))
      && (s.reply == Failure(FORBIDDEN) <==>
            !Incomplete(req) && Exists(notes, req.noteId.value) && !OwnedBy(notes[req.noteId.value as Id].userId, caller))
      && (s.reply.Success? <==>
            !Incomplete(req) && Exists(notes, req.noteId.value) && OwnedBy(notes[req.noteId.value as Id].userId, caller))
  {
  }

  /**
    A successful edit stores the new text and timestamp in the targeted note, keeps its
    owner, changes no other note, and echoes what was stored.
  */
  lemma EditStoresNewData(notes: Notes, caller: UserId, req: EditRequest, now: DateTime)
    ensures var s := NoteEdited(notes, caller, req, now);
      s.reply.Success? ==>
        var id := s.reply.value.noteId;
        && id as int == req.noteId.value && id in notes
        && s.rows.Keys == notes.Keys
        && s.rows[id] == Note(req.newData.value, now, notes[id].userId)
        && OwnedBy(s.rows[id].userId, caller)
        && (forall k | k in notes && k != id :: s.rows[k] == notes[k])
        && s.reply.value.newData == s.rows[id].data
        && s.reply.value.newDate == FormatDateTimeSeconds(s.rows[id].date)
  {
  }

  /** Once a note is deleted, editing it answers 404. */
  lemma EditAfterDeleteNotFound(store: NoteStore, caller: UserId, noteId: int, newData: string, now: DateTime)
    requires noteId != 0 && newData != ""
    requires OwnsNote(store.notes, caller, noteId)
    ensures var after := NoteDeleted(store, caller, Some(noteId)).store;
      NoteEdited(after.notes, caller, EditRequest(Some(noteId), Some(newData)), now).reply == Failure(NOT_FOUND)
  {
  }
}
