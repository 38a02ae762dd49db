/**
 * The event manager page (src/app/event/page.tsx): the user's events with
 * create, delete and edit.  The page state is a value; each handler, given
 * the outcome of its request, yields the next state.
 *
 * Deleting filters the list on the events' `userId` although the button
 * passes the event's `id`.  `DeleteEventAsWritten` models that line and
 * `DeleteByUserIdRemovesOthers` exhibits the effect; the page model uses
 * `DeleteEvent`, which filters on `id`.
 */
module EventManager {
  import opened Js

  datatype Event = Event(
    id: int,
    userId: int,
    organizers: seq<int>,
    eventName: string,
    description: string,
    members: seq<int>)

  /** A `Partial<Event>`: the fields the PATCH sets, or None for an absent key. */
  datatype EventPatch = EventPatch(
    id: Option<int>,
    userId: Option<int>,
    organizers: Option<seq<int>>,
    eventName: Option<string>,
    description: Option<string>,
    members: Option<seq<int>>)

  /** `responseData.data` of a successful create. */
  datatype CreatedData = CreatedData(userId: int, id: int, eventName: string, description: string)

  datatype EventPage = EventPage(
    events: seq<Event>,
    editingEvent: Option<Event>,
    isCreateEventOpen: bool)

  /** The placeholder the page stores for both participant lists. */
  const Placeholder: seq<int> := [0]

  /** The create-event `setEvents` updater: the event built from the response goes last. */
  function AppendCreated(events: seq<Event>, data: CreatedData): (r: seq<Event>)
    ensures |r| == |events| + 1 && r[..|events|] == events
    ensures r[|events|] == Event(data.id, data.userId, [0], data.eventName, data.description, [0])
  {
    events + [Event(data.id, data.userId, Placeholder, data.eventName, data.description, Placeholder)]
  }

  /**
   * The create popover's submit once the POST settled: `response` is the
   * created event's data, or None on failure, which changes nothing.  On
   * success the event is appended and the popover closes.
   */
  function AfterCreate(p: EventPage, response: Option<CreatedData>): (r: EventPage)
    ensures response.None? ==> r == p
    ensures response.Some? ==>
      r.events == AppendCreated(p.events, response.value) && !r.isCreateEventOpen && r.editingEvent == p.editingEvent
  {
    if response.None? then p else p.(events := AppendCreated(p.events, response.value), isCreateEventOpen := false)
  }

  /** The popover's Cancel button and its `onOpenChange`: it only opens or closes the popover. */
  function SetCreateOpen(p: EventPage, open: bool): (r: EventPage)
    ensures r.isCreateEventOpen == open && r.events == p.events && r.editingEvent == p.editingEvent
  {
    p.(isCreateEventOpen := open)
  }

  function EventUserId(e: Event): int
  {
    e.userId
  }

  function EventId(e: Event): int
  {
    e.id
  }

  /** `handleDeleteEvent` as written: it keeps the events whose `userId` differs from the given id. */
  function DeleteEventAsWritten(events: seq<Event>, eventId: int): (r: seq<Event>)
    ensures forall e :: e in r <==> e in events && e.userId != eventId
  {
    RemoveById(events, EventUserId, eventId)
  }

  /**
   * Deleting event 1 of user 1, who also has event 2, removes both from the
   * list; deleting event 2 removes neither.
   */
  lemma DeleteByUserIdRemovesOthers()
    ensures var first := Event(1, 1, [0], "party", "", [0]);
            var second := Event(2, 1, [0], "dinner", "", [0]);
            DeleteEventAsWritten([first, second], 1) == []
            && DeleteEventAsWritten([first, second], 2) == [first, second]
  {
    var first := Event(1, 1, [0], "party", "", [0]);
    var second := Event(2, 1, [0], "dinner", "", [0]);
    var r := DeleteEventAsWritten([first, second], 1);
    assert first !in r && second !in r;
    var keep := IdIsNot(EventUserId, 2);
    assert Filter([second], keep) == [second];
    assert Filter([first, second], keep) == [first] + Filter([second], keep);
  }

  /** `handleDeleteEvent` as intended: the events whose `id` differs from the deleted one, in order. */
  function DeleteEvent(events: seq<Event>, eventId: int): (r: seq<Event>)
    ensures forall e :: e in r <==> e in events && e.id != eventId
    ensures Sublist(r, events)
  {
    RemoveById(events, EventId, eventId)
  }

  /** Deleting keeps every copy of the events with another id and no copy of one with that id. */
  lemma DeleteEventCount(events: seq<Event>, eventId: int, e: Event)
    ensures multiset(DeleteEvent(events, eventId))[e] == if e.id == eventId then 0 else multiset(events)[e]
  {
    RemoveByIdCount(events, EventId, eventId, e);
  }

  /** Deleting an event just created with a fresh id gives back the list before it. */
  lemma DeleteUndoesCreate(events: seq<Event>, data: CreatedData)
    requires forall e :: e in events ==> e.id != data.id
    ensures DeleteEvent(AppendCreated(events, data), data.id) == events
  {
    RemoveAppended(events, EventId, AppendCreated(events, data)[|events|]);
  }

  /** `{...event, ...updatedData}`: every key present in the patch overrides the event's. */
  function Overlay(e: Event, p: EventPatch): (r: Event)
    ensures r.id == (if p.id.Some? then p.id.value else e.id)
    ensures r.userId == (if p.userId.Some? then p.userId.value else e.userId)
    ensures r.organizers == (if p.organizers.Some? then p.organizers.value else e.organizers)
    ensures r.eventName == (if p.eventName.Some? then p.eventName.value else e.eventName)
    ensures r.description == (if p.description.Some? then p.description.value else e.description)
    ensures r.members == (if p.members.Some? then p.members.value else e.members)
  {
    Event(
      if p.id.Some? then p.id.value else e.id,
      if p.userId.Some? then p.userId.value else e.userId,
      if p.organizers.Some? then p.organizers.value else e.organizers,
      if p.eventName.Some? then p.eventName.value else e.eventName,
      if p.description.Some? then p.description.value else e.description,
      if p.members.Some? then p.members.value else e.members)
  }

  /** The `setEvents` of `handleModifyEvent`: the events with that id get the patch, the others stay. */
  function ModifyEvent(events: seq<Event>, eventId: int, p: EventPatch): (r: seq<Event>)
    ensures |r| == |events|
    ensures forall i :: 0 <= i < |r| && events[i].id == eventId ==> r[i] == Overlay(events[i], p)
    ensures forall i :: 0 <= i < |r| && events[i].id != eventId ==> r[i] == events[i]
  {
    seq(|events|, i requires 0 <= i < |events| => if events[i].id == eventId then Overlay(events[i], p) else events[i])
  }

  /** A patch that does not move the event to another id may be applied twice with the same result. */
  lemma ModifyIdempotent(events: seq<Event>, eventId: int, p: EventPatch)
    requires p.id.None? || p.id == Some(eventId)
    ensures ModifyEvent(ModifyEvent(events, eventId, p), eventId, p) == ModifyEvent(events, eventId, p)
  {
  }

  /** `handleEditSubmit`'s `updatedData`: the edited name and description and nothing else. */
  function EditPayload(editing: Event): (p: EventPatch)
    ensures p.eventName == Some(editing.eventName) && p.description == Some(editing.description)
    ensures p.id.None? && p.userId.None? && p.organizers.None? && p.members.None?
  {
    EventPatch(None, None, None, Some(editing.eventName), Some(editing.description), None)
  }

  /** An edit changes the name and the description; the id, owner and participants stay. */
  lemma EditKeepsIdentity(events: seq<Event>, editing: Event, i: int)
    requires 0 <= i < |events|
    ensures var r := ModifyEvent(events, editing.id, EditPayload(editing))[i];
      r.id == events[i].id && r.userId == events[i].userId
      && r.organizers == events[i].organizers && r.members == events[i].members
      && (events[i].id == editing.id ==>
            r.eventName == editing.eventName && r.description == editing.description)
  {
  }

  /**
   * `handleModifyEvent`: `ok` is false when the response is not OK or its
   * body does not parse; then nothing changes.  On success the list is
   * patched and the edit form closes.
   */
  function AfterModify(s: EventPage, eventId: int, p: EventPatch, ok: bool): (r: EventPage)
    ensures !ok ==> r == s
    ensures ok ==> r.events == ModifyEvent(s.events, eventId, p) && r.editingEvent.None?
    ensures r.isCreateEventOpen == s.isCreateEventOpen
  {
    if ok then s.(events := ModifyEvent(s.events, eventId, p), editingEvent := None) else s
  }

  /** `handleEditSubmit`: with no event being edited it does nothing. */
  function EditSubmit(s: EventPage, ok: bool): (r: EventPage)
    ensures s.editingEvent.None? ==> r == s
    ensures s.editingEvent.Some? ==> r == AfterModify(s, s.editingEvent.value.id, EditPayload(s.editingEvent.value), ok)
  {
    match s.editingEvent
    case None => s
    case Some(e) => AfterModify(s, e.id, EditPayload(e), ok)
  }

  /** `handleDeleteEvent`, using the intended filter; a failed request changes nothing. */
  function AfterDelete(s: EventPage, eventId: int, ok: bool): (r: EventPage)
    ensures !ok ==> r == s
    ensures ok ==> r == s.(events := DeleteEvent(s.events, eventId))
  {
    if ok then s.(events := DeleteEvent(s.events, eventId)) else s
  }

  /**
   * On the page: creating an event with a fresh id and then deleting it
   * gives back the list before, with the popover closed.
   */
  lemma CreateThenDeleteRestores(p: EventPage, data: CreatedData)
    requires forall e :: e in p.events ==> e.id != data.id
    ensures AfterDelete(AfterCreate(p, Some(data)), data.id, true) == p.(isCreateEventOpen := false)
  {
    DeleteUndoesCreate(p.events, data);
  }
}
