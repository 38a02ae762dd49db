/**
 * The event dashboard of src/app/allevents/page.tsx: the role tabs over the
 * user's events, deleting an event, the group column, and the guard of
 * "add registry to event".  Every rule here is a `filter`, a `find` or a
 * conditional expression of the page.
 */
module AllEvents {
  import opened Js

  /** An event as the events request returns it; `role` is 'ORGANIZER' or 'MEMBER'. */
  datatype Event = Event(
    id: int,
    userId: int,
    eventName: string,
    description: string,
    sharedGroup: int,
    date: string,
    venue: string,
    creatorName: string,
    role: string)

  datatype Group = Group(id: int, groupName: string, description: string)

  /** The body of the registry POST of `handleAddRegistryToEvent`. */
  datatype RegistryPost = RegistryPost(name: string, userId: int, eventId: int)

  /** The test of `filteredEvents` for the active tab. */
  predicate InTab(tab: string, e: Event)
  {
    if tab == "your" then e.role == "ORGANIZER"
    else if tab == "invited" then e.role == "MEMBER"
    else false
  }

  function TabTest(tab: string): Event -> bool
  {
    e => InTab(tab, e)
  }

  /**
   * `filteredEvents`: the 'your' tab shows the events the user organizes,
   * 'invited' those the user is a member of, any other tab nothing; the
   * events keep the order of the list.
   */
  function FilteredEvents(events: seq<Event>, tab: string): (r: seq<Event>)
    ensures tab == "your" ==> forall e :: e in r <==> e in events && e.role == "ORGANIZER"
    ensures tab == "invited" ==> forall e :: e in r <==> e in events && e.role == "MEMBER"
    ensures tab != "your" && tab != "invited" ==> r == []
    ensures Sublist(r, events)
  {
    FilterSublist(events, TabTest(tab));
    Filter(events, TabTest(tab))
  }

  /** No event is shown on both tabs. */
  lemma TabsDisjoint(events: seq<Event>, e: Event)
    ensures !(e in FilteredEvents(events, "your") && e in FilteredEvents(events, "invited"))
  {
  }

  /** When every role is one of the two, the two tabs together show every event exactly as often as the list has it. */
  lemma TabsCoverEvents(events: seq<Event>)
    requires forall e :: e in events ==> e.role == "ORGANIZER" || e.role == "MEMBER"
    ensures multiset(FilteredEvents(events, "your")) + multiset(FilteredEvents(events, "invited")) == multiset(events)
  {
    forall e
      ensures (multiset(FilteredEvents(events, "your")) + multiset(FilteredEvents(events, "invited")))[e]
        == multiset(events)[e]
    {
      FilterCount(events, TabTest("your"), e);
      FilterCount(events, TabTest("invited"), e);
    }
  }

  function EventId(e: Event): int
  {
    e.id
  }

  /** `handleDeleteEvent` after a successful DELETE: the events with another id, in order. */
  function DeleteEvent(events: seq<Event>, eventId: int): (r: seq<Event>)
    ensures forall e :: e in r <==> e in events && e.id != eventId
    ensures Sublist(r, events)
  {
    RemoveById(events, EventId, eventId)
  }

  /** Deleting keeps every copy of an event with another id and no copy of one with that id. */
  lemma DeleteEventCount(events: seq<Event>, eventId: int, e: Event)
    ensures multiset(DeleteEvent(events, eventId))[e] == if e.id == eventId then 0 else multiset(events)[e]
  {
    RemoveByIdCount(events, EventId, eventId, e);
  }

  function GroupHasId(id: int): Group -> bool
  {
    (g: Group) => g.id == id
  }

  /** The group column: the name of the first group whose id is the event's `sharedGroup`, else 'N/A'. */
  function GroupColumn(groups: seq<Group>, e: Event): (r: string)
    ensures (forall k :: 0 <= k < |groups| ==> groups[k].id != e.sharedGroup) ==> r == "N/A"
    ensures (exists k :: 0 <= k < |groups| && groups[k].id == e.sharedGroup) ==>
      exists k :: 0 <= k < |groups| && groups[k].id == e.sharedGroup && r == groups[k].groupName
        && forall j :: 0 <= j < k ==> groups[j].id != e.sharedGroup
  {
    match Find(groups, GroupHasId(e.sharedGroup))
    case Some(g) => g.groupName
    case None => "N/A"
  }

  /**
   * `handleAddRegistryToEvent`: with no selected event nothing is sent;
   * otherwise the registry is posted for the selected event.
   */
  function AddRegistryRequest(selectedEvent: Option<Event>, registryName: string, userId: int): (r: Option<RegistryPost>)
    ensures r.None? <==> selectedEvent.None?
    ensures r.Some? ==> r.value == RegistryPost(registryName, userId, selectedEvent.value.id)
  {
    match selectedEvent
    case None => None
    case Some(e) => Some(RegistryPost(registryName, userId, e.id))
  }
}
