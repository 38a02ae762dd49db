/**
 * The dashboard's event panel (src/app/dashboard/dashevent.tsx): the
 * all/created/invited tabs, the event details dialog, and its registry
 * expand toggle.  The page state is a value that each handler maps to the
 * next one.
 */
module DashEvents {
  import opened Js
  import opened Ui

  /** An event with the user's role in it, 'organizer' or 'invitee'. */
  datatype Event = Event(
    id: int,
    userId: int,
    eventName: string,
    description: string,
    createdAt: string,
    updatedAt: string,
    role: string)

  /** The test of `filteredEvents` for the active tab. */
  predicate InTab(tab: string, e: Event)
  {
    if tab == "all" then true
    else if tab == "created" then e.role == "organizer"
    else if tab == "invited" then e.role == "invitee"
    else false
  }

  function TabTest(tab: string): Event -> bool
  {
    e => InTab(tab, e)
  }

  /**
   * `filteredEvents`: 'created' shows the events the user organizes,
   * 'invited' those the user is invited to, in list order.
   */
  function FilteredEvents(events: seq<Event>, tab: string): (r: seq<Event>)
    ensures tab == "created" ==> forall e :: e in r <==> e in events && e.role == "organizer"
    ensures tab == "invited" ==> forall e :: e in r <==> e in events && e.role == "invitee"
    ensures tab != "all" && tab != "created" && tab != "invited" ==> r == []
    ensures Sublist(r, events)
  {
    FilterSublist(events, TabTest(tab));
    Filter(events, TabTest(tab))
  }

  /** The 'all' tab shows the list as it is. */
  lemma AllTabIsEvents(events: seq<Event>)
    ensures FilteredEvents(events, "all") == events
  {
    FilterAll(events, TabTest("all"));
  }

  /** No event is on both the 'created' and the 'invited' tab. */
  lemma CreatedInvitedDisjoint(events: seq<Event>, e: Event)
    ensures !(e in FilteredEvents(events, "created") && e in FilteredEvents(events, "invited"))
  {
  }

  /** The state of the panel. */
  datatype Panel = Panel(
    events: seq<Event>,
    activeTab: string,
    selectedEvent: Option<Event>,
    expandedRegistry: Option<int>,
    loading: bool)

  function Initial(): (p: Panel)
    ensures p.events == [] && p.activeTab == "all" && p.selectedEvent.None? && p.expandedRegistry.None? && p.loading
  {
    Panel([], "all", None, None, true)
  }

  /** `fetchEvents` once the request has settled. */
  function EventsLoaded(p: Panel, f: Fetched<Event>): (r: Panel)
    ensures f.Array? ==> r.events == f.items
    ensures !f.Array? ==> r.events == []
    ensures !r.loading
    ensures r.(events := p.events, loading := p.loading) == p
  {
    p.(events := LoadedList(f), loading := false)
  }

  /** `handleEventClick`: the clicked event opens in the dialog. */
  function EventClick(p: Panel, e: Event): (r: Panel)
    ensures r.selectedEvent == Some(e)
    ensures r.(selectedEvent := p.selectedEvent) == p
  {
    p.(selectedEvent := Some(e))
  }

  /** The dialog's `onClose`: no event is selected any more. */
  function CloseDialog(p: Panel): (r: Panel)
    ensures r.selectedEvent.None?
    ensures r.(selectedEvent := p.selectedEvent) == p
  {
    p.(selectedEvent := None)
  }

  /** Opening an event and closing the dialog again gives back the panel as it was. */
  lemma CloseUndoesClick(p: Panel, e: Event)
    requires p.selectedEvent.None?
    ensures CloseDialog(EventClick(p, e)) == p
  {
  }

  /** A click on a registry of the dialog. */
  function RegistryClick(p: Panel, id: int): (r: Panel)
    ensures r.expandedRegistry == Some(id) <==> p.expandedRegistry != Some(id)
    ensures r.(expandedRegistry := p.expandedRegistry) == p
  {
    p.(expandedRegistry := ExpandToggle(p.expandedRegistry, id))
  }
}
