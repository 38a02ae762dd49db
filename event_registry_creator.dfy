/**
 * The create-event-and-registry page (src/app/events/page.tsx): the event
 * form's group choice, the registry created for a new event, and the gift
 * list of that registry.  The page state is a value; each handler, given
 * its request's outcome, yields the next state.
 */
module EventRegistryCreator {
  import opened Js

  /** The event form; `groupId` is the group picker's value, 'none' for no group. */
  datatype NewEvent = NewEvent(
    eventName: string,
    description: string,
    eventType: string,
    venue: string,
    date: string,
    groupId: string)

  /** The body of the event POST; a None `groupId` is sent as null. */
  datatype EventPost = EventPost(
    eventName: string,
    description: string,
    eventType: string,
    venue: string,
    date: string,
    groupId: Option<int>,
    userId: Option<int>)

  datatype Registry = Registry(id: int, name: string, eventId: int)

  datatype RegistryPost = RegistryPost(name: string, userId: Option<int>, eventId: int)

  /** A gift as the server returns it; the price is the number it parsed. */
  datatype Gift = Gift(id: int, giftName: string, price: real, giftUrl: string, registryId: int)

  /** The gift form; the price is the text typed. */
  datatype GiftForm = GiftForm(giftName: string, giftUrl: string, price: string)

  datatype GiftPost = GiftPost(giftName: string, giftUrl: string, price: string, registryId: int)

  /** The page state; `eventId` is the id of the event `setEvent` stored, None before one is created. */
  datatype CreatorPage = CreatorPage(
    eventId: Option<int>,
    isCreateEventOpen: bool,
    registry: Option<Registry>,
    gifts: seq<Gift>,
    isAddGiftOpen: bool,
    newGift: GiftForm)

  const EmptyGiftForm := GiftForm("", "", "")

  /**
   * `newEvent.groupId === 'none' ? null : parseInt(newEvent.groupId)`;
   * `parseInt` is a parameter and None stands for NaN, which is sent as null
   * like the explicit null.
   */
  function GroupIdPayload(groupId: string, parseInt: string -> Option<int>): (r: Option<int>)
    ensures groupId == "none" ==> r.None?
    ensures groupId != "none" ==> r == parseInt(groupId)
  {
    if groupId == "none" then None else parseInt(groupId)
  }

  /** The body `handleCreateEvent` posts: the form, the mapped group id and the user id. */
  function CreateEventPost(e: NewEvent, parseInt: string -> Option<int>, userId: Option<int>): (r: EventPost)
    ensures r.eventName == e.eventName && r.description == e.description && r.eventType == e.eventType
    ensures r.venue == e.venue && r.date == e.date && r.userId == userId
    ensures r.groupId == GroupIdPayload(e.groupId, parseInt)
  {
    EventPost(e.eventName, e.description, e.eventType, e.venue, e.date, GroupIdPayload(e.groupId, parseInt), userId)
  }

  /** The name of the registry made for a new event: the event's name followed by " Registry". */
  function RegistryName(eventName: string): (r: string)
    ensures |r| == |eventName| + 9
    ensures r[..|eventName|] == eventName && r[|eventName|..] == " Registry"
  {
    eventName + " Registry"
  }

  /** Different events get differently named registries. */
  lemma RegistryNameInjective(a: string, b: string)
    ensures RegistryName(a) == RegistryName(b) <==> a == b
  {
    if RegistryName(a) == RegistryName(b) {
      assert |a| == |b|;
      assert a == RegistryName(a)[..|a|];
    }
  }

  /** `createRegistry` for the event just created. */
  function CreateRegistryPost(e: NewEvent, userId: Option<int>, eventId: int): (r: RegistryPost)
    ensures r.name == RegistryName(e.eventName) && r.userId == userId && r.eventId == eventId
  {
    RegistryPost(RegistryName(e.eventName), userId, eventId)
  }

  /**
   * `handleCreateEvent` once the event POST settled: `response` is the id of
   * the created event, or None when the request failed, which changes
   * nothing.  On success the event is stored and the form closes; the
   * registry request it starts is not awaited and settles later, as
   * `AfterCreateRegistry`.
   */
  function AfterCreateEvent(s: CreatorPage, response: Option<int>): (r: CreatorPage)
    ensures response.None? ==> r == s
    ensures response.Some? ==>
      r.eventId == response && !r.isCreateEventOpen
      && r.registry == s.registry && r.gifts == s.gifts && r.isAddGiftOpen == s.isAddGiftOpen && r.newGift == s.newGift
  {
    if response.None? then s else s.(eventId := response, isCreateEventOpen := false)
  }

  /**
   * `createRegistry` once its POST settled: the created registry becomes the
   * page's registry; a failed request changes nothing.
   */
  function AfterCreateRegistry(s: CreatorPage, response: Option<Registry>): (r: CreatorPage)
    ensures response.None? ==> r == s
    ensures response.Some? ==>
      r.registry == response
      && r.eventId == s.eventId && r.isCreateEventOpen == s.isCreateEventOpen
      && r.gifts == s.gifts && r.isAddGiftOpen == s.isAddGiftOpen && r.newGift == s.newGift
  {
    if response.None? then s else s.(registry := response)
  }

  /** What `handleAddGift` posts; nothing when there is no registry yet. */
  function AddGiftRequest(s: CreatorPage): (r: Option<GiftPost>)
    ensures r.None? <==> s.registry.None?
    ensures r.Some? ==> r.value == GiftPost(s.newGift.giftName, s.newGift.giftUrl, s.newGift.price, s.registry.value.id)
  {
    match s.registry
    case None => None
    case Some(reg) => Some(GiftPost(s.newGift.giftName, s.newGift.giftUrl, s.newGift.price, reg.id))
  }

  /**
   * `handleAddGift` once the server answered: `response` is the created gift,
   * or None when the request failed.  Without a registry, or on failure,
   * nothing changes; on success the gift is appended, the dialog closes and
   * the form is emptied.
   */
  function AfterAddGift(s: CreatorPage, response: Option<Gift>): (r: CreatorPage)
    ensures s.registry.None? || response.None? ==> r == s
    ensures s.registry.Some? && response.Some? ==>
      r.gifts == s.gifts + [response.value] && !r.isAddGiftOpen && r.newGift == GiftForm("", "", "")
      && r.registry == s.registry
  {
    if s.registry.None? || response.None? then s
    else s.(gifts := s.gifts + [response.value], isAddGiftOpen := false, newGift := EmptyGiftForm)
  }

  /**
   * Gifts can be posted only once a registry was created: before it every
   * add is refused and changes nothing, after it the gift form is posted for
   * that registry and a created gift is appended.
   */
  lemma CreatedRegistryEnablesGifts(s: CreatorPage, reg: Registry, gift: Gift)
    requires s.registry.None?
    ensures AddGiftRequest(s).None? && AfterAddGift(s, Some(gift)) == s
    ensures var t := AfterCreateRegistry(s, Some(reg));
      AddGiftRequest(t) == Some(GiftPost(s.newGift.giftName, s.newGift.giftUrl, s.newGift.price, reg.id))
      && AfterAddGift(t, Some(gift)).gifts == s.gifts + [gift]
  {
  }

  function GiftId(g: Gift): int
  {
    g.id
  }

  /** `handleDeleteGift` after a successful DELETE: the gifts with another id, in order. */
  function DeleteGift(gifts: seq<Gift>, giftId: int): (r: seq<Gift>)
    ensures forall g :: g in r <==> g in gifts && g.id != giftId
    ensures Sublist(r, gifts)
  {
    RemoveById(gifts, GiftId, giftId)
  }

  /** Deleting keeps every copy of a gift with another id and no copy of one with that id. */
  lemma DeleteGiftCount(gifts: seq<Gift>, giftId: int, g: Gift)
    ensures multiset(DeleteGift(gifts, giftId))[g] == if g.id == giftId then 0 else multiset(gifts)[g]
  {
    RemoveByIdCount(gifts, GiftId, giftId, g);
  }

  /** Deleting a gift just added with a fresh id gives back the gift list before it. */
  lemma DeleteUndoesAdd(s: CreatorPage, g: Gift)
    requires s.registry.Some?
    requires forall x :: x in s.gifts ==> x.id != g.id
    ensures DeleteGift(AfterAddGift(s, Some(g)).gifts, g.id) == s.gifts
  {
    RemoveAppended(s.gifts, GiftId, g);
  }
}
