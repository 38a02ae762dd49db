/**
 * The registries page (src/app/registries/page.tsx): a list of registries,
 * each holding a gift list, with forms to add a registry and to add a gift
 * to the selected registry.
 *
 * A registry is a record whose `gifts` array is an object of its own: the
 * page copies the selected registry with a spread, which copies the record
 * but shares the array, and then pushes onto it.  So a registry here is a
 * value holding a reference to a `GiftList`, and adding a gift changes that
 * list in place for every registry value that holds it.
 */
module Registries {
  import opened Js

  datatype Gift = Gift(id: int, name: string, price: real)

  /** A registry's `gifts` array. */
  class GiftList {
    var items: seq<Gift>

    constructor(items: seq<Gift>)
      ensures this.items == items
    {
      this.items := items;
    }
  }

  datatype Registry = Registry(id: int, name: string, userId: int, eventId: int, gifts: GiftList)

  datatype View = RegistryForm | GiftForm | Details

  /** What the registry POST gave back: the new id, an error body's `message`, or a thrown error. */
  datatype RegistryOutcome = Created(id: int) | Rejected(message: string) | Threw

  const Required := "All fields are required"

  /** The `map` of `handleGiftSubmit`: registries with the updated one's id are replaced by it. */
  function ReplaceById(registries: seq<Registry>, updated: Registry): (r: seq<Registry>)
    ensures |r| == |registries|
    ensures forall i :: 0 <= i < |r| ==> r[i].id == registries[i].id
    ensures forall i :: 0 <= i < |r| && registries[i].id == updated.id ==> r[i] == updated
    ensures forall i :: 0 <= i < |r| && registries[i].id != updated.id ==> r[i] == registries[i]
  {
    seq(|registries|, i requires 0 <= i < |registries| =>
      if registries[i].id == updated.id then updated else registries[i])
  }

  /** The updated registry is in the new list exactly when some registry had its id. */
  lemma ReplaceByIdMembership(registries: seq<Registry>, updated: Registry)
    ensures updated in ReplaceById(registries, updated)
      <==> updated in registries || exists i :: 0 <= i < |registries| && registries[i].id == updated.id
  {
    var r := ReplaceById(registries, updated);
    if updated in registries {
      var i :| 0 <= i < |registries| && registries[i] == updated;
      assert r[i] == updated;
    }
    if exists i :: 0 <= i < |registries| && registries[i].id == updated.id {
      var i :| 0 <= i < |registries| && registries[i].id == updated.id;
      assert r[i] == updated;
    }
  }

  class RegistriesPage {
    var name: string
    var userId: Option<int>
    var eventId: Option<int>
    var giftName: string
    var giftPrice: Option<real>
    var loading: bool
    var error: string
    var registries: seq<Registry>
    var selectedRegistry: Option<Registry>
    var view: View

    /** The page as first rendered: empty forms and the two built-in registries. */
    constructor()
      ensures name == "" && userId.None? && eventId.None? && giftName == "" && giftPrice.None?
      ensures !loading && error == "" && selectedRegistry.None? && view == Details
      ensures |registries| == 2
      ensures registries[0].id == 1 && registries[0].name == "Default Registry 1"
        && registries[0].userId == 1 && registries[0].eventId == 101
        && registries[0].gifts.items == [Gift(1, "Leather Handbag", 129.99)]
      ensures registries[1].id == 2 && registries[1].name == "Default Registry 2"
        && registries[1].userId == 2 && registries[1].eventId == 102
        && registries[1].gifts.items == [Gift(2, "Wireless Headphones", 199.99)]
      ensures fresh(registries[0].gifts) && fresh(registries[1].gifts) && registries[0].gifts != registries[1].gifts
    {
      name := "";
      userId := None;
      eventId := None;
      giftName := "";
      giftPrice := None;
      loading := false;
      error := "";
      var first := new GiftList([Gift(1, "Leather Handbag", 129.99)]);
      var second := new GiftList([Gift(2, "Wireless Headphones", 199.99)]);
      registries := [Registry(1, "Default Registry 1", 1, 101, first), Registry(2, "Default Registry 2", 2, 102, second)];
      selectedRegistry := None;
      view := Details;
    }

    /** The required fields of the registry form are filled in. */
    predicate RegistryFormComplete()
      reads this
    {
      name != "" && userId.Some? && eventId.Some?
    }

    /**
     * `handleRegistrySubmit`. An incomplete form sets the error and sends
     * nothing. Otherwise a created registry is appended with an empty gift
     * list of its own and the details view is shown; a rejected request shows
     * the server's message or 'Something went wrong'; a thrown one 'Failed to
     * submit the form'.  Loading is off in the end.
     */
    method RegistrySubmit(outcome: RegistryOutcome) returns (sent: bool)
      modifies this
      ensures name == old(name) && userId == old(userId) && eventId == old(eventId)
      ensures sent <==> old(RegistryFormComplete())
      ensures !sent ==> error == Required && registries == old(registries) && view == old(view)
      ensures sent && outcome.Created? ==>
        |registries| == |old(registries)| + 1 && registries[..|old(registries)|] == old(registries)
        && var added := registries[|old(registries)|];
           added.id == outcome.id && added.name == name && added.userId == userId.value
           && added.eventId == eventId.value && fresh(added.gifts) && added.gifts.items == []
      ensures sent && outcome.Created? ==> view == Details && error == ""
      ensures sent && outcome.Rejected? ==>
        registries == old(registries) && view == old(view)
        && error == (if outcome.message != "" then outcome.message else "Something went wrong")
      ensures sent && outcome.Threw? ==>
        registries == old(registries) && view == old(view) && error == "Failed to submit the form"
      ensures !loading
      ensures giftName == old(giftName) && giftPrice == old(giftPrice) && selectedRegistry == old(selectedRegistry)
    {
      loading := true;
      error := "";
      if !RegistryFormComplete() {
        error := Required;
        loading := false;
        return false;
      }
      sent := true;
      match outcome {
        case Created(id) =>
          var gifts := new GiftList([]);
          registries := registries + [Registry(id, name, userId.value, eventId.value, gifts)];
          view := Details;
        case Rejected(message) =>
          error := if message != "" then message else "Something went wrong";
        case Threw =>
          error := "Failed to submit the form";
      }
      loading := false;
    }

    /** The required fields of the gift form are filled in and a registry is selected. */
    predicate GiftFormComplete()
      reads this
    {
      giftName != "" && giftPrice.Some? && selectedRegistry.Some?
    }

    /**
     * `handleGiftSubmit`; `now` is `Date.now()`, the new gift's id. An
     * incomplete form sets the error and changes nothing else. Otherwise the
     * gift is pushed onto the selected registry's gift list, in place, so
     * every registry value sharing that list sees it; the registries with the
     * selected one's id are replaced by it, it stays selected and the details
     * view is shown.
     */
    method GiftSubmit(now: int)
      modifies this, if selectedRegistry.Some? then {selectedRegistry.value.gifts} else {}
      ensures !old(GiftFormComplete()) ==>
        error == Required && registries == old(registries) && selectedRegistry == old(selectedRegistry)
        && view == old(view)
      ensures !old(GiftFormComplete()) && old(selectedRegistry).Some? ==>
        old(selectedRegistry).value.gifts.items == old(selectedRegistry.value.gifts.items)
      ensures old(GiftFormComplete()) ==>
        var sel := old(selectedRegistry).value;
        sel.gifts.items == old(sel.gifts.items) + [Gift(now, old(giftName), old(giftPrice).value)]
        && registries == ReplaceById(old(registries), sel)
        && selectedRegistry == Some(sel) && view == Details && error == ""
      ensures !loading
      ensures name == old(name) && userId == old(userId) && eventId == old(eventId)
      ensures giftName == old(giftName) && giftPrice == old(giftPrice)
    {
      loading := true;
      error := "";
      if !GiftFormComplete() {
        error := Required;
        loading := false;
        return;
      }
      var updated := selectedRegistry.value;
      updated.gifts.items := updated.gifts.items + [Gift(now, giftName, giftPrice.value)];
      registries := ReplaceById(registries, updated);
      selectedRegistry := Some(updated);
      view := Details;
      loading := false;
    }

    /** `handleRegistryClick`. */
    method RegistryClick(r: Registry)
      modifies this
      ensures selectedRegistry == Some(r) && view == Details
      ensures registries == old(registries) && error == old(error) && loading == old(loading)
      ensures name == old(name) && giftName == old(giftName) && giftPrice == old(giftPrice)
      ensures userId == old(userId) && eventId == old(eventId)
    {
      selectedRegistry := Some(r);
      view := Details;
    }
  }

  /**
   * The shared array in action: select registry 1 of a fresh page, add a
   * gift, and the registry value selected before the submit, which is also
   * the first entry of the list before it, has two gifts.
   */
  method SharedGiftList() returns (before: Registry)
    ensures before.id == 1 && |before.gifts.items| == 2
    ensures before.gifts.items[1] == Gift(7, "Scarf", 25.0)
  {
    var page := new RegistriesPage();
    before := page.registries[0];
    page.RegistryClick(before);
    page.giftName := "Scarf";
    page.giftPrice := Some(25.0);
    page.GiftSubmit(7);
  }
}
