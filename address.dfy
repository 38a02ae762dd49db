/**
 * The address form (src/components/ui/address.tsx): the fields of one
 * postal address, the saved copy shown beside it, and the rules for the
 * numeric pincode field.
 *
 * The pincode is held as an integer.  The page tests it with
 * `Number.isInteger`, which every value reaching it satisfies here: the
 * input stores `parseInt(..) || 0`, an integer.  The HTTP responses are
 * parameters and `onSave` is counted, not called.
 */
module AddressForm {
  import opened Js

  datatype Address = Address(
    addressLine1: string,
    addressLine2: string,
    landmark: string,
    pincode: int,
    city: string,
    country: string)

  /** The keys `renderInput` is called with; only Pincode is rendered with type 'number'. */
  datatype Field = AddressLine1 | AddressLine2 | Landmark | Pincode | City | Country

  /** What the address request gave back: `data.data` present (an array), absent, or a failed request. */
  datatype AddressResponse = Data(items: seq<Address>) | NoData | FetchFailed

  datatype SaveRequest = SaveRequest(userId: int, address: Address)

  const EmptyAddress := Address("", "", "", 0, "", "")

  /** The guard of `handleSaveAddress`: a positive (integer) pincode. */
  predicate ValidPincode(pincode: int)
  {
    pincode > 0
  }

  /** `parseInt(value) || 0`: `parsed` is `parseInt`'s result, None for NaN. */
  function NumberInput(parsed: Option<int>): (r: int)
    ensures parsed.Some? ==> r == parsed.value
    ensures parsed.None? ==> r == 0
  {
    if parsed.Some? then parsed.value else 0
  }

  /** The value shown in the pincode input: nothing for 0, the number otherwise. */
  function DisplayPincode(pincode: int): (r: string)
    ensures r == "" <==> pincode == 0
    ensures pincode != 0 ==> r == IntToString(pincode)
  {
    if pincode == 0 then "" else IntToString(pincode)
  }

  /** An empty pincode field never passes the save guard. */
  lemma EmptyFieldRejected(pincode: int)
    ensures DisplayPincode(pincode) == "" ==> !ValidPincode(pincode)
  {
  }

  /**
   * When `parseInt` reads back what is printed and finds no number in the
   * empty string, parsing what the input shows gives back the stored pincode.
   */
  lemma DisplayParsesBack(pincode: int, parseInt: string -> Option<int>)
    requires parseInt("") == None
    requires pincode != 0 ==> parseInt(IntToString(pincode)) == Some(pincode)
    ensures NumberInput(parseInt(DisplayPincode(pincode))) == pincode
  {
  }

  /**
   * The `onChange` of `renderInput`: the edited key gets the typed text, or
   * for the pincode the parsed number or 0; the other keys stay.
   */
  function SetField(a: Address, key: Field, input: string, parseInt: string -> Option<int>): (r: Address)
    ensures key == Pincode ==> r == a.(pincode := NumberInput(parseInt(input)))
    ensures key != Pincode ==> r.pincode == a.pincode
    ensures key == AddressLine1 ==> r == a.(addressLine1 := input)
    ensures key == AddressLine2 ==> r == a.(addressLine2 := input)
    ensures key == Landmark ==> r == a.(landmark := input)
    ensures key == City ==> r == a.(city := input)
    ensures key == Country ==> r == a.(country := input)
  {
    match key
    case AddressLine1 => a.(addressLine1 := input)
    case AddressLine2 => a.(addressLine2 := input)
    case Landmark => a.(landmark := input)
    case Pincode => a.(pincode := NumberInput(parseInt(input)))
    case City => a.(city := input)
    case Country => a.(country := input)
  }

  /** Typing text that is not a number into the pincode leaves a pincode the save guard rejects. */
  lemma NonNumericPincodeRejected(a: Address, input: string, parseInt: string -> Option<int>)
    requires parseInt(input) == None
    ensures !ValidPincode(SetField(a, Pincode, input, parseInt).pincode)
  {
  }

  class AddressPanel {
    const userId: int
    /** The form's `address`; None once a fetch found an empty `data.data`, whose first element is undefined. */
    var address: Option<Address>
    var savedAddress: Option<Address>
    /** How many times `onSave` has been called. */
    var saveNotifications: nat

    constructor(userId: int)
      ensures this.userId == userId && address == Some(EmptyAddress) && savedAddress.None?
      ensures saveNotifications == 0
    {
      this.userId := userId;
      address := Some(EmptyAddress);
      savedAddress := None;
      saveNotifications := 0;
    }

    /**
     * `fetchAddress`: when `data.data` is there, its first element becomes
     * both the form and the saved address; otherwise both stay.
     */
    method Fetch(response: AddressResponse)
      modifies this
      ensures response.Data? && |response.items| > 0 ==>
        address == Some(response.items[0]) && savedAddress == Some(response.items[0])
      ensures response.Data? && |response.items| == 0 ==> address.None? && savedAddress.None?
      ensures !response.Data? ==> address == old(address) && savedAddress == old(savedAddress)
      ensures saveNotifications == old(saveNotifications)
    {
      if response.Data? {
        var first := if |response.items| > 0 then Some(response.items[0]) else None;
        address := first;
        savedAddress := first;
      }
    }

    /** An edit of one input. */
    method Edit(key: Field, input: string, parseInt: string -> Option<int>)
      modifies this
      ensures old(address).Some? ==> address == Some(SetField(old(address).value, key, input, parseInt))
      ensures old(address).None? ==> address.None?
      ensures savedAddress == old(savedAddress) && saveNotifications == old(saveNotifications)
    {
      if address.Some? {
        address := Some(SetField(address.value, key, input, parseInt));
      }
    }

    /**
     * `handleSaveAddress`; `ok` says whether the POST succeeded. A pincode
     * that is not positive is reported and nothing is sent. Otherwise the
     * address is posted with the user id; on success it becomes the saved
     * address and `onSave` is called once, on failure an error is reported.
     */
    method Save(ok: bool) returns (request: Option<SaveRequest>, error: Option<string>)
      modifies this
      ensures old(address).Some? && !ValidPincode(old(address).value.pincode) ==>
        request.None? && error == Some("Please enter a valid pincode")
        && savedAddress == old(savedAddress) && saveNotifications == old(saveNotifications)
      ensures old(address).Some? && ValidPincode(old(address).value.pincode) ==>
        request == Some(SaveRequest(userId, old(address).value))
      ensures old(address).Some? && ValidPincode(old(address).value.pincode) && ok ==>
        error.None? && savedAddress == old(address) && saveNotifications == old(saveNotifications) + 1
      ensures old(address).Some? && ValidPincode(old(address).value.pincode) && !ok ==>
        error == Some("Failed to create address")
        && savedAddress == old(savedAddress) && saveNotifications == old(saveNotifications)
      ensures old(address).None? ==>
        request.None? && error.None?
        && savedAddress == old(savedAddress) && saveNotifications == old(saveNotifications)
      ensures address == old(address)
    {
      if address.None? {
        return None, None;
      }
      if !ValidPincode(address.value.pincode) {
        return None, Some("Please enter a valid pincode");
      }
      request := Some(SaveRequest(userId, address.value));
      if ok {
        savedAddress := address;
        saveNotifications := saveNotifications + 1;
        error := None;
      } else {
        error := Some("Failed to create address");
      }
    }
  }
}
