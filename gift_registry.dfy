/**
 * The gift list of one registry (src/components/ui/gift-registry.tsx): a
 * dialog that adds a gift either from a product URL, through the scraper
 * endpoint, or from a manual form that is also used to edit a gift.
 *
 * The list itself is fetched again after every change and is not part of
 * the state here.  Requests are reduced to their outcome, passed in.
 */
module GiftRegistry {
  import opened Js
  import Scraper

  /** A gift as the gift list request returns it; image and URL may be absent. */
  datatype Gift = Gift(
    id: int,
    giftName: string,
    giftUrl: Option<string>,
    price: real,
    image: Option<string>,
    giftStatus: bool)

  /** The form `manualInput`; the price is the text typed. */
  datatype ManualInput = ManualInput(id: int, giftName: string, price: string, image: string, giftUrl: string)

  /** The scraper's JSON as read by the page: each key may be missing. */
  datatype ScrapedData = ScrapedData(productName: Option<string>, productPrice: Option<string>, productImage: Option<string>)

  /** The gift POST of a URL submit; `price` is the text handed to `parseFloat`. */
  datatype UrlGiftPost = UrlGiftPost(giftName: string, giftUrl: string, price: string, registryId: int, image: string)

  datatype SubmitHandler = ManualSubmit | EditSubmit

  const EmptyInput := ManualInput(0, "", "", "", "")
  const Incomplete := "Incomplete product data received from scraper"

  predicate Present(field: Option<string>)
  {
    field.Some? && field.value != ""
  }

  /** The completeness test of `handleUrlSubmit`: name, price and image are all there and not empty. */
  predicate CompleteData(d: ScrapedData)
  {
    Present(d.productName) && Present(d.productPrice) && Present(d.productImage)
  }

  /**
   * What `handleUrlSubmit` does with the scraped data: incomplete data is an
   * error, complete data becomes a gift POST for the pasted URL whose price
   * is the scraped price reduced to digits and dots.
   */
  function UrlGift(d: ScrapedData, urlInput: string, registryId: int): (r: Result<UrlGiftPost>)
    ensures r.Err? <==> !CompleteData(d)
    ensures r.Err? ==> r.error == Incomplete
    ensures r.Ok? ==>
      (r.value.giftName == d.productName.value && r.value.giftUrl == urlInput
       && r.value.price == Scraper.CleanPrice(d.productPrice.value)
       && r.value.registryId == registryId && r.value.image == d.productImage.value)
  {
    if !CompleteData(d) then Err(Incomplete)
    else Ok(UrlGiftPost(d.productName.value, urlInput, Scraper.CleanPrice(d.productPrice.value), registryId, d.productImage.value))
  }

  datatype Result<T> = Ok(value: T) | Err(error: string)

  /** The scraper's answer read as the page reads it. */
  function FromResponse(r: Scraper.Response): ScrapedData
    requires r.Product?
  {
    ScrapedData(Some(r.productName), Some(r.productPrice), Some(r.productImage))
  }

  /**
   * Whatever product the scraper answers with passes the completeness test,
   * placeholders included, and the price handed on is what the scraper found
   * with the currency symbol removed.
   */
  lemma ScrapedProductAccepted(p: Scraper.Response, site: Scraper.Site, price: string, urlInput: string, registryId: int)
    requires p.Product? && p.productName != "" && p.productImage != ""
    requires p.productPrice == Scraper.Currency(site) + price
    ensures UrlGift(FromResponse(p), urlInput, registryId).Ok?
    ensures UrlGift(FromResponse(p), urlInput, registryId).value.price == Scraper.CleanPrice(price)
  {
    Scraper.CleanPriceDropsSymbol(site, price);
  }

  /** The placeholder price has no digits or dots, so it reaches `parseFloat` as the empty string. */
  lemma PlaceholderPriceIsEmpty()
    ensures Scraper.CleanPrice(Scraper.PriceNotFound) == ""
  {
    var s := Scraper.PriceNotFound;
    assert forall c :: c in s ==> !Scraper.IsPriceChar(c);
  }

  /** The URL dialog's Add button is disabled while loading and while the URL is empty. */
  function UrlButtonDisabled(loading: bool, urlInput: string): (r: bool)
    ensures !r <==> !loading && |urlInput| > 0
  {
    loading || urlInput == ""
  }

  /** The manual dialog's button is disabled while loading, or without a name or a price. */
  function ManualButtonDisabled(loading: bool, input: ManualInput): (r: bool)
    ensures !r <==> !loading && |input.giftName| > 0 && |input.price| > 0
  {
    loading || input.giftName == "" || input.price == ""
  }

  /** The manual dialog's button submits an edit while editing and a new gift otherwise. */
  function ManualButtonHandler(isEditingGift: bool): (r: SubmitHandler)
    ensures r == EditSubmit <==> isEditingGift
  {
    if isEditingGift then EditSubmit else ManualSubmit
  }

  /** `handleEdit`'s form: the gift's fields, with "" for an absent image or URL; `priceText` is `price.toString()`. */
  function EditForm(g: Gift, priceText: string): (r: ManualInput)
    ensures r.id == g.id && r.giftName == g.giftName && r.price == priceText
    ensures r.image == (if g.image.Some? then g.image.value else "")
    ensures r.giftUrl == (if g.giftUrl.Some? then g.giftUrl.value else "")
  {
    ManualInput(g.id, g.giftName, priceText,
      if g.image.Some? then g.image.value else "",
      if g.giftUrl.Some? then g.giftUrl.value else "")
  }

  /** Editing a named gift whose price prints as something enables the update button once loading is over. */
  lemma EditEnablesUpdate(g: Gift, priceText: string)
    requires g.giftName != "" && priceText != ""
    ensures !ManualButtonDisabled(false, EditForm(g, priceText))
    ensures ManualButtonHandler(true) == EditSubmit
  {
  }

  class GiftDialog {
    const registryId: int
    var loading: bool
    var isAddingGift: bool
    var isEditingGift: bool
    var urlInput: string
    var manualInput: ManualInput
    var isUrlMode: bool

    constructor(registryId: int)
      ensures this.registryId == registryId
      ensures !loading && !isAddingGift && !isEditingGift && urlInput == "" && manualInput == EmptyInput && isUrlMode
    {
      this.registryId := registryId;
      loading := false;
      isAddingGift := false;
      isEditingGift := false;
      urlInput := "";
      manualInput := EmptyInput;
      isUrlMode := true;
    }

    /** The "Add by URL" and "Add Manually" buttons. */
    method SetUrlMode(urlMode: bool)
      modifies this
      ensures isUrlMode == urlMode
      ensures manualInput == old(manualInput) && isEditingGift == old(isEditingGift) && urlInput == old(urlInput)
      ensures loading == old(loading) && isAddingGift == old(isAddingGift)
    {
      isUrlMode := urlMode;
    }

    /** `handleEdit`: the form is filled from the gift, edit mode is on and the manual form is shown. */
    method HandleEdit(g: Gift, priceText: string)
      modifies this
      ensures manualInput == EditForm(g, priceText) && isEditingGift && !isUrlMode
      ensures loading == old(loading) && isAddingGift == old(isAddingGift) && urlInput == old(urlInput)
    {
      manualInput := EditForm(g, priceText);
      isEditingGift := true;
      isUrlMode := false;
    }

    /**
     * `handleUrlSubmit`: `scraped` is the scraper's data, None when the
     * scraper request failed; `postOk` whether the gift POST succeeded. On
     * success the dialog closes and the URL is cleared.
     */
    method UrlSubmit(scraped: Option<ScrapedData>, postOk: bool) returns (post: Option<UrlGiftPost>, error: Option<string>)
      modifies this
      ensures scraped.None? ==> post.None? && error.Some?
      ensures scraped.Some? ==>
        var g := UrlGift(scraped.value, old(urlInput), registryId);
        (g.Err? ==> post.None? && error == Some(g.error))
        && (g.Ok? ==> post == Some(g.value))
      ensures (scraped.None? || !CompleteData(scraped.value) || !postOk) ==>
        isAddingGift == old(isAddingGift) && urlInput == old(urlInput)
      ensures scraped.Some? && CompleteData(scraped.value) && postOk ==>
        error.None? && !isAddingGift && urlInput == ""
      ensures scraped.Some? && CompleteData(scraped.value) && !postOk ==> error.Some?
      ensures !loading && manualInput == old(manualInput) && isEditingGift == old(isEditingGift) && isUrlMode == old(isUrlMode)
    {
      loading := true;
      if scraped.None? {
        loading := false;
        return None, Some("Failed to fetch product details");
      }
      var g := UrlGift(scraped.value, urlInput, registryId);
      if g.Err? {
        loading := false;
        return None, Some(g.error);
      }
      post := Some(g.value);
      if postOk {
        isAddingGift := false;
        urlInput := "";
        error := None;
      } else {
        error := Some("Failed to add gift");
      }
      loading := false;
    }

    /**
     * `handleManualSubmit` (`editing` false) and `handleEditSubmit` (`editing`
     * true); `ok` says whether the request succeeded.  Success resets the form
     * to an empty one with id 0, and closes the dialog or leaves edit mode;
     * failure changes nothing but the loading flag.
     */
    method SubmitForm(editing: bool, ok: bool) returns (sent: ManualInput, error: Option<string>)
      modifies this
      ensures sent == old(manualInput)
      ensures ok ==> manualInput == ManualInput(0, "", "", "", "") && error.None?
      ensures ok && !editing ==> !isAddingGift && isEditingGift == old(isEditingGift)
      ensures ok && editing ==> !isEditingGift && isAddingGift == old(isAddingGift)
      ensures !ok ==>
        (manualInput == old(manualInput) && error.Some?
         && isAddingGift == old(isAddingGift) && isEditingGift == old(isEditingGift))
      ensures !loading && urlInput == old(urlInput) && isUrlMode == old(isUrlMode)
    {
      loading := true;
      sent := manualInput;
      if ok {
        if editing {
          isEditingGift := false;
        } else {
          isAddingGift := false;
        }
        manualInput := EmptyInput;
        error := None;
      } else {
        error := Some(if editing then "Failed to update gift" else "Failed to add gift");
      }
      loading := false;
    }
  }
}
