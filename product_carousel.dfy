/**
 * The product catalogue (src/components/ui/product-carousel.tsx): browsing
 * categories and products, and a dialog that adds the product shown to one
 * of the user's registries with one of its shop URLs.
 *
 * The view state is a class whose fields the handlers set in turn.  The
 * registry list is given; fetching it and posting the gift are left to
 * their outcome, passed in.
 */
module ProductCarousel {
  import opened Js

  /** A catalogue product; related products are not modelled. */
  datatype Product = Product(
    id: int,
    name: string,
    price: real,
    imageUrl: string,
    amazonUrl: string,
    flipkartUrl: string,
    description: Option<string>)

  datatype Registry = Registry(id: int, name: string, userId: Option<int>, eventId: int)

  datatype GiftPost = GiftPost(giftName: string, giftUrl: string, price: real, registryId: int)

  const NoRegistry := "Please select a registry first"
  const NoGiftUrl := "Please select a gift URL"
  const AddFailed := "Failed to add gift"

  function RegistryValueIs(value: string): Registry -> bool
  {
    (r: Registry) => IntToString(r.id) == value
  }

  /** The registry picker: the first registry whose id, printed, is the chosen value, or none. */
  function FindRegistry(registries: seq<Registry>, value: string): (r: Option<Registry>)
    ensures r.Some? ==> r.value in registries && IntToString(r.value.id) == value
    ensures r.None? <==> forall i :: 0 <= i < |registries| ==> IntToString(registries[i].id) != value
    ensures r.Some? ==>
      exists k :: 0 <= k < |registries| && registries[k] == r.value
        && forall j :: 0 <= j < k ==> IntToString(registries[j].id) != value
  {
    Find(registries, RegistryValueIs(value))
  }

  /**
   * Choosing the value a registry's id prints as selects a registry with
   * that id, the first in the list; a value no id prints as selects none.
   */
  lemma FindRegistryById(registries: seq<Registry>, id: int)
    ensures FindRegistry(registries, IntToString(id)).Some?
      <==> exists i :: 0 <= i < |registries| && registries[i].id == id
    ensures FindRegistry(registries, IntToString(id)).Some? ==>
      FindRegistry(registries, IntToString(id)).value.id == id
    ensures FindRegistry(registries, IntToString(id)).Some? ==>
      exists k :: 0 <= k < |registries| && registries[k] == FindRegistry(registries, IntToString(id)).value
        && forall j :: 0 <= j < k ==> registries[j].id != id
  {
    var r := FindRegistry(registries, IntToString(id));
    if r.Some? {
      IntToStringInjective(r.value.id, id);
      var k :| 0 <= k < |registries| && registries[k] == r.value;
      assert registries[k].id == id;
    }
    if exists i :: 0 <= i < |registries| && registries[i].id == id {
      var i :| 0 <= i < |registries| && registries[i].id == id;
      assert IntToString(registries[i].id) == IntToString(id);
    }
  }

  class ProductPage {
    var selectedProduct: Option<Product>
    var registries: seq<Registry>
    var selectedRegistry: Option<Registry>
    var giftUrl: string
    var selectedCategoryId: Option<int>
    var isProductDialogOpen: bool
    var showProductDetails: bool

    /** The first render, with the registries the request gave back. */
    constructor(registries: seq<Registry>)
      ensures this.registries == registries
      ensures selectedProduct.None? && selectedRegistry.None? && giftUrl == "" && selectedCategoryId.None?
      ensures !isProductDialogOpen && !showProductDetails
    {
      this.registries := registries;
      selectedProduct := None;
      selectedRegistry := None;
      giftUrl := "";
      selectedCategoryId := None;
      isProductDialogOpen := false;
      showProductDetails := false;
    }

    /** `openProductPage`: the product is shown in detail. */
    method OpenProductPage(product: Product)
      modifies this
      ensures selectedProduct == Some(product) && showProductDetails
      ensures selectedCategoryId == old(selectedCategoryId) && isProductDialogOpen == old(isProductDialogOpen)
      ensures selectedRegistry == old(selectedRegistry) && giftUrl == old(giftUrl) && registries == old(registries)
    {
      selectedProduct := Some(product);
      showProductDetails := true;
    }

    /** `handleCategoryChange`: a new category, and back to the list with no product chosen. */
    method CategoryChange(categoryId: int)
      modifies this
      ensures selectedCategoryId == Some(categoryId) && selectedProduct.None? && !showProductDetails
      ensures isProductDialogOpen == old(isProductDialogOpen)
      ensures selectedRegistry == old(selectedRegistry) && giftUrl == old(giftUrl) && registries == old(registries)
    {
      selectedCategoryId := Some(categoryId);
      selectedProduct := None;
      showProductDetails := false;
    }

    /** `handleBackToProducts`: back to the list; the category stays. */
    method BackToProducts()
      modifies this
      ensures selectedProduct.None? && !showProductDetails
      ensures selectedCategoryId == old(selectedCategoryId) && isProductDialogOpen == old(isProductDialogOpen)
      ensures selectedRegistry == old(selectedRegistry) && giftUrl == old(giftUrl) && registries == old(registries)
    {
      showProductDetails := false;
      selectedProduct := None;
    }

    /** The "Add to Gift Registry" button of the detail view. */
    method OpenDialog()
      modifies this
      ensures isProductDialogOpen
      ensures selectedProduct == old(selectedProduct) && showProductDetails == old(showProductDetails)
      ensures selectedCategoryId == old(selectedCategoryId)
      ensures selectedRegistry == old(selectedRegistry) && giftUrl == old(giftUrl) && registries == old(registries)
    {
      isProductDialogOpen := true;
    }

    /** The registry picker of the dialog. */
    method SelectRegistry(value: string)
      modifies this
      ensures selectedRegistry == FindRegistry(registries, value)
      ensures registries == old(registries) && giftUrl == old(giftUrl)
      ensures selectedProduct == old(selectedProduct) && isProductDialogOpen == old(isProductDialogOpen)
      ensures selectedCategoryId == old(selectedCategoryId) && showProductDetails == old(showProductDetails)
    {
      selectedRegistry := FindRegistry(registries, value);
    }

    /** The URL picker of the dialog. */
    method SetGiftUrl(value: string)
      modifies this
      ensures giftUrl == value
      ensures registries == old(registries) && selectedRegistry == old(selectedRegistry)
      ensures selectedProduct == old(selectedProduct) && isProductDialogOpen == old(isProductDialogOpen)
      ensures selectedCategoryId == old(selectedCategoryId) && showProductDetails == old(showProductDetails)
    {
      giftUrl := value;
    }

    /**
     * `handleAddGift`; `ok` says whether the POST succeeded.  Without a
     * registry, and then without a URL, an error is shown and nothing is
     * posted; otherwise the product is posted under the chosen URL and
     * registry, and on success the dialog closes.
     */
    method AddGift(product: Product, ok: bool) returns (post: Option<GiftPost>, error: Option<string>)
      modifies this
      ensures selectedRegistry.None? ==> post.None? && error == Some(NoRegistry)
      ensures selectedRegistry.Some? && giftUrl == "" ==> post.None? && error == Some(NoGiftUrl)
      ensures selectedRegistry.Some? && giftUrl != "" ==>
        post == Some(GiftPost(product.name, giftUrl, product.price, selectedRegistry.value.id))
        && (ok <==> error.None?) && (!ok ==> error == Some(AddFailed))
      ensures isProductDialogOpen == (if post.Some? && ok then false else old(isProductDialogOpen))
      ensures selectedRegistry == old(selectedRegistry) && giftUrl == old(giftUrl) && registries == old(registries)
      ensures selectedProduct == old(selectedProduct) && showProductDetails == old(showProductDetails)
      ensures selectedCategoryId == old(selectedCategoryId)
    {
      if selectedRegistry.None? {
        return None, Some(NoRegistry);
      }
      if giftUrl == "" {
        return None, Some(NoGiftUrl);
      }
      post := Some(GiftPost(product.name, giftUrl, product.price, selectedRegistry.value.id));
      if ok {
        isProductDialogOpen := false;
        error := None;
      } else {
        error := Some(AddFailed);
      }
    }

    /** The dialog's add button: it calls `handleAddGift` only when a product is shown. */
    method AddClick(ok: bool) returns (post: Option<GiftPost>, error: Option<string>)
      modifies this
      ensures old(selectedProduct).None? ==> post.None? && error.None? && isProductDialogOpen == old(isProductDialogOpen)
      ensures old(selectedProduct).Some? && selectedRegistry.None? ==> post.None? && error == Some(NoRegistry)
      ensures old(selectedProduct).Some? && selectedRegistry.Some? && giftUrl == "" ==>
        post.None? && error == Some(NoGiftUrl)
      ensures old(selectedProduct).Some? && selectedRegistry.Some? && giftUrl != "" ==>
        post == Some(GiftPost(old(selectedProduct).value.name, giftUrl, old(selectedProduct).value.price, selectedRegistry.value.id))
        && (ok <==> error.None?) && (!ok ==> error == Some(AddFailed))
      ensures isProductDialogOpen == (if post.Some? && ok then false else old(isProductDialogOpen))
      ensures selectedRegistry == old(selectedRegistry) && giftUrl == old(giftUrl) && registries == old(registries)
      ensures selectedProduct == old(selectedProduct) && showProductDetails == old(showProductDetails)
      ensures selectedCategoryId == old(selectedCategoryId)
    {
      if selectedProduct.None? {
        return None, None;
      }
      post, error := AddGift(selectedProduct.value, ok);
    }
  }
}
