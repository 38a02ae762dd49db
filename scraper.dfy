/**
 * The product scraper endpoint (src/app/api/scraper/route.ts): given a
 * product URL it picks the shop by substring, reads the name, price and
 * image from the page, and answers with JSON or an error status.
 *
 * The browser is not modelled.  A loaded page is a `PageView`: which
 * selectors match an element, the text and image source of the matched
 * element, and the message of an error the browser threw, if any.
 */
module Scraper {
  import opened Js

  datatype Site = AmazonCom | AmazonIn | Flipkart

  /** The response: status 400 or 500 with an `error` text, or the product JSON with status 200. */
  datatype Response =
    | BadRequest(error: string)
    | ServerError(error: string)
    | Product(productName: string, productPrice: string, productImage: string)

  /**
   * A page as the endpoint sees it.  `text(sel)` is the matched element's
   * `textContent` (None for null), `src(sel)` its image source ("" when none).
   * `loadError` is set when launching the browser or loading the page threw;
   * `timeoutMessage` is the message of the error `waitForSelector` throws
   * when the title element never appears.
   */
  datatype PageView = PageView(
    present: string -> bool,
    text: string -> Option<string>,
    src: string -> string,
    loadError: Option<string>,
    timeoutMessage: string)

  const UrlRequired := "URL is required"
  const Unsupported := "Unsupported URL. Please provide an Amazon or Flipkart product URL."
  const NameNotFound := "Product name not found"
  const PriceNotFound := "Price not found"
  const ImageNotFound := "Image not found"

  /** The five price selectors tried on both Amazon sites, in order. */
  const AmazonPriceSelectors := [
    ".a-price-whole",
    "#priceblock_ourprice",
    "#priceblock_dealprice",
    "#corePriceDisplay_desktop_feature_div .a-price .a-offscreen",
    "#apex_desktop .a-price .a-offscreen"]

  /** `String.prototype.includes`. */
  predicate Includes(s: string, part: string)
    decreases |s|
  {
    if |part| > |s| then false
    else s[..|part|] == part || (s != [] && Includes(s[1..], part))
  }

  /** The `if`/`else if` chain on the URL: the first of the three shop names the URL contains. */
  function SiteOf(url: string): (r: Option<Site>)
    ensures r == Some(AmazonCom) <==> Includes(url, "amazon.com")
    ensures r == Some(AmazonIn) <==> !Includes(url, "amazon.com") && Includes(url, "amazon.in")
    ensures r == Some(Flipkart) <==>
      !Includes(url, "amazon.com") && !Includes(url, "amazon.in") && Includes(url, "flipkart.com")
  {
    if Includes(url, "amazon.com") then Some(AmazonCom)
    else if Includes(url, "amazon.in") then Some(AmazonIn)
    else if Includes(url, "flipkart.com") then Some(Flipkart)
    else None
  }

  function Currency(site: Site): (r: string)
    ensures r == "$" <==> site == AmazonCom
    ensures r == "\U{20B9}" <==> site != AmazonCom
  {
    if site == AmazonCom then "$" else "\U{20B9}"
  }

  function TitleSelector(site: Site): string
  {
    if site == Flipkart then "span.VU-ZEz" else "#productTitle"
  }

  function PriceSelectors(site: Site): seq<string>
  {
    if site == Flipkart then ["div.Nx9bqj.CxhGGd"] else AmazonPriceSelectors
  }

  function ImageSelector(site: Site): string
  {
    if site == Flipkart then "img.DByuf4.IZexXJ.jLEJ7H" else "#landingImage"
  }

  /** The characters `/[^0-9.]/g` spares. */
  predicate IsPriceChar(c: char)
  {
    '0' <= c <= '9' || c == '.'
  }

  function PriceCharTest(): char -> bool
  {
    c => IsPriceChar(c)
  }

  /** `replace(/[^0-9.]/g, '')`: the digits and dots of the text, in order. */
  function CleanPrice(s: string): (r: string)
    ensures forall i :: 0 <= i < |r| ==> IsPriceChar(r[i])
    ensures forall i :: 0 <= i < |s| && IsPriceChar(s[i]) ==> s[i] in r
    ensures Sublist(r, s)
  {
    FilterSublist(s, PriceCharTest());
    Filter(s, PriceCharTest())
  }

  /** Cleaning a cleaned price changes nothing. */
  lemma CleanPriceIdempotent(s: string)
    ensures CleanPrice(CleanPrice(s)) == CleanPrice(s)
  {
    FilterAll(CleanPrice(s), PriceCharTest());
  }

  /** A currency symbol in front of a price is dropped by cleaning. */
  lemma CleanPriceDropsSymbol(site: Site, price: string)
    ensures CleanPrice(Currency(site) + price) == CleanPrice(price)
  {
    FilterConcat(Currency(site), price, PriceCharTest());
    var sym := Currency(site);
    assert Filter(sym, PriceCharTest()) == [] by {
      assert |sym| == 1 && !IsPriceChar(sym[0]);
      assert Filter(sym[1..], PriceCharTest()) == [];
    }
  }

  /** `el.textContent?.replace(/[^0-9.]/g, '') || 'Price not found'`. */
  function PriceText(text: Option<string>): (r: string)
    ensures r == PriceNotFound || (r != "" && forall i :: 0 <= i < |r| ==> IsPriceChar(r[i]))
    ensures text.Some? && CleanPrice(text.value) != "" ==> r == CleanPrice(text.value)
    ensures (text.None? || CleanPrice(text.value) == "") ==> r == PriceNotFound
  {
    var cleaned := if text.Some? then CleanPrice(text.value) else "";
    if cleaned == "" then PriceNotFound else cleaned
  }

  /** `el.textContent?.trim() || 'Product name not found'`. */
  function NameText(text: Option<string>): (r: string)
    ensures text.Some? && Trim(text.value) != "" ==> r == Trim(text.value)
    ensures (text.None? || Trim(text.value) == "") ==> r == NameNotFound
  {
    var trimmed := if text.Some? then Trim(text.value) else "";
    if trimmed == "" then NameNotFound else trimmed
  }

  /** `src || 'Image not found'`. */
  function ImageText(src: string): (r: string)
    ensures r != ""
    ensures src != "" ==> r == src
  {
    if src == "" then ImageNotFound else src
  }

  /** The price of the first selector that matches, or the placeholder when none does. */
  function PriceOf(selectors: seq<string>, page: PageView): string
  {
    match Find(selectors, page.present)
    case None => PriceNotFound
    case Some(sel) => PriceText(page.text(sel))
  }

  /** `(error as Error)?.message || 'An unknown error occurred'`. */
  function ErrorMessage(message: string): (r: string)
    ensures r != ""
    ensures message != "" ==> r == message
  {
    if message == "" then "An unknown error occurred" else message
  }

  /** The response for a URL query parameter (None when absent) and the page it loads to. */
  function Expected(url: Option<string>, page: PageView): Response
  {
    if url.None? || url.value == "" then BadRequest(UrlRequired)
    else if page.loadError.Some? then ServerError(ErrorMessage(page.loadError.value))
    else match SiteOf(url.value)
      case None => BadRequest(Unsupported)
      case Some(site) =>
        if !page.present(TitleSelector(site)) then ServerError(ErrorMessage(page.timeoutMessage))
        else
          var image := if page.present(ImageSelector(site)) then ImageText(page.src(ImageSelector(site))) else ImageNotFound;
          Product(NameText(page.text(TitleSelector(site))), Currency(site) + PriceOf(PriceSelectors(site), page), image)
  }

  /**
   * The selector loop: the price of the first selector in the list that
   * matches an element, or 'Price not found' when none does.
   */
  method ScanPrice(selectors: seq<string>, page: PageView) returns (price: string)
    ensures price == PriceOf(selectors, page)
    ensures (forall i :: 0 <= i < |selectors| ==> !page.present(selectors[i])) ==> price == PriceNotFound
  {
    price := PriceNotFound;
    var i := 0;
    while i < |selectors|
      invariant 0 <= i <= |selectors|
      invariant forall j :: 0 <= j < i ==> !page.present(selectors[j])
      invariant Find(selectors, page.present) == Find(selectors[i..], page.present)
      invariant price == PriceNotFound
    {
      if page.present(selectors[i]) {
        assert Find(selectors[i..], page.present) == Some(selectors[i]);
        price := PriceText(page.text(selectors[i]));
        return;
      }
      assert selectors[i..][1..] == selectors[i + 1..];
      i := i + 1;
    }
  }

  /** `GET /api/scraper?url=…`. */
  method Scrape(url: Option<string>, page: PageView) returns (r: Response)
    ensures r == Expected(url, page)
  {
    if url.None? || url.value == "" {
      return BadRequest(UrlRequired);
    }
    if page.loadError.Some? {
      return ServerError(ErrorMessage(page.loadError.value));
    }
    var productName := NameNotFound;
    var productPrice := PriceNotFound;
    var productImage := ImageNotFound;
    var currencySymbol := "";
    var site: Site;
    if Includes(url.value, "amazon.com") {
      site := AmazonCom;
    } else if Includes(url.value, "amazon.in") {
      site := AmazonIn;
    } else if Includes(url.value, "flipkart.com") {
      site := Flipkart;
    } else {
      return BadRequest(Unsupported);
    }
    currencySymbol := Currency(site);
    if !page.present(TitleSelector(site)) {
      return ServerError(ErrorMessage(page.timeoutMessage));
    }
    productName := NameText(page.text(TitleSelector(site)));
    productPrice := ScanPrice(PriceSelectors(site), page);
    if page.present(ImageSelector(site)) {
      productImage := ImageText(page.src(ImageSelector(site)));
    }
    r := Product(productName, currencySymbol + productPrice, productImage);
  }

  /** The first matching selector supplies the price, whatever later selectors match. */
  lemma FirstSelectorWins(selectors: seq<string>, page: PageView, k: int)
    requires 0 <= k < |selectors| && page.present(selectors[k])
    requires forall j :: 0 <= j < k ==> !page.present(selectors[j])
    ensures PriceOf(selectors, page) == PriceText(page.text(selectors[k]))
  {
    var found := Find(selectors, page.present);
    var m :| 0 <= m < |selectors| && selectors[m] == found.value
      && forall j :: 0 <= j < m ==> !page.present(selectors[j]);
    assert !(m < k) && !(k < m);
  }

  /** A request without a URL is refused with 400 before any page is loaded. */
  lemma MissingUrlRefused(page: PageView)
    ensures Expected(None, page) == BadRequest(UrlRequired)
    ensures Expected(Some(""), page) == BadRequest(UrlRequired)
  {
  }

  /** A loaded URL naming none of the three shops is refused with 400. */
  lemma UnsupportedUrlRefused(url: string, page: PageView)
    requires url != "" && page.loadError.None?
    requires !Includes(url, "amazon.com") && !Includes(url, "amazon.in") && !Includes(url, "flipkart.com")
    ensures Expected(Some(url), page) == BadRequest(Unsupported)
  {
  }

  /**
   * A product answer always carries a name and an image, and a price that is
   * the shop's currency symbol followed by either the placeholder or a
   * non-empty run of digits and dots.
   */
  lemma ProductShape(url: string, page: PageView)
    requires Expected(Some(url), page).Product?
    ensures var p := Expected(Some(url), page);
      var site := SiteOf(url).value;
      p.productName != "" && p.productImage != ""
      && |p.productPrice| >= 1 && p.productPrice[..1] == Currency(site)
      && (p.productPrice[1..] == PriceNotFound
          || (p.productPrice[1..] != "" && forall i :: 1 <= i < |p.productPrice| ==> IsPriceChar(p.productPrice[i])))
  {
    var site := SiteOf(url).value;
    var p := Expected(Some(url), page);
    var price := PriceOf(PriceSelectors(site), page);
    assert p.productPrice == Currency(site) + price;
    assert p.productPrice[1..] == price;
  }

  /** When no price selector matches, the answer's price is the symbol and the placeholder. */
  lemma NoPriceFound(url: string, page: PageView)
    requires Expected(Some(url), page).Product?
    requires forall s :: s in PriceSelectors(SiteOf(url).value) ==> !page.present(s)
    ensures Expected(Some(url), page).productPrice == Currency(SiteOf(url).value) + PriceNotFound
  {
  }
}
