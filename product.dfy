/**
 * `scrape_single_product` (main.py:321-429): fill the record field by field
 * from the detail page, each field on its own (a missing element leaves it
 * empty), submit it through the gateway, and when text comes back type it
 * into the seller chat.
 */
module Product {
  import opened Wrappers
  import opened Location
  import opened Gateway
  import opened Keys

  /** The `data` dict: every field a string, empty when it could not be read. */
  datatype ProductRecord = ProductRecord(
    phone: string, sellerName: string, productName: string, city: string, state: string,
    price: string, description: string, category: string, subCategory: string, link: string)

  /** The phone number stored for every product (main.py:375). */
  const PlaceholderPhone: string := "090000000000"

  /**
   * What the browser finds on a detail page: each element's text, or None
   * when its lookup or wait fails; the breadcrumb spans; whether the chat
   * button and text box can be reached.
   */
  datatype DetailPage = DetailPage(
    title: Option<string>, seller: Option<string>, location: Option<string>,
    price: Option<string>, url: Option<string>, description: Option<string>,
    breadcrumbs: seq<string>, chatOpens: bool)

  /**
   * The extraction steps of main.py:322-401. Each field depends only on its
   * own element: a missing one leaves that field empty and no other.
   */
  method ExtractFields(page: DetailPage) returns (data: ProductRecord)
    ensures data.productName == page.title.GetOr("")
    ensures data.sellerName == page.seller.GetOr("")
    ensures var loc := if page.location.Some? then ParseLocation(page.location.value) else None;
      && data.state == (if loc.Some? then loc.value.0 else "")
      && data.city == (if loc.Some? then loc.value.1 else "")
    ensures data.price == page.price.GetOr("")
    ensures data.link == page.url.GetOr("")
    ensures data.phone == PlaceholderPhone
    ensures data.description == page.description.GetOr("")
    ensures |page.breadcrumbs| >= 2 ==> data.category == page.breadcrumbs[0] && data.subCategory == page.breadcrumbs[1]
    ensures |page.breadcrumbs| < 2 ==> data.category == "" && data.subCategory == ""
  {
    var productName, sellerName, state, city, price, link, description, category, subCategory :=
      "", "", "", "", "", "", "", "", "";
    if page.title.Some? {
      productName := page.title.value;
    }
    if page.seller.Some? {
      sellerName := page.seller.value;
    }
    if page.location.Some? {
      var parsed := ParseLocation(page.location.value);
      if parsed.Some? {
        state, city := parsed.value.0, parsed.value.1;
      }
    }
    if page.price.Some? {
      price := page.price.value;
    }
    if page.url.Some? {
      link := page.url.value;
    }
    var phone := PlaceholderPhone;
    if page.description.Some? {
      description := page.description.value;
    }
    if |page.breadcrumbs| >= 2 {
      category, subCategory := page.breadcrumbs[0], page.breadcrumbs[1];
    }
    data := ProductRecord(phone, sellerName, productName, city, state, price, description, category, subCategory, link);
  }

  /**
   * One product: extract, call `send_to_api(data)` (default `retries = 1`)
   * at tick `now`, and type the reply into the chat when text came back and
   * the chat opens. A failed reply chain is swallowed.
   */
  method ScrapeSingleProduct(client: ApiClient, page: DetailPage, now: int, responses: seq<Response>, successClock: int)
    returns (data: ProductRecord, apiResponse: Option<string>, requests: nat, reply: seq<KeyEvent>)
    requires |responses| >= 2
    requires successClock >= DispatchTime(now, client.lastApiCall)
    modifies client
    ensures IsRun(responses, 1, apiResponse, requests)
    ensures client.lastApiCall == if apiResponse.Some? then successClock else old(client.lastApiCall)
    ensures data.price == page.price.GetOr("") && data.productName == page.title.GetOr("")
    ensures reply != [] <==> apiResponse.Some? && page.chatOpens
    ensures reply != [] ==> Typed(reply) == apiResponse.value && reply[|reply| - 1] == Enter
  {
    data := ExtractFields(page);
    var dispatchedAt;
    apiResponse, requests, dispatchedAt := client.SendToApi(now, responses, 1, successClock);
    reply := [];
    if apiResponse.Some? && apiResponse.value != "" && page.chatOpens {
      reply := SendMessageText(apiResponse.value);
    }
  }
}
