/**
 * Stripe billing (src/backend/stripe_handler.py): reading a plan's upload
 * limit out of Price and Product metadata, the feature list of a plan card,
 * and the webhook that moves users between the free limit and a paid plan's
 * limit in the quota table. Signature checking and the Stripe API are
 * parameters: the webhook receives the outcome of verification, and
 * `retrieve` stands for Subscription.retrieve.
 */
module StripeBilling {
  import opened Options
  import opened Text
  import opened Numerals
  import opened QuotaTable

  type Metadata = map<string, string>

  /** A metadata value, if the key is present. */
  function Lookup(m: Metadata, k: string): Option<string>
  {
    if k in m then Some(m[k]) else None
  }

  /** Python truthiness of an optional string. */
  predicate Truthy(v: Option<string>)
  {
    v.Some? && v.value != ""
  }

  /** Python's `a or b` on optional strings: `a` when truthy, otherwise `b`. */
  function OrElse(a: Option<string>, b: Option<string>): (r: Option<string>)
    ensures Truthy(a) ==> r == a
    ensures !Truthy(a) ==> r == b
  {
    if Truthy(a) then a else b
  }

  /** `meta.get('upload_limit') or meta.get('uploads')` */
  function LimitText(m: Metadata): Option<string>
  {
    OrElse(Lookup(m, "upload_limit"), Lookup(m, "uploads"))
  }

  /**
   * _safe_int: the integer a string spells, or `default` when there is no
   * value or it does not parse.
   */
  function SafeInt(value: Option<string>, default: int): (r: int)
    ensures value.None? ==> r == default
    ensures value.Some? && ParseInt(value.value).Some? ==> r == ParseInt(value.value).value
    ensures value.Some? && ParseInt(value.value).None? ==> r == default
  {
    if value.Some? && ParseInt(value.value).Some? then ParseInt(value.value).value else default
  }

  /** Every integer survives being written out and read back by SafeInt. */
  lemma SafeIntRoundTrip(n: int, default: int)
    ensures SafeInt(Some(IntToString(n)), default) == n
  {
    ParseIntToString(n);
  }

  /** A Stripe Product, with the fields the billing code reads. */
  datatype Product = Product(
    id: string,
    name: string,
    description: Option<string>,
    metadata: Metadata,
    marketingFeatures: Option<seq<Option<string>>>)   // each entry's `name`, None when it has none

  /** A Price's `product`: missing, an unexpanded id, or the expanded Product. */
  datatype ProductRef = NoProduct | ProductId(productId: string) | Expanded(product: Product)

  /** A Stripe Price. */
  datatype Price = Price(id: string, metadata: Metadata, product: ProductRef)

  /**
   * The metadata string the limit is read from: the price's own
   * upload_limit/uploads expression when it is present at all, otherwise the
   * same expression on an expanded product, otherwise nothing.
   */
  function LimitSource(price: Price): (r: Option<string>)
    ensures LimitText(price.metadata).Some? ==> r == LimitText(price.metadata)
    ensures LimitText(price.metadata).None? && price.product.Expanded? ==> r == LimitText(price.product.product.metadata)
    ensures LimitText(price.metadata).None? && !price.product.Expanded? ==> r.None?
  {
    match LimitText(price.metadata)
    case Some(t) => Some(t)
    case None =>
      match price.product
      case Expanded(p) => LimitText(p.metadata)
      case _ => None
  }

  /**
   * _extract_upload_limit_from_price_or_product: the plan's upload limit, 0
   * when there is no price or no readable limit.
   */
  function ExtractUploadLimit(price: Option<Price>): (n: int)
    ensures price.None? ==> n == 0
    ensures price.Some? ==> n == SafeInt(LimitSource(price.value), 0)
  {
    if price.None? then 0 else SafeInt(LimitSource(price.value), 0)
  }

  /** A limit written on the price wins, whatever the product says. */
  lemma PriceMetadataWins(price: Price, n: int)
    requires Lookup(price.metadata, "upload_limit") == Some(IntToString(n))
    ensures ExtractUploadLimit(Some(price)) == n
  {
    assert |IntToString(n)| >= 1;
    SafeIntRoundTrip(n, 0);
  }

  /**
   * The product is consulted only when the price's metadata expression is
   * None: two prices with the same metadata and such an expression give the
   * same limit whatever their products.
   */
  lemma ProductIgnoredWhenPriceSpeaks(p1: Price, p2: Price)
    requires p1.metadata == p2.metadata && LimitText(p1.metadata).Some?
    ensures ExtractUploadLimit(Some(p1)) == ExtractUploadLimit(Some(p2))
  {
  }

  /** With no limit on the price, an expanded product's upload_limit is used. */
  lemma ProductFallback(price: Price, n: int)
    requires "upload_limit" !in price.metadata && "uploads" !in price.metadata
    requires price.product.Expanded? && Lookup(price.product.product.metadata, "upload_limit") == Some(IntToString(n))
    ensures ExtractUploadLimit(Some(price)) == n
  {
    assert |IntToString(n)| >= 1;
    SafeIntRoundTrip(n, 0);
  }

  /**
   * The truthiness edge: an empty upload_limit and no uploads key on the
   * price fall through to the product, but an empty uploads key does not.
   */
  lemma EmptyPriceLimitEdges(product: Product)
    requires Lookup(product.metadata, "upload_limit") == Some("25")
    ensures ExtractUploadLimit(Some(Price("p", map["upload_limit" := ""], Expanded(product)))) == 25
    ensures ExtractUploadLimit(Some(Price("p", map["upload_limit" := "", "uploads" := ""], Expanded(product)))) == 0
  {
    SafeIntRoundTrip(25, 0);
    assert IntToString(25) == "25";
  }

  /** An unexpanded product id never supplies a limit. */
  lemma ProductIdGivesNothing(id: string)
    ensures ExtractUploadLimit(Some(Price("p", map[], ProductId(id)))) == 0
  {
  }

  /** `extracted or 10`: a zero limit becomes the free limit. */
  function LimitOrFree(n: int): (r: int)
    ensures r != 0
    ensures n != 0 ==> r == n
    ensures n == 0 ==> r == FreeUploadLimit
  {
    if n == 0 then FreeUploadLimit else n
  }

  // ---------------------------------------------------------------- plan cards

  /** The truthy marketing feature names, in order. */
  function MarketingNames(names: seq<Option<string>>): (r: seq<string>)
    ensures |r| <= |names|
    ensures forall i :: 0 <= i < |r| ==> r[i] != ""
    ensures forall i :: 0 <= i < |r| ==> Some(r[i]) in names
  {
    if names == [] then []
    else (if Truthy(names[0]) then [names[0].value] else []) + MarketingNames(names[1..])
  }

  /** Every truthy name is listed. */
  lemma {:induction false} MarketingNamesComplete(names: seq<Option<string>>, i: nat)
    requires i < |names| && Truthy(names[i])
    ensures names[i].value in MarketingNames(names)
  {
    if i > 0 {
      MarketingNamesComplete(names[1..], i - 1);
      assert names[1..][i - 1] == names[i];
    }
  }

  /** The stripped, non-empty pieces, in order. */
  function StrippedPieces(pieces: seq<string>): (r: seq<string>)
    ensures |r| <= |pieces|
    ensures forall i :: 0 <= i < |r| ==> r[i] != ""
  {
    if pieces == [] then []
    else (if PyStrip(pieces[0]) != "" then [PyStrip(pieces[0])] else []) + StrippedPieces(pieces[1..])
  }

  /** The pieces of a concatenation are the pieces of each part, in order. */
  lemma {:induction false} StrippedPiecesAppend(a: seq<string>, b: seq<string>)
    ensures StrippedPieces(a + b) == StrippedPieces(a) + StrippedPieces(b)
  {
    if a != [] {
      assert (a + b)[1..] == a[1..] + b;
      StrippedPiecesAppend(a[1..], b);
    } else {
      assert a + b == b;
    }
  }

  /** Every kept piece is the strip of an input piece. */
  lemma {:induction false} StrippedPiecesSources(pieces: seq<string>, f: string)
    requires f in StrippedPieces(pieces)
    ensures exists p :: p in pieces && f == PyStrip(p)
  {
    if f != PyStrip(pieces[0]) {
      StrippedPiecesSources(pieces[1..], f);
      var p :| p in pieces[1..] && f == PyStrip(p);
      assert p in pieces;
    }
  }

  /**
   * Every piece whose strip is non-empty is kept, in its place: the result is
   * the pieces before it, its strip, then the pieces after it.
   */
  lemma {:induction false} StrippedPiecesComplete(pieces: seq<string>, i: nat)
    requires i < |pieces| && PyStrip(pieces[i]) != ""
    ensures StrippedPieces(pieces) ==
      StrippedPieces(pieces[..i]) + [PyStrip(pieces[i])] + StrippedPieces(pieces[i + 1..])
  {
    var pre, post := pieces[..i], pieces[i + 1..];
    assert pieces == pre + ([pieces[i]] + post);
    StrippedPiecesAppend(pre, [pieces[i]] + post);
    StrippedPiecesCons(pieces[i], post);
  }

  /** One piece in front contributes its strip, if non-empty, in front. */
  lemma StrippedPiecesCons(p: string, rest: seq<string>)
    ensures StrippedPieces([p] + rest) == (if PyStrip(p) != "" then [PyStrip(p)] else []) + StrippedPieces(rest)
  {
    assert ([p] + rest)[1..] == rest;
  }

  /** Stripped pieces carry no surrounding whitespace. */
  lemma {:induction false} StrippedPiecesTrimmed(pieces: seq<string>)
    ensures forall f :: f in StrippedPieces(pieces) ==> !IsPyWhitespace(f[0]) && !IsPyWhitespace(f[|f| - 1])
  {
    if pieces != [] {
      StrippedPiecesTrimmed(pieces[1..]);
      var s := pieces[0];
      var ab := StripBounds(s, IsPyWhitespace);
      assert PyStrip(s) == s[ab.0..ab.1];
    }
  }

  /**
   * The features shown on a plan card: the product's marketing feature names
   * when it has a non-empty marketing list (even if no entry has a name),
   * else its comma-separated `features` metadata, else its description.
   */
  function PlanFeatures(product: Product): (r: seq<string>)
    ensures forall i :: 0 <= i < |r| ==> r[i] != ""
    ensures product.marketingFeatures.Some? && |product.marketingFeatures.value| > 0 ==>
      r == MarketingNames(product.marketingFeatures.value)
    ensures !(product.marketingFeatures.Some? && |product.marketingFeatures.value| > 0) &&
            "features" in product.metadata ==>
      r == StrippedPieces(Split(product.metadata["features"], ','))
    ensures !(product.marketingFeatures.Some? && |product.marketingFeatures.value| > 0) &&
            "features" !in product.metadata ==>
      r == if Truthy(product.description) then [product.description.value] else []
  {
    if product.marketingFeatures.Some? && |product.marketingFeatures.value| > 0 then
      MarketingNames(product.marketingFeatures.value)
    else if |product.metadata| > 0 && "features" in product.metadata then
      StrippedPieces(Split(product.metadata["features"], ','))
    else if Truthy(product.description) then
      [product.description.value]
    else
      []
  }

  /** A marketing list whose entries have no names hides the metadata features. */
  lemma NamelessMarketingHidesMetadata(product: Product)
    requires product.marketingFeatures == Some([None])
    ensures PlanFeatures(product) == []
  {
  }

  /** Metadata features are pieces between commas, so none of them holds a comma. */
  lemma {:induction false} StrippedPiecesHaveNoComma(pieces: seq<string>)
    requires forall i :: 0 <= i < |pieces| ==> ',' !in pieces[i]
    ensures forall f :: f in StrippedPieces(pieces) ==> ',' !in f
  {
    if pieces != [] {
      StrippedPiecesHaveNoComma(pieces[1..]);
      var p := pieces[0];
      var ab := StripBounds(p, IsPyWhitespace);
      assert PyStrip(p) == p[ab.0..ab.1];
      assert forall k :: 0 <= k < ab.1 - ab.0 ==> PyStrip(p)[k] == p[ab.0 + k];
    }
  }

  /** Every feature a product's metadata yields is trimmed, non-empty and free of commas. */
  lemma MetadataFeaturesShape(product: Product)
    requires !(product.marketingFeatures.Some? && |product.marketingFeatures.value| > 0)
    requires "features" in product.metadata
    ensures forall f :: f in PlanFeatures(product) ==>
      f != "" && ',' !in f && !IsPyWhitespace(f[0]) && !IsPyWhitespace(f[|f| - 1])
  {
    var pieces := Split(product.metadata["features"], ',');
    StrippedPiecesHaveNoComma(pieces);
    StrippedPiecesTrimmed(pieces);
  }

  /**
   * The upload count shown on a plan card: the limit read from the price,
   * and, when that is zero, the product's own metadata expression.
   */
  function PlanUploads(price: Price, product: Product): (n: int)
    ensures ExtractUploadLimit(Some(price)) != 0 ==> n == ExtractUploadLimit(Some(price))
    ensures ExtractUploadLimit(Some(price)) == 0 && |product.metadata| == 0 ==> n == 0
    ensures ExtractUploadLimit(Some(price)) == 0 && |product.metadata| > 0 ==>
      n == SafeInt(LimitText(product.metadata), 0)
  {
    var u := ExtractUploadLimit(Some(price));
    if u == 0 && |product.metadata| > 0 then SafeInt(LimitText(product.metadata), 0) else u
  }

  /** The listed prices carry unexpanded product ids, so the card's fallback is what reads the product. */
  lemma PlanUploadsFromProduct(price: Price, product: Product, n: int)
    requires price.metadata == map[] && price.product == ProductId(product.id)
    requires Lookup(product.metadata, "upload_limit") == Some(IntToString(n))
    ensures PlanUploads(price, product) == n
  {
    assert |IntToString(n)| >= 1;
    assert "upload_limit" in product.metadata;
    SafeIntRoundTrip(n, 0);
  }

  // ---------------------------------------------------------------- webhook

  /** The `data.object` of an event, with the fields the handlers read. */
  datatype EventObject = EventObject(id: string, metadata: Metadata, subscription: Option<string>)

  datatype StripeEvent = StripeEvent(eventType: string, data: EventObject)

  /** What Webhook.construct_event made of the payload and its signature. */
  datatype Verification = Verified(event: StripeEvent) | InvalidSignature | InvalidPayload

  /**
   * What Subscription.retrieve returns for an id: the prices of the
   * subscription's items in order (None for an item without a price), or
   * None when the call raises.
   */
  type Retrieve = string -> Option<seq<Option<Price>>>

  /** The first item's price, if there is an item. */
  function FirstPrice(prices: seq<Option<Price>>): Option<Price>
  {
    if prices == [] then None else prices[0]
  }

  /**
   * handle_checkout_completed: the table afterwards, or None when the Stripe
   * call raises. Without a userId, a subscription id or subscription items
   * the table is left as it is.
   */
  function CheckoutOutcome(items: map<string, QuotaRecord>, session: EventObject, retrieve: Retrieve): (r: Option<map<string, QuotaRecord>>)
    ensures !Truthy(Lookup(session.metadata, "userId")) || !Truthy(session.subscription) ==> r == Some(items)
    ensures Truthy(session.subscription) && retrieve(session.subscription.value) == Some([]) ==> r == Some(items)
    ensures (Truthy(Lookup(session.metadata, "userId")) && Truthy(session.subscription) &&
             retrieve(session.subscription.value).None?) ==> r.None?
    ensures r.Some? && r.value != items ==>
      var user := session.metadata["userId"];
      r.value.Keys == items.Keys + {user} &&
      r.value[user].subscriptionId == Present(session.subscription.value) &&
      r.value[user].uploadCount == Some(0) && r.value[user].uploadLimit.Some? && r.value[user].uploadLimit.value != 0 &&
      forall u :: u in items && u != user ==> r.value[u] == items[u]
  {
    var user := Lookup(session.metadata, "userId");
    if !Truthy(user) || !Truthy(session.subscription) then Some(items)
    else
      var sid := session.subscription.value;
      match retrieve(sid)
      case None => None
      case Some(prices) =>
        if prices == [] then Some(items)
        else Some(Subscribed(items, user.value, LimitOrFree(ExtractUploadLimit(prices[0])), sid))
  }

  /**
   * handle_invoice_paid: the subscribers of the invoice's subscription get a
   * zero count and the plan's limit; None when the Stripe call raises.
   */
  function InvoiceOutcome(items: map<string, QuotaRecord>, invoice: EventObject, retrieve: Retrieve): (r: Option<map<string, QuotaRecord>>)
    ensures !Truthy(invoice.subscription) ==> r == Some(items)
    ensures Truthy(invoice.subscription) ==> (r.None? <==> retrieve(invoice.subscription.value).None?)
    ensures r.Some? ==> r.value.Keys == items.Keys
  {
    if !Truthy(invoice.subscription) then Some(items)
    else
      var sid := invoice.subscription.value;
      match retrieve(sid)
      case None => None
      case Some(prices) => Some(ResetAll(items, sid, LimitOrFree(ExtractUploadLimit(FirstPrice(prices)))))
  }

  /** The table after an event of any type; only three types change it. */
  function EventOutcome(items: map<string, QuotaRecord>, e: StripeEvent, retrieve: Retrieve): (r: Option<map<string, QuotaRecord>>)
    ensures e.eventType !in {"checkout.session.completed", "invoice.paid", "customer.subscription.deleted"} ==> r == Some(items)
    ensures r.Some? ==> items.Keys <= r.value.Keys
  {
    if e.eventType == "checkout.session.completed" then CheckoutOutcome(items, e.data, retrieve)
    else if e.eventType == "invoice.paid" then InvoiceOutcome(items, e.data, retrieve)
    else if e.eventType == "customer.subscription.deleted" then Some(RevertAll(items, e.data.id))
    else Some(items)
  }

  /** handle_checkout_completed; `ok` is false when it raises. */
  method HandleCheckoutCompleted(table: Table, session: EventObject, retrieve: Retrieve) returns (ok: bool)
    modifies table
    ensures ok <==> CheckoutOutcome(old(table.items), session, retrieve).Some?
    ensures table.items == CheckoutOutcome(old(table.items), session, retrieve).GetOr(old(table.items))
  {
    var user := Lookup(session.metadata, "userId");
    if !Truthy(user) {
      return true;
    }
    if !Truthy(session.subscription) {
      return true;
    }
    var sid := session.subscription.value;
    var subscription := retrieve(sid);
    if subscription.None? {
      return false;
    }
    var prices := subscription.value;
    if prices == [] {
      return true;
    }
    var newLimit := LimitOrFree(ExtractUploadLimit(prices[0]));
    table.UpdateUserQuota(user.value, newLimit, sid);
    ok := true;
  }

  /** handle_invoice_paid; `ok` is false when it raises. */
  method HandleInvoicePaid(table: Table, invoice: EventObject, retrieve: Retrieve) returns (ok: bool)
    modifies table
    ensures ok <==> InvoiceOutcome(old(table.items), invoice, retrieve).Some?
    ensures table.items == InvoiceOutcome(old(table.items), invoice, retrieve).GetOr(old(table.items))
  {
    if !Truthy(invoice.subscription) {
      return true;
    }
    var sid := invoice.subscription.value;
    var subscription := retrieve(sid);
    if subscription.None? {
      return false;
    }
    var newLimit := LimitOrFree(ExtractUploadLimit(FirstPrice(subscription.value)));
    table.ResetSubscribers(sid, newLimit);
    ok := true;
  }

  /** handle_subscription_deleted. */
  method HandleSubscriptionDeleted(table: Table, subscription: EventObject)
    modifies table
    ensures table.items == RevertAll(old(table.items), subscription.id)
  {
    table.RevertSubscribers(subscription.id);
  }

  /**
   * webhook_handler's status code and its effect on the table: 500 without
   * an API key or webhook secret, 400 for a bad signature, 500 for a payload
   * that does not parse or a handler that raises, otherwise 200.
   */
  method WebhookHandler(table: Table, apiKey: string, webhookSecret: string, verification: Verification, retrieve: Retrieve)
    returns (status: int)
    modifies table
    ensures apiKey == "" || webhookSecret == "" ==> status == 500 && table.items == old(table.items)
    ensures apiKey != "" && webhookSecret != "" && verification.InvalidSignature? ==> status == 400 && table.items == old(table.items)
    ensures apiKey != "" && webhookSecret != "" && verification.InvalidPayload? ==> status == 500 && table.items == old(table.items)
    ensures apiKey != "" && webhookSecret != "" && verification.Verified? ==>
      var out := EventOutcome(old(table.items), verification.event, retrieve);
      status == (if out.Some? then 200 else 500) && table.items == out.GetOr(old(table.items))
  {
    if apiKey == "" || webhookSecret == "" {
      return 500;
    }
    match verification
    case InvalidSignature => status := 400;
    case InvalidPayload => status := 500;
    case Verified(e) =>
      var ok := true;
      if e.eventType == "checkout.session.completed" {
        ok := HandleCheckoutCompleted(table, e.data, retrieve);
      } else if e.eventType == "invoice.paid" {
        ok := HandleInvoicePaid(table, e.data, retrieve);
      } else if e.eventType == "customer.subscription.deleted" {
        HandleSubscriptionDeleted(table, e.data);
      }
      status := if ok then 200 else 500;
  }

  /**
   * A completed checkout for a price with no readable limit puts the user
   * on the free limit, not on zero uploads.
   */
  lemma CheckoutWithoutLimitGivesFreeLimit(items: map<string, QuotaRecord>, session: EventObject, retrieve: Retrieve, price: Price)
    requires Truthy(Lookup(session.metadata, "userId")) && Truthy(session.subscription)
    requires retrieve(session.subscription.value) == Some([Some(price)])
    requires LimitSource(price).None?
    ensures CheckoutOutcome(items, session, retrieve).Some?
    ensures CheckoutOutcome(items, session, retrieve).value[session.metadata["userId"]].uploadLimit == Some(FreeUploadLimit)
  {
  }

  /**
   * A completed checkout whose subscription has items gives the user, and
   * only the user, a zero count, the first item's plan limit (10 when it
   * reads as 0) and the subscription id.
   */
  lemma CheckoutSetsPlanLimit(items: map<string, QuotaRecord>, session: EventObject, retrieve: Retrieve, prices: seq<Option<Price>>)
    requires Truthy(Lookup(session.metadata, "userId")) && Truthy(session.subscription)
    requires retrieve(session.subscription.value) == Some(prices) && prices != []
    ensures var r, user := CheckoutOutcome(items, session, retrieve), session.metadata["userId"];
      r.Some? && r.value.Keys == items.Keys + {user} &&
      r.value[user].uploadLimit == Some(LimitOrFree(ExtractUploadLimit(prices[0]))) &&
      r.value[user].uploadCount == Some(0) &&
      r.value[user].subscriptionId == Present(session.subscription.value) &&
      forall u :: u in items && u != user ==> r.value[u] == items[u]
  {
  }

  /**
   * A paid invoice whose subscription can be retrieved gives every record
   * holding that subscription id a zero count and the first item's plan
   * limit (10 when it reads as 0, or when there is no item), and leaves
   * every other record as it was.
   */
  lemma InvoiceResetsSubscribers(items: map<string, QuotaRecord>, invoice: EventObject, retrieve: Retrieve,
                                 prices: seq<Option<Price>>, u: string)
    requires Truthy(invoice.subscription) && retrieve(invoice.subscription.value) == Some(prices)
    requires u in items
    ensures var r, sid := InvoiceOutcome(items, invoice, retrieve), invoice.subscription.value;
      r.Some? && r.value.Keys == items.Keys &&
      if items[u].subscriptionId == Present(sid) then
        r.value[u] == items[u].(uploadCount := Some(0), uploadLimit := Some(LimitOrFree(ExtractUploadLimit(FirstPrice(prices)))))
      else r.value[u] == items[u]
  {
    ResetAllFrame(items, invoice.subscription.value, LimitOrFree(ExtractUploadLimit(FirstPrice(prices))), u);
  }

  /** Cancelling a subscription and completing an invoice both keep every item's counters present. */
  lemma WebhookKeepsCounters(items: map<string, QuotaRecord>, e: StripeEvent, retrieve: Retrieve)
    requires HasCounters(items)
    ensures var out := EventOutcome(items, e, retrieve); out.Some? ==> HasCounters(out.value)
  {
  }
}
