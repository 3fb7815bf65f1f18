/** app/api/create-checkout-session/route.ts: a buyer asks for tickets to an
    event. The handler checks the request, checks availability, draws a
    ticket code, asks the payment provider for a checkout session and stores
    a pending ticket. The provider's reply (a session, or a failure) is a
    parameter, and so are the random draws, the id the database assigns and
    the current time. */
module Checkout {
  import opened Text
  import opened Utils
  import opened Ledger

  /** The JSON body. An absent field is "" (0 for the quantity): the
      handler only asks whether a field is truthy. */
  datatype CheckoutRequest = CheckoutRequest(
    eventId: string, quantity: int, name: string, email: string, phone: string)

  /** What the handler asks the payment provider to sell. */
  datatype SessionRequest = SessionRequest(
    productName: string,
    productDescription: string,
    images: seq<string>,
    unitAmount: int,
    quantity: int,
    customerEmail: string,
    cancelPath: string,
    ticketCode: string)

  /** The provider's checkout session: its id and the page to send the buyer to. */
  datatype ProviderSession = ProviderSession(id: string, url: string)

  datatype CheckoutResponse =
    | MissingFields       // 400
    | EventNotFound       // 404
    | NotEnoughTickets    // 400
    | CheckoutFailed      // 500
    | Redirect(url: string)
  {
    function Status(): int
    {
      match this
      case MissingFields => 400
      case EventNotFound => 404
      case NotEnoughTickets => 400
      case CheckoutFailed => 500
      case Redirect(_) => 200
    }
  }

  /** None of the five fields is falsy. */
  predicate HasRequiredFields(req: CheckoutRequest)
  {
    req.eventId != "" && req.quantity != 0 && req.name != "" && req.email != "" && req.phone != ""
  }

  /** Seats not yet sold; negative when the event is oversold. */
  function Available(e: Event): int
  {
    e.capacity - e.soldCount
  }

  /** The stored total: `${parsePriceToNumber(price) * quantity} LEI`. */
  function TotalAmount(price: string, quantity: int): (r: string)
    ensures |r| > 4 && r[|r| - 4..] == " LEI"
    ensures quantity >= 0 ==> var digits := r[..|r| - 4];
      AllDigits(digits) && DecimalValue(digits) == ParsePriceToNumber(price) * quantity
    ensures quantity < 0 && ParsePriceToNumber(price) > 0 ==> r[0] == '-'
  {
    var digits := IntToDecimal(ParsePriceToNumber(price) * quantity);
    assert (digits + " LEI")[..|digits|] == digits;
    digits + " LEI"
  }

  /** The stored total reads back as unit price times quantity. */
  lemma TotalAmountReadsBack(price: string, quantity: nat)
    ensures ParsePriceToNumber(TotalAmount(price, quantity)) == ParsePriceToNumber(price) * quantity
  {
    ParsePriceOfLei(ParsePriceToNumber(price) * quantity);
  }

  /** The line item sent to the provider, priced in bani (hundredths). */
  function SessionRequestFor(e: Event, req: CheckoutRequest, code: string): (s: SessionRequest)
    ensures s.unitAmount >= 0 && s.unitAmount % 100 == 0
    ensures s.unitAmount / 100 == ParsePriceToNumber(e.price)
    ensures s.productName == e.title && s.quantity == req.quantity
    ensures s.customerEmail == req.email && s.ticketCode == code
    ensures |s.images| <= 1 && (s.images != [] <==> e.imagePath != "")
  {
    SessionRequest(
      e.title,
      IntToDecimal(req.quantity) + " x Bilet " + e.title,
      if e.imagePath != "" then [e.imagePath] else [],
      ParsePriceToNumber(e.price) * 100,
      req.quantity,
      req.email,
      "/event/" + e.slug,
      code)
  }

  /** The pending ticket the handler stores. */
  function PendingTicket(req: CheckoutRequest, code: string, price: string, sessionId: string, now: int): (t: Ticket)
    ensures t.paymentStatus == Pending && !t.scanned && t.scannedAt == None
    ensures t.code == code && t.stripePaymentId == sessionId && t.createdAt == now
    ensures t.eventId == req.eventId && t.name == req.name && t.email == req.email
    ensures t.phone == req.phone && t.quantity == req.quantity
    ensures req.quantity >= 0 ==>
              ParsePriceToNumber(t.totalAmount) == ParsePriceToNumber(price) * req.quantity
  {
    var t := Ticket(code, req.eventId, req.name, req.email, req.phone, req.quantity,
                    TotalAmount(price, req.quantity), sessionId, Pending, false, None, now);
    if req.quantity >= 0 then
      TotalAmountReadsBack(price, req.quantity);
      t
    else t
  }

  /** `POST /api/create-checkout-session`. */
  method CreateCheckoutSession(store: Store, req: CheckoutRequest, draws: seq<real>,
                               provider: Option<ProviderSession>, newId: string, now: int)
    returns (response: CheckoutResponse, sent: Option<SessionRequest>)
    requires store.Valid()
    requires |draws| >= DefaultCodeLength
    requires forall i :: 0 <= i < |draws| ==> IsDraw(draws[i])
    modifies store
    ensures store.Valid()
    ensures store.events == old(store.events)
    ensures LedgerStep(old(store.tickets), store.tickets)
    // The checks, in order.
    ensures !HasRequiredFields(req) ==> response == MissingFields
    ensures HasRequiredFields(req) && req.eventId !in store.events ==> response == EventNotFound
    ensures (HasRequiredFields(req) && req.eventId in store.events
             && req.quantity > Available(store.events[req.eventId])) ==> response == NotEnoughTickets
    // The provider is asked only when every check passed.
    ensures sent.Some? <==> HasRequiredFields(req) && req.eventId in store.events
                            && req.quantity <= Available(store.events[req.eventId])
    ensures sent.Some? ==>
              var code := sent.value.ticketCode;
              && sent.value == SessionRequestFor(store.events[req.eventId], req, code)
              && |code| == DefaultCodeLength && IsCodeString(code)
              && (forall i :: 0 <= i < |code| ==> code[i] == Alphabet[CharIndex(draws[i])])
    ensures sent.Some? && !response.Redirect? ==> response == CheckoutFailed
    // Success: one pending ticket, stored before the redirect is returned.
    ensures response.Redirect? <==>
              && sent.Some? && provider.Some?
              && newId !in old(store.tickets)
              && forall id :: id in old(store.tickets) ==> old(store.tickets)[id].code != sent.value.ticketCode
    ensures response.Redirect? ==>
              && response.url == provider.value.url
              && store.tickets == old(store.tickets)[newId :=
                   PendingTicket(req, sent.value.ticketCode, store.events[req.eventId].price, provider.value.id, now)]
    ensures !response.Redirect? ==> store.tickets == old(store.tickets)
  {
    sent := None;
    if !HasRequiredFields(req) {
      return MissingFields, sent;
    }
    if req.eventId !in store.events {
      return EventNotFound, sent;
    }
    var event := store.events[req.eventId];
    if req.quantity > Available(event) {
      return NotEnoughTickets, sent;
    }
    var code := GenerateTicketCode(DefaultCodeLength, draws);
    var request := SessionRequestFor(event, req, code);
    sent := Some(request);
    if provider.None? {
      return CheckoutFailed, sent;
    }
    var session := provider.value;
    var ticket := PendingTicket(req, code, event.price, session.id, now);
    var ok := store.InsertTicket(newId, ticket);
    if !ok {
      return CheckoutFailed, sent;
    }
    response := Redirect(session.url);
  }
}
