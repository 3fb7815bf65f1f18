/** app/api/admin/events/route.ts: the admin's event list (GET) and event
    creation (POST). Both only ask whether an `admin_session` cookie is
    present; its validity is not checked here. */
module EventsRoute {
  import opened Ledger
  import opened Slug
  import opened Listing

  /** A JSON value as it arrives in the request body; an absent field is
      `JNull` (both are falsy). */
  datatype Json = JNull | JBool(b: bool) | JNumber(n: int) | JString(s: string)

  /** JavaScript truthiness. */
  predicate Truthy(v: Json)
    ensures !Truthy(v) <==> v in {JNull, JBool(false), JNumber(0), JString("")}
  {
    match v
    case JNull => false
    case JBool(b) => b
    case JNumber(n) => n != 0
    case JString(s) => s != ""
  }

  /** `v || false` stored in a Boolean column: a falsy value becomes false,
      `true` stays true, and any other truthy value is refused by the
      database (None). */
  function OrFalse(v: Json): (r: Option<bool>)
    ensures !Truthy(v) ==> r == Some(false)
    ensures r == Some(true) <==> v == JBool(true)
  {
    if !Truthy(v) then Some(false)
    else if v.JBool? then Some(v.b)
    else None
  }

  /** A string column written as `s || null`. */
  function OrNull(s: string): (r: Option<string>)
    ensures r.None? <==> s == ""
    ensures r.Some? ==> r.value == s
  {
    if s == "" then None else Some(s)
  }

  /** The POST body. Absent strings are "", an absent capacity is 0 and an
      absent or empty date is None. */
  datatype CreateEventRequest = CreateEventRequest(
    title: string,
    description: string,
    date: Option<int>,
    price: string,
    capacity: int,
    locationName: string,
    locationAddress: string,
    locationMapsUrl: string,
    imagePath: string,
    stripePaymentLink: string,
    published: Json,
    isExternal: Json,
    externalUrl: string)

  datatype CreateEventResponse =
    | Unauthorized             // 401
    | MissingFields            // 400
    | StripeLinkRequired       // 400
    | ExternalLinkRequired     // 400
    | SlugTaken                // 409
    | CreateFailed             // 500
    | Created(event: Event)    // 201

  datatype ListEventsResponse =
    | ListUnauthorized                          // 401
    | EventList(rows: seq<(string, Event)>)     // 200

  /** The seven fields POST insists on are all truthy. */
  predicate HasRequiredFields(req: CreateEventRequest)
    ensures HasRequiredFields(req) ==> req.date.Some? && req.capacity != 0 && req.title != ""
  {
    && req.title != "" && req.date.Some? && req.price != "" && req.capacity != 0
    && req.locationName != "" && req.locationAddress != "" && req.imagePath != ""
  }

  /** The payment-mode rules: an internal event needs a payment link, an
      external one needs its external link. */
  predicate PaymentModeOk(req: CreateEventRequest)
    ensures PaymentModeOk(req) ==> req.stripePaymentLink != "" || req.externalUrl != ""
    ensures !Truthy(req.isExternal) && req.stripePaymentLink == "" ==> !PaymentModeOk(req)
  {
    (Truthy(req.isExternal) || req.stripePaymentLink != "")
    && (!Truthy(req.isExternal) || req.externalUrl != "")
  }

  /** The row POST inserts. */
  function NewEvent(req: CreateEventRequest, isExternal: bool, now: int): (e: Event)
    requires req.date.Some?
    ensures e.slug == GenerateSlug(req.title) && IsSlug(e.slug)
    ensures e.published <==> req.published == JBool(true)
    ensures e.description == Some(req.description) && e.soldCount == 0
    ensures e.stripePaymentLink.None? <==> req.stripePaymentLink == ""
    ensures e.externalUrl.None? <==> req.externalUrl == ""
  {
    Event(
      req.title, GenerateSlug(req.title), Some(req.description), req.date.value,
      req.price, req.capacity, 0, req.locationName, req.locationAddress,
      OrNull(req.locationMapsUrl), req.imagePath, OrNull(req.stripePaymentLink),
      req.published == JBool(true), isExternal, OrNull(req.externalUrl), now)
  }

  /** `POST /api/admin/events`, with `newId` the id the database assigns. */
  method CreateEvent(store: Store, hasSession: bool, req: CreateEventRequest, newId: string, now: int)
    returns (response: CreateEventResponse)
    requires store.Valid()
    modifies store
    ensures store.Valid()
    ensures store.tickets == old(store.tickets)
    ensures !hasSession ==> response == Unauthorized
    ensures hasSession && !HasRequiredFields(req) ==> response == MissingFields
    ensures (hasSession && HasRequiredFields(req) && !Truthy(req.isExternal)
             && req.stripePaymentLink == "") ==> response == StripeLinkRequired
    ensures (hasSession && HasRequiredFields(req) && Truthy(req.isExternal)
             && req.externalUrl == "") ==> response == ExternalLinkRequired
    ensures (&& hasSession && HasRequiredFields(req) && PaymentModeOk(req)
             && exists id :: id in old(store.events) && old(store.events)[id].slug == GenerateSlug(req.title))
            ==> response == SlugTaken
    ensures response.Created? <==>
              && hasSession && HasRequiredFields(req) && PaymentModeOk(req)
              && (forall id :: id in old(store.events) ==> old(store.events)[id].slug != GenerateSlug(req.title))
              && OrFalse(req.isExternal).Some? && newId !in old(store.events)
    ensures response.Created? ==>
              && response.event == NewEvent(req, OrFalse(req.isExternal).value, now)
              && store.events == old(store.events)[newId := response.event]
    ensures !response.Created? ==> store.events == old(store.events)
  {
    if !hasSession {
      return Unauthorized;
    }
    if !HasRequiredFields(req) {
      return MissingFields;
    }
    if !Truthy(req.isExternal) && req.stripePaymentLink == "" {
      return StripeLinkRequired;
    }
    if Truthy(req.isExternal) && req.externalUrl == "" {
      return ExternalLinkRequired;
    }
    var slug := GenerateSlug(req.title);
    var taken := store.SlugTaken(slug);
    if taken {
      return SlugTaken;
    }
    var isExternal := OrFalse(req.isExternal);
    if isExternal.None? {
      return CreateFailed;
    }
    var event := NewEvent(req, isExternal.value, now);
    var ok := store.InsertEvent(newId, event);
    if !ok {
      return CreateFailed;
    }
    response := Created(event);
  }

  /** `GET /api/admin/events`. */
  method ListEvents(store: Store, hasSession: bool) returns (response: ListEventsResponse)
    ensures !hasSession <==> response == ListUnauthorized
    ensures response.EventList? ==> RowsOf(response.rows, store.events) && DateOrdered(response.rows, false)
  {
    if !hasSession {
      return ListUnauthorized;
    }
    var rows := EventsByDate(store.events, false);
    response := EventList(rows);
  }
}
