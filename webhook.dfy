/** app/api/webhooks/stripe/route.ts: the payment provider reports a
    completed checkout session; the handler marks the matching ticket paid,
    adds its quantity to the event's sold count and then e-mails the ticket.
    Whether the notification's signature verifies is a parameter; the
    e-mail is returned instead of sent. */
module Webhook {
  import opened Ledger

  /** The only notification type the handler acts on. */
  const CompletedType: string := "checkout.session.completed"

  datatype WebhookResponse =
    | InvalidSignature    // 400
    | Received            // 200, { received: true }

  /** The data handed to `sendTicketEmail`. */
  datatype TicketEmail = TicketEmail(
    to: string, name: string, eventTitle: string, eventDate: int,
    eventLocation: string, quantity: int, code: string, totalAmount: string)

  function EmailFor(t: Ticket, e: Event): (m: TicketEmail)
    ensures m.to == t.email && m.code == t.code && m.quantity == t.quantity
  {
    TicketEmail(t.email, t.name, e.title, e.date, e.locationName, t.quantity, t.code, t.totalAmount)
  }

  /** The writes a confirmed payment makes: ticket `id` becomes paid and its
      event's sold count rises by the ticket's quantity; nothing else changes. */
  predicate Confirmed(tickets: map<string, Ticket>, events: map<string, Event>,
                      tickets': map<string, Ticket>, events': map<string, Event>, id: string)
    ensures Confirmed(tickets, events, tickets', events', id) ==>
              && id in tickets && tickets[id].eventId in events
              && LedgerStep(tickets, tickets') && tickets'.Keys == tickets.Keys && events'.Keys == events.Keys
              && id in tickets' && tickets[id].eventId in events'
              && tickets'[id].paymentStatus == Paid
              && events'[tickets[id].eventId].soldCount == events[tickets[id].eventId].soldCount + tickets[id].quantity
              && (forall other :: other in tickets && other != id ==> tickets'[other] == tickets[other])
              && (forall other :: other in events && other != tickets[id].eventId ==> events'[other] == events[other])
  {
    && id in tickets && tickets[id].eventId in events
    && var t := tickets[id];
       var e := events[t.eventId];
       && tickets' == tickets[id := t.(paymentStatus := Paid)]
       && events' == events[t.eventId := e.(soldCount := e.soldCount + t.quantity)]
  }

  /** `POST /api/webhooks/stripe` for a notification of type `eventType`
      about checkout session `sessionId`. */
  method HandleStripeWebhook(store: Store, signatureValid: bool, eventType: string, sessionId: string)
    returns (response: WebhookResponse, email: Option<TicketEmail>)
    requires store.Valid()
    modifies store
    ensures store.Valid()
    ensures LedgerStep(old(store.tickets), store.tickets)
    ensures response == if signatureValid then Received else InvalidSignature
    // Nothing happens without a valid signature, for other notification
    // types, or when no ticket carries the session id.
    ensures (|| !signatureValid || eventType != CompletedType
             || forall id :: id in old(store.tickets) ==> old(store.tickets)[id].stripePaymentId != sessionId)
            ==> store.tickets == old(store.tickets) && store.events == old(store.events) && email == None
    // Otherwise one ticket carrying the session id is confirmed, and its
    // e-mail goes out after both writes.
    ensures (&& signatureValid && eventType == CompletedType
             && exists id :: id in old(store.tickets) && old(store.tickets)[id].stripePaymentId == sessionId)
            ==> exists id ::
                  && id in old(store.tickets) && old(store.tickets)[id].stripePaymentId == sessionId
                  && Confirmed(old(store.tickets), old(store.events), store.tickets, store.events, id)
                  && email == Some(EmailFor(old(store.tickets)[id], old(store.events)[old(store.tickets)[id].eventId]))
  {
    email := None;
    if !signatureValid {
      return InvalidSignature, email;
    }
    if eventType == CompletedType {
      var found := store.TicketBySession(sessionId);
      if found.None? {
        return Received, email;
      }
      var id := found.value;
      var ticket := store.tickets[id];
      var event := store.events[ticket.eventId];
      store.SetPaid(id);
      store.IncrementSold(ticket.eventId, ticket.quantity);
      email := Some(EmailFor(ticket, event));
      assert Confirmed(old(store.tickets), old(store.events), store.tickets, store.events, id);
    }
    response := Received;
  }

  /** There is no replay guard: the same confirmation delivered twice marks
      the ticket paid once but adds its quantity to the sold count twice. */
  lemma ReplayCountsTwice(t0: map<string, Ticket>, e0: map<string, Event>,
                          t1: map<string, Ticket>, e1: map<string, Event>,
                          t2: map<string, Ticket>, e2: map<string, Event>, id: string)
    requires Confirmed(t0, e0, t1, e1, id) && Confirmed(t1, e1, t2, e2, id)
    ensures t2 == t1
    ensures var ev := t0[id].eventId;
            e2[ev].soldCount == e0[ev].soldCount + 2 * t0[id].quantity
  {
    assert t1[id] == t0[id].(paymentStatus := Paid);
    assert t1[id].eventId == t0[id].eventId && t1[id].quantity == t0[id].quantity;
  }

  /** There is no capacity guard: confirming a ticket for more seats than
      are left takes the sold count past the capacity. */
  lemma ConfirmationCanOversell(tickets: map<string, Ticket>, events: map<string, Event>,
                                tickets': map<string, Ticket>, events': map<string, Event>, id: string)
    requires Confirmed(tickets, events, tickets', events', id)
    ensures var ev := tickets[id].eventId;
            (events'[ev].soldCount > events'[ev].capacity
             <==> tickets[id].quantity > events[ev].capacity - events[ev].soldCount)
  {
  }
}
