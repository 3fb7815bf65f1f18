/** The ticket ledger the route handlers share: the Prisma `Event` and
    `Ticket` tables, held as maps from record id to record. Each Prisma call
    the handlers make is one method of `Store` and happens atomically. */
module Ledger {

  datatype Option<T> = None | Some(value: T)

  /** A ticket is created `Pending` (the schema default) and becomes `Paid`
      when the payment provider confirms the checkout session. */
  datatype PaymentStatus = Pending | Paid

  /** One row of the `Event` table. Dates are milliseconds since the epoch;
      nullable columns are `Option`s. */
  datatype Event = Event(
    title: string,
    slug: string,
    description: Option<string>,
    date: int,
    price: string,
    capacity: int,
    soldCount: int,
    locationName: string,
    locationAddress: string,
    locationMapsUrl: Option<string>,
    imagePath: string,
    stripePaymentLink: Option<string>,
    published: bool,
    isExternal: bool,
    externalUrl: Option<string>,
    createdAt: int)

  /** One row of the `Ticket` table. */
  datatype Ticket = Ticket(
    code: string,
    eventId: string,
    name: string,
    email: string,
    phone: string,
    quantity: int,
    totalAmount: string,
    stripePaymentId: string,
    paymentStatus: PaymentStatus,
    scanned: bool,
    scannedAt: Option<int>,
    createdAt: int)

  /** Every ticket belongs to an event of the store (the foreign key). */
  predicate TicketsReferToEvents(tickets: map<string, Ticket>, events: map<string, Event>)
  {
    forall id :: id in tickets ==> tickets[id].eventId in events
  }

  /** `Ticket.code` is a unique column. */
  predicate CodesUnique(tickets: map<string, Ticket>)
  {
    forall a, b :: a in tickets && b in tickets && tickets[a].code == tickets[b].code ==> a == b
  }

  /** `Event.slug` is a unique column. */
  predicate SlugsUnique(events: map<string, Event>)
  {
    forall a, b :: a in events && b in events && events[a].slug == events[b].slug ==> a == b
  }

  /** What a handler may do to one ticket: the purchase data never changes,
      a paid ticket stays paid, and a scanned ticket stays scanned with the
      time of its first scan. */
  predicate TicketStep(before: Ticket, after: Ticket)
  {
    && after.code == before.code
    && after.eventId == before.eventId
    && after.name == before.name
    && after.email == before.email
    && after.phone == before.phone
    && after.quantity == before.quantity
    && after.totalAmount == before.totalAmount
    && after.stripePaymentId == before.stripePaymentId
    && after.createdAt == before.createdAt
    && (before.paymentStatus == Paid ==> after.paymentStatus == Paid)
    && (before.scanned ==> after.scanned && after.scannedAt == before.scannedAt)
  }

  /** No ticket disappears and every ticket changes only as TicketStep allows. */
  predicate LedgerStep(before: map<string, Ticket>, after: map<string, Ticket>)
  {
    forall id :: id in before ==> id in after && TicketStep(before[id], after[id])
  }

  /** Ledger steps compose, so whatever sequence of requests the handlers
      serve, a scanned ticket is never unscanned and a paid one never
      returns to pending. */
  lemma LedgerStepTransitive(a: map<string, Ticket>, b: map<string, Ticket>, c: map<string, Ticket>)
    requires LedgerStep(a, b) && LedgerStep(b, c)
    ensures LedgerStep(a, c)
    ensures forall id :: id in a && a[id].scanned ==> c[id].scanned && c[id].scannedAt == a[id].scannedAt
    ensures forall id :: id in a && a[id].paymentStatus == Paid ==> c[id].paymentStatus == Paid
  {
    forall id | id in a ensures id in c && TicketStep(a[id], c[id]) {
      assert id in b && TicketStep(a[id], b[id]);
      assert TicketStep(b[id], c[id]);
    }
  }

  /** Rewriting one ticket in a way TicketStep allows is a ledger step and
      keeps the codes unique and the tickets attached to their events. */
  lemma RewriteTicket(tickets: map<string, Ticket>, events: map<string, Event>, id: string, t: Ticket)
    requires id in tickets && TicketStep(tickets[id], t)
    requires TicketsReferToEvents(tickets, events) && CodesUnique(tickets)
    ensures LedgerStep(tickets, tickets[id := t])
    ensures TicketsReferToEvents(tickets[id := t], events) && CodesUnique(tickets[id := t])
  {
    var after := tickets[id := t];
    forall a, b | a in after && b in after && after[a].code == after[b].code
      ensures a == b
    {
      assert after[a].code == tickets[a].code && after[b].code == tickets[b].code;
    }
  }

  /** The database: the two tables the handlers read and write. */
  class Store {
    var events: map<string, Event>
    var tickets: map<string, Ticket>

    ghost predicate Valid()
      reads this
    {
      TicketsReferToEvents(tickets, events) && CodesUnique(tickets) && SlugsUnique(events)
    }

    constructor ()
      ensures Valid()
      ensures events == map[] && tickets == map[]
    {
      events := map[];
      tickets := map[];
    }

    /** `prisma.ticket.findUnique({ where: { code } })`. */
    method TicketByCode(code: string) returns (found: Option<string>)
      requires Valid()
      ensures found.Some? ==> found.value in tickets && tickets[found.value].code == code
      ensures found.None? ==> forall id :: id in tickets ==> tickets[id].code != code
      ensures found.Some? ==> forall id :: id in tickets && tickets[id].code == code ==> id == found.value
    {
      if exists id :: id in tickets && tickets[id].code == code {
        var id :| id in tickets && tickets[id].code == code;
        found := Some(id);
      } else {
        found := None;
      }
    }

    /** `prisma.ticket.findFirst({ where: { stripePaymentId } })`: some
        ticket carrying that checkout session id, if there is one. */
    method TicketBySession(sessionId: string) returns (found: Option<string>)
      ensures found.Some? ==> found.value in tickets && tickets[found.value].stripePaymentId == sessionId
      ensures found.None? ==> forall id :: id in tickets ==> tickets[id].stripePaymentId != sessionId
    {
      if exists id :: id in tickets && tickets[id].stripePaymentId == sessionId {
        var id :| id in tickets && tickets[id].stripePaymentId == sessionId;
        found := Some(id);
      } else {
        found := None;
      }
    }

    /** Whether `prisma.event.findUnique({ where: { slug } })` finds a row. */
    method SlugTaken(slug: string) returns (taken: bool)
      ensures taken <==> exists id :: id in events && events[id].slug == slug
    {
      taken := exists id :: id in events && events[id].slug == slug;
    }

    /** `prisma.ticket.create`: fails, as a constraint violation does, when
        the id or the code is already in use or the event does not exist. */
    method InsertTicket(id: string, t: Ticket) returns (ok: bool)
      requires Valid()
      modifies this
      ensures Valid()
      ensures events == old(events)
      ensures ok <==> id !in old(tickets) && t.eventId in events
                      && forall other :: other in old(tickets) ==> old(tickets)[other].code != t.code
      ensures tickets == if ok then old(tickets)[id := t] else old(tickets)
      ensures LedgerStep(old(tickets), tickets)
    {
      ok := id !in tickets && t.eventId in events
            && forall other :: other in tickets ==> tickets[other].code != t.code;
      if ok {
        tickets := tickets[id := t];
      }
    }

    /** `prisma.event.create`: fails when the id or the slug is already in use. */
    method InsertEvent(id: string, e: Event) returns (ok: bool)
      requires Valid()
      modifies this
      ensures Valid()
      ensures tickets == old(tickets)
      ensures ok <==> id !in old(events) && forall other :: other in old(events) ==> old(events)[other].slug != e.slug
      ensures events == if ok then old(events)[id := e] else old(events)
    {
      ok := id !in events && forall other :: other in events ==> events[other].slug != e.slug;
      if ok {
        events := events[id := e];
      }
    }

    /** `prisma.ticket.update({ where: { id }, data: { paymentStatus: 'PAID' } })`. */
    method SetPaid(id: string)
      requires Valid() && id in tickets
      modifies this
      ensures Valid()
      ensures events == old(events)
      ensures tickets == old(tickets)[id := old(tickets)[id].(paymentStatus := Paid)]
      ensures LedgerStep(old(tickets), tickets)
    {
      RewriteTicket(tickets, events, id, tickets[id].(paymentStatus := Paid));
      tickets := tickets[id := tickets[id].(paymentStatus := Paid)];
    }

    /** `prisma.event.update({ where: { id }, data: { soldCount: { increment: amount } } })`. */
    method IncrementSold(id: string, amount: int)
      requires Valid() && id in events
      modifies this
      ensures Valid()
      ensures tickets == old(tickets)
      ensures events == old(events)[id := old(events)[id].(soldCount := old(events)[id].soldCount + amount)]
    {
      events := events[id := events[id].(soldCount := events[id].soldCount + amount)];
    }

    /** `prisma.ticket.updateMany({ where: { id, scanned: false }, data:
        { scanned: true, scannedAt: now } })`: a conditional write that
        reports how many rows it changed. */
    method MarkScanned(id: string, now: int) returns (count: nat)
      requires Valid()
      modifies this
      ensures Valid()
      ensures events == old(events)
      ensures count <= 1
      ensures count == 1 <==> id in old(tickets) && !old(tickets)[id].scanned
      ensures tickets == if count == 1
                         then old(tickets)[id := old(tickets)[id].(scanned := true, scannedAt := Some(now))]
                         else old(tickets)
      ensures LedgerStep(old(tickets), tickets)
    {
      if id in tickets && !tickets[id].scanned {
        RewriteTicket(tickets, events, id, tickets[id].(scanned := true, scannedAt := Some(now)));
        tickets := tickets[id := tickets[id].(scanned := true, scannedAt := Some(now))];
        count := 1;
      } else {
        count := 0;
      }
    }
  }
}
