/** app/api/admin/raffle/route.ts: draws among paying buyers. The pool is
    the paid tickets (of one event, or of all events), oldest first; the
    action lists it, picks one ticket at random, or finds the buyer with the
    most tickets. The random draw is a parameter. The route reads the store
    and never writes it. */
module Raffle {
  import opened Ledger
  import opened Query
  import opened Listing
  import opened Utils

  const MultipleEvents: string := "Multiple Events"

  /** A pool member: a ticket, its id and the title of its event. */
  datatype Entry = Entry(id: string, ticket: Ticket, eventTitle: string)

  /** One line of the `list` action. */
  datatype ListEntry = ListEntry(
    name: string, email: string, phone: string, quantity: int,
    ticketCode: string, eventName: string, purchasedAt: int)

  /** A ticket spread into the reply, with the event name added. */
  datatype Winner = Winner(id: string, ticket: Ticket, eventName: string)

  datatype RaffleResponse =
    | ActionRequired            // 400
    | NoParticipants            // 404
    | InvalidAction             // 400
    | Listed(entries: seq<ListEntry>)
    | Drawn(winner: Winner)
    | TopBuyer(buyer: Winner)

  /** The pool filter: paid, and of the given event unless `eventId` is
      absent ("") or "all". */
  predicate InPool(t: Ticket, eventId: string)
  {
    t.paymentStatus == Paid && (eventId == "" || eventId == "all" || t.eventId == eventId)
  }

  /** `pool` holds every ticket passing the filter exactly once, with its
      event's title, ordered by creation time. */
  predicate IsPool(pool: seq<Entry>, tickets: map<string, Ticket>, events: map<string, Event>, eventId: string)
  {
    && (forall i :: 0 <= i < |pool| ==>
          && pool[i].id in tickets && pool[i].ticket == tickets[pool[i].id]
          && InPool(pool[i].ticket, eventId)
          && pool[i].ticket.eventId in events
          && pool[i].eventTitle == events[pool[i].ticket.eventId].title)
    && (forall id :: id in tickets && InPool(tickets[id], eventId) ==>
          exists i :: 0 <= i < |pool| && pool[i].id == id)
    && (forall i, j :: 0 <= i < j < |pool| ==> pool[i].id != pool[j].id)
    && (forall i, j :: 0 <= i < j < |pool| ==> pool[i].ticket.createdAt <= pool[j].ticket.createdAt)
  }

  function EntriesFor(rows: seq<(string, Ticket)>, events: map<string, Event>): (pool: seq<Entry>)
    requires forall i :: 0 <= i < |rows| ==> rows[i].1.eventId in events
    ensures |pool| == |rows|
    ensures forall i :: 0 <= i < |rows| ==>
              pool[i] == Entry(rows[i].0, rows[i].1, events[rows[i].1.eventId].title)
  {
    seq(|rows|, i requires 0 <= i < |rows| => Entry(rows[i].0, rows[i].1, events[rows[i].1.eventId].title))
  }

  /** The paid tickets passing the filter, by id. */
  function PoolTickets(tickets: map<string, Ticket>, eventId: string): (m: map<string, Ticket>)
    ensures forall id :: id in m <==> id in tickets && InPool(tickets[id], eventId)
    ensures forall id :: id in m ==> m[id] == tickets[id]
  {
    map id | id in tickets && InPool(tickets[id], eventId) :: tickets[id]
  }

  /** Rows of the filtered tickets in creation order, with their events'
      titles, form the pool. */
  lemma PoolFromRows(rows: seq<(string, Ticket)>, tickets: map<string, Ticket>,
                     events: map<string, Event>, eventId: string)
    requires TicketsReferToEvents(tickets, events)
    requires RowsOf(rows, PoolTickets(tickets, eventId))
    requires forall i, j :: 0 <= i < j < |rows| ==> rows[i].1.createdAt <= rows[j].1.createdAt
    ensures forall i :: 0 <= i < |rows| ==> rows[i].1.eventId in events
    ensures IsPool(EntriesFor(rows, events), tickets, events, eventId)
  {
    var m := PoolTickets(tickets, eventId);
    var pool := EntriesFor(rows, events);
    forall id | id in tickets && InPool(tickets[id], eventId)
      ensures exists i :: 0 <= i < |pool| && pool[i].id == id
    {
      assert id in m;
      var i :| 0 <= i < |rows| && rows[i] == (id, m[id]);
      assert pool[i].id == id;
    }
  }

  /** The sort key `orderBy: { createdAt }` reads. */
  function CreatedAt(m: map<string, Ticket>): (key: map<string, int>)
    ensures key.Keys == m.Keys
    ensures forall id :: id in m ==> key[id] == m[id].createdAt
  {
    map id | id in m :: m[id].createdAt
  }

  /** `prisma.ticket.findMany({ where, include: { event: true }, orderBy:
      { createdAt: 'asc' } })`. */
  method PaidPool(store: Store, eventId: string) returns (pool: seq<Entry>)
    requires store.Valid()
    ensures IsPool(pool, store.tickets, store.events, eventId)
  {
    var m := PoolTickets(store.tickets, eventId);
    var key := CreatedAt(m);
    var rows := SortedRows(m, key, true);
    PoolFromRows(rows, store.tickets, store.events, eventId);
    pool := EntriesFor(rows, store.events);
  }

  function ListEntryOf(e: Entry): ListEntry
  {
    ListEntry(e.ticket.name, e.ticket.email, e.ticket.phone, e.ticket.quantity,
              e.ticket.code, e.eventTitle, e.ticket.createdAt)
  }

  /** The `list` reply: one line per pool ticket, in pool order. */
  function ListEntries(pool: seq<Entry>): (entries: seq<ListEntry>)
    ensures |entries| == |pool|
    ensures forall i :: 0 <= i < |pool| ==>
              && entries[i].ticketCode == pool[i].ticket.code
              && entries[i].eventName == pool[i].eventTitle
              && entries[i].purchasedAt == pool[i].ticket.createdAt
              && entries[i].quantity == pool[i].ticket.quantity
  {
    seq(|pool|, i requires 0 <= i < |pool| => ListEntryOf(pool[i]))
  }

  /** `Math.floor(r * n)`: the index a draw selects among `n` candidates. */
  function DrawIndex(r: real, n: nat): (k: nat)
    requires IsDraw(r) && n > 0
    ensures k < n
  {
    assert 0.0 <= r * n as real < n as real;
    (r * n as real).Floor
  }

  function WinnerOf(e: Entry): Winner
  {
    Winner(e.id, e.ticket, e.eventTitle)
  }

  // ---- top_buyer: grouping by e-mail ----

  /** The distinct e-mails of the pool in order of first appearance: the key
      order of `buyersMap`. */
  function Emails(pool: seq<Entry>): (es: seq<string>)
    ensures |es| <= |pool|
    ensures pool != [] ==> es != [] && es[0] == pool[0].ticket.email
  {
    if pool == [] then []
    else
      var init := Emails(pool[..|pool| - 1]);
      assert |pool| > 1 ==> pool[..|pool| - 1][0] == pool[0];
      var email := pool[|pool| - 1].ticket.email;
      if email in init then init else init + [email]
  }

  /** Number of pool tickets bought with `email`. */
  function Count(pool: seq<Entry>, email: string): (c: nat)
    ensures c <= |pool|
    ensures pool != [] && pool[|pool| - 1].ticket.email == email ==> c > 0
  {
    if pool == [] then 0
    else Count(pool[..|pool| - 1], email) + if pool[|pool| - 1].ticket.email == email then 1 else 0
  }

  /** Seats bought with `email`, over the whole pool. */
  function Total(pool: seq<Entry>, email: string): (seats: int)
    ensures (forall i :: 0 <= i < |pool| ==> pool[i].ticket.quantity >= 0) ==> seats >= 0
  {
    if pool == [] then 0
    else Total(pool[..|pool| - 1], email) + if pool[|pool| - 1].ticket.email == email then pool[|pool| - 1].ticket.quantity else 0
  }

  /** The latest pool ticket bought with `email`. */
  function LastWith(pool: seq<Entry>, email: string): (e: Entry)
    requires Count(pool, email) > 0
    ensures e.ticket.email == email
  {
    if pool[|pool| - 1].ticket.email == email then pool[|pool| - 1]
    else LastWith(pool[..|pool| - 1], email)
  }

  /** What `buyersMap` holds for `email` once the pool is folded in: the
      latest ticket of that buyer with the quantity replaced by the buyer's
      total, named after its event for a single ticket and 'Multiple Events'
      otherwise. */
  function BuyerOf(pool: seq<Entry>, email: string): (b: Winner)
    requires Count(pool, email) > 0
    ensures b.ticket.email == email && b.ticket.quantity == Total(pool, email)
    ensures Count(pool, email) > 1 ==> b.eventName == MultipleEvents
  {
    var last := LastWith(pool, email);
    Winner(last.id, last.ticket.(quantity := Total(pool, email)),
           if Count(pool, email) > 1 then MultipleEvents else last.eventTitle)
  }

  /** `Emails` lists exactly the pool's e-mails, each once. */
  lemma {:induction false} EmailsFacts(pool: seq<Entry>)
    ensures Distinct(Emails(pool))
    ensures forall email :: email in Emails(pool) <==> Count(pool, email) > 0
  {
    if pool != [] {
      EmailsFacts(pool[..|pool| - 1]);
    }
  }

  /** Buyer `k` of `Emails(pool)` bought the most seats, and every buyer
      before it strictly fewer: the first element after a stable sort by
      decreasing quantity. */
  predicate IsTopAt(pool: seq<Entry>, k: int)
  {
    var es := Emails(pool);
    && 0 <= k < |es|
    && (forall j :: 0 <= j < |es| ==> Total(pool, es[j]) <= Total(pool, es[k]))
    && (forall j :: 0 <= j < k ==> Total(pool, es[j]) < Total(pool, es[k]))
  }

  /** The pool's top buyer, as the `top_buyer` action reports it. */
  ghost predicate IsTopBuyer(pool: seq<Entry>, b: Winner)
  {
    exists k :: IsTopAt(pool, k) && Count(pool, Emails(pool)[k]) > 0 && b == BuyerOf(pool, Emails(pool)[k])
  }

  /** `buyersMap.set(ticket.email, ...)` for the next pool ticket `t`. */
  function Merge(buyers: map<string, Winner>, t: Entry): (buyers': map<string, Winner>)
    ensures buyers'.Keys == buyers.Keys + {t.ticket.email}
    ensures forall email :: email in buyers && email != t.ticket.email ==> buyers'[email] == buyers[email]
    ensures buyers'[t.ticket.email].ticket.quantity ==
              t.ticket.quantity + if t.ticket.email in buyers then buyers[t.ticket.email].ticket.quantity else 0
    ensures buyers'[t.ticket.email].id == t.id
  {
    var email := t.ticket.email;
    var currentQty := if email in buyers then buyers[email].ticket.quantity else 0;
    buyers[email := Winner(t.id, t.ticket.(quantity := currentQty + t.ticket.quantity),
                           if email in buyers then MultipleEvents else t.eventTitle)]
  }

  /** `buyersMap` (keys in insertion order, values) after folding in `p`. */
  ghost predicate Folded(p: seq<Entry>, order: seq<string>, buyers: map<string, Winner>)
  {
    && order == Emails(p)
    && (forall email :: email in buyers <==> Count(p, email) > 0)
    && (forall email :: email in buyers ==> Count(p, email) > 0 && buyers[email] == BuyerOf(p, email))
  }

  /** One step of the `forEach` keeps `buyersMap` equal to the grouping of
      the tickets seen so far. */
  lemma MergeStep(pool: seq<Entry>, i: nat, order: seq<string>, buyers: map<string, Winner>)
    requires i < |pool| && Folded(pool[..i], order, buyers)
    ensures var email := pool[i].ticket.email;
            Folded(pool[..i + 1], if email in buyers then order else order + [email], Merge(buyers, pool[i]))
  {
    var p := pool[..i + 1];
    var t := pool[i];
    assert p[..|p| - 1] == pool[..i];
    assert p[|p| - 1] == t;
    EmailsFacts(pool[..i]);
    var buyers' := Merge(buyers, t);
    forall email | email in buyers'
      ensures Count(p, email) > 0 && buyers'[email] == BuyerOf(p, email)
    {
      if email != t.ticket.email {
        assert buyers'[email] == buyers[email];
        assert LastWith(p, email) == LastWith(pool[..i], email);
      } else {
        assert LastWith(p, email) == t;
        if email !in buyers {
          NoTicketsNoSeats(pool[..i], email);
        }
      }
    }
  }

  lemma {:induction false} NoTicketsNoSeats(pool: seq<Entry>, email: string)
    requires Count(pool, email) == 0
    ensures Total(pool, email) == 0
  {
    if pool != [] {
      NoTicketsNoSeats(pool[..|pool| - 1], email);
    }
  }

  /** Index of the first buyer with the largest quantity: the first element
      of `sortedBuyers`, the buyers stably sorted by decreasing quantity. */
  method FirstMax(order: seq<string>, buyers: map<string, Winner>) returns (best: nat)
    requires order != []
    requires forall j :: 0 <= j < |order| ==> order[j] in buyers
    ensures best < |order|
    ensures forall j :: 0 <= j < |order| ==>
              buyers[order[j]].ticket.quantity <= buyers[order[best]].ticket.quantity
    ensures forall j :: 0 <= j < best ==>
              buyers[order[j]].ticket.quantity < buyers[order[best]].ticket.quantity
  {
    best := 0;
    for k := 1 to |order|
      invariant best < |order| && best < k
      invariant forall j :: 0 <= j < k ==>
                  buyers[order[j]].ticket.quantity <= buyers[order[best]].ticket.quantity
      invariant forall j :: 0 <= j < best ==>
                  buyers[order[j]].ticket.quantity < buyers[order[best]].ticket.quantity
    {
      if buyers[order[k]].ticket.quantity > buyers[order[best]].ticket.quantity {
        best := k;
      }
    }
  }

  /** The `top_buyer` action: fold the pool into `buyersMap`, then take the
      first buyer with the largest quantity. */
  method TopBuyerOf(pool: seq<Entry>) returns (buyer: Winner)
    requires pool != []
    ensures IsTopBuyer(pool, buyer)
    ensures forall i :: 0 <= i < |pool| ==> Total(pool, pool[i].ticket.email) <= buyer.ticket.quantity
  {
    var order: seq<string> := [];
    var buyers: map<string, Winner> := map[];
    for i := 0 to |pool|
      invariant Folded(pool[..i], order, buyers)
    {
      MergeStep(pool, i, order, buyers);
      if pool[i].ticket.email !in buyers {
        order := order + [pool[i].ticket.email];
      }
      buyers := Merge(buyers, pool[i]);
    }
    assert pool[..|pool|] == pool;
    EmailsFacts(pool);
    PoolEmailCounted(pool, 0);
    var best := FirstMax(order, buyers);
    buyer := buyers[order[best]];
    assert IsTopAt(pool, best);
    forall i | 0 <= i < |pool|
      ensures Total(pool, pool[i].ticket.email) <= buyer.ticket.quantity
    {
      PoolEmailCounted(pool, i);
      var j :| 0 <= j < |order| && order[j] == pool[i].ticket.email;
    }
  }

  /** Every pool ticket's e-mail is counted. */
  lemma {:induction false} PoolEmailCounted(pool: seq<Entry>, i: nat)
    requires i < |pool|
    ensures Count(pool, pool[i].ticket.email) > 0
  {
    if i < |pool| - 1 {
      assert pool[..|pool| - 1][i] == pool[i];
      PoolEmailCounted(pool[..|pool| - 1], i);
    }
  }

  /** Appending one ticket to the pool. */
  lemma Snoc(p: seq<Entry>, x: Entry)
    ensures (p + [x])[..|p|] == p
    ensures forall email :: Count(p + [x], email) == Count(p, email) + if x.ticket.email == email then 1 else 0
    ensures forall email :: Total(p + [x], email) == Total(p, email) + if x.ticket.email == email then x.ticket.quantity else 0
    ensures Emails(p + [x]) == if x.ticket.email in Emails(p) then Emails(p) else Emails(p) + [x.ticket.email]
    ensures LastWith(p + [x], x.ticket.email) == x
  {
    assert (p + [x])[..|p|] == p;
  }

  /** The pool A:3, B:1, A:2 folds to buyers [A, B] with totals 5 and 1. */
  lemma ExampleTotals(pool: seq<Entry>, a: string, b: string)
    requires a != b && |pool| == 3
    requires pool[0].ticket.email == a && pool[0].ticket.quantity == 3
    requires pool[1].ticket.email == b && pool[1].ticket.quantity == 1
    requires pool[2].ticket.email == a && pool[2].ticket.quantity == 2
    ensures Emails(pool) == [a, b]
    ensures Total(pool, a) == 5 && Total(pool, b) == 1
    ensures Count(pool, a) == 2 && LastWith(pool, a) == pool[2]
  {
    var p0: seq<Entry> := [];
    var p1 := p0 + [pool[0]];
    var p2 := p1 + [pool[1]];
    assert pool == p2 + [pool[2]];
    Snoc(p0, pool[0]);
    Snoc(p1, pool[1]);
    Snoc(p2, pool[2]);
    assert Emails(p1) == [a];
  }

  /** Grouping adds up a buyer's tickets: A buying 3, then B 1, then A 2
      gives A a total of 5 over 'Multiple Events', ahead of B with 1. */
  lemma TopBuyerExample(pool: seq<Entry>, a: string, b: string)
    requires a != b && |pool| == 3
    requires pool[0].ticket.email == a && pool[0].ticket.quantity == 3
    requires pool[1].ticket.email == b && pool[1].ticket.quantity == 1
    requires pool[2].ticket.email == a && pool[2].ticket.quantity == 2
    ensures Emails(pool) == [a, b]
    ensures IsTopAt(pool, 0) && !IsTopAt(pool, 1)
    ensures BuyerOf(pool, a).ticket.quantity == 5
    ensures BuyerOf(pool, a).eventName == MultipleEvents
    ensures BuyerOf(pool, a).id == pool[2].id
  {
    ExampleTotals(pool, a, b);
  }

  /** `POST /api/admin/raffle` for body `{ eventId, action }`; `eventId` is
      "" when absent. `pool` is the pool the handler reads. */
  method Raffle(store: Store, eventId: string, action: string, draw: real)
    returns (response: RaffleResponse, ghost pool: seq<Entry>)
    requires store.Valid()
    requires IsDraw(draw)
    ensures action == "" ==> response == ActionRequired
    ensures action != "" ==> IsPool(pool, store.tickets, store.events, eventId)
    // The empty pool is reported before the action is looked at.
    ensures action != "" ==>
              (response == NoParticipants <==> forall id :: id in store.tickets ==> !InPool(store.tickets[id], eventId))
    ensures action != "" && pool != [] ==>
              if action == "list" then response == Listed(ListEntries(pool))
              else if action == "random" then response == Drawn(WinnerOf(pool[DrawIndex(draw, |pool|)]))
              else if action == "top_buyer" then
                response.TopBuyer? && IsTopBuyer(pool, response.buyer)
              else response == InvalidAction
  {
    if action == "" {
      return ActionRequired, [];
    }
    var paid := PaidPool(store, eventId);
    pool := paid;
    if |paid| == 0 {
      return NoParticipants, pool;
    }
    assert paid[0].id in store.tickets && InPool(store.tickets[paid[0].id], eventId);
    if action == "list" {
      response := Listed(ListEntries(paid));
    } else if action == "random" {
      response := Drawn(WinnerOf(paid[DrawIndex(draw, |paid|)]));
    } else if action == "top_buyer" {
      var buyer := TopBuyerOf(paid);
      response := TopBuyer(buyer);
    } else {
      response := InvalidAction;
    }
  }
}
