/** app/page.tsx: the public home page. It lists the published events that
    have not started yet, soonest first, and gives each card an availability
    badge. The clock is a parameter. */
module HomePage {
  import opened Text
  import opened Utils
  import opened Ledger
  import opened Listing

  /** The rows the page's query selects: published and dated now or later. */
  predicate Listed(e: Event, now: int)
  {
    e.published && e.date >= now
  }

  function ListedEvents(events: map<string, Event>, now: int): (m: map<string, Event>)
    ensures forall id :: id in m <==> id in events && Listed(events[id], now)
    ensures forall id :: id in m ==> m[id] == events[id]
  {
    map id | id in events && Listed(events[id], now) :: events[id]
  }

  /** `prisma.event.findMany({ orderBy: { date: 'asc' }, where: { date:
      { gte: now }, published: true } })`. */
  method HomeEvents(events: map<string, Event>, now: int) returns (rows: seq<(string, Event)>)
    ensures RowsOf(rows, ListedEvents(events, now))
    ensures DateOrdered(rows, true)
    ensures forall i :: 0 <= i < |rows| ==> rows[i].0 in events && rows[i].1.published && rows[i].1.date >= now
  {
    rows := EventsByDate(ListedEvents(events, now), true);
  }

  predicate IsSoldOut(e: Event)
    ensures IsSoldOut(e) <==> AvailableTickets(e) <= 0
  {
    e.soldCount >= e.capacity
  }

  /** Seats left; negative when the event is oversold. */
  function AvailableTickets(e: Event): (left: int)
    ensures left < 0 <==> e.soldCount > e.capacity
    ensures e.soldCount >= 0 ==> left <= e.capacity
  {
    e.capacity - e.soldCount
  }

  predicate IsLowStock(e: Event)
    ensures IsLowStock(e) ==> 1 <= AvailableTickets(e) <= 10
  {
    !IsSoldOut(e) && AvailableTickets(e) <= 10
  }

  /** An event is sold out exactly when no seat is left, and low on stock
      exactly when one to ten seats are left; never both. */
  lemma StockLevels(e: Event)
    ensures IsSoldOut(e) <==> AvailableTickets(e) <= 0
    ensures IsLowStock(e) <==> 1 <= AvailableTickets(e) <= 10
    ensures !(IsSoldOut(e) && IsLowStock(e))
  {
  }

  /** The card's badge: "Sold Out", or the number of seats left. */
  function Badge(e: Event): (b: string)
    ensures b == "Sold Out" <==> IsSoldOut(e)
  {
    if IsSoldOut(e) then "Sold Out"
    else
      var b := IntToDecimal(AvailableTickets(e)) + " locuri";
      assert IsDigit(b[0]) && !IsDigit("Sold Out"[0]);
      b
  }

  /** The badge of an event that is not sold out starts with the number of
      seats left, which reads back from it. */
  lemma BadgeReadsBack(e: Event)
    requires !IsSoldOut(e)
    ensures AvailableTickets(e) >= 1
    ensures ParsePriceToNumber(Badge(e)) == AvailableTickets(e)
  {
    var n := AvailableTickets(e);
    assert Badge(e) == [] + NatToDecimal(n) + " locuri";
    ParsePriceReadsFirstRun([], NatToDecimal(n), " locuri");
  }
}
