/** app/admin/page.tsx: the admin dashboard. A visitor who is not an admin
    is sent to the log-in page before anything is read; an admin gets the
    events, latest first, four totals over them, and the events serialised
    with every missing optional text replaced by "". Whether the visitor is
    an admin and the clock are parameters. */
module AdminPage {
  import opened Ledger
  import opened Listing

  datatype Stats = Stats(totalEvents: nat, upcomingEvents: nat, totalTicketsSold: int, totalCapacity: int)

  /** One element of `serializedEvents`. Dates stay in milliseconds. */
  datatype SerializedEvent = SerializedEvent(
    id: string,
    title: string,
    slug: string,
    imagePath: string,
    price: string,
    capacity: int,
    soldCount: int,
    locationName: string,
    locationAddress: string,
    published: bool,
    stripePaymentLink: string,
    description: string,
    locationMapsUrl: string,
    locationLink: string,
    date: int,
    createdAt: int)

  datatype DashboardResponse =
    | RedirectToLogin
    | Dashboard(stats: Stats, events: seq<SerializedEvent>)

  /** `events.reduce((sum, event) => sum + event.soldCount, 0)` */
  function TotalSold(events: seq<Event>): (sold: int)
    ensures (forall i :: 0 <= i < |events| ==> events[i].soldCount >= 0) ==> sold >= 0
    ensures |events| == 1 ==> sold == events[0].soldCount
  {
    if events == [] then 0 else TotalSold(events[..|events| - 1]) + events[|events| - 1].soldCount
  }

  /** `events.reduce((sum, event) => sum + event.capacity, 0)` */
  function TotalCapacity(events: seq<Event>): (capacity: int)
    ensures (forall i :: 0 <= i < |events| ==> events[i].capacity >= 0) ==> capacity >= 0
    ensures |events| == 1 ==> capacity == events[0].capacity
  {
    if events == [] then 0 else TotalCapacity(events[..|events| - 1]) + events[|events| - 1].capacity
  }

  /** `events.filter(event => event.date >= now).length` */
  function Upcoming(events: seq<Event>, now: int): (n: nat)
    ensures n <= |events|
  {
    if events == [] then 0
    else Upcoming(events[..|events| - 1], now) + if events[|events| - 1].date >= now then 1 else 0
  }

  function StatsOf(events: seq<Event>, now: int): (s: Stats)
    ensures s.totalEvents == |events| && s.upcomingEvents <= s.totalEvents
  {
    Stats(|events|, Upcoming(events, now), TotalSold(events), TotalCapacity(events))
  }

  /** The totals add up piece by piece, so they do not depend on how the
      events are split. */
  lemma {:induction false} TotalsAppend(a: seq<Event>, b: seq<Event>, now: int)
    ensures TotalSold(a + b) == TotalSold(a) + TotalSold(b)
    ensures TotalCapacity(a + b) == TotalCapacity(a) + TotalCapacity(b)
    ensures Upcoming(a + b, now) == Upcoming(a, now) + Upcoming(b, now)
    decreases |b|
  {
    if b == [] {
      assert a + b == a;
    } else {
      var b' := b[..|b| - 1];
      assert (a + b)[..|a + b| - 1] == a + b';
      assert (a + b)[|a + b| - 1] == b[|b| - 1];
      TotalsAppend(a, b', now);
    }
  }

  /** No event upcoming is counted twice: only an event dated now or later
      counts, and all of them do. */
  lemma {:induction false} UpcomingCountsFuture(events: seq<Event>, now: int)
    ensures Upcoming(events, now) == |events| <==> forall i :: 0 <= i < |events| ==> events[i].date >= now
    ensures Upcoming(events, now) == 0 <==> forall i :: 0 <= i < |events| ==> events[i].date < now
  {
    if events != [] {
      var init := events[..|events| - 1];
      UpcomingCountsFuture(init, now);
      assert forall i :: 0 <= i < |init| ==> init[i] == events[i];
    }
  }

  /** If no event is oversold, the dashboard never shows more tickets sold
      than total capacity. */
  lemma {:induction false} SoldWithinCapacity(events: seq<Event>)
    requires forall i :: 0 <= i < |events| ==> events[i].soldCount <= events[i].capacity
    ensures TotalSold(events) <= TotalCapacity(events)
  {
    if events != [] {
      var init := events[..|events| - 1];
      assert forall i :: 0 <= i < |init| ==> init[i] == events[i];
      SoldWithinCapacity(init);
    }
  }

  /** `value || ""` for a nullable text column. */
  function OrEmpty(value: Option<string>): (s: string)
    ensures value.None? ==> s == ""
    ensures value.Some? ==> s == value.value
  {
    if value.Some? then value.value else ""
  }

  function Serialize(id: string, e: Event): (r: SerializedEvent)
    ensures r.id == id && r.title == e.title && r.slug == e.slug && r.price == e.price
    ensures r.capacity == e.capacity && r.soldCount == e.soldCount && r.published == e.published
    ensures r.date == e.date && r.createdAt == e.createdAt
    ensures r.stripePaymentLink == OrEmpty(e.stripePaymentLink)
    ensures r.description == OrEmpty(e.description)
    ensures r.locationMapsUrl == OrEmpty(e.locationMapsUrl) && r.locationLink == r.locationMapsUrl
  {
    SerializedEvent(
      id, e.title, e.slug, e.imagePath, e.price, e.capacity, e.soldCount,
      e.locationName, e.locationAddress, e.published,
      OrEmpty(e.stripePaymentLink), OrEmpty(e.description),
      OrEmpty(e.locationMapsUrl), OrEmpty(e.locationMapsUrl),
      e.date, e.createdAt)
  }

  function EventsOf(rows: seq<(string, Event)>): (events: seq<Event>)
    ensures |events| == |rows|
    ensures forall i :: 0 <= i < |rows| ==> events[i] == rows[i].1
  {
    seq(|rows|, i requires 0 <= i < |rows| => rows[i].1)
  }

  function SerializeAll(rows: seq<(string, Event)>): (out: seq<SerializedEvent>)
    ensures |out| == |rows|
    ensures forall i :: 0 <= i < |rows| ==> out[i] == Serialize(rows[i].0, rows[i].1)
  {
    seq(|rows|, i requires 0 <= i < |rows| => Serialize(rows[i].0, rows[i].1))
  }

  /** The dashboard `AdminDashboard()` renders. */
  method AdminDashboard(store: Store, isAdmin: bool, now: int) returns (response: DashboardResponse)
    ensures !isAdmin <==> response == RedirectToLogin
    ensures response.Dashboard? ==>
              exists rows ::
                && RowsOf(rows, store.events) && DateOrdered(rows, false)
                && response.stats == StatsOf(EventsOf(rows), now)
                && response.events == SerializeAll(rows)
    ensures response.Dashboard? ==> response.stats.totalEvents == |store.events|
  {
    if !isAdmin {
      return RedirectToLogin;
    }
    var rows := EventsByDate(store.events, false);
    response := Dashboard(StatsOf(EventsOf(rows), now), SerializeAll(rows));
  }
}
