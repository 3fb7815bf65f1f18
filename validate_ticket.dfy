/** app/api/admin/validate-ticket/route.ts: door check-in. An admin submits
    a ticket code; the handler normalises it, finds the ticket, refuses
    check-in more than 24 whole hours before the event and otherwise marks
    the ticket scanned with a conditional write, so that a code is admitted
    at most once. The admin check and the clock are parameters. */
module ValidateTicket {
  import opened Text
  import opened Utils
  import opened Ledger

  const HourMs: int := 1000 * 60 * 60

  /** How many whole hours before the event check-in opens. */
  const CheckInHours: int := 24

  /** The payload returned on success. */
  datatype TicketSummary = TicketSummary(
    eventTitle: string, eventDate: int, name: string, email: string,
    phone: string, quantity: int, totalAmount: string)

  datatype ValidationResponse =
    | Unauthorized                              // 401
    | CodeRequired                              // 400
    | UnknownCode                               // 404
    | TooEarly(eventDate: int)                  // 400
    | AlreadyScanned(scannedAt: Option<int>)    // 400
    | Admitted(ticket: TicketSummary)           // 200

  /** The body's `code` field is present, a string and not empty;
      `rawCode` is None when it is absent or not a string. */
  predicate CodeGiven(rawCode: Option<string>)
  {
    rawCode.Some? && rawCode.value != ""
  }

  /** `rawCode.toUpperCase().trim()`. */
  function NormalizeCode(raw: string): (code: string)
    ensures |code| <= |raw|
  {
    Trim(ToUpperAscii(raw))
  }

  /** The event is in the future and more than 24 whole hours away. */
  predicate TooEarlyFor(eventDate: int, now: int)
    ensures TooEarlyFor(eventDate, now) ==> eventDate - now > CheckInHours * HourMs
  {
    eventDate > now && (eventDate - now) / HourMs > CheckInHours
  }

  /** Check-in is refused exactly when the event starts 25 hours or more
      after now. */
  lemma TooEarlyIffHours(eventDate: int, now: int)
    ensures TooEarlyFor(eventDate, now) <==> eventDate - now >= (CheckInHours + 1) * HourMs
  {
    var d := eventDate - now;
    if d > 0 {
      var h := d / HourMs;
      assert h * HourMs <= d < (h + 1) * HourMs;
    }
  }

  function Summary(t: Ticket, e: Event): (s: TicketSummary)
    ensures s.name == t.name && s.email == t.email && s.phone == t.phone
    ensures s.quantity == t.quantity && s.totalAmount == t.totalAmount
    ensures s.eventTitle == e.title && s.eventDate == e.date
  {
    TicketSummary(e.title, e.date, t.name, t.email, t.phone, t.quantity, t.totalAmount)
  }

  /** `POST /api/admin/validate-ticket`. The clock is read twice: `now` for
      the timing rule and `scanTime` for the scan it records. */
  method ValidateTicket(store: Store, isAdmin: bool, rawCode: Option<string>, now: int, scanTime: int)
    returns (response: ValidationResponse)
    requires store.Valid()
    modifies store
    ensures store.Valid()
    ensures store.events == old(store.events)
    ensures LedgerStep(old(store.tickets), store.tickets)
    ensures !isAdmin ==> response == Unauthorized
    ensures isAdmin && !CodeGiven(rawCode) ==> response == CodeRequired
    ensures (&& isAdmin && CodeGiven(rawCode)
             && forall id :: id in old(store.tickets) ==> old(store.tickets)[id].code != NormalizeCode(rawCode.value))
            ==> response == UnknownCode
    // The ticket with the normalised code decides the rest; its payment
    // status is never consulted.
    ensures forall id :: (&& isAdmin && CodeGiven(rawCode) && id in old(store.tickets)
                          && old(store.tickets)[id].code == NormalizeCode(rawCode.value)) ==>
              var t := old(store.tickets)[id];
              var e := store.events[t.eventId];
              && (TooEarlyFor(e.date, now) ==> response == TooEarly(e.date))
              && (!TooEarlyFor(e.date, now) && t.scanned ==> response == AlreadyScanned(t.scannedAt))
              && (!TooEarlyFor(e.date, now) && !t.scanned ==>
                    && response == Admitted(Summary(t, e))
                    && store.tickets == old(store.tickets)[id := t.(scanned := true, scannedAt := Some(scanTime))])
    ensures !response.Admitted? ==> store.tickets == old(store.tickets)
  {
    if !isAdmin {
      return Unauthorized;
    }
    if !CodeGiven(rawCode) {
      return CodeRequired;
    }
    var code := NormalizeCode(rawCode.value);
    var found := store.TicketByCode(code);
    if found.None? {
      return UnknownCode;
    }
    var id := found.value;
    var ticket := store.tickets[id];
    var event := store.events[ticket.eventId];
    if TooEarlyFor(event.date, now) {
      return TooEarly(event.date);
    }
    var count := store.MarkScanned(id, scanTime);
    if count == 0 {
      return AlreadyScanned(ticket.scannedAt);
    }
    response := Admitted(Summary(ticket, event));
  }

  /** Two check-ins with the same code, one after the other: at most one of
      them admits. */
  method CheckInTwice(store: Store, rawCode: Option<string>, now1: int, scan1: int, now2: int, scan2: int)
    returns (first: ValidationResponse, second: ValidationResponse)
    requires store.Valid()
    modifies store
    ensures store.Valid()
    ensures !(first.Admitted? && second.Admitted?)
  {
    first := ValidateTicket(store, true, rawCode, now1, scan1);
    second := ValidateTicket(store, true, rawCode, now2, scan2);
  }

  lemma UpperCaseAppend(a: string, b: string)
    ensures ToUpperAscii(a + b) == ToUpperAscii(a) + ToUpperAscii(b)
  {
    assert forall i :: 0 <= i < |a + b| ==>
             ToUpperAscii(a + b)[i] == (ToUpperAscii(a) + ToUpperAscii(b))[i];
  }

  lemma UpperCaseSpaces(s: string)
    requires AllSpace(s)
    ensures ToUpperAscii(s) == s
  {
  }

  /** Lookup ignores case and surrounding white space: a stored code is
      found from any spelling that upper-cases to it, padded with white
      space on either side. */
  lemma NormalizeFindsStoredCode(pre: string, raw: string, post: string, code: string)
    requires AllSpace(pre) && AllSpace(post)
    requires ToUpperAscii(raw) == code
    requires IsCodeString(code)
    ensures NormalizeCode(pre + raw + post) == code
  {
    UpperCaseAppend(pre + raw, post);
    UpperCaseAppend(pre, raw);
    UpperCaseSpaces(pre);
    UpperCaseSpaces(post);
    assert ToUpperAscii(pre + raw + post) == pre + code + post;
    TrimPadded(pre, code, post);
  }
}
