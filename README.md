# XposureEvents ticket ledger, in Dafny

This project models the server-side core of the XposureEvents ticketing
site. The site sells event tickets through a payment provider, confirms
payments from the provider's webhook and checks tickets in at the door. Its
administrators create events, draw raffles among paying buyers and see a
dashboard.

The heart of the model is the **ticket ledger** (`Ledger.Store`). It holds
two tables, events and tickets, as maps from id to record, and has one
method per database call the handlers make. Three handlers change the
ledger:

- checkout inserts one pending ticket;
- the payment webhook marks a ticket paid and adds its quantity to the
  event's sold count;
- door validation marks a ticket scanned, once.

Every ledger write is proved to be a `LedgerStep`. A step removes no ticket
and never changes a ticket's purchase data. Payment only goes from pending
to paid, and a scan only goes from unscanned to scanned, keeping the first
scan time. The steps compose (`LedgerStepTransitive`).

Around the ledger sit smaller pieces:

- event creation, with its slug derivation and payment-mode rules;
- the raffle's pool, random pick and top-buyer grouping;
- the admin log-in rate limiter;
- the ticket-code generator and the price parser;
- the PDF word wrap, which measures lines in UTF-16 code units as JavaScript's `length` does;
- the admin route guard;
- the public home page's listing and stock badges;
- the admin dashboard's totals and serialisation.

The clock (milliseconds since the epoch), the random draws (reals in
[0, 1)), the ids the database assigns, the payment provider's answers and
the results of signature, token and credential checks are all parameters.

Files, one module each: `text.dfy` (string helpers), `utils.dfy`,
`slug.dfy`, `wrap.dfy`, `middleware.dfy`, `query.dfy` (the ordering of
`findMany ... orderBy`), `ledger.dfy`, `listing.dfy`, `checkout.dfy`,
`webhook.dfy`, `validate_ticket.dfy`, `events_route.dfy`, `raffle.dfy`,
`admin_login.dfy`, `home_page.dfy`, `admin_page.dfy`.

## Model

| member | source | states |
|---|---|---|
| Ledger.LedgerStepTransitive | app/api/webhooks/stripe/route.ts:47-52 | Two ledger steps make one; a paid ticket stays paid and a scanned ticket keeps its first scan time over any run of handlers |
| Ledger.RewriteTicket | app/api/admin/validate-ticket/route.ts:54-63 | Rewriting one ticket as a ticket step allows is a ledger step and keeps the foreign-key and unique-code invariants |
| Ledger.Store.TicketByCode | app/api/admin/validate-ticket/route.ts:23-26 | Finds the one ticket with the code, or reports that no ticket has it |
| Ledger.Store.TicketBySession | app/api/webhooks/stripe/route.ts:38-41 | Finds a ticket whose payment id is the session id, or reports that none has it |
| Ledger.Store.SlugTaken | app/api/admin/events/route.ts:89-91 | True exactly when some event already has the slug |
| Ledger.Store.InsertTicket | app/api/create-checkout-session/route.ts:81-92 | Adds the ticket exactly when its id and code are new and its event exists; otherwise nothing changes; events untouched; a ledger step |
| Ledger.Store.InsertEvent | app/api/admin/events/route.ts:100-122 | Adds the event exactly when its id and slug are new; otherwise nothing changes; tickets untouched |
| Ledger.Store.SetPaid | app/api/webhooks/stripe/route.ts:47-52 | Only that ticket's payment status changes, to paid; a ledger step |
| Ledger.Store.IncrementSold | app/api/webhooks/stripe/route.ts:55-60 | Only that event's sold count changes, by exactly the amount, with no capacity check |
| Ledger.Store.MarkScanned | app/api/admin/validate-ticket/route.ts:54-63 | Writes scanned and the scan time only if the ticket was unscanned, and reports 1 exactly then, else 0; a ledger step |
| Query.Insert | app/api/admin/events/route.ts:24-26 | Insertion adds the id to the multiset of ids and nothing else |
| Query.InsertMembers | app/api/admin/events/route.ts:24-26 | After insertion the members are the old ones plus the new id |
| Query.InsertSorted | app/api/admin/events/route.ts:24-26 | Insertion into a sequence sorted by key keeps it sorted |
| Query.InsertDistinct | app/api/admin/events/route.ts:24-26 | Inserting a new id into a sequence without repeats gives one without repeats |
| Query.SortIdsByKey | app/api/admin/events/route.ts:24-26 | Every keyed id appears exactly once, ordered by key in the requested direction |
| Query.DistinctCardinality | app/api/admin/events/route.ts:24-26 | A sequence without repeats has as many elements as its set |
| Listing.RowsFor | app/api/admin/events/route.ts:24-26 | The rows for the ids, in their order, with each id's record |
| Listing.RowsForAllIds | app/api/admin/events/route.ts:24-26 | The ids of every entry, each once, give every row of the table once |
| Listing.SortedRows | app/api/admin/raffle/route.ts:23-31 | Every row of the table once, ordered by the key column |
| Listing.EventsByDate | app/admin/page.tsx:24-26 | Every event once, ordered by date in the requested direction |
| Utils.CharIndex | lib/utils.ts:6 | `floor(r * 36)` is a valid alphabet position for every draw in [0, 1) |
| Utils.AlphabetPositions | lib/utils.ts:3 | The alphabet has 36 characters: A-Z at positions 0-25, then 0-9 |
| Utils.AlphabetIsCodeChars | lib/utils.ts:3 | The alphabet holds exactly the upper-case ASCII letters and the digits |
| Utils.GenerateTicketCode | lib/utils.ts:2-9 | The code has exactly `length` characters (none when length <= 0), the i-th chosen by the i-th draw, all from the alphabet |
| Utils.FirstDigitFrom | lib/utils.ts:13 | The position of the first digit at or after i, or the end when there is none |
| Utils.DigitRunEnd | lib/utils.ts:13 | The end of the maximal digit run starting at i |
| Utils.ParsePriceToNumber | lib/utils.ts:12-15 | Never negative; 0 when the price has no digit |
| Utils.ParsePriceReadsFirstRun | lib/utils.ts:13-14 | The value is that of the first maximal digit run, whatever comes before or after it |
| Utils.ParsePriceOfLei | lib/utils.ts:12-15 | Any amount rendered as "<n> LEI" parses back to n |
| Utils.ParsePrice150 | lib/utils.ts:13-14 | "150 LEI" parses to 150 |
| Utils.ParsePrice1250 | lib/utils.ts:13-14 | "12.50" parses to 12: the part after the first run is ignored |
| Utils.ParsePriceGratuit | lib/utils.ts:14 | "GRATUIT" has no digit and parses to 0 |
| Text.LeadingSpaces | app/api/admin/validate-ticket/route.ts:20 | Counts exactly the white space that starts the string |
| Text.TrailingSpaces | app/api/admin/validate-ticket/route.ts:20 | Counts exactly the white space that ends the string |
| Text.Trim | app/api/admin/validate-ticket/route.ts:20 | `trim()`: no longer than the input, and neither starts nor ends with white space |
| Text.TrimPadded | app/api/auth/admin-login/route.ts:18 | Trimming white space, then a core, then white space gives back the core |
| Text.ToUpperAscii | app/api/admin/validate-ticket/route.ts:20 | Upper-cases each character in place; the length is kept |
| Text.DigitChar | lib/utils.ts:13-14 | The digit character for d reads back as d |
| Text.NatToDecimal | app/api/create-checkout-session/route.ts:89 | `${n}` for a natural number: non-empty digits without a leading zero, whose value is n |
| Text.IntToDecimal | app/page.tsx:176 | `${n}` for an integer: the natural rendering, behind a '-' when negative |
| Text.CodeUnits | lib/email.ts:147 | A character takes two UTF-16 code units above U+FFFF and one otherwise |
| Text.JsLength | lib/email.ts:147 | `length` counts UTF-16 code units: at least the number of characters and at most twice it |
| Text.JsLengthAppend | lib/email.ts:147 | The length of a concatenation is the sum of the lengths |
| Text.JsLengthSpaced | lib/email.ts:147 | `line + ' ' + word` is one code unit longer than the line and the word together |
| Text.JsLengthBasic | lib/email.ts:147 | Without characters above U+FFFF the length is the number of characters |
| Slug.ToLower | app/api/admin/events/route.ts:8 | `toLowerCase()` lower-cases each character and keeps the length |
| Slug.LowerChar | app/api/admin/events/route.ts:8 | A-Z become a-z; slug characters are kept; a changed character only moves up to its lower-case form |
| Slug.DecomposeChar | app/api/admin/events/route.ts:9 | A character decomposes into itself or into a base character followed by one combining mark |
| Slug.Decompose | app/api/admin/events/route.ts:9 | Decomposition at least keeps and at most doubles the length |
| Slug.StripMarks | app/api/admin/events/route.ts:10 | No combining mark U+0300-U+036F is left |
| Slug.DropSeparators | app/api/admin/events/route.ts:11 | Removes exactly the leading run of characters other than a-z and 0-9 |
| Slug.Collapse | app/api/admin/events/route.ts:11 | Only a-z, 0-9 and '-' remain, never two hyphens in a row; empty exactly when the input is |
| Slug.LeadingHyphens | app/api/admin/events/route.ts:12 | Counts exactly the hyphens that start the string |
| Slug.TrailingHyphens | app/api/admin/events/route.ts:12 | Counts exactly the hyphens that end the string |
| Slug.TrimHyphens | app/api/admin/events/route.ts:12 | The result neither starts nor ends with '-', and is a slug when the input was collapsed; which piece is kept is stated by Slug.TrimHyphensPadded |
| Slug.LeadingHyphensOf | app/api/admin/events/route.ts:12 | A run of hyphens before a character other than '-' is counted exactly |
| Slug.TrailingHyphensOf | app/api/admin/events/route.ts:12 | A run of hyphens after a character other than '-' is counted exactly |
| Slug.TrimHyphensPadded | app/api/admin/events/route.ts:12 | Hyphens, then a core without a hyphen at either end, then hyphens, trims to exactly the core ("--a-b--" to "a-b"); hyphens alone trim to "" |
| Slug.GenerateSlug | app/api/admin/events/route.ts:6-13 | Every slug has only a-z, 0-9 and '-', no '-' at either end and no "--" |
| Slug.DecomposeSlugChars | app/api/admin/events/route.ts:9 | Decomposition leaves slug characters alone |
| Slug.StripMarksSlugChars | app/api/admin/events/route.ts:10 | Mark removal leaves slug characters alone |
| Slug.CollapseSlugShaped | app/api/admin/events/route.ts:11 | Collapsing leaves a string of slug characters without "--" alone |
| Slug.TrimSlugShaped | app/api/admin/events/route.ts:12 | Trimming leaves a slug alone |
| Slug.LowerSlugChars | app/api/admin/events/route.ts:8 | Lower-casing leaves slug characters alone |
| Slug.SlugFixedPoint | app/api/admin/events/route.ts:6-13 | A slug is its own slug |
| Slug.SlugIdempotent | app/api/admin/events/route.ts:6-13 | slug(slug(t)) == slug(t) for every title |
| Slug.BaseLetters | app/api/admin/events/route.ts:9-10 | Replaces each character by its base letter, keeping the length |
| Slug.StripDecomposeChar | app/api/admin/events/route.ts:9-10 | Decomposing a character and dropping the marks leaves its base letter |
| Slug.StripDecompose | app/api/admin/events/route.ts:9-10 | Decomposing a text and dropping the marks replaces every letter by its base letter |
| Slug.CatalinBase | app/api/admin/events/route.ts:9-10 | "cătălin" loses its breves and becomes "catalin" |
| Slug.SlugDropsDiacritics | app/api/admin/events/route.ts:7-12 | "Cătălin" has the slug "catalin" |
| Slug.CollapseWord | app/api/admin/events/route.ts:11 | A word of letters and digits passes through collapsing unchanged |
| Slug.CollapseSeparator | app/api/admin/events/route.ts:11 | A whole run of separators becomes exactly one '-' |
| Slug.DropSeparatorsOf | app/api/admin/events/route.ts:11 | Dropping separators removes the whole run and nothing more |
| Slug.TrimTrailingHyphen | app/api/admin/events/route.ts:12 | A single trailing '-' after a slug is trimmed away |
| Slug.CollapseWordSeparator | app/api/admin/events/route.ts:11 | A word followed by a separator run collapses to the word and one '-' |
| Slug.CollapseThreeWords | app/api/admin/events/route.ts:11 | Three words, each followed by separators, collapse to the words joined by single hyphens |
| Slug.AsciiUnmarked | app/api/admin/events/route.ts:9-10 | Pure ASCII text is unchanged by decomposition and mark removal |
| Slug.ConcertBase | app/api/admin/events/route.ts:9-10 | "concert live - artist!" is unchanged by decomposition and mark removal |
| Slug.ConcertCollapse | app/api/admin/events/route.ts:12 | The trailing hyphen of "concert-live-artist-" is trimmed |
| Slug.SlugCollapsesSeparators | app/api/admin/events/route.ts:7-12 | "Concert Live - Artist!" has the slug "concert-live-artist" |
| Wrap.WordLength | lib/email.ts:142 | The length of the word a text starts with, which ends at white space or the end |
| Wrap.Split | lib/email.ts:142 | `split(/\s+/)` gives at least one piece, and no piece holds white space |
| Wrap.Fill | lib/email.ts:145-156 | The lines the loop produces from the remaining words and the current line: never more lines than words, plus one for a non-empty current line |
| Wrap.FillStep | lib/email.ts:146-153 | One loop step: the word joins the line while the result fits in the limit, in UTF-16 code units; otherwise the line is closed and the word starts the next |
| Wrap.FillOver | lib/email.ts:147-150 | A word that does not fit closes the non-empty current line |
| Wrap.FillUnder | lib/email.ts:147-152 | A word that fits is appended to the current line after one space |
| Wrap.WrapText | lib/email.ts:141-157 | The loop returns the greedy wrap; no line is empty; every line fits in the limit, counted in UTF-16 code units as `length` counts, or is a single word |
| Wrap.FillNonEmpty | lib/email.ts:149-155 | No line pushed is empty |
| Wrap.FillFits | lib/email.ts:146-153 | Every line fits in the limit, in UTF-16 code units, or is one of the words |
| Wrap.FillJoin | lib/email.ts:142-155 | Filling from a current line keeps the line and the words, in order, with single spaces |
| Wrap.JoinMerge | lib/email.ts:152 | Appending a word to a line after one space joins the same as keeping them apart |
| Wrap.WrapKeepsWords | lib/email.ts:142-155 | Without empty words, the lines joined by spaces are the words joined by spaces |
| Wrap.SplitWithoutOuterSpace | lib/email.ts:142 | A text without outer white space splits into non-empty words |
| Wrap.WrapTextKeepsWords | lib/email.ts:142-155 | For a text without outer white space, no word is dropped, added or reordered |
| Wrap.FillEmptyWords | lib/email.ts:142-156 | Only empty words give no lines |
| Wrap.WrapBlankText | lib/email.ts:142-156 | Empty or white-space-only text gives no lines |
| Wrap.FirstWordOf | lib/email.ts:147 | The first word of a line is the word that starts it |
| Wrap.GreedyCons | lib/email.ts:147-150 | A line closed because the next line's first word overflowed it keeps the wrap greedy |
| Wrap.FillGreedy | lib/email.ts:147-152 | A line is closed only when the line, a space and the next line's first word exceed the limit in UTF-16 code units |
| Wrap.WrapIsGreedy | lib/email.ts:147-152 | The wrap of a text is greedy: a new line starts only when the next word would overflow |
| Middleware.Decide | middleware.ts:12-45 | A request passes exactly when it is outside /admin, is the login page or below it, or has a secret of 32 or more characters, a cookie and a token that verifies; otherwise it is redirected to the login page |
| Middleware.OutsideAdminPasses | middleware.ts:16-18 | Paths outside /admin pass |
| Middleware.LoginPagePasses | middleware.ts:21-23 | /admin/login and the paths below it pass with no check |
| Middleware.ProtectedPathRule | middleware.ts:27-44 | Any other admin path passes exactly when the secret is long enough, the cookie is present and the token verifies; a short secret or a missing cookie redirects |
| Checkout.TotalAmountReadsBack | app/api/create-checkout-session/route.ts:47-89 | The stored total reads back as the unit price times the quantity |
| Checkout.TotalAmount | app/api/create-checkout-session/route.ts:47-89 | The stored total ends in " LEI" after the decimal digits of unit price times quantity, behind a '-' for a negative product |
| Checkout.SessionRequestFor | app/api/create-checkout-session/route.ts:51-77 | The unit amount is the parsed price in bani: a non-negative multiple of 100; the title, quantity, e-mail and ticket code are passed on; one image exactly when the event has one |
| Checkout.PendingTicket | app/api/create-checkout-session/route.ts:81-92 | The stored ticket is pending and unscanned, carries the code, the session id and the buyer's fields, and its total reads back as unit price times quantity |
| Checkout.CreateCheckoutSession | app/api/create-checkout-session/route.ts:10-102 | Missing field 400, unknown event 404, too few seats 400, in that order; the provider is asked only after every check; on success exactly one pending ticket with a 16-character alphabet code and the session id is stored before the redirect; events never change and existing tickets never change |
| Webhook.EmailFor | app/api/webhooks/stripe/route.ts:62-71 | The e-mail goes to the buyer, with the ticket's code and quantity |
| Webhook.Confirmed | app/api/webhooks/stripe/route.ts:47-60 | A confirmation is a ledger step: ticket id becomes paid, its event's sold count rises by its quantity, and no other ticket or event changes |
| Webhook.HandleStripeWebhook | app/api/webhooks/stripe/route.ts:16-81 | A bad signature gets 400 and changes nothing; other notification types and unknown sessions change nothing; otherwise one ticket with the session id becomes paid, its event's sold count rises by its quantity, and its e-mail goes out after both writes; the answer is "received" in every valid case |
| Webhook.ReplayCountsTwice | app/api/webhooks/stripe/route.ts:47-60 | Delivering the same confirmation twice leaves the ticket paid once but adds its quantity to the sold count twice |
| Webhook.ConfirmationCanOversell | app/api/webhooks/stripe/route.ts:55-60 | A confirmation takes the sold count past capacity exactly when the ticket has more seats than were left; nothing re-checks availability at payment time |
| ValidateTicket.NormalizeCode | app/api/admin/validate-ticket/route.ts:20 | The normalised code is no longer than the raw one |
| ValidateTicket.TooEarlyFor | app/api/admin/validate-ticket/route.ts:36-50 | A refused check-in is for an event more than 24 hours away; the exact boundary is ValidateTicket.TooEarlyIffHours |
| ValidateTicket.TooEarlyIffHours | app/api/admin/validate-ticket/route.ts:36-50 | Check-in is refused exactly when the event starts 25 whole hours or more after now |
| ValidateTicket.Summary | app/api/admin/validate-ticket/route.ts:82-93 | The summary echoes the ticket's name, e-mail, phone, quantity and total and the event's title and date |
| ValidateTicket.ValidateTicket | app/api/admin/validate-ticket/route.ts:5-98 | Non-admin 401, missing code 400, unknown code 404, too early 400, already scanned 400 with the first scan time, in that order; only success marks the ticket scanned, at the second reading of the clock, and nothing else changes; the payment status is never consulted |
| ValidateTicket.CheckInTwice | app/api/admin/validate-ticket/route.ts:54-79 | Of two check-ins with the same code, at most one admits |
| ValidateTicket.UpperCaseSpaces | app/api/admin/validate-ticket/route.ts:20 | Upper-casing leaves white space alone |
| ValidateTicket.NormalizeFindsStoredCode | app/api/admin/validate-ticket/route.ts:20-26 | Any casing of a stored code, with white space around it, normalises to that code |
| EventsRoute.OrFalse | app/api/admin/events/route.ts:118 | A falsy value is stored as false, and true only for a literal true |
| EventsRoute.Truthy | app/api/admin/events/route.ts:69-82 | Falsy exactly for null, false, 0 and "" |
| EventsRoute.HasRequiredFields | app/api/admin/events/route.ts:69 | Passing the check means a date, a non-zero capacity and a title are present |
| EventsRoute.PaymentModeOk | app/api/admin/events/route.ts:78-85 | Passing means there is a payment link or an external link; an internal event without a payment link fails |
| EventsRoute.OrNull | app/api/admin/events/route.ts:113-119 | An empty text is stored as null, any other as itself |
| EventsRoute.NewEvent | app/api/admin/events/route.ts:100-122 | The new row has the title's slug, description defaulting to "", published only for a literal true, no tickets sold, and null for empty links |
| EventsRoute.CreateEvent | app/api/admin/events/route.ts:38-131 | No cookie 401, missing fields 400, payment-mode violations 400, slug taken 409, in that order; only success adds exactly one event, and tickets never change |
| EventsRoute.ListEvents | app/api/admin/events/route.ts:15-36 | No cookie 401; otherwise every event once, latest first |
| Raffle.EntriesFor | app/api/admin/raffle/route.ts:23-31 | Each ticket row is paired with the title of its event |
| Raffle.PoolTickets | app/api/admin/raffle/route.ts:14-20 | Exactly the paid tickets, of the given event unless it is absent or 'all' |
| Raffle.PoolFromRows | app/api/admin/raffle/route.ts:23-31 | The rows of those tickets, oldest first, form the pool |
| Raffle.CreatedAt | app/api/admin/raffle/route.ts:28-30 | The sort key is each ticket's creation time |
| Raffle.PaidPool | app/api/admin/raffle/route.ts:12-31 | Every paid ticket passing the event filter, once each, with its event's title, oldest first |
| Raffle.ListEntries | app/api/admin/raffle/route.ts:40-50 | One line per pool ticket, in pool order, with its code, event title, creation time and quantity |
| Raffle.DrawIndex | app/api/admin/raffle/route.ts:53 | floor(r * n) is a valid index for every draw in [0, 1) |
| Raffle.Emails | app/api/admin/raffle/route.ts:62-73 | The map's key order: no more keys than pool tickets, the first being the first ticket's e-mail (all of them, once each: Raffle.EmailsFacts) |
| Raffle.Count | app/api/admin/raffle/route.ts:64-72 | A buyer has at most as many tickets as the pool, and at least one when the last ticket is theirs |
| Raffle.Total | app/api/admin/raffle/route.ts:66-71 | A buyer's seats over the pool are never negative when no ticket's quantity is |
| Raffle.BuyerOf | app/api/admin/raffle/route.ts:64-73 | The map's value for a buyer: that buyer's e-mail, the buyer's total as quantity, and 'Multiple Events' for more than one ticket; specification of Raffle.MergeStep |
| Raffle.Merge | app/api/admin/raffle/route.ts:65-72 | One `set`: the buyer's key is added if new, every other buyer is unchanged, and the buyer's quantity grows by the ticket's |
| Raffle.LastWith | app/api/admin/raffle/route.ts:68-69 | The latest pool ticket of a buyer carries that buyer's e-mail |
| Raffle.EmailsFacts | app/api/admin/raffle/route.ts:62-73 | The buyers' key order lists every pool e-mail exactly once |
| Raffle.MergeStep | app/api/admin/raffle/route.ts:64-73 | One step of the loop keeps the map equal to the grouping of the tickets seen so far: total quantity, latest ticket, 'Multiple Events' for repeat buyers |
| Raffle.NoTicketsNoSeats | app/api/admin/raffle/route.ts:66 | A buyer without tickets has no seats |
| Raffle.FirstMax | app/api/admin/raffle/route.ts:75-76 | Finds the first buyer with the largest quantity, as a stable sort by decreasing quantity puts first |
| Raffle.TopBuyerOf | app/api/admin/raffle/route.ts:61-77 | The reported buyer is the top buyer: its total is at least every buyer's total, and ties go to the earliest buyer |
| Raffle.PoolEmailCounted | app/api/admin/raffle/route.ts:64-72 | Every pool ticket's e-mail is grouped |
| Raffle.ExampleTotals | app/api/admin/raffle/route.ts:62-73 | The pool A:3, B:1, A:2 groups into buyers A and B with totals 5 and 1 |
| Raffle.TopBuyerExample | app/api/admin/raffle/route.ts:61-77 | For A:3, B:1, A:2 the top buyer is A with 5 seats, named 'Multiple Events', carrying its latest ticket |
| Raffle.Raffle | app/api/admin/raffle/route.ts:4-88 | Missing action 400; an empty pool 404 before the action is looked at; then list, random pick or top buyer, and any other action 400; the store is only read |
| AdminLogin.FirstField | app/api/auth/admin-login/route.ts:18 | `split(',')[0]`: the part before the first comma |
| AdminLogin.ClientIp | app/api/auth/admin-login/route.ts:16-20 | The client address is never empty |
| AdminLogin.GetRateLimitKey | app/api/auth/admin-login/route.ts:15-22 | Every key is "login:" followed by a non-empty address |
| AdminLogin.FirstFieldOf | app/api/auth/admin-login/route.ts:18 | The first field is whatever comes before the first comma |
| AdminLogin.KeyUsesFirstForwardedEntry | app/api/auth/admin-login/route.ts:15-22 | The key is "login:" plus the trimmed first forwarded entry, whatever follows it |
| AdminLogin.KeyFallsBack | app/api/auth/admin-login/route.ts:15-22 | Without a usable forwarded entry the key uses x-real-ip, and then "unknown" |
| AdminLogin.Check | app/api/auth/admin-login/route.ts:24-39 | An absent or expired entry restarts at count 1 for 15 minutes; count 5 is refused with 0 left and the entry kept; otherwise the count rises by one; allowed exactly when expired or below 5; remaining is 5 minus the count, between 0 and 4 |
| AdminLogin.AllowedWithinWindow | app/api/auth/admin-login/route.ts:24-39 | Before a window ends exactly the attempts it has left are allowed |
| AdminLogin.AtMostFivePerWindow | app/api/auth/admin-login/route.ts:24-39 | Of the calls within one window, exactly the first five are allowed |
| AdminLogin.ReportedRemainingIsOneShort | app/api/auth/admin-login/route.ts:72-80 | `remaining` is the number of further attempts allowed; the 401 answer reports one fewer |
| AdminLogin.RateLimiter.constructor | app/api/auth/admin-login/route.ts:11 | The map starts empty |
| AdminLogin.RateLimiter.Lookup | app/api/auth/admin-login/route.ts:26 | `rateLimitMap.get(key)` |
| AdminLogin.RateLimiter.CheckRateLimit | app/api/auth/admin-login/route.ts:24-39 | Answers as Check does on the key's entry, changes only that entry, and keeps every count between 1 and 5 |
| AdminLogin.RateLimiter.Delete | app/api/auth/admin-login/route.ts:100 | Removes exactly the key's entry |
| AdminLogin.Login | app/api/auth/admin-login/route.ts:44-102 | The rate limit comes first: a refused call gets 429 and changes nothing, whatever the credentials; then missing credentials 400; then bad credentials 401 with max(0, remaining - 1); success logs in and forgets the key |
| HomePage.ListedEvents | app/page.tsx:10-15 | Exactly the published events dated now or later |
| HomePage.HomeEvents | app/page.tsx:8-16 | Every published future event once, soonest first |
| HomePage.IsSoldOut | app/page.tsx:88 | Sold out exactly when no seat is left |
| HomePage.AvailableTickets | app/page.tsx:89 | Seats left are negative exactly when the event is oversold, and never more than the capacity |
| HomePage.IsLowStock | app/page.tsx:90 | Low on stock only with 1 to 10 seats left |
| HomePage.StockLevels | app/page.tsx:88-90 | Sold out exactly when no seat is left; low on stock exactly when 1 to 10 seats are left; never both |
| HomePage.Badge | app/page.tsx:176 | The badge reads "Sold Out" exactly when the event is sold out |
| HomePage.BadgeReadsBack | app/page.tsx:176 | Otherwise the badge starts with the number of seats left, at least 1 |
| AdminPage.Upcoming | app/admin/page.tsx:31 | Never more upcoming events than events |
| AdminPage.TotalSold | app/admin/page.tsx:29 | The total sold is not negative when no sold count is; one event's total is its sold count (sums over a split: AdminPage.TotalsAppend) |
| AdminPage.TotalCapacity | app/admin/page.tsx:30 | The total capacity is not negative when no capacity is; one event's total is its capacity |
| AdminPage.StatsOf | app/admin/page.tsx:29-38 | The event total is the number of events, and the upcoming count is at most that |
| AdminPage.TotalsAppend | app/admin/page.tsx:29-31 | The sums and the upcoming count add up over any split of the events |
| AdminPage.UpcomingCountsFuture | app/admin/page.tsx:31 | All events are upcoming exactly when all are dated now or later, and none exactly when all are past |
| AdminPage.SoldWithinCapacity | app/admin/page.tsx:29-30 | If no event is oversold, total sold is at most total capacity |
| AdminPage.OrEmpty | app/admin/page.tsx:57-60 | A null text becomes "", any other stays |
| AdminPage.Serialize | app/admin/page.tsx:44-66 | Each field is copied; a null payment link, description or map link becomes "" |
| AdminPage.EventsOf | app/admin/page.tsx:29-31 | The events of the rows, in row order |
| AdminPage.SerializeAll | app/admin/page.tsx:44-66 | One serialised event per row, in row order |
| AdminPage.AdminDashboard | app/admin/page.tsx:8-66 | A non-admin is redirected before anything is read; an admin gets every event, latest first, its totals and its serialisation |

## Left out

- Stripe itself: creating the checkout session and checking the webhook signature are parameters (the session the provider returns or None, and whether the signature is valid).
- lib/auth.ts is not part of this model. The admin session's token check is a parameter of the middleware, whether the visitor is an admin is a parameter of the dashboard, and the bcrypt credential check is a parameter of the log-in handler (the admin it finds, if any). The session cookie the log-in handler sets is not modelled.
- E-mail, QR-code and PDF rendering in lib/email.ts: only `wrapText` is modelled; the webhook's e-mail is the data it would send.
- Every database call is one atomic step. Concurrent requests, and the 500 answers of the `catch` blocks for database or network failures, are not modelled; only the failures the model can name (a duplicate id, code or slug, a non-boolean isExternal) give 500.
- Time is milliseconds since the epoch. ISO and locale date strings are not modelled, and neither is `updatedAt`.
- Slug.DecomposeChar: `normalize('NFD')` is modelled for the Romanian letters (ă â î ș ț ş ţ and their capitals) only; other characters pass through unchanged.
- Slug.ToLower: lower-casing is modelled for ASCII and the Romanian letters only (Slug.LowerChar); its length-preserving contract rests on that, since full Unicode lower-casing can lengthen a string ('İ' becomes "i̇").
- Text.ToUpperAscii: upper-casing is modelled for ASCII letters only.
- ValidateTicket.NormalizeCode: its bound |code| <= |raw| rests on ASCII-only upper-casing; full Unicode upper-casing can lengthen a string ('ß' becomes "SS").
- Text.IsJsSpace: white space is the ECMAScript set of white space and line terminator characters.
- Utils.ParsePriceToNumber: `parseInt` is unbounded here; precision loss past 2^53 is not modelled.
- Text.NatToDecimal: plain digits for every n; JavaScript writes numbers from 1e21 up in exponent form ("1e+21"), which is not modelled.
- Checkout.CreateCheckoutSession: a missing or non-numeric quantity is 0; the body's fields are strings or integers.
- AdminLogin.Login: a missing or non-string username or password is "".
- EventsRoute.CreateEvent: the JSON body's types are simplified; dates are already milliseconds, and `parseInt` of the capacity is the capacity.
- Raffle.TopBuyerOf: JavaScript's stable sort is modelled by taking the first buyer with the largest total, which is the element a stable sort by decreasing quantity puts first; the rest of the sorted list is not built.
- Ticket codes are drawn without a uniqueness retry, as in the source; a colliding code makes the insert fail (500).
- JWT_SECRET's length is counted in characters.
- The locale formatters of lib/utils.ts, the upload and logout routes, the pages' markup and the seed scripts are not part of this model.
