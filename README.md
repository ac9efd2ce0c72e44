# lotto-manager ledger and admin gate, in Dafny

This project models the core of lotto-manager, a Telegram Mini App for
running raffles. Customers book numbered tickets. An administrator records
payments and releases tickets. Admin pages sit behind a middleware that
accepts HTTP Basic credentials or a signed Telegram `initData` string.

The model covers:

- **The ticket ledger** (`ledger.dfy`, `ledger_lemmas.dfy`, `store.dfy`).
  - The four SQLite tables (raffles, tickets, users, payments) are one `State` value.
  - Each handler transaction is a function from the ledger before the commit to the ledger after it:
    - `AdminCreateRaffle`;
    - `PostBook`;
    - `AdminAddPayment`;
    - `AdminReleaseTicket`.
  - `LedgerStore.Store` is a class holding the tables as fields. Its methods perform the same transactions in place, row by row, and are proved to produce exactly those functions' results.
  - The ticket lifecycle is available → reserved → paid → available.
  - `Wf` is the invariant: foreign keys hold, and a ticket is available exactly when it has no user, no reservation time and no payments. Every transaction keeps it.
  - `Settled` holds when every paid ticket has collected its raffle's price. Every transaction keeps it too, for non-negative amounts.
- **The read-only queries** (`queries.dfy`).
  - The public ticket grid (`getTickets`).
  - The administrator's user search.
  - The dashboard, with its row loop accumulating sold count, amount collected and amount pending.
- **The admin gate** (`auth.dfy`).
  - Basic authentication.
  - The Telegram data-check string and its HMAC-SHA256 signature.
  - The `ADMIN_TELEGRAM_IDS` allow-list scan.
  - The order in which the `initData` sources are tried.
  - The final serve-or-401 decision.
- **Supporting modules.**
  - `text.dfy`: lexicographic order, substring search, Go's `strings.Split`/`SplitN`/`Join`/`TrimSpace`.
  - `numbers.dfy`: `%0Nd` formatting and `strconv.ParseInt`.
  - `sorting.dfy`: an insertion sort standing in for `ORDER BY` and `sort.Strings`.
  - `wrappers.dfy`: `Option`.

Design decisions:

- **Row ids.** Rows of raffles, tickets and users are never deleted. Row id `k` is element `k - 1` of its sequence, matching SQLite's AUTOINCREMENT. Payments can be deleted, so each one carries its own id, and `nextPaymentId` never goes back.
- **Amounts** are exact `real`s.
- **Time** is an `int` parameter `now`.
- **Library calls** are fields of a `Primitives` value passed in as a parameter:
  - HMAC-SHA256 (RFC 2104);
  - hex and base64;
  - `[]byte(s)`;
  - `url.ParseQuery`, `url.QueryUnescape`;
  - JSON decoding.
- **Map iteration.** Go's unordered iteration over `url.Values` is a loop that takes an arbitrary remaining key (`:|`). The check string is proved to be the same whatever order is chosen.
- **Environment variables** are fields of an `Env` value. An unset variable is `""`.

Two behaviours of the code that one might expect otherwise:

- **`PostBook` never settles.** One might expect a reserved ticket's payments to stay below the price. `PostBook` has no settlement check, so they need not: a full-price booking stays `reserved`. `BookLeavesFullPaymentReserved` proves this. Only `AdminAddPayment` moves a ticket to `paid`.
- **`params.Get` returns the first value** of a repeated key, not the last.

A property worth knowing, proved by `TelegramAuth.EmptyPasswordAdmits`:
when `ADMIN_PASSWORD` is unset, the credentials `admin:` with an empty
password pass the middleware's Basic check.

## Model

| member | source | states |
|---|---|---|
| Ledger.FindAvailable | internal/handlers/handlers.go:189 | The lookup returns the first ticket with this raffle id and number that is available, or none when no ticket is. |
| LedgerFacts.CreateRaffleGeneratesTickets | internal/handlers/admin.go:258-286 | A "triple" raffle gets 1000 tickets and any other type gets 100. The raffle row is active, has 24 reservation hours and gets the next id. Ticket i is number i zero-padded to width 3 or 2. All numbers have that width and are strictly ascending in generation order. New tickets are available with no user. Earlier rows are unchanged. |
| LedgerFacts.CreateRafflePreservesWf | internal/handlers/admin.go:273-286 | Creating a raffle keeps the ledger invariant, including distinct numbers within each raffle. |
| LedgerStore.Store.CreateRaffle | internal/handlers/admin.go:252-296 | The insert loop leaves the tables exactly as `Ledger.CreateRaffle` says, returns the new raffle id, keeps the invariant and sends no notice. |
| LedgerFacts.BookSucceedsIffAvailable | internal/handlers/handlers.go:188-194 | A booking succeeds if and only if some ticket of the raffle with that number is available. The booked id is such a ticket. On failure the ledger is unchanged. |
| LedgerFacts.BookReserves | internal/handlers/handlers.go:196-200 | On success there is exactly one new user (name, phone). The ticket is reserved for that user at `now`. Exactly one unverified payment with the given amount, method and reference is appended. No other ticket and no other ticket's payments change. No ticket becomes paid. |
| LedgerFacts.BookPreservesWf | internal/handlers/handlers.go:186-208 | Booking keeps the ledger invariant. |
| LedgerFacts.SecondBookFails | internal/handlers/handlers.go:189-194 | Under the invariant, where numbers are unique within a raffle: after one booking succeeds, a second booking of the same raffle and number fails and changes nothing. |
| LedgerFacts.BookLeavesFullPaymentReserved | internal/handlers/handlers.go:196-208 | A booking whose amount covers the price still leaves the ticket reserved, with its payments summing to at least the price. |
| LedgerStore.Store.Book | internal/handlers/handlers.go:174-213 | The booking transaction leaves the tables and returns the outcome exactly as `Ledger.Book` says. The administrator is notified once, only when the booking succeeded. |
| LedgerFacts.PaidForAppend | internal/handlers/admin.go:331 | Appending a payment adds its amount to its own ticket's sum. Every other ticket's sum is unchanged. |
| LedgerFacts.AddPaymentRecords | internal/handlers/admin.go:322 | Exactly one verified payment for the ticket is appended, with the given amount, method, reference and a fresh id. Existing payments stay. The ticket's sum grows by the amount and no other sum changes. |
| LedgerFacts.AddPaymentSettles | internal/handlers/admin.go:309-336 | An available ticket first gets one new user and is reserved at `now`. A ticket that is not available keeps its user and its reservation time, so a later payment does not restart the hold. The ticket ends paid exactly when its sum reaches the raffle's price, and otherwise keeps its status from step 1. A paid ticket is never downgraded, the ticket is never left available, and no other ticket changes. |
| LedgerFacts.AddPaymentPreservesWf | internal/handlers/admin.go:307-338 | Recording a payment keeps the ledger invariant. |
| LedgerFacts.PaymentsSettleWhenSumReachesPrice | internal/handlers/admin.go:329-336 | Two partial payments: after the first the ticket is reserved, and after the second, once the sum reaches the price, it is paid. |
| LedgerStore.Store.AddPayment | internal/handlers/admin.go:298-340 | The three steps leave the tables exactly as `Ledger.AddPayment` says and keep the invariant. |
| LedgerFacts.WithoutTicketMembers | internal/handlers/admin.go:347 | A payment survives the delete if and only if it belongs to another ticket. |
| LedgerFacts.ReleaseDeletesPayments | internal/handlers/admin.go:347 | Release deletes all and only the ticket's payments. Its sum becomes 0 and other tickets' payments are unchanged. |
| LedgerFacts.ReleaseResetsTicket | internal/handlers/admin.go:348 | Release makes the ticket available with no user and no reservation time, keeping its raffle and number. No other ticket changes, and an id with no ticket changes no ticket. |
| LedgerFacts.ReleaseIdempotent | internal/handlers/admin.go:346-349 | Releasing twice gives the same ledger as releasing once. |
| LedgerFacts.ReleasePreservesWf | internal/handlers/admin.go:342-349 | Release keeps the ledger invariant. |
| LedgerStore.Store.Release | internal/handlers/admin.go:342-355 | The delete-then-update leaves the tables exactly as `Ledger.Release` says and keeps the invariant. |
| LedgerFacts.CreateRaffleKeepsSettled | internal/handlers/admin.go:273-286 | Creating a raffle keeps every paid ticket's payments at or above its price. |
| LedgerFacts.BookKeepsSettled | internal/handlers/handlers.go:196-200 | Booking keeps every paid ticket's payments at or above its price. |
| LedgerFacts.AddPaymentKeepsSettled | internal/handlers/admin.go:322-336 | With a non-negative amount, recording a payment keeps every paid ticket's payments at or above its price. |
| LedgerFacts.ReleaseKeepsSettled | internal/handlers/admin.go:347-348 | Release keeps every paid ticket's payments at or above its price. |
| Numbers.PaddedAscending | internal/handlers/admin.go:259-263 | Below 10^width, `%0<width>d` yields strings of exactly that width, in the same order as the numbers. |
| Sorting.SortBy | internal/handlers/handlers.go:230 | Sorting returns a permutation of its input, ascending by the key. |
| Text.ContainsOccurrence | internal/handlers/handlers.go:226 | `LIKE '%q%'` holds if and only if `q` occurs at some position of the string. |
| LedgerQueries.MatchingMembers | internal/handlers/handlers.go:222-228 | The filter keeps a row if and only if it is (number, status) of a ticket of the raffle whose number contains the query, or of any ticket of the raffle when the query is empty. |
| LedgerQueries.GetTicketsSpec | internal/handlers/handlers.go:221-246 | The grid is sorted by number and lists exactly the raffle's tickets whose number contains the query, or all of the raffle's tickets for an empty query. |
| LedgerQueries.GetTicketsOnce | internal/handlers/handlers.go:222-230 | When no two tickets of a raffle share a number, as ticket generation guarantees, the grid's numbers strictly ascend, so each matching ticket is listed exactly once. |
| LedgerQueries.MatchingUsersSpec | internal/handlers/admin.go:102 | Every matching user appears, each row is a real user that matches, and rows are in ascending id order. |
| LedgerQueries.SearchUsersSound | internal/handlers/admin.go:96-117 | A query shorter than 2 characters gives no rows. Otherwise there are at most 5 rows, each an existing user whose name or phone contains the query, in ascending id order. |
| LedgerQueries.SearchUsersFirstMatches | internal/handlers/admin.go:102 | A matching user is either in the result, or 5 rows of users with smaller ids were returned. So when fewer than 5 users match, all of them are returned. |
| LedgerQueries.ActiveRafflesSpec | internal/handlers/admin.go:124-136 | The selector lists exactly the active raffles in ascending id order, so the default choice is the active raffle with the smallest id. |
| LedgerQueries.TicketQueryMembers | internal/handlers/admin.go:146-158 | The dashboard query is sorted by number. Its rows are exactly the rows of the selected raffle's tickets, with the owner's name and phone ('Anon' and '' when there is none), and no ticket id appears twice. It has no rows when the raffle does not exist. |
| LedgerQueries.TicketQueryColumns | internal/handlers/admin.go:148-152 | Each row carries its ticket's payment sum and the raffle's price and name. |
| LedgerQueries.AdminDashboard | internal/handlers/admin.go:120-189 | When no raffle is requested, the first active one is selected. The row loop yields one row per listed ticket with remaining = price − paid. It yields sold count, amount collected and amount pending over the non-available rows, and totalTickets equal to the rows listed. The raffle name stays 'Sin Sorteo Seleccionado' when no rows come back. |
| LedgerQueries.Tally | internal/handlers/admin.go:161-174 | The row loop turns each query row into a dashboard row in order, with remaining = price − paid. Over the rows not 'available' it totals the count, the paid amounts and the remaining amounts. The raffle name is the last row's, or 'Sin Sorteo Seleccionado' when there are no rows. |
| LedgerQueries.AggregatesPermutation | internal/handlers/admin.go:157-172 | Any two orderings of the same rows give the same sold count, collected total and pending total, so the `ORDER BY` does not affect the totals. |
| LedgerQueries.DashboardTotals | internal/handlers/admin.go:146-171 | The dashboard's sold count equals the number of the raffle's tickets that are not available, counted off the tickets table. Its collected total equals the sum of those tickets' payments. Both are 0 for a raffle that does not exist. |
| LedgerQueries.SoldAtMostListed | internal/handlers/admin.go:168-175 | No more tickets are counted sold than are listed. |
| LedgerQueries.PendingPlusCollected | internal/handlers/admin.go:167-171 | When all rows share one price, pending plus collected is that price times the sold count. |
| LedgerQueries.DashboardBalances | internal/handlers/admin.go:162-172 | On a raffle's dashboard, pending plus collected equals the raffle's price times the sold count, and the sold count is at most the tickets listed. |
| TelegramAuth.AdminPair | internal/middleware/telegram_auth.go:81-87 | Splitting at the first ':' gives exactly ("admin", password) if and only if the payload is `admin:` followed by the password. |
| TelegramAuth.BasicAuthSpec | internal/middleware/telegram_auth.go:70-88 | Basic authentication passes if and only if the header starts with `Basic ` and the rest decodes to `admin:` followed by the configured password. |
| TelegramAuth.EmptyPasswordAdmits | internal/middleware/telegram_auth.go:86-87 | With the password unset, `admin:` passes. |
| TelegramAuth.SignedKeys | internal/middleware/telegram_auth.go:109-115 | The signed keys are every key except `hash`, strictly ascending. |
| TelegramAuth.BuildCheckString | internal/middleware/telegram_auth.go:108-121 | The collect, sort and join loops produce the data-check string whatever order the map's keys are visited in. |
| TelegramAuth.CollectKeys | internal/middleware/telegram_auth.go:108-113 | The map loop yields every key except `hash`, each exactly once, in whatever order the keys are visited. |
| TelegramAuth.FormatLines | internal/middleware/telegram_auth.go:116-119 | The parts loop yields the line `k=v` for each sorted key in order, where v is the key's first value. |
| TelegramAuth.CheckStringLines | internal/middleware/telegram_auth.go:109-121 | Every line is `k=v` for a key other than `hash` and its first value, keys strictly ascending. A line starts with `hash=` only if its own key does. |
| TelegramAuth.HashLinePrefix | internal/middleware/telegram_auth.go:119 | A line `k=v` starts with `hash=` only if `k` is `hash` or itself starts with `hash=`. |
| TelegramAuth.CheckStringDependsOnSignedPairs | internal/middleware/telegram_auth.go:103-121 | Two parameter maps that agree on every key but `hash` and on each key's first value have the same check string. |
| TelegramAuth.CheckStringSplits | internal/middleware/telegram_auth.go:117-121 | Splitting the check string at newlines gives its lines back when no key or value contains a newline. |
| TelegramAuth.ValidateInitData | internal/middleware/telegram_auth.go:90-148 | The validation code returns exactly the user of the specification `InitDataUser`. |
| TelegramAuth.InitDataAccepted | internal/middleware/telegram_auth.go:91-147 | Validation yields user u if and only if all of these hold: the token is set; the data parses; `hash` is non-empty and equals hex(HMAC(HMAC("WebAppData", token), check string)); `user` is non-empty and parses to u. |
| TelegramAuth.AcceptedHashDetermined | internal/middleware/telegram_auth.go:123-134 | For one token, two accepted strings that agree on their signed fields carry the same `hash`. |
| TelegramAuth.IsAdmin | internal/middleware/telegram_auth.go:150-165 | The scan returns true if and only if the list is non-empty and some comma-separated entry, trimmed, parses as an int64 equal to the id. Unparseable entries are skipped. |
| TelegramAuth.AdmittedConcat | internal/middleware/telegram_auth.go:155-164 | A list joined from two lists with a comma admits exactly the ids either one admits. |
| TelegramAuth.AdmitsDecimal | internal/middleware/telegram_auth.go:155-164 | An id written in decimal is a list that admits it. |
| Numbers.ParseDecimalDigits | internal/middleware/telegram_auth.go:158 | `ParseInt` of what `%d` prints gives the number back. |
| TelegramAuth.InitDataSource | internal/middleware/telegram_auth.go:35-47 | `initData` comes from the header when it is set, otherwise from the query parameter when that is set. Otherwise it is the cookie's unescaped value when the cookie is present and unescapes, and empty when not. |
| TelegramAuth.TelegramAdminAuth | internal/middleware/telegram_auth.go:26-68 | The request is served if and only if Basic authentication passes, or the chosen `initData` is non-empty, validates, and its user id is on the allow-list. Otherwise the answer is 401 with `WWW-Authenticate: Basic realm="Lotto Admin"`. |

## Left out

- Floating point: amounts are exact reals. The rounding in `price - t.TotalPaid` and `totalPaid >= price` is not modelled.
- SQL `LIKE` is plain substring search. Its ASCII case folding and the `%`/`_` wildcards inside the query are not modelled. The rows of a query without `ORDER BY` (user search, active raffles) come back in id order, which SQLite does not guarantee.
- `len(q) < 2` counts bytes in Go. The model counts characters, which is the same only for ASCII queries.
- Integers are unbounded. The int64 width of ids is not modelled, except for the `ParseInt` range check on allow-list entries.
- HMAC-SHA256, hex, base64, `[]byte`, `url.ParseQuery`, `url.QueryUnescape` and JSON decoding are uninterpreted functions. Nothing is claimed about their cryptographic strength or about parsing details. The constant-time question for the `!=` hash comparison cannot be stated here.
- Concurrency: each handler transaction is one atomic step.
- Errors the handlers ignore:
  - a failed ticket insert in the generation loop;
  - the unchecked ticket lookup in `AdminAddPayment`;
  - the overwritten error of the ticket update in `PostBook`.

  The model takes their success path.
- Storage failures are not modelled: `Book`, `AddPayment` and `CreateRaffle` always commit. This leaves out three rollback paths: the failed payment insert in `PostBook` ("Error saving"), the failed raffle insert in `AdminCreateRaffle`, and the failed payment insert in `AdminAddPayment`. The only rollback modelled is `PostBook`'s "Ticket no disponible", which is the `Unavailable` outcome and leaves the ledger unchanged. A failed commit is not modelled either.
- Store.AddPayment and Ledger.AddPayment: the ticket must exist. On a missing id the handler would store a payment for a nonexistent ticket, because SQLite does not enforce foreign keys by default. That case is not modelled.
- `strconv.ParseFloat` and `strconv.ParseInt` of form and URL values are not modelled. The handlers take the parsed number as a parameter, whatever Go returned with its ignored error. That is 0 for malformed text. For out-of-range text it is the clamped int64 (9223372036854775807 or −9223372036854775808) or ±Inf. For example, `raffle_id=99999999999999999999` selects raffle 9223372036854775807.
- The text of the Telegram notification and its delivery are not modelled, nor is the HTTP response (redirects, status codes other than the gate's 401, the `HX-Trigger` header).
- `AdminGetTicketDetails`, `AdminLogin`, `Home`, `SearchTickets`, `GetBookModal`, `render` and all template rendering are not modelled: they read rows and render HTML.
- `cmd/server/main.go`, `internal/db/db.go`, `internal/services/telegram.go` and `internal/models/models.go` are not part of this model beyond the schema defaults and field lists used for the datatypes. The server wires chi's own Basic authentication rather than this middleware; the middleware is modelled as written.
- The log lines the middleware writes are not modelled.
