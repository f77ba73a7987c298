# Snow Liwa bookings — a Dafny model

Snow Liwa is a small ticket-booking site (FastAPI) for a seasonal snow
attraction. Bookings live in one Excel table (one row per booking, twelve
columns). Payments go through the Ziina payment provider, which identifies
each payment by a *payment intent*. This project models the booking core
and proves properties about it:

- `Config` — environment parsing: the ticket price, the admin PIN and the
  Ziina settings, with their defaults.
- `Bookings` — the booking row, and the bookings table as a store whose
  `Load` hands out a fresh array and whose `Save` replaces the rows.
- `Logic` — allocating the day's next booking id `SL-<YYYYMMDD>-<NNN>`, and
  creating a booking: the ticket count, the total, and a pending row
  appended to the table.
- `Payments` — whether Ziina is configured; the request sent to create a
  payment intent (amount in fils, callback URLs, message); looking up an
  intent's status; and the sync loop that marks rows paid or cancelled.
- `PublicRoutes` — `book_ticket` (validation, id and redirect-URL
  precedence, the recursive URL search, the row update), `payment_result`
  (normalising the callback id, finding the row, the status update) and
  `download_ticket` (404 / 403 / ticket).
- `AdminRoutes` — the PIN check, the dashboard figures, the 25 most recent
  bookings, the sync route and the settings merge.
- `Json`, `Text` and `Wrappers` — the decoded provider answers, Python
  truthiness and `or`, and the string operations the core relies on
  (`strip`, `rstrip`, `split('-')[-1]`, `int()`, `f"{n:03d}"`,
  `urllib.parse.unquote`). Each is stated together with its specification.

Methods that change the bookings table (`CreateBookingAndGetAmount`,
`SyncLoop`, `SyncAllBookings`, `AttachToRows`, `BookTicket`,
`PaymentResult`, `SyncPayments`) are proved against the functions that
describe the new table (`CreateBooking`, `SyncRows`, `AttachRows`,
`CallbackRow`). The settings route (`SaveSettingsRoute`, with its loop
`ApplyForm`) changes the settings store instead, and is proved against
`Merged`. Lemmas about those functions carry the
properties: ids continue the day's run, the sync is idempotent and keeps
ids and totals, the recent list is newest-first and drawn from the table,
and so on.

A provider answer that is truthy but not an object, where the code calls
`.get` on it, makes Python raise `AttributeError`. The model carries this
as a predicate on the answer (`GetRaises`, `StatusRaises`,
`CreationAnswerRaises`, `CallbackAnswerRaises`). The sync loop then stops
at the first such row with `raised` set, and the routes answer 500.

The environment, the provider's HTTP answers, today's date and the clock
are parameters. They are an `Env` map, an `IntentCreator` function, an
`IntentLookup` map, and the `today` and `createdAt` strings.

## Model

| member | source | states |
|---|---|---|
| Config.Defaults | snow_liwa_web/core/config.py:21-38 | With none of the five variables set: the price is 175, the PIN is `change_me`, the token is unset, the base URL is `http://localhost:8000` and test mode is off |
| Config.TestModeIff | snow_liwa_web/core/config.py:37 | Test mode is on exactly when `ZIINA_TEST_MODE` is set and, after trimming and lower-casing, is one of `1`, `true`, `yes`, `on` |
| Config.FalseIsNotAFlag | snow_liwa_web/core/config.py:37 | The default value `false` does not switch test mode on |
| Bookings.BookingIdsAppend | utils/logic.py:10 | The id column of two tables put end to end is the first table's column followed by the second's |
| Bookings.BookingStore.constructor | snow_liwa_web/utils/io.py:11-15 | A new table has no rows |
| Bookings.BookingStore.Load | snow_liwa_web/utils/io.py:18-20 | Loading yields a fresh frame holding exactly the stored rows |
| Bookings.BookingStore.Save | snow_liwa_web/utils/io.py:23-24 | Saving replaces the stored rows with the frame and counts one write |
| Logic.Todays | utils/logic.py:11 | The day's ids are ids of the table (no more of them than rows) and all start with the day's prefix |
| Logic.TodaysEmpty | utils/logic.py:11-13 | The day has no ids exactly when no id in the table starts with `SL-<today>-` |
| Logic.TodaysCount | utils/logic.py:11-19 | The number of the day's ids equals the number of table rows carrying the prefix |
| Logic.TodaysLast | utils/logic.py:15 | `iloc[-1]` is the last row of the table that carries the day's prefix |
| Logic.NextIdOnNewDay | utils/logic.py:11-20 | With no id of the day, the next id is `SL-<today>-001` |
| Logic.NextIdFromLastOfDay | utils/logic.py:15-19 | The next number is one more than the number after the last `-` of the day's last id; when that does not parse, it is one more than the count of the day's ids |
| Logic.LastRowWins | utils/logic.py:15-17 | The last row in table order decides, not the largest number: a table holding 003, 001, 002 allocates 003 again |
| Logic.SequenceNumberOf | utils/logic.py:17-20 | An allocated id starts with the day's prefix, and its last segment reads back as the sequence number |
| Logic.BookingIdForInjective | utils/logic.py:20 | Different sequence numbers give different ids |
| Logic.NextIdAfterAllocated | utils/logic.py:8-20 | After id number k of the day is appended, the next id is number k+1, which differs from k |
| Logic.NextIdContinuesRun | utils/logic.py:8-20 | Starting from a day with no ids, after 001..n have been appended the next id is n+1 |
| Logic.NextSequencePositive | utils/logic.py:15-19 | The allocated sequence number is at least 1, whatever the table holds |
| Logic.ConsecutiveBookings | utils/logic.py:8-45 | Two bookings created one after the other on the same day get consecutive numbers, so their ids differ |
| Logic.NumberedDistinct | utils/logic.py:20 | The run 001..n reads back as 1..n and holds no duplicate |
| Logic.TicketCountPrecedence | utils/logic.py:27-45 | The created row records the first given of `tickets` and `people_count` (falsy values skipped), else 1; no booking exactly when the chosen value is not an integer; the total is that count times the price |
| Logic.TicketCountExamples | utils/logic.py:27-45 | `tickets = 0` with `people_count = 3` books 3 tickets for 525; a form without either books 1 for 175; `tickets = "two"` books nothing |
| Logic.CreateBooking | utils/logic.py:23-45 | No booking exactly when the count is not an integer. Otherwise the old rows are kept as a prefix, one new row is appended with the next id of the day, and the total is tickets × price |
| Logic.CreatedRowIsPending | utils/logic.py:29-42 | The new row is pending with payment status pending and no intent or URL. It records the price, has total = tickets × price, carries the day's prefix and takes `name`, else `customer_name` |
| Logic.FirstTwoBookingsOfTheDay | utils/logic.py:8-45 | On an empty table, 2 tickets at 175 give `SL-<today>-001` for 350, and the next booking that day gets `-002` |
| Logic.CreateBookingAndGetAmount | utils/logic.py:23-45 | Loads, appends the row described by `CreateBooking`, saves once and returns (id, total); nothing is written when the count is invalid |
| Payments.ConfiguredIff | snow_liwa_web/services/payments_ziina.py:14-24 | Configured exactly when the token is set, non-empty and starts with none of the literal prefixes `PUT_`, `REPLACE_`, `YOUR_` |
| Payments.ConfiguredExamples | snow_liwa_web/services/payments_ziina.py:14-24 | An unset token, `""`, `YOUR_TOKEN`, `PUT_TOKEN_HERE` and `REPLACE_ME` leave the provider unconfigured; `zk_live_123` configures it |
| Payments.ConfiguredHasToken | snow_liwa_web/services/payments_ziina.py:14-31 | A configured provider always gets requests: the token-missing guard never fires |
| Payments.UnsetTokenIsUnconfigured | snow_liwa_web/core/config.py:35 | With `ZIINA_ACCESS_TOKEN` unset the provider is not configured and no request is made |
| Payments.BuildPaymentRequest | snow_liwa_web/services/payments_ziina.py:28-47 | No request exactly when the token is missing. Otherwise it carries the bearer token, 100 fils per AED, currency AED, the test flag, the message for the booking and name, and the three callback URLs for success, cancel and failure |
| Payments.CallbackUrlShape | snow_liwa_web/services/payments_ziina.py:35-38 | Each callback URL is the base with only its trailing slashes removed, then `/payment_result?result=<outcome>&pi_id={PAYMENT_INTENT_ID}` |
| Payments.CallbackUrlIgnoresTrailingSlash | snow_liwa_web/services/payments_ziina.py:35 | A trailing slash on the base does not change the callback URLs |
| Payments.MessageCarriesBookingId | snow_liwa_web/services/payments_ziina.py:42 | The message is `Snow Liwa booking <id> - <name>`, with the id and the name recoverable at fixed offsets |
| Payments.CreatePaymentIntent | snow_liwa_web/services/payments_ziina.py:27-60 | None when the token is missing; otherwise the provider's answer to exactly the request `BuildPaymentRequest` describes |
| Payments.GetPaymentIntent | snow_liwa_web/services/payments_ziina.py:63-81 | None when the token is missing or the provider does not answer; otherwise the provider's answer for that id |
| Payments.IntentStatusPrecedence | snow_liwa_web/services/payments_ziina.py:84-88 | The status is the top-level `status` when truthy, else `data.status` |
| Payments.MappedStatusCases | snow_liwa_web/services/payments_ziina.py:104-111 | `completed` maps to paid and `failed`/`canceled` to cancelled, and nothing else maps (both directions) |
| Payments.SyncRowFrame | snow_liwa_web/services/payments_ziina.py:97-111 | The sync changes only `status` and `payment_status`. A mapped row gets the provider status and the mapped status; any other row is unchanged |
| Payments.SyncSkips | snow_liwa_web/services/payments_ziina.py:97-102 | A row without an intent id, or whose lookup gives no status, is left as it is |
| Payments.SyncOne | snow_liwa_web/services/payments_ziina.py:97-111 | One loop iteration computes the synced row, whether it changed and whether reading its status raises; an unchanged row is returned as is, and a raising row never changes |
| Payments.RaisingStatusIsNull | snow_liwa_web/services/payments_ziina.py:84-88 | An answer on which `.get` raises while the status is read has no readable status either |
| Payments.RaisingRowUnmapped | snow_liwa_web/services/payments_ziina.py:96-102 | A row whose status read raises is a row the sync would leave unchanged |
| Payments.FirstRaiseFrom | snow_liwa_web/services/payments_ziina.py:96-100 | The first row from a position on whose status read raises: no earlier row from there raises, and a position before the end does raise |
| Payments.FirstRaise | snow_liwa_web/services/payments_ziina.py:96-100 | The position where the loop raises lies before the end exactly when some row raises |
| Payments.SyncedFrame | snow_liwa_web/services/payments_ziina.py:96-111 | The frame the loop leaves behind has the table's length and, when no row raises, is the fully synced table |
| Payments.FirstRaiseFlags | snow_liwa_web/services/payments_ziina.py:96-111 | A loop that stops at the first raising row (or the end) leaves the rows before it synced and the rest as they were |
| Payments.SyncLoopExit | snow_liwa_web/services/payments_ziina.py:96-112 | At the loop's end the frame is `SyncedFrame`, `raised` holds exactly when some row raises, and otherwise `updated` holds exactly when some row mapped |
| Payments.SyncLoop | snow_liwa_web/services/payments_ziina.py:95-111 | The loop rewrites the frame in place to `SyncedFrame` of the old rows: every row synced when none raises, otherwise those before the first raising row. `raised` holds exactly when some row raises, and otherwise `updated` holds exactly when some row mapped |
| Payments.SyncAllBookings | snow_liwa_web/services/payments_ziina.py:91-114 | Unconfigured: nothing changes and nothing raises. Configured: it raises exactly when some row's status read raises, and the frame becomes `SyncedFrame`. The table is saved once exactly when configured, nothing raises and some row mapped; otherwise the stored table is unchanged |
| Payments.AnyMappedFlags | snow_liwa_web/services/payments_ziina.py:103-112 | The `updated` flag is the disjunction of the per-row flags |
| Payments.SyncIdempotent | snow_liwa_web/services/payments_ziina.py:91-114 | Syncing twice against the same provider answers gives the same table as syncing once |
| Payments.SyncWithoutMappedRows | snow_liwa_web/services/payments_ziina.py:112-113 | When no row maps, the sync leaves the table unchanged (hence no save is needed) |
| Payments.SyncKeepsIds | snow_liwa_web/services/payments_ziina.py:96-111 | The sync keeps every row's booking id, in order |
| Json.FindFirstUrl | app/routes.py:71-84 | Whatever `_find_first_url` returns is a string starting with `http://` or `https://` |
| Json.FindFirstUrlIsFirst | app/routes.py:71-84 | `_find_first_url` returns the first URL in a depth-first, left-to-right walk of all strings in the answer |
| Json.FirstUrlSpec | app/routes.py:71-84 | No URL is found exactly when no string in the walk is a URL; a found URL is the earliest one |
| PublicRoutes.MissingContactIff | app/routes.py:41-42 | The 400 case holds exactly when the name or the phone consists only of whitespace |
| PublicRoutes.BookingFormTickets | app/routes.py:44 | The form built by `book_ticket` yields the submitted ticket count, or 1 when it is 0 |
| PublicRoutes.BookedRow | app/routes.py:44-45 | A valid submission always creates its booking, with the given contact details and ticket count |
| PublicRoutes.IntentIdPrecedence | app/routes.py:59-64 | The intent id is `id`, else `payment_intent_id`, else `paymentIntent.id`, else empty |
| PublicRoutes.RedirectPrecedence | app/routes.py:65-87 | The redirect URL is `redirect_url`, else `hosted_page_url`, else `next_action.redirect_url`, else the first URL anywhere in the answer. None only when the answer holds no URL |
| PublicRoutes.AttachRowsSpec | app/routes.py:89-98 | The update keeps the rows and their ids. Each row of the booking gets the intent id, the redirect URL and the provider status when truthy. Its status becomes paid on `completed` and is kept otherwise. Other rows and other fields are unchanged |
| PublicRoutes.AttachReachesNewRow | app/routes.py:45-97 | The update reaches the row just created, the last one |
| PublicRoutes.AttachRows | app/routes.py:91-97 | The masked update keeps the table's length |
| PublicRoutes.AttachToRows | app/routes.py:91-97 | The in-place masked update yields `AttachRows`, and reports a match exactly when some row has the booking id |
| PublicRoutes.BookTicket | app/routes.py:33-103 | 400 without writing when contact is missing. Otherwise the booking is created. Unconfigured: the "Booking Created" page. No intent: 500. An answer on which reading the id or the URL raises (a truthy non-object where an object is read): 500 after the one write of the booking. Otherwise the intent is recorded on the booking's rows (a second write) and the customer is redirected, or gets 500 when there is no URL |
| PublicRoutes.NormalizeExample | app/routes.py:109-110 | `%7Babc%7D` normalises to `abc` |
| PublicRoutes.NormalizedEnds | app/routes.py:110 | A normalised id neither starts nor ends with a brace or a double quote |
| PublicRoutes.NormalizePlain | app/routes.py:109-110 | An id without `%` whose first and last characters are neither whitespace nor braces or double quotes is left unchanged |
| PublicRoutes.FirstSelected | app/routes.py:113-117 | A found index is the first matching row; none is found exactly when no row matches |
| PublicRoutes.FindRowSpec | app/routes.py:112-117 | An exact intent-id match wins and the first one is taken. Otherwise, for a non-empty id, the first row whose intent id contains it. No row exactly when neither exists |
| PublicRoutes.CallbackRowSpec | app/routes.py:131-138 | The callback's update records the provider status, sets paid on `completed` and cancelled on `failed`/`canceled`, keeps the status otherwise, and changes no other field |
| PublicRoutes.CallbackAgreesWithSync | app/routes.py:131-138 | For a row whose status maps, the callback's update equals the sync's update |
| PublicRoutes.PaymentResult | app/routes.py:106-152 | When reading the provider's status or id raises (a truthy non-object where an object is read): 500 and nothing is written. Otherwise it shows the first matching row and the provider-returned id when truthy. The shown status is the provider status, else `result`. That one row is updated and saved exactly when a row matched and the provider gave a truthy status; otherwise nothing is written |
| PublicRoutes.DownloadTicket | app/routes.py:155-173 | A served ticket belongs to a paid row with that id from the table; 404 exactly when no row has the id |
| PublicRoutes.DownloadTicketIff | app/routes.py:160-172 | A ticket is served exactly when the first row with the id is paid, and 403 exactly when that row is not paid |
| AdminRoutes.DefaultPin | admin/routes.py:18-27 | With `ADMIN_PIN` unset, access is granted exactly for the password `change_me`, whatever the user name, and the check raises exactly for a non-ASCII password |
| AdminRoutes.ComputeKpis | admin/routes.py:35-39 | The booking count is the number of rows; an empty table gives all-zero figures |
| AdminRoutes.PaidPendingWithinTotal | admin/routes.py:37-39 | With no negative amount, the paid and pending sums are non-negative and add up to at most the total |
| AdminRoutes.KpisBounded | admin/routes.py:37-39 | The dashboard's paid and pending figures are non-negative and within the total amount |
| AdminRoutes.CreationAddsPending | admin/routes.py:35-39 | A new booking adds one row, its tickets and its amount to the totals, all of it pending and none of it paid |
| AdminRoutes.SyncKeepsTotals | admin/routes.py:35-37 | The sync keeps the booking count, the ticket total and the grand total |
| AdminRoutes.LessAsym | admin/routes.py:41 | The order of `created_at` strings is asymmetric |
| AdminRoutes.LessTrans | admin/routes.py:41 | The order of `created_at` strings is transitive |
| AdminRoutes.LessTotal | admin/routes.py:41 | Any two `created_at` strings are ordered, or equal |
| AdminRoutes.Insert | admin/routes.py:41 | Inserting a row adds exactly that row (as a multiset) |
| AdminRoutes.InsertNewestFirst | admin/routes.py:41 | Inserting into a newest-first list keeps it newest-first |
| AdminRoutes.SortNewestFirst | admin/routes.py:41 | The sort is a permutation of the rows |
| AdminRoutes.SortNewestFirstSorted | admin/routes.py:41 | The sort's result is in descending `created_at` order |
| AdminRoutes.Recent | admin/routes.py:41 | The recent list has min(25, rows) entries |
| AdminRoutes.RecentNewestFirst | admin/routes.py:41 | The recent list is newest-first |
| AdminRoutes.RecentFromTable | admin/routes.py:41 | The recent list is a sub-multiset of the table |
| AdminRoutes.RecentIsNewest | admin/routes.py:41 | No row left out of the recent list is newer than a row in it |
| AdminRoutes.Dashboard | admin/routes.py:18-54 | 500 exactly when the PIN comparison raises (a non-ASCII password or PIN); otherwise Unauthorized exactly when the PIN is wrong; the page exactly when the PIN is accepted, showing the figures and the recent list of the table |
| AdminRoutes.SyncPayments | admin/routes.py:57-62 | 500 without writing when the PIN comparison raises; Unauthorized on a wrong PIN. Otherwise the sync runs. When it raises the answer is 500 and the stored table is unchanged. Otherwise the stored table becomes the synced table, it is saved exactly when configured and some row mapped, and the answer is a redirect to the dashboard |
| AdminRoutes.SettingsStore.constructor | snow_liwa_web/utils/settings_utils.py:6-13 | A fresh settings file holds `ticket_poster_path = assets/ticket_poster.png` |
| AdminRoutes.SettingsStore.Save | snow_liwa_web/utils/settings_utils.py:25-28 | Saving replaces the stored settings |
| AdminRoutes.Merged | admin/routes.py:79-83 | The keys are the old ones plus the form's. Form values win, and other settings keep their values |
| AdminRoutes.ApplyForm | admin/routes.py:80-83 | The loop over the form's keys yields `Merged(loaded, form)` |
| AdminRoutes.SaveSettingsRoute | admin/routes.py:72-86 | 500 without writing when the PIN comparison raises; Unauthorized without writing on a wrong PIN. Otherwise the loaded settings merged with the form, `Merged(old, form)`, are saved once, then a redirect to `/admin/settings?saved=true` |
| Text.StripEmptyIff | app/routes.py:41 | `strip()` gives the empty string exactly when every character is whitespace |
| Text.StripCharsSpec | app/routes.py:110 | `strip(chars)` removes the longest leading and trailing runs of those characters and keeps the middle |
| Text.TrimRightSpec | snow_liwa_web/services/payments_ziina.py:35 | `rstrip("/")` removes exactly the trailing slashes |
| Text.LastSegmentSpec | utils/logic.py:17 | `split("-")[-1]` is the suffix after the last `-`, or the whole string |
| Text.PercentDecodeEscape | app/routes.py:110 | `unquote` turns `%XX` with an ASCII code into that character |
| Text.PercentDecodeAppend | app/routes.py:110 | `unquote` leaves a prefix without `%` unchanged |
| Text.ZeroPaddedRoundTrip | utils/logic.py:17-20 | `int()` of `f"{n:03d}"` gives n back |
| Text.ZeroPaddedInjective | utils/logic.py:20 | Distinct numbers give distinct padded strings |
| Text.ZeroPadded3Shape | utils/logic.py:20 | Below 1000 the padded number has three digits; from 1000 it is the plain decimal |
| Text.ParseIntNoMinus | utils/logic.py:17 | A segment without `-` never reads as a negative number |

## Left out

- HTTP transport, timeouts, JSON decoding errors and logging of the provider client. They are represented only by the provider's answer, a function for creation and a map for lookup. `ZIINA_API_BASE` and the request headers' shape are not modelled beyond the bearer token.
- Excel and JSON files are in-memory stores (`BookingStore`, `SettingsStore`). The model has no file system, no `ensure_data_file`, no concurrent requests and no interleaving of two requests' load/save.
- Dates and times are `today` (`YYYYMMDD`) and `createdAt` strings given as parameters; the clock is not modelled.
- Pandas cells are typed: the model has no NaN, no `astype(str)` rendering (`"nan"`, `"None"`) and no Excel round trip turning `""` into NaN. Missing intent ids and redirect URLs are `None`.
- `str.contains` in `payment_result` is a regular-expression search; the model treats the normalised id as a literal substring.
- PublicRoutes.PaymentResult: when no row matches the id exactly, the source compiles the id as a regular expression, and an id that is not a valid pattern (such as `(`, `[`, `*` or `+`) raises `re.error`, answered with 500 even on an empty table; the model has no regular-expression syntax and shows the result page for such an id.
- Amounts are whole dirhams (`int`). Float arithmetic is not modelled, nor `round` in the fils amount or the `:.2f` rendering.
- PublicRoutes.AttachToRows: a provider status is stored as text through `Str` (scalars as Python's `str` renders them, containers as `""`); the source stores a non-string value itself, and a list- or object-valued `redirect_url` is stored as `""` where the source stores the value.
- PublicRoutes.IntentId: a list- or object-valued `id`, `payment_intent_id` or `paymentIntent.id` becomes `""` through `Str`, where the source's `str()` gives its repr (such as `['x']`); the booking then records no intent id.
- PublicRoutes.RedirectUrl: a list- or object-valued `redirect_url` (say `{"redirect_url": ["https://pay"]}`) is rendered `""`, so the model answers 500; the source answers 303 with `Location` set to that list's `str()`.
- PublicRoutes.RedirectPrecedence: states the same `Str` rendering, so container-valued redirect fields count as no URL.
- PublicRoutes.ShownIntentId: a container-valued returned id is shown as `""` rather than its repr.
- PublicRoutes.CallbackRow: a container-valued provider status is recorded as `""` rather than its repr; the status mapping itself is unaffected, since only the strings `completed`, `failed` and `canceled` map.
- PublicRoutes.CallbackRowSpec: states the same `Str` rendering of a container-valued provider status.
- Json.Get: decoded objects are taken to have distinct keys. For a repeated key the model reads the first occurrence, whereas `json.loads` keeps the last.
- An exception raised inside a handler (the `AttributeError` of `.get` on a truthy value that is not an object) is modelled as the HTTP 500 response FastAPI gives an unhandled exception: `InternalServerError` in the public routes, `ServerError` in the admin routes. Exceptions raised inside the provider client itself are caught there and give `None`, as in the source.
- AdminRoutes.SortNewestFirst: pandas' `sort_values` uses an unstable quicksort. The model is a stable insertion sort, so the relative order of rows with equal `created_at` is fixed here but unspecified in the source.
- `ParseInt` models `int()` on decimal ASCII digits with optional sign, surrounding whitespace and underscores. Other Unicode digits are not modelled.
- `PercentDecode` decodes `%XX` escapes of ASCII codes only; multi-byte UTF-8 sequences are not modelled.
- The booking form is modelled after FastAPI's `int` conversion of `tickets`; forms the framework rejects (422) are not modelled. Settings form values are strings, and a repeated form key is not modelled.
- `secrets.compare_digest` is modelled as string equality, with its TypeError on non-ASCII text (`PinCheckRaises`) answered by 500 in every admin route; its constant-time behaviour is not modelled. The user name is ignored, as in the source.
- The landing page, `settings_page`, template rendering and the ticket HTML (`generate_ticket_html`) are not modelled. The Streamlit front ends are not part of this model.
- Logic.NextIdContinuesRun: the uniqueness of ids across repeated bookings is stated for a run that starts on a day without earlier ids and appends only that day's ids; other interleavings are covered step by step by `NextIdAfterAllocated`.
- `TICKET_PRICE_AED` that does not parse raises at import in the source; the model's `TicketPriceAed` returns `None` for it, and the routes take the price as a parameter.
