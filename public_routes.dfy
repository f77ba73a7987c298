/**
 * The public pages of the booking site: the booking form's handler, the
 * page the payment provider sends the customer back to, and the ticket
 * download. A handler reads the booking table from the store, may update
 * rows in place and save the table, and answers with a response.
 */
module PublicRoutes {
  import opened Wrappers
  import opened Text
  import opened Json
  import opened Config
  import opened Bookings
  import opened Logic
  import opened Payments

  /** What a handler answers; the HTML itself is not modelled, only what it shows. */
  datatype Response =
    | BookingCreatedPage(bookingId: string, totalAmount: int)
    | Redirect(url: string)
    | HttpError(code: int, detail: string)
    | ResultPage(shownBookingId: Option<string>, shownRow: Option<Booking>, shownIntentId: string, shownStatus: Json)
    | TicketPage(booking: Booking)

  /** The framework's answer when an exception escapes a handler. */
  const InternalServerError: Response := HttpError(500, "Internal Server Error")

  // ---------------------------------------------------------------------
  // book_ticket: validation and the form passed on
  // ---------------------------------------------------------------------

  /** `not name.strip() or not phone.strip()`: the request is refused with 400. */
  predicate MissingContact(name: string, phone: string) {
    Strip(name) == "" || Strip(phone) == ""
  }

  /** The form `book_ticket` hands to booking creation; `tickets` is already an integer. */
  function BookingForm(name: string, phone: string, tickets: int, notes: string): Form {
    map["name" := TextValue(name), "phone" := TextValue(phone), "tickets" := Number(tickets), "notes" := TextValue(notes)]
  }

  // ---------------------------------------------------------------------
  // book_ticket: reading the provider's answer
  // ---------------------------------------------------------------------

  /** `str(pi.get("id") or pi.get("payment_intent_id") or (pi.get("paymentIntent", {}) or {}).get("id") or "")`. */
  function IntentId(pi: Json): string {
    Str(Or(Get(pi, "id"), Or(Get(pi, "payment_intent_id"),
      Or(Get(Or(Get(pi, "paymentIntent"), JObj([])), "id"), JStr("")))))
  }

  /** `pi.get("redirect_url") or pi.get("hosted_page_url") or (pi.get("next_action") or {}).get("redirect_url")`. */
  function RedirectField(pi: Json): Json {
    Or(Get(pi, "redirect_url"), Or(Get(pi, "hosted_page_url"),
      Get(Or(Get(pi, "next_action"), JObj([])), "redirect_url")))
  }

  /**
   * Reading the id and the redirect field of a truthy creation answer
   * raises: the answer is not an object, or a chain reaches a
   * `paymentIntent` or `next_action` member that is truthy but not an object.
   */
  predicate CreationAnswerRaises(pi: Json) {
    || GetRaises(pi)
    || (!Truthy(Get(pi, "id")) && !Truthy(Get(pi, "payment_intent_id")) && GetRaises(Get(pi, "paymentIntent")))
    || (!Truthy(Get(pi, "redirect_url")) && !Truthy(Get(pi, "hosted_page_url")) && GetRaises(Get(pi, "next_action")))
  }

  /** The redirect URL: the named fields first, and only when all are falsy the first URL anywhere in the answer. */
  function RedirectUrl(pi: Json): Option<string> {
    if Truthy(RedirectField(pi)) then Some(Str(RedirectField(pi))) else FindFirstUrl(pi)
  }

  /** `RedirectResponse(url, 303)` when there is a redirect URL, else the 500 error. */
  function RedirectResponse(pi: Json): Response {
    match RedirectUrl(pi)
    case Some(u) => if u != "" then Redirect(u) else HttpError(500, "Payment intent created but no redirect URL.")
    case None => HttpError(500, "Payment intent created but no redirect URL.")
  }

  // ---------------------------------------------------------------------
  // book_ticket: the row update
  // ---------------------------------------------------------------------

  /**
   * The `df.loc[mask, ...]` assignments for one row of the new booking: the
   * intent id, the provider status when it is truthy (else the old one),
   * the redirect URL, and `paid` when the provider status is `completed`.
   */
  function AttachIntent(b: Booking, pi: Json): Booking {
    var st := Get(pi, "status");
    b.(paymentIntentId := Some(IntentId(pi)),
       paymentStatus := if Truthy(st) then Some(Str(st)) else b.paymentStatus,
       redirectUrl := RedirectUrl(pi),
       status := if st == JStr("completed") then "paid" else b.status)
  }

  /** The table after the update: the rows whose booking id is `bookingId` are updated, the others kept. */
  function AttachRows(rows: seq<Booking>, bookingId: string, pi: Json): (r: seq<Booking>)
    ensures |r| == |rows|
  {
    seq(|rows|, k requires 0 <= k < |rows| => if rows[k].bookingId == bookingId then AttachIntent(rows[k], pi) else rows[k])
  }

  /**
   * `mask = df["booking_id"] == booking_id` and the masked assignments:
   * every row of the booking is updated at once; `matched` is `mask.any()`.
   */
  method AttachToRows(df: array<Booking>, bookingId: string, pi: Json) returns (matched: bool)
    modifies df
    ensures df[..] == AttachRows(old(df[..]), bookingId, pi)
    ensures matched <==> exists k :: 0 <= k < df.Length && old(df[k]).bookingId == bookingId
  {
    matched := exists k :: 0 <= k < df.Length && df[k].bookingId == bookingId;
    forall k | 0 <= k < df.Length && df[k].bookingId == bookingId {
      df[k] := AttachIntent(df[k], pi);
    }
  }

  /**
   * `book_ticket`: validate, create the booking, and when the provider is
   * configured create the payment intent, record it on the booking's rows
   * and redirect the customer to the provider's page. An answer whose id or
   * redirect field cannot be read fails the request with 500 after the
   * booking was saved.
   */
  method BookTicket(store: BookingStore, cfg: ZiinaConfig, post: IntentCreator,
                    name: string, phone: string, tickets: int, notes: string,
                    today: string, createdAt: string, price: int)
    returns (resp: Response)
    modifies store
    ensures MissingContact(name, phone) ==>
      && resp == HttpError(400, "Name and phone required.")
      && store.rows == old(store.rows) && store.saves == old(store.saves)
    ensures !MissingContact(name, phone) ==>
      var c := CreateBooking(old(store.rows), BookingForm(name, phone, tickets, notes), today, createdAt, price);
      var pi := CreatePaymentIntent(cfg, c.value.totalAmount, c.value.bookingId, name, post);
      && c.Some?
      && (!HasZiinaConfigured(cfg) ==>
            resp == BookingCreatedPage(c.value.bookingId, c.value.totalAmount)
            && store.rows == c.value.rows && store.saves == old(store.saves) + 1)
      && (HasZiinaConfigured(cfg) && !(pi.Some? && Truthy(pi.value)) ==>
            resp == HttpError(500, "Failed to create payment intent.")
            && store.rows == c.value.rows && store.saves == old(store.saves) + 1)
      && (HasZiinaConfigured(cfg) && pi.Some? && Truthy(pi.value) && CreationAnswerRaises(pi.value) ==>
            resp == InternalServerError
            && store.rows == c.value.rows && store.saves == old(store.saves) + 1)
      && (HasZiinaConfigured(cfg) && pi.Some? && Truthy(pi.value) && !CreationAnswerRaises(pi.value) ==>
            resp == RedirectResponse(pi.value)
            && store.rows == AttachRows(c.value.rows, c.value.bookingId, pi.value)
            && store.saves == old(store.saves) + 2)
  {
    if Strip(name) == "" || Strip(phone) == "" {
      return HttpError(400, "Name and phone required.");
    }
    var form := BookingForm(name, phone, tickets, notes);
    ghost var rows0 := store.rows;
    BookingFormTickets(name, phone, tickets, notes);
    var created := CreateBookingAndGetAmount(store, form, today, createdAt, price);
    if created.None? {
      assert false;
      return HttpError(500, "");
    }
    var (bookingId, totalAmount) := created.value;
    if !HasZiinaConfigured(cfg) {
      return BookingCreatedPage(bookingId, totalAmount);
    }
    var pi := CreatePaymentIntent(cfg, totalAmount, bookingId, name, post);
    if pi.None? || !Truthy(pi.value) {
      return HttpError(500, "Failed to create payment intent.");
    }
    var answer := pi.value;
    if CreationAnswerRaises(answer) {
      return InternalServerError;
    }
    var df := store.Load();
    assert df[|rows0|].bookingId == bookingId;
    var matched := AttachToRows(df, bookingId, answer);
    if matched {
      store.Save(df[..]);
    }
    resp := RedirectResponse(answer);
  }

  // ---------------------------------------------------------------------
  // payment_result
  // ---------------------------------------------------------------------

  /**
   * The callback's `pi_id` as it is looked up: trimmed, percent-decoded,
   * trimmed again, and stripped of braces and double quotes at both ends.
   */
  function NormalizePiId(raw: string): string {
    StripChars(Strip(PercentDecode(Strip(raw))), Some({'{', '}', '"'}))
  }

  /** The ways the handlers select rows of the table. */
  datatype Selector =
    | ByBookingId(bookingId: string)
    | ByIntentId(intentId: string)
    | ByIntentIdPart(part: string)

  /** Whether a row is selected: equal booking id, equal intent id, or an intent id containing the text. */
  predicate Selects(sel: Selector, b: Booking) {
    match sel
    case ByBookingId(id) => b.bookingId == id
    case ByIntentId(id) => b.paymentIntentId == Some(id)
    case ByIntentIdPart(part) => b.paymentIntentId.Some? && Contains(b.paymentIntentId.value, part)
  }

  /** The first row at or after `i` that the selector picks, by index. */
  function FirstSelected(rows: seq<Booking>, sel: Selector, i: nat): (r: Option<nat>)
    requires i <= |rows|
    ensures r.Some? ==>
      && i <= r.value < |rows| && Selects(sel, rows[r.value])
      && forall j :: i <= j < r.value ==> !Selects(sel, rows[j])
    ensures r.None? <==> forall j :: i <= j < |rows| ==> !Selects(sel, rows[j])
    decreases |rows| - i
  {
    if i == |rows| then None
    else if Selects(sel, rows[i]) then Some(i)
    else FirstSelected(rows, sel, i + 1)
  }

  /**
   * The row `payment_result` shows and updates: the first row whose intent
   * id equals the normalised id; failing that, and only for a non-empty id,
   * the first row whose intent id contains it.
   */
  function FindRow(rows: seq<Booking>, piId: string): (r: Option<nat>)
    ensures r.Some? ==> r.value < |rows|
  {
    match FirstSelected(rows, ByIntentId(piId), 0)
    case Some(k) => Some(k)
    case None => if piId != "" then FirstSelected(rows, ByIntentIdPart(piId), 0) else None
  }

  /** The provider's answer as `payment_result` uses it: looked up only for a non-empty id; an empty body counts as none. */
  function CallbackIntent(cfg: ZiinaConfig, lookup: IntentLookup, piId: string): Option<Json> {
    if piId == "" then None
    else match GetPaymentIntent(cfg, piId, lookup)
      case Some(pi) => if Truthy(pi) then Some(pi) else None
      case None => None
  }

  /** `pi.get("id") or (pi.get("data") or {}).get("id") or pi.get("payment_intent_id")`. */
  function ReturnedId(pi: Json): Json {
    Or(Get(pi, "id"), Or(Get(Or(Get(pi, "data"), JObj([])), "id"), Get(pi, "payment_intent_id")))
  }

  /**
   * Reading the status and the returned id of a truthy callback answer
   * raises: the status cannot be read, or the top-level id is falsy and
   * `data` is truthy but not an object.
   */
  predicate CallbackAnswerRaises(pi: Json) {
    StatusRaises(pi) || (!Truthy(Get(pi, "id")) && GetRaises(Get(pi, "data")))
  }

  /** The intent id the page shows: the provider's own id when it returns a truthy one. */
  function ShownIntentId(piId: string, pi: Option<Json>): string {
    if pi.Some? && Truthy(ReturnedId(pi.value)) then Str(ReturnedId(pi.value)) else piId
  }

  /** The callback's update of the matched row: the provider status is recorded, and completed/failed/canceled map as in the sync. */
  function CallbackRow(b: Booking, st: Json): Booking {
    b.(paymentStatus := Some(Str(st)), status := MappedStatus(st).GetOr(b.status))
  }

  /**
   * `payment_result`: find the booking of the returned intent id, ask the
   * provider for the intent, update that one row when the provider gives a
   * status, and show the provider status, else the `result` parameter.
   * An answer whose status or id cannot be read fails the request with 500
   * before anything is written.
   */
  method PaymentResult(store: BookingStore, cfg: ZiinaConfig, lookup: IntentLookup, result: string, piId: string)
    returns (resp: Response)
    modifies store
    ensures var norm := NormalizePiId(piId);
      var rows := old(store.rows);
      var idx := FindRow(rows, norm);
      var pi := CallbackIntent(cfg, lookup, norm);
      var st := if pi.Some? then IntentStatus(pi.value) else JNull;
      && (pi.Some? && CallbackAnswerRaises(pi.value) ==>
            resp == InternalServerError && store.rows == rows && store.saves == old(store.saves))
      && (!(pi.Some? && CallbackAnswerRaises(pi.value)) ==>
            && resp == ResultPage(
                 if idx.Some? then Some(rows[idx.value].bookingId) else None,
                 if idx.Some? then Some(rows[idx.value]) else None,
                 ShownIntentId(norm, pi),
                 Or(st, JStr(result)))
            && (idx.Some? && Truthy(st) ==>
                  store.rows == rows[idx.value := CallbackRow(rows[idx.value], st)]
                  && store.saves == old(store.saves) + 1)
            && (!(idx.Some? && Truthy(st)) ==>
                  store.rows == rows && store.saves == old(store.saves)))
  {
    var norm := NormalizePiId(piId);
    var df := store.Load();
    var idx := FindRow(df[..], norm);
    var bookingId: Option<string> := None;
    var bookingData: Option<Booking> := None;
    if idx.Some? {
      bookingId := Some(df[idx.value].bookingId);
      bookingData := Some(df[idx.value]);
    }
    var piStatus := JNull;
    var shown := norm;
    if norm != "" {
      var pi := GetPaymentIntent(cfg, norm, lookup);
      if pi.Some? && Truthy(pi.value) {
        if CallbackAnswerRaises(pi.value) {
          return InternalServerError;
        }
        piStatus := IntentStatus(pi.value);
        var returned := ReturnedId(pi.value);
        if Truthy(returned) {
          shown := Str(returned);
        }
        if idx.Some? && Truthy(piStatus) {
          df[idx.value] := CallbackRow(df[idx.value], piStatus);
          store.Save(df[..]);
        }
      }
    }
    resp := ResultPage(bookingId, bookingData, shown, Or(piStatus, JStr(result)));
  }

  // ---------------------------------------------------------------------
  // download_ticket
  // ---------------------------------------------------------------------

  /** `download_ticket`: 404 for an unknown booking id, 403 unless its first row is paid, else the ticket. */
  function DownloadTicket(rows: seq<Booking>, bookingId: string): (r: Response)
    ensures r.TicketPage? ==> r.booking.bookingId == bookingId && r.booking.status == "paid" && r.booking in rows
    ensures r == HttpError(404, "Booking not found") <==> forall k :: 0 <= k < |rows| ==> rows[k].bookingId != bookingId
  {
    match FirstSelected(rows, ByBookingId(bookingId), 0)
    case None => HttpError(404, "Booking not found")
    case Some(k) =>
      if rows[k].status != "paid" then HttpError(403, "Ticket only available for paid bookings")
      else TicketPage(rows[k])
  }

  // ---------------------------------------------------------------------
  // Lemmas
  // ---------------------------------------------------------------------

  /** A name or phone is refused exactly when it is empty or all whitespace. */
  lemma MissingContactIff(name: string, phone: string)
    ensures MissingContact(name, phone) <==>
      (forall i :: 0 <= i < |name| ==> IsSpace(name[i])) || (forall i :: 0 <= i < |phone| ==> IsSpace(phone[i]))
  {
    StripEmptyIff(name);
    StripEmptyIff(phone);
  }

  /** The booking form always has a ticket count: the submitted one, or 1 when it is 0. */
  lemma BookingFormTickets(name: string, phone: string, tickets: int, notes: string)
    ensures TicketCount(BookingForm(name, phone, tickets, notes)) == Some(if tickets != 0 then tickets else 1)
  {
    var form := BookingForm(name, phone, tickets, notes);
    assert "people_count" !in form;
  }

  /** The row a valid booking request creates carries the submitted name, phone and notes, pending. */
  lemma BookedRow(rows: seq<Booking>, name: string, phone: string, tickets: int, notes: string,
                  today: string, createdAt: string, price: int)
    ensures var c := CreateBooking(rows, BookingForm(name, phone, tickets, notes), today, createdAt, price);
      && c.Some?
      && var b := c.value.rows[|rows|];
      && b.name == name && b.phone == phone && b.notes == notes
      && b.tickets == (if tickets != 0 then tickets else 1)
      && b.totalAmount == b.tickets * price
      && b.status == "pending"
      && b.bookingId == NextBookingId(BookingIds(rows), today)
  {
    BookingFormTickets(name, phone, tickets, notes);
  }

  /** The intent id is the first truthy of `id`, `payment_intent_id` and `paymentIntent.id`, else "". */
  lemma IntentIdPrecedence(pi: Json)
    ensures Truthy(Get(pi, "id")) ==> IntentId(pi) == Str(Get(pi, "id"))
    ensures !Truthy(Get(pi, "id")) && Truthy(Get(pi, "payment_intent_id")) ==>
      IntentId(pi) == Str(Get(pi, "payment_intent_id"))
    ensures !Truthy(Get(pi, "id")) && !Truthy(Get(pi, "payment_intent_id")) ==>
      IntentId(pi) == (if Truthy(Get(Get(pi, "paymentIntent"), "id")) then Str(Get(Get(pi, "paymentIntent"), "id")) else "")
  {
    var inner := Get(pi, "paymentIntent");
    if !Truthy(inner) {
      assert Get(inner, "id") == JNull;
    }
  }

  /**
   * The redirect URL is `redirect_url`, else `hosted_page_url`, else
   * `next_action.redirect_url`; only when all are falsy is it the first URL
   * among all strings of the answer, in search order, if any.
   */
  lemma RedirectPrecedence(pi: Json)
    ensures Truthy(Get(pi, "redirect_url")) ==> RedirectUrl(pi) == Some(Str(Get(pi, "redirect_url")))
    ensures !Truthy(Get(pi, "redirect_url")) && Truthy(Get(pi, "hosted_page_url")) ==>
      RedirectUrl(pi) == Some(Str(Get(pi, "hosted_page_url")))
    ensures (!Truthy(Get(pi, "redirect_url")) && !Truthy(Get(pi, "hosted_page_url"))
      && Truthy(Get(Get(pi, "next_action"), "redirect_url"))) ==>
      RedirectUrl(pi) == Some(Str(Get(Get(pi, "next_action"), "redirect_url")))
    ensures (!Truthy(Get(pi, "redirect_url")) && !Truthy(Get(pi, "hosted_page_url"))
      && !Truthy(Get(Get(pi, "next_action"), "redirect_url"))) ==>
      RedirectUrl(pi) == FirstUrl(Strings(pi))
    ensures RedirectUrl(pi).None? ==> forall s :: s in Strings(pi) ==> !IsUrl(s)
  {
    var next := Get(pi, "next_action");
    if !Truthy(next) {
      assert Get(next, "redirect_url") == JNull;
    }
    FindFirstUrlIsFirst(pi);
    FirstUrlSpec(Strings(pi));
  }

  /**
   * The update after intent creation keeps the rows, their order and their
   * booking ids; rows of other bookings are unchanged; each row of the new
   * booking records the intent id and redirect URL, and becomes paid exactly
   * when the provider reports `completed`.
   */
  lemma AttachRowsSpec(rows: seq<Booking>, bookingId: string, pi: Json)
    ensures var r := AttachRows(rows, bookingId, pi);
      && BookingIds(r) == BookingIds(rows)
      && (forall k :: 0 <= k < |rows| && rows[k].bookingId != bookingId ==> r[k] == rows[k])
      && (forall k :: 0 <= k < |rows| && rows[k].bookingId == bookingId ==>
            && r[k].paymentIntentId == Some(IntentId(pi))
            && r[k].redirectUrl == RedirectUrl(pi)
            && r[k].status == (if Get(pi, "status") == JStr("completed") then "paid" else rows[k].status)
            && r[k].paymentStatus == (if Truthy(Get(pi, "status")) then Some(Str(Get(pi, "status"))) else rows[k].paymentStatus)
            && r[k].(paymentIntentId := rows[k].paymentIntentId, paymentStatus := rows[k].paymentStatus,
                     redirectUrl := rows[k].redirectUrl, status := rows[k].status) == rows[k])
  {
  }

  /** After a booking is created, the update reaches its new row, the last one. */
  lemma AttachReachesNewRow(rows: seq<Booking>, name: string, phone: string, tickets: int, notes: string,
                            today: string, createdAt: string, price: int, pi: Json)
    ensures var c := CreateBooking(rows, BookingForm(name, phone, tickets, notes), today, createdAt, price);
      && c.Some?
      && var r := AttachRows(c.value.rows, c.value.bookingId, pi);
      && |r| == |rows| + 1
      && r[|rows|].paymentIntentId == Some(IntentId(pi))
      && r[|rows|].redirectUrl == RedirectUrl(pi)
      && (r[|rows|].status == "paid" <==> Get(pi, "status") == JStr("completed"))
  {
    BookedRow(rows, name, phone, tickets, notes, today, createdAt, price);
  }

  /** `%7B` and `%7D` decode to the braces around `abc`. */
  lemma DecodeExample()
    ensures PercentDecode("%7Babc%7D") == "{abc}"
  {
    var tail := ['%', '7', 'D'];
    assert "%7Babc%7D" == ['%', '7', 'B'] + ("abc" + tail);
    PercentDecodeEscape('7', 'B', "abc" + tail);
    PercentDecodeAppend("abc", tail);
    assert PercentDecode(tail) == "}" by {
      assert tail == tail + [];
      PercentDecodeEscape('7', 'D', []);
    }
  }

  /** `%7Babc%7D` is normalised to `abc`. */
  lemma NormalizeExample()
    ensures NormalizePiId("%7Babc%7D") == "abc"
  {
    var raw := "%7Babc%7D";
    PrintableNotSpace('%');
    PrintableNotSpace('D');
    StripUnchanged(raw);
    DecodeExample();
    var decoded := "{abc}";
    PrintableNotSpace('{');
    PrintableNotSpace('}');
    StripUnchanged(decoded);
    var braces := Some({'{', '}', '"'});
    assert LeadEnd(decoded, braces, 1) == 1;
    assert LeadEnd(decoded, braces, 0) == 1;
    var t := decoded[1..];
    assert t == "abc}";
    assert TrailStart(t, braces, 3) == 3;
    assert TrailStart(t, braces, 4) == 3;
  }

  /** A normalised id never begins or ends with `{`, `}` or `"`. */
  lemma NormalizedEnds(raw: string)
    ensures var r := NormalizePiId(raw);
      |r| > 0 ==> r[0] !in {'{', '}', '"'} && r[|r| - 1] !in {'{', '}', '"'}
  {
    StripCharsSpec(Strip(PercentDecode(Strip(raw))), Some({'{', '}', '"'}));
  }

  /** An id without `%` whose ends are neither whitespace nor braces or quotes passes unchanged. */
  lemma NormalizePlain(raw: string)
    requires forall i :: 0 <= i < |raw| ==> raw[i] != '%'
    requires |raw| > 0 ==> !IsSpace(raw[0]) && !IsSpace(raw[|raw| - 1])
    requires |raw| > 0 ==> raw[0] !in {'{', '}', '"'} && raw[|raw| - 1] !in {'{', '}', '"'}
    ensures NormalizePiId(raw) == raw
  {
    StripUnchanged(raw);
    PercentDecodeAppend(raw, "");
    assert raw + "" == raw;
    assert PercentDecode("") == "";
    StripUnchanged(raw);
    StripCharsUnchanged(raw, Some({'{', '}', '"'}));
  }

  /**
   * The lookup: the first exact match of the intent id if there is one;
   * otherwise, for a non-empty id, the first row whose intent id contains
   * it; otherwise no row.
   */
  lemma FindRowSpec(rows: seq<Booking>, piId: string)
    ensures var r := FindRow(rows, piId);
      && ((exists k :: 0 <= k < |rows| && rows[k].paymentIntentId == Some(piId)) ==>
            r.Some? && rows[r.value].paymentIntentId == Some(piId)
            && forall j :: 0 <= j < r.value ==> rows[j].paymentIntentId != Some(piId))
      && ((forall k :: 0 <= k < |rows| ==> rows[k].paymentIntentId != Some(piId)) && piId != "" ==>
            r == FirstSelected(rows, ByIntentIdPart(piId), 0))
      && (r.None? <==>
            (forall k :: 0 <= k < |rows| ==> rows[k].paymentIntentId != Some(piId))
            && (piId == "" || forall k :: 0 <= k < |rows| ==> !Selects(ByIntentIdPart(piId), rows[k])))
  {
    var exact := FirstSelected(rows, ByIntentId(piId), 0);
    if exact.None? && piId != "" {
      var loose := FirstSelected(rows, ByIntentIdPart(piId), 0);
    }
  }

  /**
   * The callback's row update records the provider status, sets paid for
   * `completed` and cancelled for `failed`/`canceled`, keeps the status
   * otherwise, and changes no other field.
   */
  lemma CallbackRowSpec(b: Booking, st: Json)
    ensures var r := CallbackRow(b, st);
      && r.paymentStatus == Some(Str(st))
      && (r.status == "paid" <==> st == JStr("completed") || (b.status == "paid" && MappedStatus(st).None?))
      && (st == JStr("failed") || st == JStr("canceled") ==> r.status == "cancelled")
      && (MappedStatus(st).None? ==> r.status == b.status)
      && r.(paymentStatus := b.paymentStatus, status := b.status) == b
  {
  }

  /** For a row whose status maps, the callback's update and the sync's update agree. */
  lemma CallbackAgreesWithSync(cfg: ZiinaConfig, lookup: IntentLookup, b: Booking)
    requires RowMapped(cfg, lookup, b)
    ensures CallbackRow(b, RowProviderStatus(cfg, lookup, b)) == SyncRow(cfg, lookup, b)
  {
  }

  /**
   * A ticket is served exactly when some row has the booking id and the
   * first such row is paid; the answer is 403 exactly when that row is not paid.
   */
  lemma DownloadTicketIff(rows: seq<Booking>, bookingId: string)
    ensures DownloadTicket(rows, bookingId).TicketPage? <==>
      exists k :: 0 <= k < |rows| && rows[k].bookingId == bookingId && rows[k].status == "paid"
        && forall j :: 0 <= j < k ==> rows[j].bookingId != bookingId
    ensures DownloadTicket(rows, bookingId).HttpError? && DownloadTicket(rows, bookingId).code == 403 <==>
      exists k :: 0 <= k < |rows| && rows[k].bookingId == bookingId && rows[k].status != "paid"
        && forall j :: 0 <= j < k ==> rows[j].bookingId != bookingId
  {
    var f := FirstSelected(rows, ByBookingId(bookingId), 0);
    if f.Some? {
      forall k | 0 <= k < |rows| && rows[k].bookingId == bookingId && forall j :: 0 <= j < k ==> rows[j].bookingId != bookingId
        ensures k == f.value
      {
      }
    }
  }
}
