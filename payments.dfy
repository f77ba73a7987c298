/**
 * The payment provider's client and the reconciliation of the booking
 * table with it. The provider itself is two oracles: one answers the
 * creation of a payment intent, the other the lookup of an intent by id.
 * Either answers None when the request fails, the status code is not a
 * success or the body is not JSON.
 */
module Payments {
  import opened Wrappers
  import opened Text
  import opened Json
  import opened Config
  import opened Bookings

  /** The access-token prefixes of the sample configuration, which mean "not set up". */
  const Placeholders: seq<string> := ["PUT_", "REPLACE_", "YOUR_"]

  /** `has_ziina_configured()`: a token that is set, not empty and not a placeholder. */
  predicate HasZiinaConfigured(cfg: ZiinaConfig) {
    match cfg.accessToken
    case None => false
    case Some(token) =>
      token != "" && forall p :: 0 <= p < |Placeholders| ==> !StartsWith(token, Placeholders[p])
  }

  /** `not access_token`: the token is unset or empty. */
  predicate TokenMissing(cfg: ZiinaConfig) {
    cfg.accessToken.None? || cfg.accessToken.value == ""
  }

  // ---------------------------------------------------------------------
  // create_payment_intent: the request
  // ---------------------------------------------------------------------

  /** The text the callback URLs end in; the provider substitutes the intent id. */
  const IntentIdPlaceholder: string := "{PAYMENT_INTENT_ID}"

  /** `<base without trailing slashes>/payment_result?result=<outcome>&pi_id={PAYMENT_INTENT_ID}`. */
  function CallbackUrl(appBaseUrl: string, outcome: string): string {
    TrimRight(appBaseUrl, Some({'/'})) + CallbackPath(outcome)
  }

  /** `/payment_result?result=<outcome>&pi_id={PAYMENT_INTENT_ID}`. */
  function CallbackPath(outcome: string): string {
    "/payment_result?result=" + outcome + "&pi_id=" + IntentIdPlaceholder
  }

  /** The body of the POST to `<api base>/payment_intent`, with the bearer token it is sent with. */
  datatype PaymentRequest = PaymentRequest(
    bearerToken: string,
    amount: int,
    currencyCode: string,
    message: string,
    successUrl: string,
    cancelUrl: string,
    failureUrl: string,
    test: bool)

  /** `Snow Liwa booking <id> - <name>`. */
  function IntentMessage(bookingId: string, customerName: string): string {
    "Snow Liwa booking " + bookingId + " - " + customerName
  }

  /**
   * The request `create_payment_intent` sends: None when the token is
   * missing (no request is made). The amount is in fils, 100 per dirham.
   */
  function BuildPaymentRequest(cfg: ZiinaConfig, amountAed: int, bookingId: string, customerName: string): (r: Option<PaymentRequest>)
    ensures r.None? <==> TokenMissing(cfg)
    ensures r.Some? ==>
      && r.value.bearerToken == cfg.accessToken.value
      && r.value.amount == 100 * amountAed
      && r.value.currencyCode == "AED"
      && r.value.test == cfg.testMode
      && r.value.message == IntentMessage(bookingId, customerName)
      && r.value.successUrl == CallbackUrl(cfg.appBaseUrl, "success")
      && r.value.cancelUrl == CallbackUrl(cfg.appBaseUrl, "cancel")
      && r.value.failureUrl == CallbackUrl(cfg.appBaseUrl, "failure")
  {
    if TokenMissing(cfg) then None
    else
      Some(PaymentRequest(
        cfg.accessToken.value,
        amountAed * 100,
        "AED",
        IntentMessage(bookingId, customerName),
        CallbackUrl(cfg.appBaseUrl, "success"),
        CallbackUrl(cfg.appBaseUrl, "cancel"),
        CallbackUrl(cfg.appBaseUrl, "failure"),
        cfg.testMode))
  }

  /** The provider's answer to a creation request: the decoded body, or None. */
  type IntentCreator = PaymentRequest -> Option<Json>

  /**
   * The provider's answers to `GET <api base>/payment_intent/<id>`: the
   * decoded body for an id it answers; an id outside the map is a failed
   * request.
   */
  type IntentLookup = map<string, Json>

  /** `create_payment_intent(amount, booking_id, customer_name)`. */
  function CreatePaymentIntent(cfg: ZiinaConfig, amountAed: int, bookingId: string, customerName: string, post: IntentCreator): (r: Option<Json>)
    ensures TokenMissing(cfg) ==> r.None?
    ensures !TokenMissing(cfg) ==> r == post(BuildPaymentRequest(cfg, amountAed, bookingId, customerName).value)
  {
    match BuildPaymentRequest(cfg, amountAed, bookingId, customerName)
    case None => None
    case Some(req) => post(req)
  }

  /** `get_payment_intent(pi_id)`: None without a token, else the lookup's answer. */
  function GetPaymentIntent(cfg: ZiinaConfig, piId: string, lookup: IntentLookup): (r: Option<Json>)
    ensures TokenMissing(cfg) || piId !in lookup ==> r.None?
    ensures !TokenMissing(cfg) && piId in lookup ==> r == Some(lookup[piId])
  {
    if TokenMissing(cfg) then None
    else if piId in lookup then Some(lookup[piId])
    else None
  }

  // ---------------------------------------------------------------------
  // get_payment_intent_status
  // ---------------------------------------------------------------------

  /** `pi.get("status") or (pi.get("data") or {}).get("status")`. */
  function IntentStatus(pi: Json): Json {
    Or(Get(pi, "status"), Get(Or(Get(pi, "data"), JObj([])), "status"))
  }

  /** `get_payment_intent_status(pi_id)`; None (JNull) when the lookup fails or the body is empty. */
  function GetPaymentIntentStatus(cfg: ZiinaConfig, piId: string, lookup: IntentLookup): Json {
    match GetPaymentIntent(cfg, piId, lookup)
    case None => JNull
    case Some(pi) => if Truthy(pi) then IntentStatus(pi) else JNull
  }

  /**
   * Reading the status of a truthy answer raises: `pi.get` on an answer
   * that is not an object, or, when the top-level status is falsy, `.get`
   * on a `data` member that is truthy but not an object.
   */
  predicate StatusRaises(pi: Json) {
    GetRaises(pi) || (!Truthy(Get(pi, "status")) && GetRaises(Get(pi, "data")))
  }

  /** `get_payment_intent_status(pi_id)` raises: the lookup gives a truthy answer whose status cannot be read. */
  predicate StatusLookupRaises(cfg: ZiinaConfig, piId: string, lookup: IntentLookup) {
    match GetPaymentIntent(cfg, piId, lookup)
    case None => false
    case Some(pi) => Truthy(pi) && StatusRaises(pi)
  }

  /** The status the table records for a provider status: paid, cancelled, or no change. */
  function MappedStatus(providerStatus: Json): (r: Option<string>)
    ensures r.Some? ==> providerStatus.JStr?
  {
    if providerStatus == JStr("completed") then Some("paid")
    else if providerStatus == JStr("failed") || providerStatus == JStr("canceled") then Some("cancelled")
    else None
  }

  // ---------------------------------------------------------------------
  // sync_all_bookings: one row
  // ---------------------------------------------------------------------

  /** `str(row.get("payment_intent_id") or "").strip()`. */
  function IntentIdOf(b: Booking): string {
    Strip(b.paymentIntentId.GetOr(""))
  }

  /** The provider status the sync reads for a row; JNull for a row without an intent id. */
  function RowProviderStatus(cfg: ZiinaConfig, lookup: IntentLookup, b: Booking): Json {
    if IntentIdOf(b) == "" then JNull else GetPaymentIntentStatus(cfg, IntentIdOf(b), lookup)
  }

  /** The sync raises at this row: it has an intent id whose status lookup raises. */
  predicate RowRaises(cfg: ZiinaConfig, lookup: IntentLookup, b: Booking) {
    IntentIdOf(b) != "" && StatusLookupRaises(cfg, IntentIdOf(b), lookup)
  }

  /** Whether the sync assigns a mapped status to the row (this is what triggers the save). */
  predicate RowMapped(cfg: ZiinaConfig, lookup: IntentLookup, b: Booking) {
    MappedStatus(RowProviderStatus(cfg, lookup, b)).Some?
  }

  /** The row after the sync: a mapped status sets `status` and records the provider's string. */
  function SyncRow(cfg: ZiinaConfig, lookup: IntentLookup, b: Booking): Booking {
    var st := RowProviderStatus(cfg, lookup, b);
    match MappedStatus(st)
    case Some(s) => b.(status := s, paymentStatus := Some(st.s))
    case None => b
  }

  /** The first `n` rows after the sync loop has passed over them. */
  function SyncedUpTo(cfg: ZiinaConfig, lookup: IntentLookup, rows: seq<Booking>, n: nat): (r: seq<Booking>)
    requires n <= |rows|
    ensures |r| == n
  {
    if n == 0 then [] else SyncedUpTo(cfg, lookup, rows, n - 1) + [SyncRow(cfg, lookup, rows[n - 1])]
  }

  /** The table after the sync loop. */
  function SyncRows(cfg: ZiinaConfig, lookup: IntentLookup, rows: seq<Booking>): (r: seq<Booking>)
    ensures |r| == |rows|
  {
    SyncedUpTo(cfg, lookup, rows, |rows|)
  }

  /** For each of the first `n` rows, whether the sync assigns it a mapped status. */
  function FlagsUpTo(cfg: ZiinaConfig, lookup: IntentLookup, rows: seq<Booking>, n: nat): (r: seq<bool>)
    requires n <= |rows|
    ensures |r| == n
  {
    if n == 0 then [] else FlagsUpTo(cfg, lookup, rows, n - 1) + [RowMapped(cfg, lookup, rows[n - 1])]
  }

  /** For each row of the table, whether the sync assigns it a mapped status. */
  function MappedFlags(cfg: ZiinaConfig, lookup: IntentLookup, rows: seq<Booking>): (r: seq<bool>)
    ensures |r| == |rows|
  {
    FlagsUpTo(cfg, lookup, rows, |rows|)
  }

  /** For each of the first `n` rows, whether the sync raises there. */
  function RaisesUpTo(cfg: ZiinaConfig, lookup: IntentLookup, rows: seq<Booking>, n: nat): (r: seq<bool>)
    requires n <= |rows|
    ensures |r| == n
  {
    if n == 0 then [] else RaisesUpTo(cfg, lookup, rows, n - 1) + [RowRaises(cfg, lookup, rows[n - 1])]
  }

  /** For each row of the table, whether the sync raises there. */
  function RaiseFlags(cfg: ZiinaConfig, lookup: IntentLookup, rows: seq<Booking>): (r: seq<bool>)
    ensures |r| == |rows|
  {
    RaisesUpTo(cfg, lookup, rows, |rows|)
  }

  /** Some row makes the sync raise. */
  predicate AnyRaises(cfg: ZiinaConfig, lookup: IntentLookup, rows: seq<Booking>) {
    exists k :: 0 <= k < |rows| && RowRaises(cfg, lookup, rows[k])
  }

  /** The first row at or after `i` at which the sync raises, or `|rows|` when there is none. */
  function FirstRaiseFrom(cfg: ZiinaConfig, lookup: IntentLookup, rows: seq<Booking>, i: nat): (r: nat)
    requires i <= |rows|
    ensures i <= r <= |rows|
    ensures r < |rows| ==> RowRaises(cfg, lookup, rows[r])
    ensures forall k :: i <= k < r ==> !RowRaises(cfg, lookup, rows[k])
    decreases |rows| - i
  {
    if i == |rows| then |rows|
    else if RowRaises(cfg, lookup, rows[i]) then i
    else FirstRaiseFrom(cfg, lookup, rows, i + 1)
  }

  /** The row at which the sync raises, or `|rows|` when it runs to the end. */
  function FirstRaise(cfg: ZiinaConfig, lookup: IntentLookup, rows: seq<Booking>): (r: nat)
    ensures r <= |rows|
    ensures r < |rows| <==> AnyRaises(cfg, lookup, rows)
  {
    FirstRaiseFrom(cfg, lookup, rows, 0)
  }

  /**
   * The frame as the loop leaves it: the rows before the one that raises are
   * reconciled and the rest are untouched; without a raise, every row is.
   */
  function SyncedFrame(cfg: ZiinaConfig, lookup: IntentLookup, rows: seq<Booking>): (r: seq<Booking>)
    ensures |r| == |rows|
    ensures !AnyRaises(cfg, lookup, rows) ==> r == SyncRows(cfg, lookup, rows)
  {
    var n := FirstRaise(cfg, lookup, rows);
    SyncRows(cfg, lookup, rows)[..n] + rows[n..]
  }

  /** Some row of the table receives a mapped status: the condition under which the sync saves. */
  predicate AnyMapped(cfg: ZiinaConfig, lookup: IntentLookup, rows: seq<Booking>) {
    exists k :: 0 <= k < |rows| && RowMapped(cfg, lookup, rows[k])
  }

  // ---------------------------------------------------------------------
  // sync_all_bookings: the loop
  // ---------------------------------------------------------------------

  /**
   * The body of the sync loop for one row: skip a row without an intent id;
   * `raises` when reading its status raises; skip a row without a provider
   * status; map completed, failed and canceled. `row` is row `i` of the
   * table `rows` the loop started from, and the results are stated as that
   * row's entries in the whole-table specifications.
   */
  method SyncOne(cfg: ZiinaConfig, lookup: IntentLookup, row: Booking, ghost rows: seq<Booking>, ghost i: nat)
    returns (out: Booking, mapped: bool, raises: bool)
    requires i < |rows| && rows[i] == row
    ensures raises == RaiseFlags(cfg, lookup, rows)[i]
    ensures out == SyncRows(cfg, lookup, rows)[i]
    ensures mapped == MappedFlags(cfg, lookup, rows)[i]
    ensures !mapped ==> out == row
    ensures raises ==> !mapped
  {
    SyncedAt(cfg, lookup, rows, |rows|, i);
    FlaggedAt(cfg, lookup, rows, |rows|, i);
    RaisedAt(cfg, lookup, rows, |rows|, i);
    out, mapped, raises := row, false, false;
    var piId := IntentIdOf(row);
    if piId == "" {
      return;
    }
    if StatusLookupRaises(cfg, piId, lookup) {
      RaisingStatusIsNull(GetPaymentIntent(cfg, piId, lookup).value);
      raises := true;
      return;
    }
    var status := GetPaymentIntentStatus(cfg, piId, lookup);
    if !Truthy(status) {
      return;
    }
    if status == JStr("completed") {
      out, mapped := row.(status := "paid", paymentStatus := Some(status.s)), true;
    } else if status == JStr("failed") || status == JStr("canceled") {
      out, mapped := row.(status := "cancelled", paymentStatus := Some(status.s)), true;
    }
  }

  /**
   * The `for idx, row in df.iterrows()` loop: rows are reconciled in place
   * one after the other; `raised` tells that the loop stopped at a row whose
   * status could not be read, and otherwise `updated` tells whether some
   * row received a mapped status.
   */
  method SyncLoop(df: array<Booking>, cfg: ZiinaConfig, lookup: IntentLookup) returns (updated: bool, raised: bool)
    modifies df
    ensures df[..] == SyncedFrame(cfg, lookup, old(df[..]))
    ensures raised <==> AnyRaises(cfg, lookup, old(df[..]))
    ensures !raised ==> (updated <==> AnyMapped(cfg, lookup, old(df[..])))
  {
    ghost var rows := df[..];
    ghost var target := SyncRows(cfg, lookup, rows);
    ghost var flags := MappedFlags(cfg, lookup, rows);
    ghost var raising := RaiseFlags(cfg, lookup, rows);
    updated, raised := false, false;
    var i := 0;
    while i < df.Length
      invariant 0 <= i <= df.Length
      invariant !raised
      invariant forall k :: 0 <= k < i ==> df[k] == target[k]
      invariant forall k :: i <= k < df.Length ==> df[k] == rows[k]
      invariant forall k :: 0 <= k < i ==> !raising[k]
      invariant updated <==> exists k :: 0 <= k < i && flags[k]
    {
      var out, mapped, raises := SyncOne(cfg, lookup, df[i], rows, i);
      if raises {
        raised := true;
        break;
      }
      if mapped {
        df[i] := out;
        updated := true;
      }
      i := i + 1;
    }
    SyncLoopExit(cfg, lookup, rows, df[..], i, updated, raised);
  }

  /**
   * `sync_all_bookings(df)`: when the provider is not configured nothing
   * changes. Otherwise each row is reconciled in place; when some row's
   * status cannot be read the call raises (`raised`) before the save, and
   * otherwise the table is saved once exactly when some row received a
   * mapped status.
   */
  method SyncAllBookings(df: array<Booking>, store: BookingStore, cfg: ZiinaConfig, lookup: IntentLookup)
    returns (raised: bool)
    modifies df, store
    ensures !HasZiinaConfigured(cfg) ==>
      !raised && df[..] == old(df[..]) && store.rows == old(store.rows) && store.saves == old(store.saves)
    ensures HasZiinaConfigured(cfg) ==>
      (raised <==> AnyRaises(cfg, lookup, old(df[..]))) && df[..] == SyncedFrame(cfg, lookup, old(df[..]))
    ensures HasZiinaConfigured(cfg) && !AnyRaises(cfg, lookup, old(df[..])) && AnyMapped(cfg, lookup, old(df[..])) ==>
      store.rows == df[..] && store.saves == old(store.saves) + 1
    ensures !(HasZiinaConfigured(cfg) && !AnyRaises(cfg, lookup, old(df[..])) && AnyMapped(cfg, lookup, old(df[..]))) ==>
      store.rows == old(store.rows) && store.saves == old(store.saves)
  {
    if !HasZiinaConfigured(cfg) {
      return false;
    }
    var updated;
    updated, raised := SyncLoop(df, cfg, lookup);
    if !raised && updated {
      store.Save(df[..]);
    }
  }

  // ---------------------------------------------------------------------
  // Lemmas
  // ---------------------------------------------------------------------

  /**
   * `has_ziina_configured` holds iff the token is set, non-empty and starts
   * with none of the three sample-configuration prefixes `PUT_`,
   * `REPLACE_` and `YOUR_`.
   */
  lemma ConfiguredIff(cfg: ZiinaConfig)
    ensures HasZiinaConfigured(cfg) <==>
      && cfg.accessToken.Some?
      && cfg.accessToken.value != ""
      && !StartsWith(cfg.accessToken.value, "PUT_")
      && !StartsWith(cfg.accessToken.value, "REPLACE_")
      && !StartsWith(cfg.accessToken.value, "YOUR_")
  {
    assert Placeholders[0] == "PUT_" && Placeholders[1] == "REPLACE_" && Placeholders[2] == "YOUR_";
  }

  /** The sample tokens, the empty one and an unset one leave the provider unconfigured; a real token configures it. */
  lemma ConfiguredExamples(baseUrl: string, testMode: bool)
    ensures !HasZiinaConfigured(ZiinaConfig(None, baseUrl, testMode))
    ensures !HasZiinaConfigured(ZiinaConfig(Some(""), baseUrl, testMode))
    ensures !HasZiinaConfigured(ZiinaConfig(Some("YOUR_TOKEN"), baseUrl, testMode))
    ensures !HasZiinaConfigured(ZiinaConfig(Some("PUT_TOKEN_HERE"), baseUrl, testMode))
    ensures !HasZiinaConfigured(ZiinaConfig(Some("REPLACE_ME"), baseUrl, testMode))
    ensures HasZiinaConfigured(ZiinaConfig(Some("zk_live_123"), baseUrl, testMode))
  {
    ConfiguredIff(ZiinaConfig(Some("YOUR_TOKEN"), baseUrl, testMode));
    ConfiguredIff(ZiinaConfig(Some("PUT_TOKEN_HERE"), baseUrl, testMode));
    ConfiguredIff(ZiinaConfig(Some("REPLACE_ME"), baseUrl, testMode));
    ConfiguredIff(ZiinaConfig(Some("zk_live_123"), baseUrl, testMode));
    assert "YOUR_TOKEN"[..5] == "YOUR_";
    assert "PUT_TOKEN_HERE"[..4] == "PUT_";
    assert "REPLACE_ME"[..8] == "REPLACE_";
    assert "zk_live_123"[0] != 'P' && "zk_live_123"[0] != 'R' && "zk_live_123"[0] != 'Y';
  }

  /** A configured provider has a token, so the client does send requests. */
  lemma ConfiguredHasToken(cfg: ZiinaConfig)
    requires HasZiinaConfigured(cfg)
    ensures !TokenMissing(cfg)
  {
  }

  /** With `ZIINA_ACCESS_TOKEN` unset the provider counts as not configured. */
  lemma UnsetTokenIsUnconfigured(env: Env)
    requires "ZIINA_ACCESS_TOKEN" !in env
    ensures !HasZiinaConfigured(GetZiinaConfig(env))
    ensures TokenMissing(GetZiinaConfig(env))
  {
  }

  /**
   * Each callback URL is the base up to its last non-slash character, then
   * `/payment_result?result=<outcome>&pi_id={PAYMENT_INTENT_ID}`; only
   * slashes are removed from the base.
   */
  lemma CallbackUrlShape(appBaseUrl: string, outcome: string)
    ensures var b := TrimRight(appBaseUrl, Some({'/'}));
      && StartsWith(appBaseUrl, b)
      && (forall i :: |b| <= i < |appBaseUrl| ==> appBaseUrl[i] == '/')
      && (|b| > 0 ==> b[|b| - 1] != '/')
      && CallbackUrl(appBaseUrl, outcome) == b + CallbackPath(outcome)
  {
    TrimRightSpec(appBaseUrl, Some({'/'}));
  }

  /** Trailing slashes on the base do not change the callback URLs. */
  lemma CallbackUrlIgnoresTrailingSlash(appBaseUrl: string, outcome: string)
    ensures CallbackUrl(appBaseUrl + "/", outcome) == CallbackUrl(appBaseUrl, outcome)
  {
    var s := appBaseUrl + "/";
    assert s[|s| - 1] == '/';
    TrailStartFrame(s, appBaseUrl, Some({'/'}), |appBaseUrl|);
    assert TrimRight(s, Some({'/'})) == TrimRight(appBaseUrl, Some({'/'}));
  }

  /** `TrailStart` from `n` looks only at the first `n` characters. */
  lemma {:induction false} TrailStartFrame(s: string, t: string, chars: Option<set<char>>, n: nat)
    requires n <= |s| && n <= |t|
    requires forall i :: 0 <= i < n ==> s[i] == t[i]
    ensures TrailStart(s, chars, n) == TrailStart(t, chars, n)
  {
    if n > 0 && Strips(s[n - 1], chars) {
      TrailStartFrame(s, t, chars, n - 1);
    }
  }

  /** The message carries the booking id right after `Snow Liwa booking `. */
  lemma MessageCarriesBookingId(bookingId: string, customerName: string)
    ensures var m := IntentMessage(bookingId, customerName);
      && |m| == 21 + |bookingId| + |customerName|
      && m[18..18 + |bookingId|] == bookingId
      && m[21 + |bookingId|..] == customerName
  {
  }

  /** `data.status` is read only when the top-level status is falsy. */
  lemma IntentStatusPrecedence(pi: Json)
    ensures Truthy(Get(pi, "status")) ==> IntentStatus(pi) == Get(pi, "status")
    ensures !Truthy(Get(pi, "status")) ==> IntentStatus(pi) == Get(Get(pi, "data"), "status")
  {
  }

  /** A mapped status is completed, failed or canceled, and the mapping is exactly the documented one. */
  lemma MappedStatusCases(st: Json)
    ensures MappedStatus(st) == Some("paid") <==> st == JStr("completed")
    ensures MappedStatus(st) == Some("cancelled") <==> st == JStr("failed") || st == JStr("canceled")
    ensures MappedStatus(st).Some? ==> Truthy(st)
  {
  }

  /** The sync loop's result, row by row: row `k` is `SyncRow` of the old row `k`. */
  lemma {:induction false} SyncedAt(cfg: ZiinaConfig, lookup: IntentLookup, rows: seq<Booking>, n: nat, k: nat)
    requires k < n <= |rows|
    ensures SyncedUpTo(cfg, lookup, rows, n)[k] == SyncRow(cfg, lookup, rows[k])
  {
    if k < n - 1 {
      SyncedAt(cfg, lookup, rows, n - 1, k);
    }
  }

  /** The sync's flags, row by row: flag `k` says whether old row `k` receives a mapped status. */
  lemma {:induction false} FlaggedAt(cfg: ZiinaConfig, lookup: IntentLookup, rows: seq<Booking>, n: nat, k: nat)
    requires k < n <= |rows|
    ensures FlagsUpTo(cfg, lookup, rows, n)[k] == RowMapped(cfg, lookup, rows[k])
  {
    if k < n - 1 {
      FlaggedAt(cfg, lookup, rows, n - 1, k);
    }
  }

  /** Entry `k` of the raise flags is whether row `k` raises. */
  lemma {:induction false} RaisedAt(cfg: ZiinaConfig, lookup: IntentLookup, rows: seq<Booking>, n: nat, k: nat)
    requires k < n <= |rows|
    ensures RaisesUpTo(cfg, lookup, rows, n)[k] == RowRaises(cfg, lookup, rows[k])
  {
    if k < n - 1 {
      RaisedAt(cfg, lookup, rows, n - 1, k);
    }
  }

  /** The loop stops at `i` exactly when `i` is the first raising row (or the end). */
  lemma FirstRaiseFlags(cfg: ZiinaConfig, lookup: IntentLookup, rows: seq<Booking>, i: nat)
    requires i <= |rows|
    requires forall k :: 0 <= k < i ==> !RaiseFlags(cfg, lookup, rows)[k]
    requires i < |rows| ==> RaiseFlags(cfg, lookup, rows)[i]
    ensures FirstRaise(cfg, lookup, rows) == i
    ensures i < |rows| <==> AnyRaises(cfg, lookup, rows)
    ensures SyncedFrame(cfg, lookup, rows) == SyncRows(cfg, lookup, rows)[..i] + rows[i..]
  {
    forall k | 0 <= k < |rows|
      ensures RaiseFlags(cfg, lookup, rows)[k] == RowRaises(cfg, lookup, rows[k])
    {
      RaisedAt(cfg, lookup, rows, |rows|, k);
    }
  }

  /** Where the loop of `SyncLoop` ends, the table, `raised` and `updated` are what its contract states. */
  lemma SyncLoopExit(cfg: ZiinaConfig, lookup: IntentLookup, rows: seq<Booking>, final: seq<Booking>,
                     i: nat, updated: bool, raised: bool)
    requires i <= |rows| == |final|
    requires forall k :: 0 <= k < i ==> final[k] == SyncRows(cfg, lookup, rows)[k]
    requires forall k :: i <= k < |rows| ==> final[k] == rows[k]
    requires forall k :: 0 <= k < i ==> !RaiseFlags(cfg, lookup, rows)[k]
    requires raised ==> i < |rows| && RaiseFlags(cfg, lookup, rows)[i]
    requires !raised ==> i == |rows|
    requires updated <==> exists k :: 0 <= k < i && MappedFlags(cfg, lookup, rows)[k]
    ensures final == SyncedFrame(cfg, lookup, rows)
    ensures raised <==> AnyRaises(cfg, lookup, rows)
    ensures !raised ==> (updated <==> AnyMapped(cfg, lookup, rows))
  {
    FirstRaiseFlags(cfg, lookup, rows, i);
    assert final == SyncRows(cfg, lookup, rows)[..i] + rows[i..];
    if !raised {
      AnyMappedFlags(cfg, lookup, rows);
    }
  }

  /** An answer whose status cannot be read has no status either, so such a row never maps. */
  lemma RaisingStatusIsNull(pi: Json)
    requires StatusRaises(pi)
    ensures IntentStatus(pi) == JNull
  {
  }

  /** A row at which the sync raises is one the sync would leave unchanged. */
  lemma RaisingRowUnmapped(cfg: ZiinaConfig, lookup: IntentLookup, b: Booking)
    requires RowRaises(cfg, lookup, b)
    ensures !RowMapped(cfg, lookup, b) && SyncRow(cfg, lookup, b) == b
  {
    RaisingStatusIsNull(GetPaymentIntent(cfg, IntentIdOf(b), lookup).value);
  }

  /** Some flag is set exactly when some row receives a mapped status. */
  lemma AnyMappedFlags(cfg: ZiinaConfig, lookup: IntentLookup, rows: seq<Booking>)
    ensures AnyMapped(cfg, lookup, rows) <==> exists k :: 0 <= k < |rows| && MappedFlags(cfg, lookup, rows)[k]
  {
    forall k | 0 <= k < |rows|
      ensures MappedFlags(cfg, lookup, rows)[k] == RowMapped(cfg, lookup, rows[k])
    {
      FlaggedAt(cfg, lookup, rows, |rows|, k);
    }
  }

  /** The sync changes only `status` and `payment_status` of a row. */
  lemma SyncRowFrame(cfg: ZiinaConfig, lookup: IntentLookup, b: Booking)
    ensures var r := SyncRow(cfg, lookup, b);
      && r.(status := b.status, paymentStatus := b.paymentStatus) == b
      && (RowMapped(cfg, lookup, b) ==>
            r.paymentStatus == Some(RowProviderStatus(cfg, lookup, b).s)
            && r.status == MappedStatus(RowProviderStatus(cfg, lookup, b)).value)
      && (!RowMapped(cfg, lookup, b) ==> r == b)
  {
  }

  /** Rows without an intent id, or whose lookup yields no status, are left alone. */
  lemma SyncSkips(cfg: ZiinaConfig, lookup: IntentLookup, b: Booking)
    requires IntentIdOf(b) == "" || !Truthy(GetPaymentIntentStatus(cfg, IntentIdOf(b), lookup))
    ensures SyncRow(cfg, lookup, b) == b
  {
  }

  /** Syncing a second time with the same provider answers changes nothing more. */
  lemma SyncIdempotent(cfg: ZiinaConfig, lookup: IntentLookup, rows: seq<Booking>)
    ensures SyncRows(cfg, lookup, SyncRows(cfg, lookup, rows)) == SyncRows(cfg, lookup, rows)
  {
    var once := SyncRows(cfg, lookup, rows);
    forall k | 0 <= k < |rows|
      ensures SyncRows(cfg, lookup, once)[k] == once[k]
    {
      SyncedAt(cfg, lookup, rows, |rows|, k);
      SyncedAt(cfg, lookup, once, |once|, k);
      assert IntentIdOf(once[k]) == IntentIdOf(rows[k]);
    }
  }

  /** When no row receives a mapped status, the sync leaves the table as it was. */
  lemma SyncWithoutMappedRows(cfg: ZiinaConfig, lookup: IntentLookup, rows: seq<Booking>)
    requires !AnyMapped(cfg, lookup, rows)
    ensures SyncRows(cfg, lookup, rows) == rows
  {
    forall k | 0 <= k < |rows|
      ensures SyncRows(cfg, lookup, rows)[k] == rows[k]
    {
      SyncedAt(cfg, lookup, rows, |rows|, k);
    }
  }

  /** The sync keeps the number of rows, their order and their booking ids. */
  lemma SyncKeepsIds(cfg: ZiinaConfig, lookup: IntentLookup, rows: seq<Booking>)
    ensures BookingIds(SyncRows(cfg, lookup, rows)) == BookingIds(rows)
  {
    forall k | 0 <= k < |rows|
      ensures SyncRows(cfg, lookup, rows)[k].bookingId == rows[k].bookingId
    {
      SyncedAt(cfg, lookup, rows, |rows|, k);
    }
  }
}
