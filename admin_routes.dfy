/**
 * The admin pages: every one of them is behind the PIN check; the
 * dashboard shows totals over the booking table and its 25 newest rows,
 * the sync page reconciles the table with the payment provider, and the
 * settings page merges the submitted form into the stored settings.
 */
module AdminRoutes {
  import opened Wrappers
  import opened Config
  import opened Bookings
  import opened Logic
  import opened Payments

  /** What an admin handler answers. */
  datatype AdminResponse =
    | Unauthorized
    | DashboardPage(kpis: Kpis, recent: seq<Booking>)
    | SeeOther(url: string)
    | ServerError  // an exception escaped the handler: HTTP 500

  /** `verify_pin`: the password must be the admin PIN; the user name plays no part. */
  predicate VerifyPin(username: string, password: string, adminPin: string) {
    password == adminPin
  }

  /** Every character of the text is ASCII. */
  predicate IsAscii(s: string) {
    forall i :: 0 <= i < |s| ==> s[i] as int < 128
  }

  /**
   * `secrets.compare_digest` on two texts raises TypeError unless both are
   * ASCII; then every admin handler fails with 500 before the PIN decides.
   */
  predicate PinCheckRaises(password: string, adminPin: string) {
    !IsAscii(password) || !IsAscii(adminPin)
  }

  /** The PIN check lets the request through: it neither raises nor rejects. */
  predicate Admitted(username: string, password: string, adminPin: string) {
    !PinCheckRaises(password, adminPin) && VerifyPin(username, password, adminPin)
  }

  /** The PIN check rejects the request with 401. */
  predicate Rejected(username: string, password: string, adminPin: string) {
    !PinCheckRaises(password, adminPin) && !VerifyPin(username, password, adminPin)
  }

  // ---------------------------------------------------------------------
  // dashboard: totals
  // ---------------------------------------------------------------------

  /** The dashboard's figures. Amounts are whole dirhams. */
  datatype Kpis = Kpis(totalBookings: nat, totalTickets: int, totalAmount: int, totalPaid: int, totalPending: int)

  /** The sum of the tickets column over the first `n` rows. */
  function TicketsUpTo(rows: seq<Booking>, n: nat): int
    requires n <= |rows|
  {
    if n == 0 then 0 else TicketsUpTo(rows, n - 1) + rows[n - 1].tickets
  }

  /** What a row adds to the amount total: all rows without a status filter, else only rows of that status. */
  function AmountIn(b: Booking, only: Option<string>): int {
    if only.None? || b.status == only.value then b.totalAmount else 0
  }

  /** The sum of the total_amount column over the first `n` rows, filtered by status when `only` is given. */
  function AmountUpTo(rows: seq<Booking>, n: nat, only: Option<string>): int
    requires n <= |rows|
  {
    if n == 0 then 0 else AmountUpTo(rows, n - 1, only) + AmountIn(rows[n - 1], only)
  }

  /** The figures of `dashboard`. */
  function ComputeKpis(rows: seq<Booking>): (k: Kpis)
    ensures k.totalBookings == |rows|
    ensures |rows| == 0 ==> k == Kpis(0, 0, 0, 0, 0)
  {
    Kpis(|rows|,
      TicketsUpTo(rows, |rows|),
      AmountUpTo(rows, |rows|, None),
      AmountUpTo(rows, |rows|, Some("paid")),
      AmountUpTo(rows, |rows|, Some("pending")))
  }

  // ---------------------------------------------------------------------
  // dashboard: the newest rows
  // ---------------------------------------------------------------------

  /** Lexicographic order of the suffixes from `i` on: `a[i..]` sorts strictly before `b[i..]`. */
  predicate LessFrom(a: string, b: string, i: nat)
    requires i <= |a| && i <= |b|
    decreases |a| - i
  {
    i < |b| && (i == |a| || a[i] < b[i] || (a[i] == b[i] && LessFrom(a, b, i + 1)))
  }

  /** The row was created strictly before the other, comparing the created_at texts. */
  predicate Older(a: Booking, b: Booking) {
    LessFrom(a.createdAt, b.createdAt, 0)
  }

  /** Newest first: no row is strictly older than a row after it. */
  predicate NewestFirst(s: seq<Booking>) {
    forall i, j :: 0 <= i < j < |s| ==> !Older(s[i], s[j])
  }

  /** Insert `b` into a newest-first list, after every row that is not older than it. */
  function Insert(b: Booking, s: seq<Booking>): (r: seq<Booking>)
    ensures multiset(r) == multiset(s) + multiset{b}
    ensures |r| == |s| + 1
  {
    if |s| == 0 then [b]
    else if Older(s[0], b) then [b] + s
    else
      assert s == [s[0]] + s[1..];
      [s[0]] + Insert(b, s[1..])
  }

  /** The first `n` rows sorted by created_at, newest first. */
  function SortNewestFirst(rows: seq<Booking>, n: nat): (r: seq<Booking>)
    requires n <= |rows|
    ensures |r| == n
    ensures multiset(r) == multiset(rows[..n])
  {
    if n == 0 then []
    else
      assert rows[..n] == rows[..n - 1] + [rows[n - 1]];
      Insert(rows[n - 1], SortNewestFirst(rows, n - 1))
  }

  /** `df.sort_values("created_at", ascending=False).head(25)`. */
  function Recent(rows: seq<Booking>): (r: seq<Booking>)
    ensures |r| == if |rows| < 25 then |rows| else 25
  {
    SortNewestFirst(rows, |rows|)[..if |rows| < 25 then |rows| else 25]
  }

  /** `dashboard`: the PIN check, then the figures and the newest rows. */
  function Dashboard(rows: seq<Booking>, username: string, password: string, adminPin: string): (r: AdminResponse)
    ensures r == ServerError <==> PinCheckRaises(password, adminPin)
    ensures r == Unauthorized <==> Rejected(username, password, adminPin)
    ensures r.DashboardPage? <==> Admitted(username, password, adminPin)
    ensures r.DashboardPage? ==> r.kpis == ComputeKpis(rows) && r.recent == Recent(rows)
  {
    if PinCheckRaises(password, adminPin) then ServerError
    else if !VerifyPin(username, password, adminPin) then Unauthorized
    else DashboardPage(ComputeKpis(rows), Recent(rows))
  }

  // ---------------------------------------------------------------------
  // sync
  // ---------------------------------------------------------------------

  /**
   * `sync_payments`: the PIN check (500 when it raises, 401 when it
   * rejects), then load the table and reconcile it. When the provider is
   * configured and some row's status cannot be read, the sync raises and
   * the request fails with 500 before anything is written. Otherwise the
   * stored table becomes the synced table, written once when some row
   * received a mapped status.
   */
  method SyncPayments(store: BookingStore, cfg: ZiinaConfig, lookup: IntentLookup,
                      username: string, password: string, adminPin: string)
    returns (resp: AdminResponse)
    modifies store
    ensures PinCheckRaises(password, adminPin) ==> resp == ServerError
    ensures Rejected(username, password, adminPin) ==> resp == Unauthorized
    ensures Admitted(username, password, adminPin) && HasZiinaConfigured(cfg) && AnyRaises(cfg, lookup, old(store.rows)) ==>
      resp == ServerError
    ensures Admitted(username, password, adminPin) && !(HasZiinaConfigured(cfg) && AnyRaises(cfg, lookup, old(store.rows))) ==>
      resp == SeeOther("/admin/dashboard")
    ensures Admitted(username, password, adminPin) && HasZiinaConfigured(cfg) && !AnyRaises(cfg, lookup, old(store.rows)) ==>
      store.rows == SyncRows(cfg, lookup, old(store.rows))
    ensures Admitted(username, password, adminPin) && HasZiinaConfigured(cfg) && !AnyRaises(cfg, lookup, old(store.rows))
            && AnyMapped(cfg, lookup, old(store.rows)) ==>
      store.saves == old(store.saves) + 1
    ensures !(Admitted(username, password, adminPin) && HasZiinaConfigured(cfg) && !AnyRaises(cfg, lookup, old(store.rows))
              && AnyMapped(cfg, lookup, old(store.rows))) ==>
      store.rows == old(store.rows) && store.saves == old(store.saves)
  {
    if PinCheckRaises(password, adminPin) {
      return ServerError;
    }
    if !VerifyPin(username, password, adminPin) {
      return Unauthorized;
    }
    var df := store.Load();
    ghost var rows := df[..];
    if !AnyMapped(cfg, lookup, rows) {
      SyncWithoutMappedRows(cfg, lookup, rows);
    }
    var raised := SyncAllBookings(df, store, cfg, lookup);
    if raised {
      return ServerError;
    }
    resp := SeeOther("/admin/dashboard");
  }

  // ---------------------------------------------------------------------
  // settings
  // ---------------------------------------------------------------------

  /** The settings written when there is no settings file yet. */
  const DefaultSettings: map<string, string> := map["ticket_poster_path" := "assets/ticket_poster.png"]

  /** The settings file, as an in-memory map that is read and overwritten wholesale. */
  class SettingsStore {
    var settings: map<string, string>
    var saves: nat

    constructor ()
      ensures settings == DefaultSettings && saves == 0
    {
      settings := DefaultSettings;
      saves := 0;
    }

    /** `save_settings(settings)`. */
    method Save(s: map<string, string>)
      modifies this
      ensures settings == s && saves == old(saves) + 1
    {
      settings := s;
      saves := saves + 1;
    }
  }

  /** The merge the settings form performs: submitted keys take the form's value, the others keep theirs. */
  function Merged(settings: map<string, string>, form: map<string, string>): (r: map<string, string>)
    ensures r.Keys == settings.Keys + form.Keys
    ensures forall k :: k in form ==> r[k] == form[k]
    ensures forall k :: k in settings && k !in form ==> r[k] == settings[k]
  {
    settings + form
  }

  /** The `for key in form_data: settings[key] = form_data[key]` loop over the loaded settings. */
  method ApplyForm(loaded: map<string, string>, form: map<string, string>) returns (settings: map<string, string>)
    ensures settings == Merged(loaded, form)
  {
    settings := loaded;
    var pending := form.Keys;
    while pending != {}
      invariant pending <= form.Keys
      invariant settings == loaded + (map k | k in form.Keys - pending :: form[k])
      decreases |pending|
    {
      var key :| key in pending;
      settings := settings[key := form[key]];
      pending := pending - {key};
    }
    assert form.Keys - pending == form.Keys;
    assert (map k | k in form.Keys :: form[k]) == form;
  }

  /**
   * `save_settings_route`: the PIN check (500 when it raises, 401 when it
   * rejects), then `for key in form_data:
   * settings[key] = form_data[key]` over the loaded settings, and one save.
   */
  method SaveSettingsRoute(store: SettingsStore, username: string, password: string, adminPin: string,
                           form: map<string, string>)
    returns (resp: AdminResponse)
    modifies store
    ensures PinCheckRaises(password, adminPin) ==>
      resp == ServerError && store.settings == old(store.settings) && store.saves == old(store.saves)
    ensures Rejected(username, password, adminPin) ==>
      resp == Unauthorized && store.settings == old(store.settings) && store.saves == old(store.saves)
    ensures Admitted(username, password, adminPin) ==>
      && resp == SeeOther("/admin/settings?saved=true")
      && store.settings == Merged(old(store.settings), form)
      && store.saves == old(store.saves) + 1
  {
    if PinCheckRaises(password, adminPin) {
      return ServerError;
    }
    if !VerifyPin(username, password, adminPin) {
      return Unauthorized;
    }
    var settings := ApplyForm(store.settings, form);
    store.Save(settings);
    resp := SeeOther("/admin/settings?saved=true");
  }

  // ---------------------------------------------------------------------
  // Lemmas: totals
  // ---------------------------------------------------------------------

  /**
   * With the default environment the PIN is `change_me`, whatever the user
   * name: exactly that password is let through, and only a non-ASCII
   * password makes the check raise.
   */
  lemma DefaultPin(env: Env, username: string, password: string)
    requires "ADMIN_PIN" !in env
    ensures Admitted(username, password, AdminPin(env)) <==> password == "change_me"
    ensures PinCheckRaises(password, AdminPin(env)) <==> !IsAscii(password)
  {
    assert IsAscii("change_me");
  }

  /** The paid total and the pending total never exceed the grand total when no amount is negative. */
  lemma {:induction false} PaidPendingWithinTotal(rows: seq<Booking>, n: nat)
    requires n <= |rows|
    requires forall k :: 0 <= k < |rows| ==> rows[k].totalAmount >= 0
    ensures AmountUpTo(rows, n, Some("paid")) + AmountUpTo(rows, n, Some("pending")) <= AmountUpTo(rows, n, None)
    ensures 0 <= AmountUpTo(rows, n, Some("paid")) && 0 <= AmountUpTo(rows, n, Some("pending"))
  {
    if n > 0 {
      PaidPendingWithinTotal(rows, n - 1);
    }
  }

  /** The dashboard's paid and pending figures add up to at most the total. */
  lemma KpisBounded(rows: seq<Booking>)
    requires forall k :: 0 <= k < |rows| ==> rows[k].totalAmount >= 0
    ensures var k := ComputeKpis(rows);
      0 <= k.totalPaid && 0 <= k.totalPending && k.totalPaid + k.totalPending <= k.totalAmount
  {
    PaidPendingWithinTotal(rows, |rows|);
  }

  /** Sums over two tables agree when the summed columns (and, when filtering, the status) agree row by row. */
  lemma {:induction false} SumsFrame(rows: seq<Booking>, other: seq<Booking>, n: nat, only: Option<string>)
    requires n <= |rows| && n <= |other|
    requires forall k :: 0 <= k < n ==>
      rows[k].tickets == other[k].tickets && rows[k].totalAmount == other[k].totalAmount
      && (only.Some? ==> rows[k].status == other[k].status)
    ensures TicketsUpTo(rows, n) == TicketsUpTo(other, n)
    ensures AmountUpTo(rows, n, only) == AmountUpTo(other, n, only)
  {
    if n > 0 {
      SumsFrame(rows, other, n - 1, only);
    }
  }

  /** A new booking adds one row, its tickets and its amount, all of it still pending. */
  lemma CreationAddsPending(rows: seq<Booking>, form: Form, today: string, createdAt: string, price: int)
    requires CreateBooking(rows, form, today, createdAt, price).Some?
    ensures var c := CreateBooking(rows, form, today, createdAt, price).value;
      var b := c.rows[|rows|];
      var before := ComputeKpis(rows);
      var after := ComputeKpis(c.rows);
      && after.totalBookings == before.totalBookings + 1
      && after.totalTickets == before.totalTickets + b.tickets
      && after.totalAmount == before.totalAmount + c.totalAmount
      && after.totalPaid == before.totalPaid
      && after.totalPending == before.totalPending + c.totalAmount
  {
    var c := CreateBooking(rows, form, today, createdAt, price).value;
    var n := |rows|;
    var b := c.rows[n];
    assert b.status == "pending";
    assert forall k :: 0 <= k < n ==> c.rows[k] == c.rows[..n][k];
    SumsFrame(c.rows, rows, n, None);
    SumsFrame(c.rows, rows, n, Some("paid"));
    SumsFrame(c.rows, rows, n, Some("pending"));
    assert TicketsUpTo(c.rows, n + 1) == TicketsUpTo(rows, n) + b.tickets;
    assert AmountUpTo(c.rows, n + 1, None) == AmountUpTo(rows, n, None) + c.totalAmount;
    assert AmountUpTo(c.rows, n + 1, Some("paid")) == AmountUpTo(rows, n, Some("paid"));
    assert AmountUpTo(c.rows, n + 1, Some("pending")) == AmountUpTo(rows, n, Some("pending")) + c.totalAmount;
  }

  /** The sync moves amounts between statuses but keeps the row count, the tickets and the grand total. */
  lemma SyncKeepsTotals(cfg: ZiinaConfig, lookup: IntentLookup, rows: seq<Booking>)
    ensures var before := ComputeKpis(rows);
      var after := ComputeKpis(SyncRows(cfg, lookup, rows));
      after.totalBookings == before.totalBookings && after.totalTickets == before.totalTickets
      && after.totalAmount == before.totalAmount
  {
    var synced := SyncRows(cfg, lookup, rows);
    forall k | 0 <= k < |rows|
      ensures synced[k].tickets == rows[k].tickets && synced[k].totalAmount == rows[k].totalAmount
    {
      SyncedAt(cfg, lookup, rows, |rows|, k);
    }
    SumsFrame(synced, rows, |rows|, None);
  }

  // ---------------------------------------------------------------------
  // Lemmas: order and the newest rows
  // ---------------------------------------------------------------------

  lemma {:induction false} LessAsym(a: string, b: string, i: nat)
    requires i <= |a| && i <= |b|
    ensures !(LessFrom(a, b, i) && LessFrom(b, a, i))
    decreases |a| - i
  {
    if i < |a| && i < |b| && a[i] == b[i] {
      LessAsym(a, b, i + 1);
    }
  }

  lemma {:induction false} LessTrans(a: string, b: string, c: string, i: nat)
    requires i <= |a| && i <= |b| && i <= |c|
    requires LessFrom(a, b, i) && LessFrom(b, c, i)
    ensures LessFrom(a, c, i)
    decreases |a| - i
  {
    if i < |a| && a[i] == b[i] && b[i] == c[i] {
      LessTrans(a, b, c, i + 1);
    }
  }

  lemma {:induction false} LessTotal(a: string, b: string, i: nat)
    requires i <= |a| && i <= |b|
    ensures LessFrom(a, b, i) || LessFrom(b, a, i) || a[i..] == b[i..]
    decreases |a| - i
  {
    if i < |a| && i < |b| && a[i] == b[i] {
      LessTotal(a, b, i + 1);
      assert a[i..] == [a[i]] + a[i + 1..];
      assert b[i..] == [b[i]] + b[i + 1..];
    }
  }

  /** If `y` is not older than `x` and `y` is older than `b`, then `b` is not older than `x`. */
  lemma OlderChain(x: Booking, y: Booking, b: Booking)
    requires !Older(y, x) && Older(y, b)
    ensures !Older(b, x)
  {
    LessTotal(x.createdAt, y.createdAt, 0);
    if LessFrom(x.createdAt, y.createdAt, 0) {
      LessTrans(x.createdAt, y.createdAt, b.createdAt, 0);
      LessAsym(x.createdAt, b.createdAt, 0);
    } else {
      assert x.createdAt == y.createdAt by {
        assert x.createdAt[0..] == x.createdAt && y.createdAt[0..] == y.createdAt;
      }
      LessAsym(x.createdAt, b.createdAt, 0);
    }
  }

  /** Inserting into a newest-first list keeps it newest first. */
  lemma {:induction false} InsertNewestFirst(b: Booking, s: seq<Booking>)
    requires NewestFirst(s)
    ensures NewestFirst(Insert(b, s))
    decreases |s|
  {
    if |s| == 0 {
    } else if Older(s[0], b) {
      var r := Insert(b, s);
      assert r == [b] + s;
      forall i, j | 0 <= i < j < |r|
        ensures !Older(r[i], r[j])
      {
        if i == 0 {
          if j == 1 {
            LessAsym(s[0].createdAt, b.createdAt, 0);
          } else {
            OlderChain(s[j - 1], s[0], b);
          }
        }
      }
    } else {
      var t := s[1..];
      assert NewestFirst(t);
      InsertNewestFirst(b, t);
      var rest := Insert(b, t);
      var r := [s[0]] + rest;
      forall i, j | 0 <= i < j < |r|
        ensures !Older(r[i], r[j])
      {
        if i == 0 {
          var y := rest[j - 1];
          assert y in multiset(rest);
          assert y == b || y in multiset(t);
          if y != b {
            assert y in t;
            var m :| 0 <= m < |t| && t[m] == y;
            assert s[m + 1] == y;
          }
        } else {
          assert r[i] == rest[i - 1] && r[j] == rest[j - 1];
        }
      }
    }
  }

  lemma {:induction false} SortNewestFirstSorted(rows: seq<Booking>, n: nat)
    requires n <= |rows|
    ensures NewestFirst(SortNewestFirst(rows, n))
  {
    if n > 0 {
      SortNewestFirstSorted(rows, n - 1);
      InsertNewestFirst(rows[n - 1], SortNewestFirst(rows, n - 1));
    }
  }

  /** The recent list is the head of the newest-first sort, so it is newest first itself. */
  lemma RecentNewestFirst(rows: seq<Booking>)
    ensures NewestFirst(Recent(rows))
  {
    SortNewestFirstSorted(rows, |rows|);
  }

  /** The recent list is drawn from the table: each row at most as often as the table has it. */
  lemma RecentFromTable(rows: seq<Booking>)
    ensures multiset(Recent(rows)) <= multiset(rows)
  {
    var s := SortNewestFirst(rows, |rows|);
    var r := Recent(rows);
    assert rows[..|rows|] == rows;
    assert s == r + s[|r|..];
    assert multiset(s) == multiset(r) + multiset(s[|r|..]);
  }

  /** No row left out of the recent list is newer than a row in it. */
  lemma RecentIsNewest(rows: seq<Booking>)
    ensures forall x, y :: x in rows && x !in Recent(rows) && y in Recent(rows) ==> !Older(y, x)
  {
    var s := SortNewestFirst(rows, |rows|);
    SortNewestFirstSorted(rows, |rows|);
    assert rows[..|rows|] == rows;
    var r := Recent(rows);
    var m := |r|;
    forall x, y | x in rows && x !in r && y in r
      ensures !Older(y, x)
    {
      assert x in multiset(s);
      var j :| 0 <= j < |s| && s[j] == x;
      var i :| 0 <= i < m && r[i] == y;
      assert s[i] == y;
      assert j >= m by {
        assert forall k :: 0 <= k < m ==> r[k] == s[k];
      }
    }
  }
}
