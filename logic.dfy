/**
 * Booking identifiers and booking creation. An identifier is
 * `SL-<YYYYMMDD>-<NNN>`; the number continues from the last identifier of
 * the day in table order. Creating a booking appends one pending row.
 */
module Logic {
  import opened Wrappers
  import opened Text
  import opened Bookings

  // ---------------------------------------------------------------------
  // get_next_booking_id
  // ---------------------------------------------------------------------

  /** `SL-<today>-`, where `today` is the date as `YYYYMMDD`. */
  function Prefix(today: string): string {
    "SL-" + today + "-"
  }

  /** The identifiers that start with `prefix`, in table order. */
  function Todays(ids: seq<string>, prefix: string): (r: seq<string>)
    ensures |r| <= |ids|
    ensures forall k :: 0 <= k < |r| ==> StartsWith(r[k], prefix)
    ensures forall k :: 0 <= k < |r| ==> r[k] in ids
  {
    assert ids[..|ids|] == ids;
    TodaysUpTo(ids, prefix, |ids|)
  }

  /** The identifiers among the first `n` that start with `prefix`, in table order. */
  function TodaysUpTo(ids: seq<string>, prefix: string, n: nat): (r: seq<string>)
    requires n <= |ids|
    ensures |r| <= n
    ensures forall k :: 0 <= k < |r| ==> StartsWith(r[k], prefix)
    ensures forall k :: 0 <= k < |r| ==> r[k] in ids[..n]
  {
    if n == 0 then []
    else TodaysUpTo(ids, prefix, n - 1) + (if StartsWith(ids[n - 1], prefix) then [ids[n - 1]] else [])
  }

  /**
   * The next sequence number after the day's identifiers `todays`: 1 when
   * there are none, else one more than the number after the last `-` of the
   * last one, or, when that does not read as an integer, one more than how
   * many there are.
   */
  function NextAfter(todays: seq<string>): int {
    if |todays| == 0 then 1
    else
      match ParseInt(LastSegment(todays[|todays| - 1], '-'))
      case Some(v) => v + 1
      case None => |todays| + 1
  }

  /** The sequence number `get_next_booking_id` allocates for `today`. */
  function NextSequenceNumber(ids: seq<string>, today: string): int {
    NextAfter(Todays(ids, Prefix(today)))
  }

  /** The identifier with sequence number `n`, zero-padded to three digits. */
  function BookingIdFor(today: string, n: int): string {
    Prefix(today) + ZeroPadded(n, 3)
  }

  /** `get_next_booking_id`: the day's prefix and the next sequence number. */
  function NextBookingId(ids: seq<string>, today: string): string {
    BookingIdFor(today, NextSequenceNumber(ids, today))
  }

  // ---------------------------------------------------------------------
  // Lemmas about identifiers
  // ---------------------------------------------------------------------

  lemma StartsWithConcat(p: string, x: string)
    ensures StartsWith(p + x, p)
  {
    assert forall i :: 0 <= i < |p| ==> (p + x)[i] == p[i];
  }

  /** The number after the last `-` of `BookingIdFor(today, n)` reads back as `n`. */
  lemma SequenceNumberOf(today: string, n: nat)
    ensures StartsWith(BookingIdFor(today, n), Prefix(today))
    ensures LastSegment(BookingIdFor(today, n), '-') == ZeroPadded(n, 3)
    ensures ParseInt(LastSegment(BookingIdFor(today, n), '-')) == Some(n)
  {
    StartsWithConcat(Prefix(today), ZeroPadded(n, 3));
    ZeroPaddedDigits(n, 3);
    assert BookingIdFor(today, n) == ("SL-" + today) + ['-'] + ZeroPadded(n, 3);
    LastSegmentAfter("SL-" + today, '-', ZeroPadded(n, 3));
    ZeroPaddedRoundTrip(n, 3);
  }

  /** Two identifiers of the same day are equal only if their numbers are. */
  lemma BookingIdForInjective(today: string, a: nat, b: nat)
    requires BookingIdFor(today, a) == BookingIdFor(today, b)
    ensures a == b
  {
    SequenceNumberOf(today, a);
    SequenceNumberOf(today, b);
  }

  /** The indices of the identifiers that start with `prefix`. */
  function MatchingIndices(ids: seq<string>, prefix: string): set<int> {
    MatchingBelow(ids, prefix, |ids|)
  }

  function MatchingBelow(ids: seq<string>, prefix: string, n: nat): set<int>
    requires n <= |ids|
  {
    set k | 0 <= k < n && StartsWith(ids[k], prefix)
  }

  lemma {:induction false} TodaysEmptyUpTo(ids: seq<string>, prefix: string, n: nat)
    requires n <= |ids|
    ensures |TodaysUpTo(ids, prefix, n)| == 0 <==> forall k :: 0 <= k < n ==> !StartsWith(ids[k], prefix)
  {
    if n > 0 {
      TodaysEmptyUpTo(ids, prefix, n - 1);
    }
  }

  /** The day's list is empty exactly when no identifier has the day's prefix. */
  lemma TodaysEmpty(ids: seq<string>, prefix: string)
    ensures |Todays(ids, prefix)| == 0 <==> forall k :: 0 <= k < |ids| ==> !StartsWith(ids[k], prefix)
  {
    TodaysEmptyUpTo(ids, prefix, |ids|);
  }

  lemma {:induction false} TodaysCountUpTo(ids: seq<string>, prefix: string, n: nat)
    requires n <= |ids|
    ensures |TodaysUpTo(ids, prefix, n)| == |MatchingBelow(ids, prefix, n)|
  {
    if n == 0 {
      assert MatchingBelow(ids, prefix, n) == {};
    } else {
      TodaysCountUpTo(ids, prefix, n - 1);
      var before := MatchingBelow(ids, prefix, n - 1);
      if StartsWith(ids[n - 1], prefix) {
        assert MatchingBelow(ids, prefix, n) == before + {n - 1};
        assert n - 1 !in before;
      } else {
        assert MatchingBelow(ids, prefix, n) == before;
      }
    }
  }

  /** The day's list has one entry per matching index. */
  lemma TodaysCount(ids: seq<string>, prefix: string)
    ensures |Todays(ids, prefix)| == |MatchingIndices(ids, prefix)|
  {
    TodaysCountUpTo(ids, prefix, |ids|);
  }

  lemma {:induction false} TodaysLastUpTo(ids: seq<string>, prefix: string, i: int, n: nat)
    requires 0 <= i < n <= |ids| && StartsWith(ids[i], prefix)
    requires forall j :: i < j < n ==> !StartsWith(ids[j], prefix)
    ensures |TodaysUpTo(ids, prefix, n)| > 0
    ensures TodaysUpTo(ids, prefix, n)[|TodaysUpTo(ids, prefix, n)| - 1] == ids[i]
  {
    if i < n - 1 {
      TodaysLastUpTo(ids, prefix, i, n - 1);
    }
  }

  /** The last entry of the day's list is the last matching identifier of the table. */
  lemma TodaysLast(ids: seq<string>, prefix: string, i: int)
    requires 0 <= i < |ids| && StartsWith(ids[i], prefix)
    requires forall j :: i < j < |ids| ==> !StartsWith(ids[j], prefix)
    ensures |Todays(ids, prefix)| > 0
    ensures Todays(ids, prefix)[|Todays(ids, prefix)| - 1] == ids[i]
  {
    TodaysLastUpTo(ids, prefix, i, |ids|);
  }

  /** No identifier of the day yet: the result is `SL-<today>-001`. */
  lemma NextIdOnNewDay(ids: seq<string>, today: string)
    requires forall k :: 0 <= k < |ids| ==> !StartsWith(ids[k], Prefix(today))
    ensures NextSequenceNumber(ids, today) == 1
    ensures NextBookingId(ids, today) == Prefix(today) + "001"
  {
    TodaysEmpty(ids, Prefix(today));
    PaddedOne();
  }

  lemma PaddedOne()
    ensures ZeroPadded(1, 3) == "001"
  {
    assert NatToString(1) == "1";
    assert Zeros(2) == "00" by {
      assert Zeros(1) == "0";
    }
  }

  /**
   * The number continues from the LAST identifier of the day in table order
   * (not the largest); when its tail is not an integer, from the count of the
   * day's identifiers.
   */
  lemma NextIdFromLastOfDay(ids: seq<string>, today: string, i: int)
    requires 0 <= i < |ids| && StartsWith(ids[i], Prefix(today))
    requires forall j :: i < j < |ids| ==> !StartsWith(ids[j], Prefix(today))
    ensures ParseInt(LastSegment(ids[i], '-')).Some? ==>
      NextSequenceNumber(ids, today) == ParseInt(LastSegment(ids[i], '-')).value + 1
    ensures ParseInt(LastSegment(ids[i], '-')).None? ==>
      NextSequenceNumber(ids, today) == |MatchingIndices(ids, Prefix(today))| + 1
  {
    TodaysLast(ids, Prefix(today), i);
    TodaysCount(ids, Prefix(today));
  }

  /** Appending an identifier of the day appends it to the day's list. */
  lemma TodaysSnoc(ids: seq<string>, x: string, prefix: string)
    requires StartsWith(x, prefix)
    ensures Todays(ids + [x], prefix) == Todays(ids, prefix) + [x]
  {
    TodaysFrame(ids, ids + [x], prefix, |ids|);
  }

  /** The first `n` identifiers alone decide the day's list up to `n`. */
  lemma {:induction false} TodaysFrame(ids: seq<string>, other: seq<string>, prefix: string, n: nat)
    requires n <= |ids| && n <= |other|
    requires forall k :: 0 <= k < n ==> ids[k] == other[k]
    ensures TodaysUpTo(ids, prefix, n) == TodaysUpTo(other, prefix, n)
  {
    if n > 0 {
      TodaysFrame(ids, other, prefix, n - 1);
    }
  }

  /** The next number is one more than the number read from the last identifier of the day. */
  lemma NextAfterReadable(todays: seq<string>, v: int)
    requires |todays| > 0
    requires ParseInt(LastSegment(todays[|todays| - 1], '-')) == Some(v)
    ensures NextAfter(todays) == v + 1
  {
  }

  /** After identifier number `k` of the day is appended, the next number is `k + 1`. */
  lemma NextAfterAllocated(ids: seq<string>, today: string, k: nat)
    ensures NextSequenceNumber(ids + [BookingIdFor(today, k)], today) == k + 1
  {
    SequenceNumberOf(today, k);
    TodaysSnoc(ids, BookingIdFor(today, k), Prefix(today));
    NextAfterReadable(Todays(ids, Prefix(today)) + [BookingIdFor(today, k)], k);
  }

  /**
   * Booking after booking on the same day: the identifier allocated after
   * number `k` is number `k + 1`, which differs from it.
   */
  lemma NextIdAfterAllocated(ids: seq<string>, today: string, k: nat)
    ensures NextBookingId(ids + [BookingIdFor(today, k)], today) == BookingIdFor(today, k + 1)
    ensures BookingIdFor(today, k + 1) != BookingIdFor(today, k)
  {
    NextAfterAllocated(ids, today, k);
    SequenceNumberOf(today, k);
    SequenceNumberOf(today, k + 1);
  }

  /**
   * The number continues from the day's last row in table order, not from
   * the largest number: a table holding 003, 001, 002 of the same day
   * allocates 003 again.
   */
  lemma LastRowWins(today: string)
    ensures NextBookingId([BookingIdFor(today, 3), BookingIdFor(today, 1), BookingIdFor(today, 2)], today)
            == BookingIdFor(today, 3)
  {
    assert [BookingIdFor(today, 3), BookingIdFor(today, 1), BookingIdFor(today, 2)]
        == [BookingIdFor(today, 3), BookingIdFor(today, 1)] + [BookingIdFor(today, 2)];
    NextAfterAllocated([BookingIdFor(today, 3), BookingIdFor(today, 1)], today, 2);
  }

  /** The allocated number is at least 1: the tail after the last `-` never reads as a negative number. */
  lemma NextSequencePositive(ids: seq<string>, today: string)
    ensures NextSequenceNumber(ids, today) >= 1
  {
    var todays := Todays(ids, Prefix(today));
    if |todays| > 0 {
      var tail := LastSegment(todays[|todays| - 1], '-');
      LastSegmentSpec(todays[|todays| - 1], '-');
      if ParseInt(tail).Some? {
        ParseIntNoMinus(tail);
      }
    }
  }

  /** The day's first `n` identifiers, 001 to `n`, in allocation order. */
  function Numbered(today: string, n: nat): seq<string> {
    seq(n, k => BookingIdFor(today, k + 1))
  }

  /**
   * Repeated allocation from a table with no identifier of the day: after
   * the identifiers 001 to `n` have been appended, the next one is `n + 1`.
   * This is one step of the run: each booking of the day appends the next
   * identifier, so the day's identifiers stay exactly `Numbered(today, n)`.
   */
  lemma NextIdContinuesRun(ids: seq<string>, today: string, n: nat)
    requires forall k :: 0 <= k < |ids| ==> !StartsWith(ids[k], Prefix(today))
    ensures NextBookingId(ids + Numbered(today, n), today) == BookingIdFor(today, n + 1)
  {
    if n == 0 {
      assert ids + Numbered(today, n) == ids;
      NextIdOnNewDay(ids, today);
    } else {
      var p := ids + Numbered(today, n - 1);
      assert ids + Numbered(today, n) == p + [BookingIdFor(today, n)];
      NextAfterAllocated(p, today, n);
    }
  }

  /** The k-th identifier of the run reads back as `k + 1`, so the run is increasing and has no duplicates. */
  lemma NumberedDistinct(today: string, n: nat)
    ensures forall k :: 0 <= k < n ==> ParseInt(LastSegment(Numbered(today, n)[k], '-')) == Some(k + 1)
    ensures forall i, j :: 0 <= i < j < n ==> Numbered(today, n)[i] != Numbered(today, n)[j]
  {
    forall k | 0 <= k < n
      ensures ParseInt(LastSegment(Numbered(today, n)[k], '-')) == Some(k + 1)
    {
      SequenceNumberOf(today, k + 1);
    }
  }

  // ---------------------------------------------------------------------
  // create_booking_and_get_amount
  // ---------------------------------------------------------------------

  /** A submitted form value, as text or as an integer already converted by the web layer. */
  datatype FormValue = TextValue(s: string) | Number(n: int)

  type Form = map<string, FormValue>

  /** `form.get(key)` is present and truthy (not "" and not 0). */
  predicate Given(form: Form, key: string) {
    key in form && match form[key]
      case TextValue(s) => s != ""
      case Number(n) => n != 0
  }

  /** `int(v)`; None is the ValueError of text that is not an integer. */
  function FormInt(v: FormValue): Option<int> {
    match v
    case Number(n) => Some(n)
    case TextValue(s) => ParseInt(s)
  }

  /** A value as it lands in a text column. */
  function FormText(v: FormValue): string {
    match v
    case TextValue(s) => s
    case Number(n) => IntToString(n)
  }

  /** `int(form.get("tickets") or form.get("people_count") or 1)`. */
  function TicketCount(form: Form): Option<int> {
    if Given(form, "tickets") then FormInt(form["tickets"])
    else if Given(form, "people_count") then FormInt(form["people_count"])
    else Some(1)
  }

  /** `form.get(first) or form.get(second) or ""`. */
  function TextField(form: Form, first: string, second: string): string {
    if Given(form, first) then FormText(form[first])
    else if Given(form, second) then FormText(form[second])
    else ""
  }

  /** The new row: pending, no payment intent yet, total = tickets × price. */
  function NewBooking(form: Form, bookingId: string, createdAt: string, price: int, tickets: int): Booking {
    Booking(
      bookingId, createdAt,
      TextField(form, "name", "customer_name"),
      TextField(form, "phone", "phone"),
      tickets, price, tickets * price,
      "pending", None, Some("pending"), None,
      TextField(form, "notes", "notes"))
  }

  /** The table after creation, with the returned (booking_id, total_amount). */
  datatype Created = Created(rows: seq<Booking>, bookingId: string, totalAmount: int)

  /**
   * `create_booking_and_get_amount`: None when the ticket count is not an
   * integer (nothing is written); otherwise the table with one new row.
   */
  function CreateBooking(rows: seq<Booking>, form: Form, today: string, createdAt: string, price: int): (r: Option<Created>)
    ensures r.None? <==> TicketCount(form).None?
    ensures r.Some? ==>
      && |r.value.rows| == |rows| + 1
      && r.value.rows[..|rows|] == rows
      && r.value.rows[|rows|] == NewBooking(form, r.value.bookingId, createdAt, price, TicketCount(form).value)
      && r.value.bookingId == NextBookingId(BookingIds(rows), today)
      && r.value.totalAmount == r.value.rows[|rows|].totalAmount == TicketCount(form).value * price
  {
    match TicketCount(form)
    case None => None
    case Some(tickets) =>
      var id := NextBookingId(BookingIds(rows), today);
      var row := NewBooking(form, id, createdAt, price, tickets);
      assert (rows + [row])[..|rows|] == rows;
      Some(Created(rows + [row], id, row.totalAmount))
  }

  /** The store-level operation: load, allocate, append, save, return (id, amount). */
  method CreateBookingAndGetAmount(store: BookingStore, form: Form, today: string, createdAt: string, price: int)
    returns (result: Option<(string, int)>)
    modifies store
    ensures CreateBooking(old(store.rows), form, today, createdAt, price).None? ==>
      result.None? && store.rows == old(store.rows) && store.saves == old(store.saves)
    ensures CreateBooking(old(store.rows), form, today, createdAt, price).Some? ==>
      var c := CreateBooking(old(store.rows), form, today, createdAt, price).value;
      && result == Some((c.bookingId, c.totalAmount))
      && store.rows == c.rows
      && store.saves == old(store.saves) + 1
  {
    var df := store.Load();
    var bookingId := NextBookingId(BookingIds(df[..]), today);
    var tickets := TicketCount(form);
    if tickets.None? {
      return None;
    }
    var row := NewBooking(form, bookingId, createdAt, price, tickets.value);
    store.Save(df[..] + [row]);
    result := Some((bookingId, row.totalAmount));
  }

  // ---------------------------------------------------------------------
  // Lemmas about creation
  // ---------------------------------------------------------------------

  /**
   * The ticket count the new row records: the first of `tickets` and
   * `people_count` that is given (falsy values are skipped), else 1. A given
   * value that is not an integer refuses the booking, and the total is the
   * count times the price.
   */
  lemma TicketCountPrecedence(rows: seq<Booking>, form: Form, today: string, createdAt: string, price: int)
    ensures var c := CreateBooking(rows, form, today, createdAt, price);
      var chosen := if Given(form, "tickets") then Some(form["tickets"])
        else if Given(form, "people_count") then Some(form["people_count"]) else None;
      && (c.None? <==> chosen.Some? && FormInt(chosen.value).None?)
      && (c.Some? ==>
            && c.value.rows[|rows|].tickets == (if chosen.None? then 1 else FormInt(chosen.value).value)
            && c.value.totalAmount == c.value.rows[|rows|].tickets * price)
  {
  }

  /** Concrete forms: 0 tickets falls through to `people_count`; no count at all gives 1; text that is no integer gives no booking. */
  lemma TicketCountExamples(rows: seq<Booking>, today: string, createdAt: string)
    ensures var c := CreateBooking(rows, map["tickets" := Number(0), "people_count" := Number(3)], today, createdAt, 175);
      c.Some? && c.value.rows[|rows|].tickets == 3 && c.value.totalAmount == 525
    ensures var c := CreateBooking(rows, map["name" := TextValue("Mariam")], today, createdAt, 175);
      c.Some? && c.value.rows[|rows|].tickets == 1 && c.value.totalAmount == 175
    ensures CreateBooking(rows, map["tickets" := TextValue("two")], today, createdAt, 175).None?
  {
    TicketCountPrecedence(rows, map["tickets" := Number(0), "people_count" := Number(3)], today, createdAt, 175);
    TicketCountPrecedence(rows, map["name" := TextValue("Mariam")], today, createdAt, 175);
    PrintableNotSpace('t');
    PrintableNotSpace('o');
    StripUnchanged("two");
    assert !IsDigitRun("two") by {
      assert !IsDigit("two"[0]);
    }
  }

  /** Every created row is pending with total = tickets × price, and existing rows are kept. */
  lemma CreatedRowIsPending(rows: seq<Booking>, form: Form, today: string, createdAt: string, price: int)
    requires CreateBooking(rows, form, today, createdAt, price).Some?
    ensures var c := CreateBooking(rows, form, today, createdAt, price).value;
      var b := c.rows[|c.rows| - 1];
      && b.status == "pending" && b.paymentStatus == Some("pending")
      && b.paymentIntentId.None? && b.redirectUrl.None?
      && b.ticketPrice == price && b.totalAmount == b.tickets * b.ticketPrice
      && StartsWith(b.bookingId, Prefix(today))
      && b.name == TextField(form, "name", "customer_name")
      && forall k :: 0 <= k < |rows| ==> c.rows[k] == rows[k]
  {
    var c := CreateBooking(rows, form, today, createdAt, price).value;
    assert forall k :: 0 <= k < |rows| ==> c.rows[k] == c.rows[..|rows|][k];
  }

  /**
   * Two bookings in a row on the same day: the second gets the number after
   * the first's, so the two identifiers differ.
   */
  lemma ConsecutiveBookings(rows: seq<Booking>, form1: Form, form2: Form, today: string,
                            t1: string, t2: string, price: int)
    requires CreateBooking(rows, form1, today, t1, price).Some?
    ensures var c1 := CreateBooking(rows, form1, today, t1, price).value;
      var c2 := CreateBooking(c1.rows, form2, today, t2, price);
      && c1.bookingId == BookingIdFor(today, NextSequenceNumber(BookingIds(rows), today))
      && (c2.Some? ==>
            && c2.value.bookingId == BookingIdFor(today, NextSequenceNumber(BookingIds(rows), today) + 1)
            && c2.value.bookingId != c1.bookingId)
  {
    var c1 := CreateBooking(rows, form1, today, t1, price).value;
    var n := NextSequenceNumber(BookingIds(rows), today);
    NextSequencePositive(BookingIds(rows), today);
    assert c1.rows == rows + [c1.rows[|rows|]];
    BookingIdsAppend(rows, [c1.rows[|rows|]]);
    assert BookingIds(c1.rows) == BookingIds(rows) + [BookingIdFor(today, n)];
    NextIdAfterAllocated(BookingIds(rows), today, n);
  }

  /**
   * On an empty table, two tickets at 175 give `SL-<today>-001` for 350,
   * pending; a second booking the same day gets `SL-<today>-002`.
   */
  lemma FirstTwoBookingsOfTheDay(form: Form, today: string, t1: string, t2: string)
    requires form == map["tickets" := Number(2)]
    ensures CreateBooking([], form, today, t1, 175).Some?
    ensures var c := CreateBooking([], form, today, t1, 175).value;
      && c.bookingId == Prefix(today) + "001" && c.totalAmount == 350
      && c.rows[0].status == "pending"
      && CreateBooking(c.rows, form, today, t2, 175).Some?
      && CreateBooking(c.rows, form, today, t2, 175).value.bookingId == BookingIdFor(today, 2)
  {
    NextIdOnNewDay([], today);
    var c := CreateBooking([], form, today, t1, 175).value;
    assert BookingIds(c.rows) == [] + [BookingIdFor(today, 1)];
    NextAfterAllocated([], today, 1);
  }
}
