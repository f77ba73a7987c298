/**
 * The booking table: one record per reservation with the twelve columns of
 * the bookings file, and the file itself as an in-memory store that is read
 * and overwritten wholesale.
 */
module Bookings {
  import opened Wrappers

  /**
   * One row of the table. The payment columns start empty (None) and are
   * filled in from the provider's answers.
   */
  datatype Booking = Booking(
    bookingId: string,
    createdAt: string,
    name: string,
    phone: string,
    tickets: int,
    ticketPrice: int,
    totalAmount: int,
    status: string,
    paymentIntentId: Option<string>,
    paymentStatus: Option<string>,
    redirectUrl: Option<string>,
    notes: string)

  /** The booking_id column, in table order. */
  function BookingIds(rows: seq<Booking>): (ids: seq<string>)
    ensures |ids| == |rows|
    ensures forall k :: 0 <= k < |rows| ==> ids[k] == rows[k].bookingId
  {
    seq(|rows|, k requires 0 <= k < |rows| => rows[k].bookingId)
  }

  /** Appending rows appends their ids: the column of `a + b` is the column of `a`, then that of `b`. */
  lemma BookingIdsAppend(a: seq<Booking>, b: seq<Booking>)
    ensures BookingIds(a + b) == BookingIds(a) + BookingIds(b)
  {
  }

  /**
   * The bookings file. `rows` is what the file holds; `saves` counts how
   * often it was written, so that a contract can say whether a request
   * persisted anything.
   */
  class BookingStore {
    var rows: seq<Booking>
    var saves: nat

    /** A missing file is created with the column header and no rows. */
    constructor ()
      ensures rows == [] && saves == 0
    {
      rows := [];
      saves := 0;
    }

    /** `load_bookings()`: a fresh in-memory copy of the table. */
    method Load() returns (df: array<Booking>)
      ensures fresh(df) && df[..] == rows
    {
      var r := rows;
      df := new Booking[|r|](k requires 0 <= k < |r| => r[k]);
    }

    /** `save_bookings(df)`: overwrites the whole file. */
    method Save(df: seq<Booking>)
      modifies this
      ensures rows == df && saves == old(saves) + 1
    {
      rows := df;
      saves := saves + 1;
    }
  }
}
