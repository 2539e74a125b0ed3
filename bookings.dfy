/** The seat-count ledger and the two booking reports. */
module Bookings {
  import opened Records
  import Seqs

  /** What `book_ticket` reports: the new booking's id, "Showing not found!",
      or "Only N seats available!" with N the showing's current count. */
  datatype BookOutcome = Booked(bookingId: int) | ShowingNotFound | NotEnoughSeats(available: int)

  /** Index of the first showing with this id, or `|showings|` when there is none. */
  function ShowingIndex(showings: seq<Showing>, showingId: int): (k: nat)
    ensures k <= |showings|
    ensures forall j :: 0 <= j < k ==> showings[j].showingId != showingId
    ensures k < |showings| ==> showings[k].showingId == showingId
  {
    Seqs.FirstIndex(showings, (s: Showing) => s.showingId == showingId)
  }

  /** Total seats held by the bookings of one showing id. */
  function SeatsBooked(bookings: seq<Booking>, showingId: int): int {
    if bookings == [] then 0
    else (if bookings[0].showingId == showingId then bookings[0].seatsBooked else 0)
         + SeatsBooked(bookings[1..], showingId)
  }

  /** Appending a booking adds its seats to its own showing's total and to no other. */
  lemma {:induction false} SeatsBookedAppend(bookings: seq<Booking>, b: Booking, showingId: int)
    ensures SeatsBooked(bookings + [b], showingId) ==
            SeatsBooked(bookings, showingId) + (if b.showingId == showingId then b.seatsBooked else 0)
  {
    if bookings != [] {
      assert (bookings + [b])[1..] == bookings[1..] + [b];
      SeatsBookedAppend(bookings[1..], b, showingId);
    }
  }

  /** `get_user_bookings`: exactly the bookings of this user, in table order. */
  function UserBookings(bookings: seq<Booking>, userId: int): (r: seq<Booking>)
    ensures forall i :: 0 <= i < |r| ==> r[i].userId == userId
    ensures forall b: Booking :: b.userId == userId ==> multiset(r)[b] == multiset(bookings)[b]
    ensures Seqs.IsSubsequence(r, bookings)
  {
    Seqs.Filter(bookings, (b: Booking) => b.userId == userId)
  }

  /** Some showing with this id belongs to this theatre. */
  predicate ShownAt(showings: seq<Showing>, showingId: int, theatreId: int) {
    exists s :: s in showings && s.showingId == showingId && s.theatreId == theatreId
  }

  /** The ids of the showings of one theatre (`theatre_showing_ids`). */
  function TheatreShowingIds(showings: seq<Showing>, theatreId: int): (ids: seq<int>)
    ensures forall id :: id in ids <==> ShownAt(showings, id, theatreId)
  {
    if showings == [] then []
    else
      var rest := TheatreShowingIds(showings[1..], theatreId);
      assert forall s :: s in showings <==> s == showings[0] || s in showings[1..];
      (if showings[0].theatreId == theatreId then [showings[0].showingId] else []) + rest
  }

  /** `get_theatre_bookings`: exactly the bookings of this theatre's showings, in table order;
      a booking whose showing id belongs only to other theatres is never included. */
  function TheatreBookings(showings: seq<Showing>, bookings: seq<Booking>, theatreId: int): (r: seq<Booking>)
    ensures forall i :: 0 <= i < |r| ==> ShownAt(showings, r[i].showingId, theatreId)
    ensures forall b: Booking :: ShownAt(showings, b.showingId, theatreId) ==> multiset(r)[b] == multiset(bookings)[b]
    ensures Seqs.IsSubsequence(r, bookings)
  {
    var ids := TheatreShowingIds(showings, theatreId);
    Seqs.Filter(bookings, (b: Booking) => b.showingId in ids)
  }
}
