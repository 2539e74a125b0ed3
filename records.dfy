/** The rows of the handler's tables. Every field the handler treats as a number
    (ids, durations, seat counts) is an unbounded integer here; the remaining
    fields are strings. */
module Records {

  datatype Option<T> = None | Some(value: T)

  /** A row of the users table: `user_id, username, password, email`. */
  datatype User = User(userId: int, username: string, password: string, email: string)

  /** A row of the admins table: `admin_id, username, password, type, theatre_id`;
      `kind` is "system" or "theatre", and a system admin has no theatre. */
  datatype Admin = Admin(adminId: int, username: string, password: string, kind: string, theatreId: Option<int>)

  /** A row of the movie catalogue: `movie_id, title, genre, duration`. */
  datatype Movie = Movie(movieId: int, title: string, genre: string, duration: int)

  /** A row of the showings table: `showing_id, movie_id, theatre_id, showtime, available_seats`. */
  datatype Showing = Showing(showingId: int, movieId: int, theatreId: int, showtime: string, availableSeats: int)

  /** A row of the bookings table: `booking_id, user_id, showing_id, seats_booked, booking_date`. */
  datatype Booking = Booking(bookingId: int, userId: int, showingId: int, seatsBooked: int, bookingDate: string)
}
