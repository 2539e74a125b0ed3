/** The handler's business operations over an in-memory copy of its tables.
    Each table is a sequence of rows that the operations reassign, as the handler
    reads a whole file, changes the list and writes it back. */
module Handler {
  import opened Records
  import Auth
  import Catalogue
  import Bookings

  class Cinema {
    var users: seq<User>
    var admins: seq<Admin>
    var movies: seq<Movie>
    var showings: seq<Showing>
    var bookings: seq<Booking>

    /** A store holding the tables as last read from disk. */
    constructor (users: seq<User>, admins: seq<Admin>, movies: seq<Movie>,
                 showings: seq<Showing>, bookings: seq<Booking>)
      ensures this.users == users && this.admins == admins && this.movies == movies
      ensures this.showings == showings && this.bookings == bookings
    {
      this.users := users;
      this.admins := admins;
      this.movies := movies;
      this.showings := showings;
      this.bookings := bookings;
    }

    /** `register_user`: refuses a username that is already present (the email is not
        checked), otherwise appends a user whose id is the table's length plus one. */
    method RegisterUser(username: string, password: string, email: string) returns (ok: bool, msg: string)
      modifies this
      ensures admins == old(admins) && movies == old(movies)
      ensures showings == old(showings) && bookings == old(bookings)
      ensures ok <==> !Auth.UsernameTaken(old(users), username)
      ensures msg == if ok then "Registration successful!" else "Username already exists!"
      ensures !ok ==> users == old(users)
      ensures ok ==> users == old(users) + [User(|old(users)| + 1, username, password, email)]
      ensures Auth.UsernameTaken(users, username)
      ensures ok ==> Auth.UsernameCount(users, username) == 1
    {
      var i := 0;
      while i < |users|
        invariant 0 <= i <= |users|
        invariant forall j :: 0 <= j < i ==> users[j].username != username
      {
        if users[i].username == username {
          return false, "Username already exists!";
        }
        i := i + 1;
      }
      var u := User(|users| + 1, username, password, email);
      Auth.FreshUsernameUnique(users, u);
      users := users + [u];
      assert users[|users| - 1].username == username;
      ok, msg := true, "Registration successful!";
    }

    /** `add_movie`: appends a movie whose id is the catalogue's length plus one. */
    method AddMovie(title: string, genre: string, duration: int)
      modifies this
      ensures users == old(users) && admins == old(admins)
      ensures showings == old(showings) && bookings == old(bookings)
      ensures movies == old(movies) + [Movie(|old(movies)| + 1, title, genre, duration)]
    {
      movies := movies + [Movie(|movies| + 1, title, genre, duration)];
    }

    /** `del_movie`: removes the first movie with this id, if any, and every showing of
        that movie id; bookings are left as they are. */
    method DelMovie(movieId: int)
      modifies this
      ensures users == old(users) && admins == old(admins) && bookings == old(bookings)
      ensures var k := Catalogue.MovieIndex(old(movies), movieId);
              movies == if k < |old(movies)| then old(movies)[..k] + old(movies)[k + 1..] else old(movies)
      ensures |movies| == |old(movies)| - 1 <==> exists j :: 0 <= j < |old(movies)| && old(movies)[j].movieId == movieId
      ensures showings == Catalogue.ShowingsOfOtherMovies(old(showings), movieId)
      ensures forall i :: 0 <= i < |showings| ==> showings[i].movieId != movieId
    {
      var i := 0;
      while i < |movies|
        invariant 0 <= i <= |movies|
        invariant forall j :: 0 <= j < i ==> movies[j].movieId != movieId
      {
        if movies[i].movieId == movieId {
          movies := movies[..i] + movies[i + 1..];
          break;
        }
        i := i + 1;
      }
      showings := Catalogue.ShowingsOfOtherMovies(showings, movieId);
    }

    /** `add_showing`: appends a showing whose id is the table's length plus one. */
    method AddShowing(movieId: int, theatreId: int, showtime: string, seats: int)
      modifies this
      ensures users == old(users) && admins == old(admins)
      ensures movies == old(movies) && bookings == old(bookings)
      ensures showings == old(showings) + [Showing(|old(showings)| + 1, movieId, theatreId, showtime, seats)]
    {
      showings := showings + [Showing(|showings| + 1, movieId, theatreId, showtime, seats)];
    }

    /** `book_ticket`: finds the first showing with this id; refuses an unknown showing
        and a request for more seats than it has left; otherwise takes the seats off
        that showing and appends a booking whose id is the table's length plus one.
        `bookingDate` stands for the wall-clock timestamp. */
    method BookTicket(userId: int, showingId: int, seatsWanted: int, bookingDate: string)
      returns (r: Bookings.BookOutcome)
      modifies this
      ensures users == old(users) && admins == old(admins) && movies == old(movies)
      ensures r.ShowingNotFound? <==>
              forall j :: 0 <= j < |old(showings)| ==> old(showings)[j].showingId != showingId
      ensures var k := Bookings.ShowingIndex(old(showings), showingId);
              r.NotEnoughSeats? <==> k < |old(showings)| && seatsWanted > old(showings)[k].availableSeats
      ensures var k := Bookings.ShowingIndex(old(showings), showingId);
              r.NotEnoughSeats? ==> r.available == old(showings)[k].availableSeats
      // a refused booking changes neither table
      ensures !r.Booked? ==> showings == old(showings) && bookings == old(bookings)
      // a booking changes the first matching showing's counter and appends one row
      ensures var k := Bookings.ShowingIndex(old(showings), showingId);
              r.Booked? ==>
                k < |old(showings)| &&
                showings == old(showings)[k := old(showings)[k].(availableSeats := old(showings)[k].availableSeats - seatsWanted)] &&
                bookings == old(bookings) + [Booking(|old(bookings)| + 1, userId, showingId, seatsWanted, bookingDate)] &&
                r.bookingId == |old(bookings)| + 1
      // the showing's seats left plus the seats booked against its id stay the same
      ensures var k := Bookings.ShowingIndex(old(showings), showingId);
              r.Booked? ==>
                showings[k].availableSeats + Bookings.SeatsBooked(bookings, showingId) ==
                old(showings)[k].availableSeats + Bookings.SeatsBooked(old(bookings), showingId)
      // the seats booked against every other showing id are untouched
      ensures forall id :: id != showingId ==> Bookings.SeatsBooked(bookings, id) == Bookings.SeatsBooked(old(bookings), id)
      ensures var k := Bookings.ShowingIndex(old(showings), showingId);
              r.Booked? && 0 <= seatsWanted ==> 0 <= showings[k].availableSeats
    {
      var i := 0;
      while i < |showings| && showings[i].showingId != showingId
        invariant 0 <= i <= |showings|
        invariant forall j :: 0 <= j < i ==> showings[j].showingId != showingId
      {
        i := i + 1;
      }
      assert i == Bookings.ShowingIndex(showings, showingId);
      if i == |showings| {
        return Bookings.ShowingNotFound;
      }
      var available := showings[i].availableSeats;
      if seatsWanted > available {
        return Bookings.NotEnoughSeats(available);
      }
      showings := showings[i := showings[i].(availableSeats := available - seatsWanted)];
      var newId := |bookings| + 1;
      var b := Booking(newId, userId, showingId, seatsWanted, bookingDate);
      forall id ensures Bookings.SeatsBooked(bookings + [b], id) ==
                        Bookings.SeatsBooked(bookings, id) + (if id == showingId then seatsWanted else 0) {
        Bookings.SeatsBookedAppend(bookings, b, id);
      }
      bookings := bookings + [b];
      r := Bookings.Booked(newId);
    }
  }

  /** A store with one showing of two seats: booking both succeeds and empties it,
      and a further booking is refused without touching either table. */
  method BookingScenario() {
    var store := new Cinema([], [], [], [Showing(1, 1, 1, "18:00", 2)], []);
    var first := store.BookTicket(1, 1, 2, "2024-01-01 18:00:00");
    assert first == Bookings.Booked(1);
    assert store.showings == [Showing(1, 1, 1, "18:00", 0)];
    var second := store.BookTicket(1, 1, 1, "2024-01-01 18:05:00");
    assert second == Bookings.NotEnoughSeats(0);
    assert |store.bookings| == 1;
    var unknown := store.BookTicket(1, 7, 1, "2024-01-01 18:06:00");
    assert unknown == Bookings.ShowingNotFound;
  }

  /** Ids are the table length plus one, so deleting a movie and adding another
      gives the new movie the id of one that is still in the catalogue. */
  method ReusedIdScenario() {
    var store := new Cinema([], [], [Movie(1, "A", "Drama", 90), Movie(2, "B", "Comedy", 100)], [], []);
    store.DelMovie(1);
    assert store.movies == [Movie(2, "B", "Comedy", 100)];
    store.AddMovie("C", "Horror", 80);
    assert store.movies == [Movie(2, "B", "Comedy", 100), Movie(2, "C", "Horror", 80)];
  }

  /** The same id scheme for showings: after the cascade of a deletion, a new showing
      shares its id with a surviving one of another theatre. A booking for that id then
      takes seats from the first of the two only, and both theatres report it. */
  method ReusedShowingIdScenario() {
    var store := new Cinema([], [], [], [Showing(1, 1, 1, "18:00", 5), Showing(2, 2, 1, "20:00", 5)], []);
    store.DelMovie(1);
    assert store.showings == [Showing(2, 2, 1, "20:00", 5)];
    store.AddShowing(3, 2, "21:00", 4);
    assert store.showings == [Showing(2, 2, 1, "20:00", 5), Showing(2, 3, 2, "21:00", 4)];
    var r := store.BookTicket(1, 2, 2, "2024-01-01 19:00:00");
    assert r == Bookings.Booked(1);
    assert store.showings == [Showing(2, 2, 1, "20:00", 3), Showing(2, 3, 2, "21:00", 4)];
    var b := Booking(1, 1, 2, 2, "2024-01-01 19:00:00");
    assert store.bookings == [b];
    assert Bookings.ShownAt(store.showings, 2, 1) && Bookings.ShownAt(store.showings, 2, 2);
    var t1 := Bookings.TheatreBookings(store.showings, store.bookings, 1);
    var t2 := Bookings.TheatreBookings(store.showings, store.bookings, 2);
    assert multiset(t1)[b] == 1 && multiset(t2)[b] == 1;
  }
}
