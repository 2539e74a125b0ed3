# Perfectly Viewable Cinemas: booking handler model

This project models the business logic of `handler.py`, the module behind both front ends of a small cinema ticket-booking tool. The handler keeps six tables: users, admins, movies (the catalogue), theatres, showings (a movie at a theatre at a time, with a count of seats still free) and bookings. The model keeps five of them; the theatres table is only ever read whole (see "## Left out"). Each operation reads whole tables, changes them in memory and writes them back. Here the tables are the `seq` fields of one `Handler.Cinema` object, and the file round trip is abstracted away.

- `records.dfy` (`Records`): one datatype per table row. Ids, seat counts and durations are integers.
- `seqs.dfy` (`Seqs`): the two loop shapes the handler uses everywhere, given once.
  - `FirstIndex` is a first-match search (a `for` loop that stops at the first hit).
  - `Filter` is a list comprehension.
  - `FilterUnique` proves that Filter's contract fully determines its result: the matching rows, in order, no more.
- `auth.dfy` (`Auth`): `user_login` and `admin_login` as first-match functions, plus the username check of registration.
- `catalogue.dfy` (`Catalogue`): the movie search and the showings comprehension used by `del_movie`.
- `bookings.dfy` (`Bookings`): the showing search, the seat ledger `SeatsBooked` and the two booking reports.
- `handler.dfy` (`Handler`): the class `Cinema`. It has one method per operation that changes a table. Each method's loop follows the source's loop.
  - The file also has three client scenarios. `BookingScenario`: book every seat, then get refused. `ReusedIdScenario`: delete a movie, then add one. `ReusedShowingIdScenario`: cascade-delete a showing, add one, then book.

Behaviour kept from the code:
- `book_ticket` matches the *first* showing with the id and does not reject a negative seat count.
- `register_user` compares usernames only; email is never checked.
- New ids are the table length plus one. After a deletion, this can hand out an id that is still in use. `ReusedIdScenario` shows it for the catalogue. `ReusedShowingIdScenario` shows it for showings, where it has more effect. After the `del_movie` cascade and an `add_showing`, two showings share an id. `book_ticket` then takes seats only from the first of them, while the seat ledger of that id grows for both. For the second showing, free seats plus booked seats are therefore not conserved. `get_theatre_bookings` also reports the booking for the theatres of both showings.
- `del_movie` removes only the first movie with the id. It deletes that movie id's showings but leaves bookings as they are.

`handler.py` has no seat labels, seat-conflict checks, cancellation, max+1 ids, email uniqueness, password hashing or banning. Users and admins are matched on plaintext passwords.

## Model

| member | source | states |
|---|---|---|
| `Handler.Cinema.constructor` | handler.py:63-69 | stands in for the lists that `read_csv_file` returns (the file reading itself is left out): the store starts out holding exactly the tables passed in |
| `Auth.UserLogin` | handler.py:78-83 | None exactly when no user has both the username and the password; otherwise a matching user, and no earlier row matches |
| `Auth.AdminLogin` | handler.py:85-90 | same first-match characterisation over the admins table |
| `Auth.UsernameCountZero` | handler.py:94-96 | a username is absent from the table exactly when it occurs zero times (both directions) |
| `Auth.UsernameCountAppend` | handler.py:98 | appending a user raises the count of its own username by one and leaves every other username's count alone |
| `Auth.FreshUsernameUnique` | handler.py:93-98 | appending a user whose name was not taken leaves that name in the table exactly once |
| `Handler.Cinema.RegisterUser` | handler.py:92-100 | refuses with "Username already exists!" and leaves users unchanged exactly when some user has the name; otherwise appends one user with id (length of users) + 1. Afterwards the name is taken, and on success it occurs once. Other tables are unchanged |
| `Handler.Cinema.AddMovie` | handler.py:115-121 | the catalogue becomes old ++ [movie with id (length of movies) + 1]; other tables are unchanged |
| `Catalogue.MovieIndex` | handler.py:126-129 | the first index whose movie has the id, or the length of movies if none does |
| `Catalogue.ShowingsOfOtherMovies` | handler.py:131-132 | no remaining showing has the movie id; every showing of another movie is kept as often as before, in order |
| `Handler.Cinema.DelMovie` | handler.py:123-134 | removes exactly the first movie with the id, if any; the catalogue shrinks by one exactly when a movie had the id; the cascade leaves no showing of that movie; users, admins and bookings are unchanged |
| `Handler.Cinema.AddShowing` | handler.py:138-144 | showings become old ++ [showing with id (length of showings) + 1]; other tables are unchanged |
| `Bookings.ShowingIndex` | handler.py:150-154 | the first index whose showing has the id, or the length of showings if none does |
| `Bookings.SeatsBookedAppend` | handler.py:164 | appending a booking adds its seats to the ledger total of its own showing id and to no other id |
| `Handler.Cinema.BookTicket` | handler.py:148-166 | ShowingNotFound exactly when no showing has the id. NotEnoughSeats(available) exactly when the first match has fewer seats than asked. Both refusals leave both tables unchanged. On success, only the first match's counter drops by exactly the seats asked, and bookings become old ++ [booking with id (length of bookings) + 1, the user, the showing, the seats, the date]; the returned id is that booking's. Free seats plus booked seats for that showing are conserved. Other ids' ledgers are unchanged. A non-negative request leaves the counter non-negative |
| `Bookings.UserBookings` | handler.py:169-171 | every returned booking is the user's; each of the user's bookings is kept as often as in the table; the result is in table order |
| `Bookings.TheatreShowingIds` | handler.py:174-175 | an id is listed exactly when some showing with that id belongs to the theatre |
| `Bookings.TheatreBookings` | handler.py:173-177 | every returned booking's showing id belongs to some showing of the theatre, so bookings for other theatres' showings never appear; each such booking is kept as often as in the table, in table order |
| `Seqs.FirstIndex` | handler.py:151-154 | the index is at most the length; no earlier element matches; the element at the index, if any, matches |
| `Seqs.Filter` | handler.py:171 | every kept element satisfies the condition; each satisfying element keeps its multiplicity; the result is a subsequence |
| `Seqs.FilterUnique` | handler.py:177 | any sequence with Filter's three properties equals the filtered sequence, so the comprehensions return exactly the matching rows in their original order |

## Left out

- CSV file I/O: `initialize_csv_files`, `read_csv_file` and `write_csv_file` (handler.py:18-75). This includes the demo rows and the header layout. The tables are in-memory sequences.
- Parsing fields between text and integers. Ids are compared as integers where the source compares strings, so text such as "01" versus "1" is not modelled.
- The two separate file writes in `book_ticket` (handler.py:161, 165) are one state change here. A crash between the writes is not modelled.
- `datetime.now()` (handler.py:164) is an opaque `bookingDate` string parameter.
- Handler.Cinema.BookTicket: the text "Only N seats available!" becomes `NotEnoughSeats(N)`, and the returned id is an integer rather than its decimal string.
- AddMovie, DelMovie and AddShowing: the success messages they always return (handler.py:121, 134, 144) are not returned.
- `get_movies`, `get_showings`, `get_theatres`, `get_all_bookings`, `get_users` and `get_admins` (handler.py:104-113, 179-186) each return a whole table unchanged. They are the store's fields.
- The theatres table is only ever read whole by `get_theatres`, so it is not a field of the store.
- cli.py, gui.py, old/cli.py and old/gui_functions.py are terminal and Streamlit front ends. main_old.py is an older interleaved version of the same rules. crypto.py is a salted-hash wrapper that the handler never calls. None of these is part of this model.
- Seat labels, seat grids, cancellation, banning and deleting users are called by old front-end code. They do not exist in handler.py.
