# IRCTC train booking: reservation and seat-allocation core in Dafny

This project models the booking core of a small command-line train reservation
tool. Users sign up and log in. They search trains whose route runs from one
station to another, book a seat cell of a train's seat matrix, list their
tickets and cancel them.

- `Booking.UserBookingService` is the booking engine: the registered users, the
  logged-in session user, sign-up, login, fetching bookings, cancelling and
  booking. The seat matrix rules, the ticket-list filter and the authentication
  search are functions of this module, with lemmas about them.
- `Trains.TrainService` is the train catalog: route search, lookup by train id
  (index loop and stream form), and insert-or-replace.
- `Entities` holds the records. `Train` and `User` are classes because the
  source updates their fields in place (a train's seat matrix; a user's hash,
  password and ticket list). `Ticket` is an immutable datatype, built by
  `Create` and rendered by `TicketInfo`.
- `Strings` and `Sequences` model the Java library calls the core relies on:
  ASCII `toLowerCase`, `equalsIgnoreCase`, `isBlank` and `List.indexOf`.

The guard `ensureLoggedIn` is the first branch of `FetchBookings`,
`CancelBooking` and `BookTrainSeat`. With no session user it gives
`Failure(NotLoggedIn)`, and the frames show that nothing changes.
`isSeatValid` is `Booking.IsSeatValid`; `BookTrainSeat`'s contract uses it.

In three places the code does less than a reader might expect, and the model follows the code:
- sign-up keeps the user id the caller supplied and assigns none;
- search lower-cases the queries but does not trim them;
- cancelling removes the ticket and leaves its seat occupied.

## Model

| member | source | states |
|---|---|---|
| `Sequences.IndexOf` | src/main/java/org/Spring/service/TrainService.java:86-87 | `List.indexOf`: -1 exactly when the element is absent, otherwise the index of its first occurrence |
| `Entities.Create` | src/main/java/org/Spring/entities/Ticket.java:45-60 | the ticket's user id is the user's id; source, destination, date and train are stored as passed; its id is the supplied fresh id |
| `Entities.TicketInfo` | src/main/java/org/Spring/entities/Ticket.java:66-76 | the info line opens with the labelled ticket id and closes with the labelled train id |
| `Entities.TicketInfoLayout` | src/main/java/org/Spring/entities/Ticket.java:66-76 | each of the six fields sits at its own offset of the info line, in the order ticket id, user id, source, destination, date, train id, and the train id ends the line |
| `Entities.User.constructor` | src/main/java/org/Spring/entities/User.java:23-29 | a user built from its five fields, a null password or hash being None and a null ticket list the empty list |
| `Trains.FirstIdIndex` | src/main/java/org/Spring/service/TrainService.java:94-101 | the least index whose train id matches ignoring case, or -1 when none does; always in [-1, number of trains) |
| `Trains.FirstWithId` | src/main/java/org/Spring/service/TrainService.java:57-59 | the filter/findFirst stream finds nothing exactly when no train id matches ignoring case; what it finds is a catalog train whose id matches |
| `Trains.FirstWithIdAgrees` | src/main/java/org/Spring/service/TrainService.java:56-60 | the filter/findFirst stream finds the train at the index the index loop returns, and finds nothing when that index is -1 |
| `Trains.IsValidRoute` | src/main/java/org/Spring/service/TrainService.java:83-92 | valid exactly when the first occurrence of the lower-cased destination comes after an occurrence of the lower-cased source; equal queries never match |
| `Trains.FilterRoutes` | src/main/java/org/Spring/service/TrainService.java:38-42 | every train the filter keeps has a valid route |
| `Trains.FilterRoutesIsOrderedFilter` | src/main/java/org/Spring/service/TrainService.java:38-42 | the search result is a subsequence of the catalog; it holds each matching train as often as the catalog does, and no other train |
| `Trains.Upserted` | src/main/java/org/Spring/service/TrainService.java:44-54 | with a match, the first matching entry is replaced and the length and all other entries are kept; without one, the train is appended |
| `Trains.UpsertedThenFound` | src/main/java/org/Spring/service/TrainService.java:44-60 | after insert-or-replace of t, looking up t's id finds t |
| `Trains.TrainService.constructor` | src/main/java/org/Spring/service/TrainService.java:28-32 | the catalog starts as the loaded list (empty when the file is missing) |
| `Trains.TrainService.SearchTrains` | src/main/java/org/Spring/service/TrainService.java:38-42 | the result is a subsequence of the catalog; every train in it has a valid route; every train of the catalog with a valid route occurs in it as often as in the catalog; an empty catalog gives an empty result |
| `Trains.TrainService.FindTrainIndex` | src/main/java/org/Spring/service/TrainService.java:94-101 | the loop returns the least matching index, or -1 when no train id matches ignoring case |
| `Trains.TrainService.FindByTrainId` | src/main/java/org/Spring/service/TrainService.java:56-60 | the train at the index findTrainIndex would return, or empty when that index is -1 |
| `Trains.TrainService.SaveOrUpdateTrain` | src/main/java/org/Spring/service/TrainService.java:44-54 | the catalog becomes the insert-or-replace of the train, and the train is found by its own id afterwards |
| `Booking.IsSeatValid` | src/main/java/org/Spring/service/UserBookingService.java:155-159 | a seat is valid exactly when it is in bounds and booking it lowers the number of free seats, so out-of-bounds seats are invalid and a valid seat is a free one; on a 0/1 matrix an in-bounds cell is valid exactly when it is not occupied |
| `Booking.Booked` | src/main/java/org/Spring/service/UserBookingService.java:132-134 | occupying a cell changes that cell to 1 and nothing else: same dimensions, every other cell kept, 0/1 cells stay 0/1, and the cell can no longer be booked |
| `Booking.BookingTakesOneFreeSeat` | src/main/java/org/Spring/service/UserBookingService.java:128-134 | a booking that passes the seat check lowers the number of free cells by exactly one |
| `Booking.WithoutTicket` | src/main/java/org/Spring/service/UserBookingService.java:96-97 | no ticket with the id remains; the list got shorter exactly when some ticket carried the id; a list without the id is returned unchanged |
| `Booking.WithoutTicketIsOrderedFilter` | src/main/java/org/Spring/service/UserBookingService.java:96-97 | the remaining tickets are a subsequence of the old list, and each ticket with another id is kept as often as before |
| `Booking.CancelRestoresTicketList` | src/main/java/org/Spring/service/UserBookingService.java:91-104 | cancelling the ticket a booking appended, under an id no earlier ticket has, restores the previous ticket list (the seat stays occupied) |
| `Booking.AuthIndex` | src/main/java/org/Spring/service/UserBookingService.java:70-80 | the index of the first user whose name matches ignoring case and whose hash accepts the password, or -1 when there is none |
| `Booking.NameTaken` | src/main/java/org/Spring/service/UserBookingService.java:54-55 | a registered name is taken; whether a name is taken depends only on its lower-cased form |
| `Booking.SignedUpUserAuthenticates` | src/main/java/org/Spring/service/UserBookingService.java:53-80 | a user signed up under a fresh name is the one that login finds with that name and the original password, given a hasher that accepts its own hashes |
| `Booking.WrongPasswordRejected` | src/main/java/org/Spring/service/UserBookingService.java:53-80 | for the same name, a password the hasher does not accept finds nobody |
| `Booking.UserBookingService.constructor` | src/main/java/org/Spring/service/UserBookingService.java:31-35 | the service starts with the loaded users and no session user |
| `Booking.UserBookingService.LoadAs` | src/main/java/org/Spring/service/UserBookingService.java:37-41 | the service is created with the first verifying user as its session user, or the call fails with invalid credentials |
| `Booking.UserBookingService.Authenticate` | src/main/java/org/Spring/service/UserBookingService.java:70-80 | null exactly when no user verifies; otherwise the registered user at the least verifying index |
| `Booking.UserBookingService.Login` | src/main/java/org/Spring/service/UserBookingService.java:47-51 | returns whether some user verifies; on success that first user becomes the session user, otherwise the session is kept |
| `Booking.UserBookingService.SignUp` | src/main/java/org/Spring/service/UserBookingService.java:53-68 | a name taken ignoring case gives false with nothing changed; a null password fails with nothing changed; otherwise exactly one user is appended, with the hash of its password, a null password and an empty ticket list; unique names stay unique |
| `Booking.UserBookingService.FetchBookings` | src/main/java/org/Spring/service/UserBookingService.java:86-89 | the not-logged-in error exactly when there is no session user, otherwise the session user's tickets |
| `Booking.UserBookingService.CancelBooking` | src/main/java/org/Spring/service/UserBookingService.java:91-104 | not logged in gives the error; a null or blank id gives false with nothing changed; otherwise the tickets with that id are removed and the result says whether any was; no seat matrix is touched |
| `Booking.UserBookingService.BookTrainSeat` | src/main/java/org/Spring/service/UserBookingService.java:115-153 | not logged in gives the error and changes nothing; an out-of-bounds or taken seat gives false and changes nothing; otherwise only that cell is occupied, the train is upserted into the catalog and found there, and exactly one ticket for the session user and the given train, stations and date is appended |

## Left out

- JSON persistence (`loadUsers`, `saveUsers`, `loadTrains`, `saveTrains`) is library I/O. The constructors take the loaded lists, and the saves do nothing. I/O failures and the non-atomic two-file write are therefore not modelled.
- `Booking.UserBookingService.constructor`: requires every loaded user to carry a password hash. Such a store is what `signUp` writes. A stored user without a hash would make the source's password check throw.
- `Booking.UserBookingService.LoadAs`: requires every loaded user to carry a password hash, for the same reason.
- `UserBookingService.searchTrains` only creates a fresh `TrainService` from the train file and delegates to it; the model uses `Trains.TrainService.SearchTrains` directly.
- `bookTrainSeat` creates a fresh `TrainService` loaded from the train file. Here that catalog is the `catalog` parameter.
- BCrypt hashing and checking (`UserServiceUtil`) are the `Hasher` parameter's two functions. Their cryptographic properties appear only as hypotheses of the login lemmas. `hashToString` salts at random (src/main/java/org/Spring/utils/UserServiceUtil.java:23-24), so the program's hash of one password differs between calls, while `crypto.hash` is a function; no lemma relies on two hashes being equal.
- The random UUID of a ticket is the `ticketId` parameter. `LocalDate` is `Date`, its ISO text: the core checks nothing about the date, and `Date` also admits texts no `LocalDate` can hold.
- The source's Train entity (its file is not among the modelled files) is reduced to `trainId`, `stations` and `seats`, because the core uses nothing else. `stationTimes` is only printed by the menu.
- Case folding and whitespace cover ASCII only. Java's full Unicode `toLowerCase`, `equalsIgnoreCase` and `isWhitespace` are not modelled.
- Null strings other than the sign-up password and the cancel id are not modelled. Login takes the request's name and password as two strings; the menu always supplies both.
- A null ticket list is not modelled: `ticketsBooked` is a sequence, and a null list of the source is the empty one. `signUp` always writes an empty list, so only a hand-edited user file can hold a null one. With a null list the source would throw in `fetchBookings` (`List.copyOf`), in `cancelBooking` (`removeIf`) and in `bookTrainSeat` when appending the ticket. In that last case the seat would already be occupied and the train saved, with no ticket recorded.
- The seat matrix is a value held in the train's `seats` field and updated by reassignment. Another holder of an inner row list would, in the source, see the change; that aliasing is not modelled. The `Train` object itself is shared as in the source.
- The interactive menu (`App.java`) is console I/O. It passes the first and last station of the selected train as source and destination; here those are ordinary arguments.
