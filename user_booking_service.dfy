/** UserBookingService: sign-up, login, the current session, and booking
    and cancelling seats on behalf of the logged-in user. */
module Booking {
  import opened Wrappers
  import opened Strings
  import opened Sequences
  import opened Entities
  import opened Trains

  /** The exceptions the service throws: IllegalStateException from
      ensureLoggedIn, IllegalArgumentException from the authenticating
      constructor, and the NullPointerException that hashing a null
      password raises. */
  datatype Error = NotLoggedIn | InvalidCredentials | NullPassword

  /** The password-hashing collaborator (BCrypt): hash a plaintext, and check
      a plaintext against a stored hash. */
  datatype Hasher = Hasher(hash: string -> string, check: (string, string) -> bool)

  // ----- Seat matrix ---------------------------------------------------------

  /** isSeatValid: the row and the seat are in bounds and the cell is free.
      Independently: the seat is in bounds and occupying it lowers the
      number of free seats, so a valid seat is one of the matrix's free
      seats; on a 0/1 matrix an in-bounds cell is valid exactly when it is
      not occupied. */
  function IsSeatValid(seats: seq<seq<int>>, row: int, seat: int): (r: bool)
    ensures r <==> (0 <= row < |seats| && 0 <= seat < |seats[row]|
                    && FreeSeats(seats[row := seats[row][seat := 1]]) < FreeSeats(seats))
    ensures r ==> FreeSeats(seats) > 0
    ensures IsBinary(seats) && 0 <= row < |seats| && 0 <= seat < |seats[row]| ==>
      (r <==> seats[row][seat] != 1)
  {
    var inBounds := 0 <= row < |seats| && 0 <= seat < |seats[row]|;
    if inBounds then
      FreeSeatsOccupy(seats, row, seat);
      seats[row][seat] == 0
    else false
  }

  /** Every cell is 0 (free) or 1 (occupied). */
  predicate IsBinary(seats: seq<seq<int>>)
  {
    forall i, j :: 0 <= i < |seats| && 0 <= j < |seats[i]| ==> seats[i][j] == 0 || seats[i][j] == 1
  }

  /** The matrix after seats.get(row).set(seat, 1): that one cell is
      occupied, the dimensions and every other cell are as before, so the
      cell can no longer be booked. */
  function Booked(seats: seq<seq<int>>, row: int, seat: int): (r: seq<seq<int>>)
    requires 0 <= row < |seats| && 0 <= seat < |seats[row]|
    ensures |r| == |seats| && forall i :: 0 <= i < |r| ==> |r[i]| == |seats[i]|
    ensures r[row][seat] == 1 && !IsSeatValid(r, row, seat)
    ensures forall i, j :: 0 <= i < |r| && 0 <= j < |r[i]| && (i != row || j != seat) ==> r[i][j] == seats[i][j]
    ensures IsBinary(seats) ==> IsBinary(r)
  {
    seats[row := seats[row][seat := 1]]
  }

  /** The number of free cells of one row. */
  function FreeInRow(cells: seq<int>): nat
  {
    if cells == [] then 0 else (if cells[0] == 0 then 1 else 0) + FreeInRow(cells[1..])
  }

  /** The number of free cells of the matrix. */
  function FreeSeats(seats: seq<seq<int>>): nat
  {
    if seats == [] then 0 else FreeInRow(seats[0]) + FreeSeats(seats[1..])
  }

  /** Occupying a cell of a row frees one seat fewer when the cell was
      free, and leaves the count alone when it was not. */
  lemma {:induction false} FreeInRowOccupy(cells: seq<int>, seat: int)
    requires 0 <= seat < |cells|
    ensures FreeInRow(cells[seat := 1]) == FreeInRow(cells) - (if cells[seat] == 0 then 1 else 0)
  {
    if seat > 0 {
      FreeInRowOccupy(cells[1..], seat - 1);
      assert cells[seat := 1][1..] == cells[1..][seat - 1 := 1];
    }
  }

  /** The same for a cell of the matrix. */
  lemma {:induction false} FreeSeatsOccupy(seats: seq<seq<int>>, row: int, seat: int)
    requires 0 <= row < |seats| && 0 <= seat < |seats[row]|
    ensures FreeSeats(seats[row := seats[row][seat := 1]])
      == FreeSeats(seats) - (if seats[row][seat] == 0 then 1 else 0)
  {
    var after := seats[row := seats[row][seat := 1]];
    if row == 0 {
      FreeInRowOccupy(seats[0], seat);
      assert after[1..] == seats[1..];
    } else {
      FreeSeatsOccupy(seats[1..], row - 1, seat);
      assert after[1..] == seats[1..][row - 1 := seats[1..][row - 1][seat := 1]];
    }
  }

  /** A successful booking takes exactly one free seat. */
  lemma {:induction false} BookingTakesOneFreeSeat(seats: seq<seq<int>>, row: int, seat: int)
    requires IsSeatValid(seats, row, seat)
    ensures FreeSeats(Booked(seats, row, seat)) == FreeSeats(seats) - 1
  {
    FreeSeatsOccupy(seats, row, seat);
  }

  // ----- Ticket list ---------------------------------------------------------

  /** Some ticket of the list carries the id (String.equals, case-sensitive). */
  predicate HasTicket(tickets: seq<Ticket>, ticketId: string)
  {
    exists k :: 0 <= k < |tickets| && tickets[k].ticketId == ticketId
  }

  /** The list after removeIf(ticket id equals ticketId). It is shorter
      exactly when a ticket carried the id, which is what removeIf returns. */
  function WithoutTicket(tickets: seq<Ticket>, ticketId: string): (r: seq<Ticket>)
    ensures forall k :: 0 <= k < |r| ==> r[k].ticketId != ticketId
    ensures |r| < |tickets| <==> HasTicket(tickets, ticketId)
    ensures !HasTicket(tickets, ticketId) ==> r == tickets
  {
    if tickets == [] then []
    else
      var rest := WithoutTicket(tickets[1..], ticketId);
      assert HasTicket(tickets, ticketId) <==>
        tickets[0].ticketId == ticketId || HasTicket(tickets[1..], ticketId) by {
        if HasTicket(tickets, ticketId) && tickets[0].ticketId != ticketId {
          var k :| 0 <= k < |tickets| && tickets[k].ticketId == ticketId;
          assert tickets[1..][k - 1].ticketId == ticketId;
        }
        if HasTicket(tickets[1..], ticketId) {
          var k :| 0 <= k < |tickets[1..]| && tickets[1..][k].ticketId == ticketId;
          assert tickets[k + 1].ticketId == ticketId;
        }
      }
      if tickets[0].ticketId == ticketId then rest else [tickets[0]] + rest
  }

  /** Cancelling keeps every other ticket, each as often as before, in the
      original order. */
  lemma {:induction false} WithoutTicketIsOrderedFilter(tickets: seq<Ticket>, ticketId: string)
    ensures var r := WithoutTicket(tickets, ticketId);
      && SubsequenceOf(r, tickets)
      && forall t :: multiset(r)[t] == if t.ticketId == ticketId then 0 else multiset(tickets)[t]
  {
    if tickets != [] {
      WithoutTicketIsOrderedFilter(tickets[1..], ticketId);
      assert tickets == [tickets[0]] + tickets[1..];
      var rest := WithoutTicket(tickets[1..], ticketId);
      var r := WithoutTicket(tickets, ticketId);
      if tickets[0].ticketId == ticketId {
        assert r == rest;
        SubsequenceSkip(r, tickets);
      } else {
        assert r == [tickets[0]] + rest && r[1..] == rest;
      }
    }
  }

  /** Cancelling the ticket a booking just appended, under an id no earlier
      ticket carries, gives back the ticket list as it was before the
      booking. Only the list is restored: the seat stays occupied. */
  lemma {:induction false} CancelRestoresTicketList(tickets: seq<Ticket>, t: Ticket)
    requires !HasTicket(tickets, t.ticketId)
    ensures WithoutTicket(tickets + [t], t.ticketId) == tickets
  {
    if tickets != [] {
      CancelRestoresTicketList(tickets[1..], t);
      assert (tickets + [t])[1..] == tickets[1..] + [t];
    }
  }

  // ----- Users ---------------------------------------------------------------

  /** Some registered user has the name, ignoring case (signUp's anyMatch).
      A registered name is taken in every spelling of its case: only the
      lower-cased form of the request matters. */
  function NameTaken(users: seq<User>, name: string): (r: bool)
    ensures (exists k :: 0 <= k < |users| && users[k].name == name) ==> r
    ensures r <==> exists k :: 0 <= k < |users| && EqualsIgnoreCase(users[k].name, ToLowerCase(name))
  {
    ToLowerCaseIdempotent(name);
    exists k :: 0 <= k < |users| && EqualsIgnoreCase(users[k].name, name)
  }

  /** No two registered users have the same name, ignoring case. */
  ghost predicate UniqueNames(users: seq<User>)
  {
    forall i, j :: 0 <= i < j < |users| ==> !EqualsIgnoreCase(users[i].name, users[j].name)
  }

  /** authenticate's filter: the name matches ignoring case and the
      plaintext checks against the stored hash. */
  predicate Verifies(u: User, name: string, password: string, crypto: Hasher)
    reads u
  {
    EqualsIgnoreCase(u.name, name) && u.hashedPassword.Some? && crypto.check(password, u.hashedPassword.value)
  }

  /** The position of authenticate's findFirst: the least index of a user
      that verifies, or -1. */
  function AuthIndex(users: seq<User>, name: string, password: string, crypto: Hasher): (i: int)
    reads users
    ensures -1 <= i < |users|
    ensures 0 <= i ==> Verifies(users[i], name, password, crypto)
    ensures forall k :: 0 <= k < |users| && (i < 0 || k < i) ==> !Verifies(users[k], name, password, crypto)
  {
    if users == [] then -1
    else if Verifies(users[0], name, password, crypto) then 0
    else
      var j := AuthIndex(users[1..], name, password, crypto);
      if j < 0 then -1 else j + 1
  }

  /** A user who has just signed up with a fresh name logs in with that
      name and the password given at sign-up, provided the hasher accepts
      its own hashes. */
  lemma {:induction false} SignedUpUserAuthenticates(users: seq<User>, u: User, password: string, crypto: Hasher)
    requires !NameTaken(users, u.name)
    requires u.hashedPassword == Some(crypto.hash(password))
    requires crypto.check(password, crypto.hash(password))
    ensures AuthIndex(users + [u], u.name, password, crypto) == |users|
  {
    var all := users + [u];
    assert all[|users|] == u;
    forall k | 0 <= k < |users| ensures !Verifies(all[k], u.name, password, crypto) {
      assert all[k] == users[k];
    }
  }

  /** With a hasher that accepts no other plaintext for that hash, the same
      name with any other password is refused. */
  lemma WrongPasswordRejected(users: seq<User>, u: User, password: string, other: string,
                               crypto: Hasher)
    requires !NameTaken(users, u.name)
    requires u.hashedPassword == Some(crypto.hash(password))
    requires !crypto.check(other, crypto.hash(password))
    ensures AuthIndex(users + [u], u.name, other, crypto) == -1
  {
  }

  // ----- The service ---------------------------------------------------------

  /** The booking engine: the registered users and the logged-in one. The
      JSON user file is not modelled: the constructor takes the loaded list
      and saving does nothing. */
  class UserBookingService {
    const crypto: Hasher
    var users: seq<User>
    var currentUser: User?

    /** The session user is one of the registered users (so the directory
        sees its tickets), and every registered user has a hash (so the
        password check never meets a null). */
    ghost predicate Valid()
      reads this, users
    {
      && (currentUser != null ==> currentUser in users)
      && forall k :: 0 <= k < |users| ==> users[k].hashedPassword.Some?
    }

    /** The session user, as a set: empty when nobody is logged in. */
    ghost function Session(): set<User>
      reads this
    {
      if currentUser == null then {} else {currentUser}
    }

    /** The no-argument constructor: the users as loaded, nobody logged in. */
    constructor (crypto: Hasher, stored: seq<User>)
      requires forall k :: 0 <= k < |stored| ==> stored[k].hashedPassword.Some?
      ensures Valid() && this.crypto == crypto && users == stored && currentUser == null
    {
      this.crypto := crypto;
      users := stored;
      currentUser := null;
    }

    /** The constructor taking a user: load, then authenticate or throw
        "Invalid credentials". */
    static method LoadAs(crypto: Hasher, stored: seq<User>, name: string, password: string)
      returns (r: Result<UserBookingService, Error>)
      requires forall k :: 0 <= k < |stored| ==> stored[k].hashedPassword.Some?
      ensures AuthIndex(stored, name, password, crypto) < 0 ==> r == Failure(InvalidCredentials)
      ensures AuthIndex(stored, name, password, crypto) >= 0 ==>
        && r.Success? && fresh(r.value) && r.value.Valid()
        && r.value.users == stored && r.value.crypto == crypto
        && r.value.currentUser == stored[AuthIndex(stored, name, password, crypto)]
    {
      var service := new UserBookingService(crypto, stored);
      var u := service.Authenticate(name, password);
      if u == null {
        return Failure(InvalidCredentials);
      }
      service.currentUser := u;
      return Success(service);
    }

    /** authenticate: the first registered user whose name matches ignoring
        case and whose stored hash accepts the password, or null. */
    function Authenticate(name: string, password: string): (r: User?)
      reads this, users
      ensures r == null <==> forall k :: 0 <= k < |users| ==> !Verifies(users[k], name, password, crypto)
      ensures r != null ==> exists i :: (0 <= i < |users| && users[i] == r && Verifies(r, name, password, crypto)
        && forall k :: 0 <= k < i ==> !Verifies(users[k], name, password, crypto))
      ensures r == if AuthIndex(users, name, password, crypto) < 0 then null
        else users[AuthIndex(users, name, password, crypto)]
    {
      var i := AuthIndex(users, name, password, crypto);
      if i < 0 then null else users[i]
    }

    /** login: on success the first verifying user becomes the session
        user; otherwise the session is left as it was. */
    method Login(name: string, password: string) returns (ok: bool)
      requires Valid()
      modifies this`currentUser
      ensures Valid()
      ensures ok <==> Authenticate(name, password) != null
      ensures currentUser == if ok then Authenticate(name, password) else old(currentUser)
    {
      var u := Authenticate(name, password);
      if u != null {
        currentUser := u;
      }
      ok := u != null;
    }

    /** signUp: refuse a name already taken ignoring case; otherwise hash the
        password, clear the plaintext, give the user an empty ticket list and
        register it. Hashing a null password throws before anything changes. */
    method SignUp(newUser: User) returns (r: Result<bool, Error>)
      requires Valid()
      modifies this`users, newUser
      ensures Valid() && currentUser == old(currentUser)
      ensures NameTaken(old(users), newUser.name) ==>
        r == Success(false) && users == old(users) && unchanged(newUser)
      ensures !NameTaken(old(users), newUser.name) && old(newUser.password).None? ==>
        r == Failure(NullPassword) && users == old(users) && unchanged(newUser)
      ensures !NameTaken(old(users), newUser.name) && old(newUser.password).Some? ==>
        && r == Success(true)
        && users == old(users) + [newUser]
        && newUser.hashedPassword == Some(crypto.hash(old(newUser.password).value))
        && newUser.password == None
        && newUser.ticketsBooked == []
      ensures UniqueNames(old(users)) ==> UniqueNames(users)
    {
      var taken := NameTaken(users, newUser.name);
      if taken {
        return Success(false);
      }
      if newUser.password.None? {
        return Failure(NullPassword);
      }
      newUser.hashedPassword := Some(crypto.hash(newUser.password.value));
      newUser.password := None;
      newUser.ticketsBooked := [];
      users := users + [newUser];
      return Success(true);
    }

    /** fetchBookings: the session user's tickets, or the not-logged-in
        error. */
    function FetchBookings(): (r: Result<seq<Ticket>, Error>)
      reads this, currentUser
      ensures currentUser == null <==> r == Failure(NotLoggedIn)
      ensures currentUser != null ==> r == Success(currentUser.ticketsBooked)
    {
      if currentUser == null then Failure(NotLoggedIn) else Success(currentUser.ticketsBooked)
    }

    /** cancelBooking: a null or blank id is refused; otherwise every ticket
        with that id leaves the session user's list, and the result says
        whether one did. No seat is released. */
    method CancelBooking(ticketId: Option<string>) returns (r: Result<bool, Error>)
      requires Valid()
      modifies Session()`ticketsBooked
      ensures Valid()
      ensures currentUser == null ==> r == Failure(NotLoggedIn)
      ensures currentUser != null && (ticketId.None? || IsBlank(ticketId.value)) ==>
        r == Success(false) && unchanged(currentUser)
      ensures currentUser != null && ticketId.Some? && !IsBlank(ticketId.value) ==>
        && currentUser.ticketsBooked == WithoutTicket(old(currentUser.ticketsBooked), ticketId.value)
        && r == Success(HasTicket(old(currentUser.ticketsBooked), ticketId.value))
    {
      if currentUser == null {
        return Failure(NotLoggedIn);
      }
      if ticketId.None? || IsBlank(ticketId.value) {
        return Success(false);
      }
      var before := currentUser.ticketsBooked;
      currentUser.ticketsBooked := WithoutTicket(before, ticketId.value);
      return Success(|currentUser.ticketsBooked| < |before|);
    }

    /** bookTrainSeat: refuse a seat out of bounds or taken; otherwise occupy
        it, save the train in the catalog and append a new ticket for the
        session user. The catalog is the one the source loads afresh for the
        call; the ticket id is the fresh UUID. */
    method BookTrainSeat(catalog: TrainService, train: Train, row: int, seat: int, source: string,
                         destination: string, dateOfTravel: Date, ticketId: string)
      returns (r: Result<bool, Error>)
      requires Valid()
      modifies train`seats, catalog`trains, Session()`ticketsBooked
      ensures Valid()
      ensures currentUser == null ==> r == Failure(NotLoggedIn) && unchanged(train, catalog)
      ensures currentUser != null && !IsSeatValid(old(train.seats), row, seat) ==>
        r == Success(false) && unchanged(train, catalog, currentUser)
      ensures currentUser != null && IsSeatValid(old(train.seats), row, seat) ==>
        && r == Success(true)
        && train.seats == Booked(old(train.seats), row, seat)
        && catalog.trains == Upserted(old(catalog.trains), train)
        && catalog.FindByTrainId(train.trainId) == Some(train)
        && currentUser.ticketsBooked == old(currentUser.ticketsBooked)
             + [Create(ticketId, currentUser, train, source, destination, dateOfTravel)]
    {
      if currentUser == null {
        return Failure(NotLoggedIn);
      }
      var seats := train.seats;
      if !IsSeatValid(seats, row, seat) {
        return Success(false);
      }
      train.seats := seats[row := seats[row][seat := 1]];
      catalog.SaveOrUpdateTrain(train);
      var ticket := Create(ticketId, currentUser, train, source, destination, dateOfTravel);
      currentUser.ticketsBooked := currentUser.ticketsBooked + [ticket];
      return Success(true);
    }
  }
}
