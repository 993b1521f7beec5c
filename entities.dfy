/** The records of the booking system: trains (whose seat matrix is updated
    in place), users (whose password fields and ticket list are updated in
    place) and tickets (immutable values). */
module Entities {
  import opened Wrappers

  /** A travel date (a LocalDate), kept as the ISO-8601 text that
      LocalDate.toString prints; no calendar rule is checked, as in the
      source. */
  datatype Date = Date(iso: string)

  /** A train of the catalog. Its identifier and station list are never
      changed by the booking core; its seat matrix is. Each cell is 0 (free)
      or 1 (occupied); rows may differ in length, as in a list of lists. */
  class Train {
    const trainId: string
    const stations: seq<string>
    var seats: seq<seq<int>>

    constructor (trainId: string, stations: seq<string>, seats: seq<seq<int>>)
      ensures this.trainId == trainId && this.stations == stations && this.seats == seats
    {
      this.trainId := trainId;
      this.stations := stations;
      this.seats := seats;
    }
  }

  /** A registered user, or a sign-up request before it is registered. A
      null password, hash or ticket list of the source is None or []. */
  class User {
    const name: string
    var password: Option<string>
    var hashedPassword: Option<string>
    var ticketsBooked: seq<Ticket>
    const userId: string

    constructor (name: string, password: Option<string>, hashedPassword: Option<string>,
                 ticketsBooked: seq<Ticket>, userId: string)
      ensures this.name == name && this.password == password
      ensures this.hashedPassword == hashedPassword && this.ticketsBooked == ticketsBooked
      ensures this.userId == userId
    {
      this.name := name;
      this.password := password;
      this.hashedPassword := hashedPassword;
      this.ticketsBooked := ticketsBooked;
      this.userId := userId;
    }
  }

  /** A booked ticket. It has no setters, so as a datatype value none of its
      fields can change after it is built; it refers to its train by
      reference, like the source. */
  datatype Ticket = Ticket(
    ticketId: string,
    userId: string,
    source: string,
    destination: string,
    dateOfTravel: Date,
    train: Train)

  /** Ticket.create. The identifier comes from a random UUID generator, not
      from the other inputs, so it is a parameter here. */
  function Create(ticketId: string, user: User, train: Train, source: string,
                  destination: string, dateOfTravel: Date): (t: Ticket)
    ensures t.ticketId == ticketId && t.userId == user.userId && t.train == train
    ensures t.source == source && t.destination == destination && t.dateOfTravel == dateOfTravel
  {
    Ticket(ticketId, user.userId, source, destination, dateOfTravel, train)
  }

  const IdLabel := "Ticket ID: "
  const UserLabel := " | User: "
  const RouteLabel := " | "
  const ArrowLabel := " \U{2192} "
  const DateLabel := " | Date: "
  const TrainLabel := " | Train: "

  /** getTicketInfo: ticket id, user id, source, destination, date and train
      id, in that order, between fixed labels. The line opens with the
      labelled ticket id and closes with the labelled train id. */
  function TicketInfo(t: Ticket): (info: string)
    ensures |IdLabel + t.ticketId| + |TrainLabel + t.train.trainId| <= |info|
    ensures info[..|IdLabel + t.ticketId|] == IdLabel + t.ticketId
    ensures info[|info| - |TrainLabel + t.train.trainId|..] == TrainLabel + t.train.trainId
  {
    IdLabel + t.ticketId + UserLabel + t.userId + RouteLabel + t.source + ArrowLabel
      + t.destination + DateLabel + t.dateOfTravel.iso + TrainLabel + t.train.trainId
  }

  /** The six fields of the info line, each found at its own offset and in
      the order ticket id, user id, source, destination, date, train id. */
  lemma TicketInfoLayout(t: Ticket)
    ensures var info := TicketInfo(t);
      var a := |IdLabel|;
      var b := a + |t.ticketId| + |UserLabel|;
      var c := b + |t.userId| + |RouteLabel|;
      var d := c + |t.source| + |ArrowLabel|;
      var e := d + |t.destination| + |DateLabel|;
      var f := e + |t.dateOfTravel.iso| + |TrainLabel|;
      && f + |t.train.trainId| == |info|
      && info[a..a + |t.ticketId|] == t.ticketId
      && info[b..b + |t.userId|] == t.userId
      && info[c..c + |t.source|] == t.source
      && info[d..d + |t.destination|] == t.destination
      && info[e..e + |t.dateOfTravel.iso|] == t.dateOfTravel.iso
      && info[f..] == t.train.trainId
  {
  }
}
