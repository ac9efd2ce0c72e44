/** The ticket ledger: the four SQLite tables (raffles, tickets, users,
    payments) as one value, and each handler transaction of
    internal/handlers as a function from the ledger before the commit to
    the ledger after it. The class in store.dfy runs the same transactions
    in place and is proved to agree with these functions. */
module Ledger {
  import opened Wrappers
  import opened Numbers

  // ---------------------------------------------------------------------
  // Rows (internal/models/models.go)

  datatype Status = Available | Reserved | Paid

  datatype RaffleStatus = Active | Finished

  datatype User = User(telegramId: Option<int>, name: string, phone: string)

  datatype Raffle = Raffle(
    name: string,
    totalNumbers: int,
    ticketPrice: real,
    reserveHours: int,
    status: RaffleStatus,
    createdAt: int)

  datatype Ticket = Ticket(
    raffleId: int,
    number: string,
    userId: Option<int>,
    status: Status,
    reservedAt: Option<int>)

  datatype Payment = Payment(
    id: int,
    ticketId: int,
    amount: real,
    paymentMethod: string,
    reference: string,
    createdAt: int,
    isVerified: bool)

  /** The whole ledger. Rows of raffles, tickets and users are never
      deleted and get AUTOINCREMENT ids from 1, so row id k is element
      k - 1 of its sequence. Payments are deleted by a release, so each
      carries its own id; `nextPaymentId` is the next one to hand out. */
  datatype State = State(
    raffles: seq<Raffle>,
    tickets: seq<Ticket>,
    users: seq<User>,
    payments: seq<Payment>,
    nextPaymentId: int)

  const EmptyLedger := State([], [], [], [], 1)

  /** Schema default of `raffles.reserve_hours`. */
  const DefaultReserveHours := 24

  // ---------------------------------------------------------------------
  // Payments of one ticket

  /** The payments of ticket `ticketId`, in insertion order. */
  function PaymentsOf(ps: seq<Payment>, ticketId: int): seq<Payment>
    decreases |ps|
  {
    if ps == [] then []
    else
      var last := ps[|ps| - 1];
      PaymentsOf(ps[..|ps| - 1], ticketId) + (if last.ticketId == ticketId then [last] else [])
  }

  function Total(ps: seq<Payment>): real
    decreases |ps|
  {
    if ps == [] then 0.0 else Total(ps[..|ps| - 1]) + ps[|ps| - 1].amount
  }

  /** `SELECT COALESCE(SUM(amount), 0) FROM payments WHERE ticket_id = ?` */
  function PaidFor(ps: seq<Payment>, ticketId: int): real {
    Total(PaymentsOf(ps, ticketId))
  }

  /** `DELETE FROM payments WHERE ticket_id = ?`: what is left. */
  function WithoutTicket(ps: seq<Payment>, ticketId: int): seq<Payment>
    decreases |ps|
  {
    if ps == [] then []
    else
      var last := ps[|ps| - 1];
      WithoutTicket(ps[..|ps| - 1], ticketId) + (if last.ticketId == ticketId then [] else [last])
  }

  /** The unit price of raffle `raffleId`; 0.0 when there is no such row,
      the value Go's failed `Scan` leaves in the `price` variable. */
  function PriceOf(s: State, raffleId: int): real {
    if 1 <= raffleId <= |s.raffles| then s.raffles[raffleId - 1].ticketPrice else 0.0
  }

  // ---------------------------------------------------------------------
  // Invariant

  /** Foreign keys hold, and a ticket's lifecycle columns agree with each
      other: it is available exactly when it has no user, no reservation
      time and no payments. */
  ghost predicate TicketWf(s: State, i: int)
    requires 0 <= i < |s.tickets|
  {
    var t := s.tickets[i];
    && 1 <= t.raffleId <= |s.raffles|
    && (t.userId.Some? ==> 1 <= t.userId.value <= |s.users|)
    && (t.status == Available <==> t.userId.None?)
    && (t.status == Available <==> t.reservedAt.None?)
    && (t.status == Available <==> PaymentsOf(s.payments, i + 1) == [])
  }

  /** No two tickets of one raffle share a number. The schema has no such
      constraint; it holds because each raffle's tickets are generated once,
      with distinct numbers. */
  ghost predicate NumbersUnique(ts: seq<Ticket>) {
    forall i, j :: 0 <= i < j < |ts| && ts[i].raffleId == ts[j].raffleId ==> ts[i].number != ts[j].number
  }

  ghost predicate Wf(s: State) {
    && (forall i :: 0 <= i < |s.tickets| ==> TicketWf(s, i))
    && (forall p :: p in s.payments ==> 1 <= p.ticketId <= |s.tickets| && p.id < s.nextPaymentId)
    && NumbersUnique(s.tickets)
  }

  /** Every `paid` ticket has collected at least its raffle's price. */
  ghost predicate Settled(s: State) {
    forall i :: 0 <= i < |s.tickets| && s.tickets[i].status == Paid ==>
      PaidFor(s.payments, i + 1) >= PriceOf(s, s.tickets[i].raffleId)
  }

  // ---------------------------------------------------------------------
  // AdminCreateRaffle

  function TicketCount(raffleType: string): nat {
    if raffleType == "triple" then 1000 else 100
  }

  function NumberWidth(raffleType: string): nat {
    if raffleType == "triple" then 3 else 2
  }

  /** The i-th ticket the generation loop inserts: number `i` formatted
      with `%02d` (or `%03d` for a "triple" raffle), every other column at
      its schema default. */
  function GeneratedTicket(raffleId: int, raffleType: string, i: nat): Ticket {
    Ticket(raffleId, FormatPadded(i, NumberWidth(raffleType)), None, Available, None)
  }

  function Generated(raffleId: int, raffleType: string): seq<Ticket> {
    seq(TicketCount(raffleType), i requires 0 <= i => GeneratedTicket(raffleId, raffleType, i))
  }

  /** One raffle row (status 'active', 24 reservation hours by default)
      and all its tickets; returns the new raffle's id. */
  function CreateRaffle(s: State, name: string, price: real, raffleType: string, now: int): (State, int) {
    var raffleId := |s.raffles| + 1;
    var raffle := Raffle(name, TicketCount(raffleType), price, DefaultReserveHours, Active, now);
    (s.(raffles := s.raffles + [raffle], tickets := s.tickets + Generated(raffleId, raffleType)), raffleId)
  }

  // ---------------------------------------------------------------------
  // PostBook

  datatype BookOutcome = Booked(ticketId: int) | Unavailable

  predicate Bookable(t: Ticket, raffleId: int, number: string) {
    t.raffleId == raffleId && t.number == number && t.status == Available
  }

  /** `SELECT id FROM tickets WHERE number = ? AND raffle_id = ? AND
      status = 'available'`, first row: the index of the first bookable
      ticket, if any. */
  function FindAvailable(ts: seq<Ticket>, raffleId: int, number: string): (r: Option<nat>)
    ensures r.Some? ==> r.value < |ts| && Bookable(ts[r.value], raffleId, number)
    ensures r.Some? ==> forall j :: 0 <= j < r.value ==> !Bookable(ts[j], raffleId, number)
    ensures r.None? ==> forall j :: 0 <= j < |ts| ==> !Bookable(ts[j], raffleId, number)
    decreases |ts|
  {
    if ts == [] then None
    else if Bookable(ts[0], raffleId, number) then Some(0)
    else match FindAvailable(ts[1..], raffleId, number)
      case None => None
      case Some(k) => Some(k + 1)
  }

  /** A customer books a ticket: if one with this raffle and number is
      available, a new user is created, the ticket is reserved for that
      user, and an unverified payment (the schema's default) is recorded.
      Otherwise nothing changes ("Ticket no disponible"). */
  function Book(s: State, raffleId: int, number: string, name: string, phone: string,
                amount: real, paymentMethod: string, reference: string, now: int): (State, BookOutcome)
  {
    match FindAvailable(s.tickets, raffleId, number)
    case None => (s, Unavailable)
    case Some(k) =>
      var userId := |s.users| + 1;
      var ticketId := k + 1;
      var reserved := s.tickets[k].(userId := Some(userId), status := Reserved, reservedAt := Some(now));
      var payment := Payment(s.nextPaymentId, ticketId, amount, paymentMethod, reference, now, false);
      (State(s.raffles, s.tickets[k := reserved], s.users + [User(None, name, phone)],
             s.payments + [payment], s.nextPaymentId + 1),
       Booked(ticketId))
  }

  // ---------------------------------------------------------------------
  // AdminAddPayment

  /** An admin records a payment: an available ticket is first sold on the
      spot to a new user (reserved), then a verified payment is appended,
      then the ticket becomes paid if its payments now sum to at least the
      raffle's price. */
  function AddPayment(s: State, ticketId: int, amount: real, paymentMethod: string, reference: string,
                      name: string, phone: string, now: int): State
    requires 1 <= ticketId <= |s.tickets|
  {
    var k := ticketId - 1;
    var t := s.tickets[k];
    var users := if t.status == Available then s.users + [User(None, name, phone)] else s.users;
    var withUser := if t.status == Available
      then t.(userId := Some(|users|), status := Reserved, reservedAt := Some(now))
      else t;
    var payments := s.payments + [Payment(s.nextPaymentId, ticketId, amount, paymentMethod, reference, now, true)];
    var settled := if PaidFor(payments, ticketId) >= PriceOf(s, t.raffleId) then withUser.(status := Paid) else withUser;
    State(s.raffles, s.tickets[k := settled], users, payments, s.nextPaymentId + 1)
  }

  // ---------------------------------------------------------------------
  // AdminReleaseTicket

  /** Deletes the ticket's payments and resets it to available with no
      user and no reservation time. An id with no ticket row changes
      nothing in the tickets table. */
  function Release(s: State, ticketId: int): State {
    var payments := WithoutTicket(s.payments, ticketId);
    if 1 <= ticketId <= |s.tickets| then
      var k := ticketId - 1;
      s.(tickets := s.tickets[k := s.tickets[k].(userId := None, status := Available, reservedAt := None)],
         payments := payments)
    else
      s.(payments := payments)
  }
}
