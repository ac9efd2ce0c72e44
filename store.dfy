/** The ledger as the handlers use it: mutable tables that each
    transaction updates row by row. Every method is proved to leave the
    tables exactly as the corresponding function in `Ledger` says, and to
    keep the invariant `Wf`; the properties proved in `LedgerFacts` about
    those functions therefore hold of the store. */
module LedgerStore {
  import opened Wrappers
  import opened Numbers
  import opened Ledger
  import opened LedgerFacts

  /** What `PostBook` sends to the administrator's Telegram chat after a
      committed booking; the message text itself is not modelled. */
  datatype BookingNotice = BookingNotice(
    number: string,
    name: string,
    phone: string,
    amount: real,
    reference: string,
    raffleId: int)

  class Store {
    var raffles: seq<Raffle>
    var tickets: seq<Ticket>
    var users: seq<User>
    var payments: seq<Payment>
    var nextPaymentId: int
    /** Notifications sent to the administrator, oldest first. */
    var notices: seq<BookingNotice>

    function Snapshot(): State
      reads this
    {
      State(raffles, tickets, users, payments, nextPaymentId)
    }

    ghost predicate Valid()
      reads this
    {
      Wf(Snapshot())
    }

    /** A freshly created database: empty tables. */
    constructor ()
      ensures Valid()
      ensures Snapshot() == EmptyLedger && notices == []
    {
      raffles, tickets, users, payments := [], [], [], [];
      nextPaymentId := 1;
      notices := [];
    }

    /** `AdminCreateRaffle`: inserts the raffle row, then one ticket row per
        number in the generation loop. */
    method CreateRaffle(name: string, price: real, raffleType: string, now: int) returns (raffleId: int)
      requires Valid()
      modifies this
      ensures Valid()
      ensures (Snapshot(), raffleId) == Ledger.CreateRaffle(old(Snapshot()), name, price, raffleType, now)
      ensures notices == old(notices)
    {
      var totalNumbers := 100;
      var width := 2;
      if raffleType == "triple" {
        totalNumbers := 1000;
        width := 3;
      }
      raffles := raffles + [Raffle(name, totalNumbers, price, DefaultReserveHours, Active, now)];
      raffleId := |raffles|;
      var i := 0;
      while i < totalNumbers
        invariant 0 <= i <= totalNumbers == TicketCount(raffleType)
        invariant width == NumberWidth(raffleType)
        invariant raffles == old(raffles) + [Raffle(name, totalNumbers, price, DefaultReserveHours, Active, now)]
        invariant raffleId == |old(raffles)| + 1
        invariant tickets == old(tickets) + Generated(raffleId, raffleType)[..i]
        invariant users == old(users) && payments == old(payments)
        invariant nextPaymentId == old(nextPaymentId) && notices == old(notices)
      {
        tickets := tickets + [Ticket(raffleId, FormatPadded(i, width), None, Available, None)];
        i := i + 1;
      }
      assert Generated(raffleId, raffleType)[..i] == Generated(raffleId, raffleType);
      CreateRafflePreservesWf(old(Snapshot()), name, price, raffleType, now);
    }

    /** `PostBook`: looks up an available ticket with this raffle and
        number; if there is none the transaction is rolled back. Otherwise
        it inserts the user, reserves the ticket, inserts the payment,
        commits, and notifies the administrator. */
    method Book(raffleId: int, number: string, name: string, phone: string,
                amount: real, paymentMethod: string, reference: string, now: int) returns (outcome: BookOutcome)
      requires Valid()
      modifies this
      ensures Valid()
      ensures (Snapshot(), outcome) == Ledger.Book(old(Snapshot()), raffleId, number, name, phone, amount, paymentMethod, reference, now)
      ensures notices == old(notices) + (if outcome.Booked? then [BookingNotice(number, name, phone, amount, reference, raffleId)] else [])
    {
      BookPreservesWf(Snapshot(), raffleId, number, name, phone, amount, paymentMethod, reference, now);
      var found := FindAvailable(tickets, raffleId, number);
      if found.None? {
        return Unavailable;
      }
      var k := found.value;
      users := users + [User(None, name, phone)];
      var userId := |users|;
      tickets := tickets[k := tickets[k].(userId := Some(userId), status := Reserved, reservedAt := Some(now))];
      payments := payments + [Payment(nextPaymentId, k + 1, amount, paymentMethod, reference, now, false)];
      nextPaymentId := nextPaymentId + 1;
      outcome := Booked(k + 1);
      notices := notices + [BookingNotice(number, name, phone, amount, reference, raffleId)];
    }

    /** `AdminAddPayment`: step 1 sells an available ticket on the spot,
        step 2 inserts the verified payment, step 3 marks the ticket paid
        when its payments reach the raffle's price. */
    method AddPayment(ticketId: int, amount: real, paymentMethod: string, reference: string,
                      name: string, phone: string, now: int)
      requires Valid() && 1 <= ticketId <= |tickets|
      modifies this
      ensures Valid()
      ensures Snapshot() == Ledger.AddPayment(old(Snapshot()), ticketId, amount, paymentMethod, reference, name, phone, now)
      ensures notices == old(notices)
    {
      ghost var s0 := Snapshot();
      ghost var s1 := Ledger.AddPayment(s0, ticketId, amount, paymentMethod, reference, name, phone, now);
      AddPaymentPreservesWf(s0, ticketId, amount, paymentMethod, reference, name, phone, now);
      var k := ticketId - 1;
      ghost var t := tickets[k];
      if tickets[k].status == Available {
        users := users + [User(None, name, phone)];
        var userId := |users|;
        tickets := tickets[k := tickets[k].(userId := Some(userId), status := Reserved, reservedAt := Some(now))];
      }
      payments := payments + [Payment(nextPaymentId, ticketId, amount, paymentMethod, reference, now, true)];
      nextPaymentId := nextPaymentId + 1;
      assert users == s1.users && payments == s1.payments;
      var totalPaid := PaidFor(payments, ticketId);
      var price := PriceOf(Snapshot(), tickets[k].raffleId);
      assert price == PriceOf(s0, t.raffleId);
      if totalPaid >= price {
        tickets := tickets[k := tickets[k].(status := Paid)];
      }
      assert tickets == s1.tickets;
    }

    /** `AdminReleaseTicket`: deletes the ticket's payments, then resets
        the ticket row (if there is one). */
    method Release(ticketId: int)
      requires Valid()
      modifies this
      ensures Valid()
      ensures Snapshot() == Ledger.Release(old(Snapshot()), ticketId)
      ensures notices == old(notices)
    {
      ReleasePreservesWf(Snapshot(), ticketId);
      payments := WithoutTicket(payments, ticketId);
      if 1 <= ticketId <= |tickets| {
        var k := ticketId - 1;
        tickets := tickets[k := tickets[k].(userId := None, status := Available, reservedAt := None)];
      }
    }
  }
}
