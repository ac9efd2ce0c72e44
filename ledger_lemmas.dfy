/** What the ledger transactions guarantee: ticket generation, the
    reservation state machine, settlement by summed payments, release, and
    the invariant `Wf` that every transaction keeps. */
module LedgerFacts {
  import opened Wrappers
  import opened Text
  import opened Numbers
  import opened Ledger

  // ---------------------------------------------------------------------
  // Payment bookkeeping

  lemma PaymentsOfAppend(ps: seq<Payment>, p: Payment, ticketId: int)
    ensures PaymentsOf(ps + [p], ticketId) == PaymentsOf(ps, ticketId) + (if p.ticketId == ticketId then [p] else [])
  {
    assert (ps + [p])[..|ps|] == ps;
  }

  lemma TotalAppend(ps: seq<Payment>, p: Payment)
    ensures Total(ps + [p]) == Total(ps) + p.amount
  {
    assert (ps + [p])[..|ps|] == ps;
  }

  /** Appending a payment adds its amount to its own ticket's sum and to
      no other. */
  lemma PaidForAppend(ps: seq<Payment>, p: Payment, ticketId: int)
    ensures PaidFor(ps + [p], ticketId) == PaidFor(ps, ticketId) + (if p.ticketId == ticketId then p.amount else 0.0)
  {
    PaymentsOfAppend(ps, p, ticketId);
    if p.ticketId == ticketId {
      TotalAppend(PaymentsOf(ps, ticketId), p);
    } else {
      assert PaymentsOf(ps, ticketId) + [] == PaymentsOf(ps, ticketId);
    }
  }

  lemma {:induction false} PaymentsOfEmpty(ps: seq<Payment>, ticketId: int)
    ensures PaymentsOf(ps, ticketId) == [] <==> forall p :: p in ps ==> p.ticketId != ticketId
    decreases |ps|
  {
    if ps != [] {
      var init, last := ps[..|ps| - 1], ps[|ps| - 1];
      assert ps == init + [last];
      PaymentsOfEmpty(init, ticketId);
    }
  }

  /** A release deletes exactly the payments of its ticket. */
  lemma {:induction false} WithoutTicketMembers(ps: seq<Payment>, ticketId: int)
    ensures forall p :: p in WithoutTicket(ps, ticketId) <==> p in ps && p.ticketId != ticketId
    decreases |ps|
  {
    if ps != [] {
      var init, last := ps[..|ps| - 1], ps[|ps| - 1];
      assert ps == init + [last];
      WithoutTicketMembers(init, ticketId);
    }
  }

  lemma {:induction false} PaymentsOfWithout(ps: seq<Payment>, ticketId: int, other: int)
    ensures PaymentsOf(WithoutTicket(ps, ticketId), other) == if other == ticketId then [] else PaymentsOf(ps, other)
    decreases |ps|
  {
    if ps != [] {
      var init, last := ps[..|ps| - 1], ps[|ps| - 1];
      PaymentsOfWithout(init, ticketId, other);
      var w := WithoutTicket(init, ticketId);
      if last.ticketId == ticketId {
        assert WithoutTicket(ps, ticketId) == w + [];
        assert w + [] == w;
      } else {
        PaymentsOfAppend(w, last, other);
      }
    }
  }

  /** Deleting the payments of a ticket that has none deletes nothing. */
  lemma {:induction false} WithoutTicketNoPayments(ps: seq<Payment>, ticketId: int)
    requires PaymentsOf(ps, ticketId) == []
    ensures WithoutTicket(ps, ticketId) == ps
    decreases |ps|
  {
    if ps != [] {
      var init, last := ps[..|ps| - 1], ps[|ps| - 1];
      assert PaymentsOf(init, ticketId) == [] && last.ticketId != ticketId;
      WithoutTicketNoPayments(init, ticketId);
      assert ps == init + [last];
    }
  }

  lemma {:induction false} WithoutTicketIdempotent(ps: seq<Payment>, ticketId: int)
    ensures WithoutTicket(WithoutTicket(ps, ticketId), ticketId) == WithoutTicket(ps, ticketId)
    decreases |ps|
  {
    if ps != [] {
      var init, last := ps[..|ps| - 1], ps[|ps| - 1];
      WithoutTicketIdempotent(init, ticketId);
      var w := WithoutTicket(init, ticketId);
      if last.ticketId != ticketId {
        assert (w + [last])[..|w|] == w;
      } else {
        assert w + [] == w;
      }
    }
  }

  /** The invariant survives a transaction that rewrites one ticket `k`
      (keeping its raffle and number), keeps the raffles, may add users,
      and leaves every other ticket and its payments as they were. */
  lemma WfAfterTicketUpdate(s: State, s': State, k: int)
    requires Wf(s) && 0 <= k < |s.tickets|
    requires s'.raffles == s.raffles && |s'.tickets| == |s.tickets| && |s'.users| >= |s.users|
    requires s'.tickets[k].raffleId == s.tickets[k].raffleId && s'.tickets[k].number == s.tickets[k].number
    requires forall j :: 0 <= j < |s.tickets| && j != k ==> s'.tickets[j] == s.tickets[j]
    requires forall id :: 1 <= id <= |s.tickets| && id != k + 1 ==> PaymentsOf(s'.payments, id) == PaymentsOf(s.payments, id)
    requires TicketWf(s', k)
    requires forall p :: p in s'.payments ==> 1 <= p.ticketId <= |s'.tickets| && p.id < s'.nextPaymentId
    ensures Wf(s')
  {
    forall i | 0 <= i < |s'.tickets|
      ensures TicketWf(s', i)
    {
      if i != k {
        assert PaymentsOf(s'.payments, i + 1) == PaymentsOf(s.payments, i + 1);
        assert TicketWf(s, i);
      }
    }
    forall i, j | 0 <= i < j < |s'.tickets| && s'.tickets[i].raffleId == s'.tickets[j].raffleId
      ensures s'.tickets[i].number != s'.tickets[j].number
    {
      assert s'.tickets[i].raffleId == s.tickets[i].raffleId && s'.tickets[i].number == s.tickets[i].number;
      assert s'.tickets[j].raffleId == s.tickets[j].raffleId && s'.tickets[j].number == s.tickets[j].number;
    }
  }

  // ---------------------------------------------------------------------
  // AdminCreateRaffle

  /** A "triple" raffle gets 1000 tickets numbered "000".."999", any other
      type 100 tickets numbered "00".."99"; all are available, unowned and
      belong to the new raffle; their numbers have one length and ascend
      in generation order, so no two are equal. Nothing else changes. */
  lemma CreateRaffleGeneratesTickets(s: State, name: string, price: real, raffleType: string, now: int)
    ensures var r := CreateRaffle(s, name, price, raffleType, now);
      var s', raffleId := r.0, r.1;
      var n := if raffleType == "triple" then 1000 else 100;
      var width := if raffleType == "triple" then 3 else 2;
      && raffleId == |s.raffles| + 1
      && s'.raffles == s.raffles + [Raffle(name, n, price, 24, Active, now)]
      && |s'.tickets| == |s.tickets| + n
      && s'.tickets[..|s.tickets|] == s.tickets
      && s'.users == s.users && s'.payments == s.payments && s'.nextPaymentId == s.nextPaymentId
      && (forall i :: |s.tickets| <= i < |s'.tickets| ==>
            && s'.tickets[i].raffleId == raffleId
            && s'.tickets[i].status == Available
            && s'.tickets[i].userId.None? && s'.tickets[i].reservedAt.None?
            && s'.tickets[i].number == FormatPadded(i - |s.tickets|, width)
            && |s'.tickets[i].number| == width)
      && (forall i, j :: |s.tickets| <= i < j < |s'.tickets| ==>
            LexLess(s'.tickets[i].number, s'.tickets[j].number))
  {
    var r := CreateRaffle(s, name, price, raffleType, now);
    var s', raffleId := r.0, r.1;
    var n := TicketCount(raffleType);
    var width := NumberWidth(raffleType);
    var base := |s.tickets|;
    assert Pow10(width) == n by {
      assert Pow10(2) == 100;
      assert Pow10(3) == 1000;
    }
    forall i | base <= i < |s'.tickets|
      ensures |s'.tickets[i].number| == width
    {
      if i - base + 1 < n {
        PaddedAscending(i - base, i - base + 1, width);
      } else {
        PaddedAscending(0, i - base, width);
      }
    }
    forall i, j | base <= i < j < |s'.tickets|
      ensures LexLess(s'.tickets[i].number, s'.tickets[j].number)
    {
      PaddedAscending(i - base, j - base, width);
    }
  }

  lemma CreateRafflePreservesWf(s: State, name: string, price: real, raffleType: string, now: int)
    requires Wf(s)
    ensures Wf(CreateRaffle(s, name, price, raffleType, now).0)
  {
    var r := CreateRaffle(s, name, price, raffleType, now);
    var s', raffleId := r.0, r.1;
    var base := |s.tickets|;
    CreateRaffleGeneratesTickets(s, name, price, raffleType, now);
    forall i | 0 <= i < |s'.tickets|
      ensures TicketWf(s', i)
    {
      if i < base {
        assert s'.tickets[i] == s.tickets[i];
        assert TicketWf(s, i);
      } else {
        PaymentsOfEmpty(s.payments, i + 1);
      }
    }
    forall i, j | 0 <= i < j < |s'.tickets|
      ensures s'.tickets[i].raffleId == s'.tickets[j].raffleId ==> s'.tickets[i].number != s'.tickets[j].number
    {
      if j < base {
        assert s'.tickets[i] == s.tickets[i] && s'.tickets[j] == s.tickets[j];
      } else if i < base {
        assert s'.tickets[i] == s.tickets[i];
        assert TicketWf(s, i);
        assert s'.tickets[i].raffleId < s'.tickets[j].raffleId;
      } else {
        LexLessIrreflexive(s'.tickets[i].number);
      }
    }
  }

  // ---------------------------------------------------------------------
  // PostBook

  /** Booking succeeds exactly when the raffle has an available ticket with
      that number, and then it names such a ticket; a failed booking
      changes nothing. */
  lemma BookSucceedsIffAvailable(s: State, raffleId: int, number: string, name: string, phone: string,
                                 amount: real, paymentMethod: string, reference: string, now: int)
    ensures var r := Book(s, raffleId, number, name, phone, amount, paymentMethod, reference, now);
      && (r.1.Booked? <==> exists i :: 0 <= i < |s.tickets| && Bookable(s.tickets[i], raffleId, number))
      && (r.1.Booked? ==> 1 <= r.1.ticketId <= |s.tickets| && Bookable(s.tickets[r.1.ticketId - 1], raffleId, number))
      && (r.1.Unavailable? ==> r.0 == s)
  {
    var r := Book(s, raffleId, number, name, phone, amount, paymentMethod, reference, now);
    if r.1.Booked? {
      assert Bookable(s.tickets[r.1.ticketId - 1], raffleId, number);
    }
  }

  /** A successful booking creates one user, reserves the booked ticket for
      it at the booking time, appends one unverified payment for the given
      amount (the ticket's only one), marks nothing paid, and leaves every
      other ticket and every other ticket's sum as it was. */
  lemma BookReserves(s: State, raffleId: int, number: string, name: string, phone: string,
                     amount: real, paymentMethod: string, reference: string, now: int)
    requires Wf(s)
    requires Book(s, raffleId, number, name, phone, amount, paymentMethod, reference, now).1.Booked?
    ensures var r := Book(s, raffleId, number, name, phone, amount, paymentMethod, reference, now);
      var s', id := r.0, r.1.ticketId;
      && 1 <= id <= |s.tickets| && |s'.tickets| == |s.tickets|
      && s'.tickets[id - 1] == Ticket(raffleId, number, Some(|s.users| + 1), Reserved, Some(now))
      && (forall j :: 0 <= j < |s.tickets| && j != id - 1 ==> s'.tickets[j] == s.tickets[j])
      && s'.users == s.users + [User(None, name, phone)]
      && s'.payments == s.payments + [Payment(s.nextPaymentId, id, amount, paymentMethod, reference, now, false)]
      && PaymentsOf(s'.payments, id) == [Payment(s.nextPaymentId, id, amount, paymentMethod, reference, now, false)]
      && PaidFor(s'.payments, id) == amount
      && (forall j :: j != id ==> PaidFor(s'.payments, j) == PaidFor(s.payments, j))
      && s'.raffles == s.raffles
      && (forall j :: 0 <= j < |s'.tickets| && s'.tickets[j].status == Paid ==> s.tickets[j].status == Paid)
  {
    var r := Book(s, raffleId, number, name, phone, amount, paymentMethod, reference, now);
    var id := r.1.ticketId;
    var p := Payment(s.nextPaymentId, id, amount, paymentMethod, reference, now, false);
    assert TicketWf(s, id - 1);
    PaymentsOfAppend(s.payments, p, id);
    PaidForAppend(s.payments, p, id);
    assert PaymentsOf(r.0.payments, id) == [p];
    forall j | j != id
      ensures PaidFor(r.0.payments, j) == PaidFor(s.payments, j)
    {
      PaidForAppend(s.payments, p, j);
    }
  }

  lemma BookPreservesWf(s: State, raffleId: int, number: string, name: string, phone: string,
                        amount: real, paymentMethod: string, reference: string, now: int)
    requires Wf(s)
    ensures Wf(Book(s, raffleId, number, name, phone, amount, paymentMethod, reference, now).0)
  {
    var r := Book(s, raffleId, number, name, phone, amount, paymentMethod, reference, now);
    if r.1.Booked? {
      var s', id := r.0, r.1.ticketId;
      var p := Payment(s.nextPaymentId, id, amount, paymentMethod, reference, now, false);
      BookReserves(s, raffleId, number, name, phone, amount, paymentMethod, reference, now);
      forall other | 1 <= other <= |s.tickets| && other != id
        ensures PaymentsOf(s'.payments, other) == PaymentsOf(s.payments, other)
      {
        PaymentsOfAppend(s.payments, p, other);
        assert PaymentsOf(s.payments, other) + [] == PaymentsOf(s.payments, other);
      }
      assert TicketWf(s, id - 1);
      assert TicketWf(s', id - 1);
      WfAfterTicketUpdate(s, s', id - 1);
    }
  }

  /** Of two bookings of the same raffle number, one after the other, the
      second always fails and leaves the ledger as the first left it: one
      number is sold at most once until it is released. */
  lemma SecondBookFails(s: State, raffleId: int, number: string,
                        name: string, phone: string, amount: real, paymentMethod: string, reference: string, now: int,
                        name2: string, phone2: string, amount2: real, paymentMethod2: string, reference2: string, now2: int)
    requires Wf(s)
    requires Book(s, raffleId, number, name, phone, amount, paymentMethod, reference, now).1.Booked?
    ensures var s1 := Book(s, raffleId, number, name, phone, amount, paymentMethod, reference, now).0;
      Book(s1, raffleId, number, name2, phone2, amount2, paymentMethod2, reference2, now2) == (s1, Unavailable)
  {
    var r := Book(s, raffleId, number, name, phone, amount, paymentMethod, reference, now);
    var s1 := r.0;
    var k := r.1.ticketId - 1;
    BookSucceedsIffAvailable(s, raffleId, number, name, phone, amount, paymentMethod, reference, now);
    forall j | 0 <= j < |s1.tickets| && j != k
      ensures !Bookable(s1.tickets[j], raffleId, number)
    {
      assert s1.tickets[j] == s.tickets[j];
      if j < k {
        assert s.tickets[j].raffleId == s.tickets[k].raffleId ==> s.tickets[j].number != s.tickets[k].number;
      } else {
        assert s.tickets[k].raffleId == s.tickets[j].raffleId ==> s.tickets[k].number != s.tickets[j].number;
      }
    }
    BookSucceedsIffAvailable(s1, raffleId, number, name2, phone2, amount2, paymentMethod2, reference2, now2);
  }

  /** The booking records the customer's payment but never settles: even a
      payment of the full price leaves the ticket reserved. So "reserved
      implies collected < price" is not an invariant of the ledger. */
  lemma BookLeavesFullPaymentReserved(s: State, raffleId: int, number: string, name: string, phone: string,
                                      amount: real, paymentMethod: string, reference: string, now: int)
    requires Wf(s)
    requires Book(s, raffleId, number, name, phone, amount, paymentMethod, reference, now).1.Booked?
    requires amount >= PriceOf(s, raffleId)
    ensures var r := Book(s, raffleId, number, name, phone, amount, paymentMethod, reference, now);
      var id := r.1.ticketId;
      && 1 <= id <= |r.0.tickets|
      && r.0.tickets[id - 1].status == Reserved
      && PaidFor(r.0.payments, id) >= PriceOf(r.0, r.0.tickets[id - 1].raffleId)
  {
    BookReserves(s, raffleId, number, name, phone, amount, paymentMethod, reference, now);
  }

  // ---------------------------------------------------------------------
  // AdminAddPayment

  /** Recording a payment appends exactly one verified payment, which adds
      its amount to this ticket's sum and to no other. */
  lemma AddPaymentRecords(s: State, ticketId: int, amount: real, paymentMethod: string, reference: string,
                          name: string, phone: string, now: int)
    requires 1 <= ticketId <= |s.tickets|
    ensures var s' := AddPayment(s, ticketId, amount, paymentMethod, reference, name, phone, now);
      && s'.payments == s.payments + [Payment(s.nextPaymentId, ticketId, amount, paymentMethod, reference, now, true)]
      && s'.nextPaymentId == s.nextPaymentId + 1
      && PaidFor(s'.payments, ticketId) == PaidFor(s.payments, ticketId) + amount
      && (forall j :: j != ticketId ==> PaidFor(s'.payments, j) == PaidFor(s.payments, j))
  {
    var s' := AddPayment(s, ticketId, amount, paymentMethod, reference, name, phone, now);
    var p := Payment(s.nextPaymentId, ticketId, amount, paymentMethod, reference, now, true);
    forall j
      ensures PaidFor(s'.payments, j) == PaidFor(s.payments, j) + (if j == ticketId then amount else 0.0)
    {
      PaidForAppend(s.payments, p, j);
    }
  }

  /** The ticket side of recording a payment: an available ticket first
      gets exactly one new user (name, phone) and is reserved at `now`; a
      ticket that is not available keeps its user and its reservation
      time, so a later payment does not restart the hold. The ticket ends up paid
      exactly when its payments now reach the price, otherwise it keeps the
      status of the first step, so a paid ticket is never downgraded and
      the ticket is never left available. Every other ticket is unchanged. */
  lemma AddPaymentSettles(s: State, ticketId: int, amount: real, paymentMethod: string, reference: string,
                          name: string, phone: string, now: int)
    requires Wf(s) && 1 <= ticketId <= |s.tickets|
    ensures var s' := AddPayment(s, ticketId, amount, paymentMethod, reference, name, phone, now);
      var t, t' := s.tickets[ticketId - 1], s'.tickets[ticketId - 1];
      && s'.users == (if t.status == Available then s.users + [User(None, name, phone)] else s.users)
      && t'.userId == (if t.status == Available then Some(|s.users| + 1) else t.userId)
      && t'.reservedAt == (if t.status == Available then Some(now) else t.reservedAt)
      && t'.userId.Some? && t'.reservedAt.Some?
      && t'.status == (if PaidFor(s'.payments, ticketId) >= PriceOf(s, t.raffleId) then Paid
                       else if t.status == Available then Reserved else t.status)
      && (t.status == Paid ==> t'.status == Paid)
      && t'.status != Available
      && t'.raffleId == t.raffleId && t'.number == t.number
      && |s'.tickets| == |s.tickets|
      && (forall j :: 0 <= j < |s.tickets| && j != ticketId - 1 ==> s'.tickets[j] == s.tickets[j])
      && s'.raffles == s.raffles
  {
    assert TicketWf(s, ticketId - 1);
  }

  lemma AddPaymentPreservesWf(s: State, ticketId: int, amount: real, paymentMethod: string, reference: string,
                              name: string, phone: string, now: int)
    requires Wf(s) && 1 <= ticketId <= |s.tickets|
    ensures Wf(AddPayment(s, ticketId, amount, paymentMethod, reference, name, phone, now))
  {
    var s' := AddPayment(s, ticketId, amount, paymentMethod, reference, name, phone, now);
    var p := Payment(s.nextPaymentId, ticketId, amount, paymentMethod, reference, now, true);
    var k := ticketId - 1;
    AddPaymentSettles(s, ticketId, amount, paymentMethod, reference, name, phone, now);
    assert s'.payments == s.payments + [p];
    assert TicketWf(s, k);
    PaymentsOfAppend(s.payments, p, ticketId);
    assert TicketWf(s', k);
    forall other | 1 <= other <= |s.tickets| && other != ticketId
      ensures PaymentsOf(s'.payments, other) == PaymentsOf(s.payments, other)
    {
      PaymentsOfAppend(s.payments, p, other);
      assert PaymentsOf(s.payments, other) + [] == PaymentsOf(s.payments, other);
    }
    WfAfterTicketUpdate(s, s', k);
  }

  /** Two partial payments on an unpaid ticket, neither enough alone but
      together reaching the price: after the first the ticket is only
      reserved, after the second it is paid. */
  lemma PaymentsSettleWhenSumReachesPrice(s: State, ticketId: int,
                                          a1: real, m1: string, r1: string,
                                          a2: real, m2: string, r2: string,
                                          name: string, phone: string, now: int)
    requires Wf(s) && 1 <= ticketId <= |s.tickets|
    requires s.tickets[ticketId - 1].status != Paid
    requires PaidFor(s.payments, ticketId) + a1 < PriceOf(s, s.tickets[ticketId - 1].raffleId)
    requires PaidFor(s.payments, ticketId) + a1 + a2 >= PriceOf(s, s.tickets[ticketId - 1].raffleId)
    ensures var s1 := AddPayment(s, ticketId, a1, m1, r1, name, phone, now);
      && s1.tickets[ticketId - 1].status == Reserved
      && AddPayment(s1, ticketId, a2, m2, r2, name, phone, now).tickets[ticketId - 1].status == Paid
  {
    var s1 := AddPayment(s, ticketId, a1, m1, r1, name, phone, now);
    AddPaymentRecords(s, ticketId, a1, m1, r1, name, phone, now);
    AddPaymentSettles(s, ticketId, a1, m1, r1, name, phone, now);
    AddPaymentPreservesWf(s, ticketId, a1, m1, r1, name, phone, now);
    AddPaymentRecords(s1, ticketId, a2, m2, r2, name, phone, now);
    AddPaymentSettles(s1, ticketId, a2, m2, r2, name, phone, now);
  }

  // ---------------------------------------------------------------------
  // AdminReleaseTicket

  /** Release deletes all and only the payments of the ticket: its sum
      drops to zero and every other ticket's sum is unchanged. */
  lemma ReleaseDeletesPayments(s: State, ticketId: int)
    ensures var s' := Release(s, ticketId);
      && (forall p :: p in s'.payments <==> p in s.payments && p.ticketId != ticketId)
      && PaymentsOf(s'.payments, ticketId) == []
      && PaidFor(s'.payments, ticketId) == 0.0
      && (forall j :: j != ticketId ==> PaidFor(s'.payments, j) == PaidFor(s.payments, j))
  {
    var s' := Release(s, ticketId);
    WithoutTicketMembers(s.payments, ticketId);
    PaymentsOfWithout(s.payments, ticketId, ticketId);
    forall j | j != ticketId
      ensures PaidFor(s'.payments, j) == PaidFor(s.payments, j)
    {
      PaymentsOfWithout(s.payments, ticketId, j);
    }
  }

  /** Release resets the ticket to available with no user and no
      reservation time; every other ticket, every user and every raffle is
      unchanged, and an id with no ticket leaves the ledger as it was. */
  lemma ReleaseResetsTicket(s: State, ticketId: int)
    requires Wf(s)
    ensures var s' := Release(s, ticketId);
      && |s'.tickets| == |s.tickets|
      && (1 <= ticketId <= |s.tickets| ==>
            s'.tickets[ticketId - 1] == Ticket(s.tickets[ticketId - 1].raffleId, s.tickets[ticketId - 1].number, None, Available, None))
      && (forall j :: 0 <= j < |s.tickets| && j != ticketId - 1 ==> s'.tickets[j] == s.tickets[j])
      && s'.users == s.users && s'.raffles == s.raffles && s'.nextPaymentId == s.nextPaymentId
      && (!(1 <= ticketId <= |s.tickets|) ==> s' == s)
  {
    if !(1 <= ticketId <= |s.tickets|) {
      PaymentsOfEmpty(s.payments, ticketId);
      WithoutTicketNoPayments(s.payments, ticketId);
    }
  }

  /** Releasing twice leaves the ledger exactly as releasing once. */
  lemma ReleaseIdempotent(s: State, ticketId: int)
    ensures Release(Release(s, ticketId), ticketId) == Release(s, ticketId)
  {
    WithoutTicketIdempotent(s.payments, ticketId);
  }

  lemma ReleasePreservesWf(s: State, ticketId: int)
    requires Wf(s)
    ensures Wf(Release(s, ticketId))
  {
    var s' := Release(s, ticketId);
    ReleaseResetsTicket(s, ticketId);
    if 1 <= ticketId <= |s.tickets| {
      var k := ticketId - 1;
      WithoutTicketMembers(s.payments, ticketId);
      PaymentsOfWithout(s.payments, ticketId, ticketId);
      assert s'.payments == WithoutTicket(s.payments, ticketId);
      assert TicketWf(s, k);
      assert PaymentsOf(s'.payments, ticketId) == [];
      assert TicketWf(s', k);
      forall p | p in s'.payments
        ensures 1 <= p.ticketId <= |s'.tickets| && p.id < s'.nextPaymentId
      {
      }
      forall other | 1 <= other <= |s.tickets| && other != ticketId
        ensures PaymentsOf(s'.payments, other) == PaymentsOf(s.payments, other)
      {
        PaymentsOfWithout(s.payments, ticketId, other);
      }
      WfAfterTicketUpdate(s, s', k);
    }
  }

  // ---------------------------------------------------------------------
  // Settlement soundness: a paid ticket has collected its price

  lemma CreateRaffleKeepsSettled(s: State, name: string, price: real, raffleType: string, now: int)
    requires Wf(s) && Settled(s)
    ensures Settled(CreateRaffle(s, name, price, raffleType, now).0)
  {
    var s' := CreateRaffle(s, name, price, raffleType, now).0;
    forall i | 0 <= i < |s'.tickets| && s'.tickets[i].status == Paid
      ensures PaidFor(s'.payments, i + 1) >= PriceOf(s', s'.tickets[i].raffleId)
    {
      assert i < |s.tickets|;
      assert TicketWf(s, i);
      assert s'.tickets[i] == s.tickets[i];
    }
  }

  lemma BookKeepsSettled(s: State, raffleId: int, number: string, name: string, phone: string,
                         amount: real, paymentMethod: string, reference: string, now: int)
    requires Wf(s) && Settled(s)
    ensures Settled(Book(s, raffleId, number, name, phone, amount, paymentMethod, reference, now).0)
  {
    var r := Book(s, raffleId, number, name, phone, amount, paymentMethod, reference, now);
    if r.1.Booked? {
      BookReserves(s, raffleId, number, name, phone, amount, paymentMethod, reference, now);
      var s' := r.0;
      forall i | 0 <= i < |s'.tickets| && s'.tickets[i].status == Paid
        ensures PaidFor(s'.payments, i + 1) >= PriceOf(s', s'.tickets[i].raffleId)
      {
        assert s'.tickets[i] == s.tickets[i];
      }
    }
  }

  /** With non-negative amounts, recording a payment keeps every paid
      ticket covered by its payments. */
  lemma AddPaymentKeepsSettled(s: State, ticketId: int, amount: real, paymentMethod: string, reference: string,
                               name: string, phone: string, now: int)
    requires Wf(s) && Settled(s) && 1 <= ticketId <= |s.tickets|
    requires amount >= 0.0
    ensures Settled(AddPayment(s, ticketId, amount, paymentMethod, reference, name, phone, now))
  {
    var s' := AddPayment(s, ticketId, amount, paymentMethod, reference, name, phone, now);
    AddPaymentRecords(s, ticketId, amount, paymentMethod, reference, name, phone, now);
    AddPaymentSettles(s, ticketId, amount, paymentMethod, reference, name, phone, now);
    var k := ticketId - 1;
    assert s'.raffles == s.raffles;
    if s'.tickets[k].status == Paid && s.tickets[k].status == Paid {
      assert PaidFor(s.payments, ticketId) >= PriceOf(s, s.tickets[k].raffleId);
    }
    SettledOutsideRow(s, s', k);
  }

  /** Settlement is a per-row property: if only row `k` and its payments
      changed, and row `k` is settled afterwards, the whole ledger is. */
  lemma SettledOutsideRow(s: State, s': State, k: int)
    requires Settled(s) && 0 <= k < |s.tickets| == |s'.tickets| && s'.raffles == s.raffles
    requires forall j :: 0 <= j < |s.tickets| && j != k ==> s'.tickets[j] == s.tickets[j]
    requires forall j :: j != k + 1 ==> PaidFor(s'.payments, j) == PaidFor(s.payments, j)
    requires s'.tickets[k].status == Paid ==> PaidFor(s'.payments, k + 1) >= PriceOf(s', s'.tickets[k].raffleId)
    ensures Settled(s')
  {
    forall i | 0 <= i < |s'.tickets| && s'.tickets[i].status == Paid
      ensures PaidFor(s'.payments, i + 1) >= PriceOf(s', s'.tickets[i].raffleId)
    {
      if i != k {
        assert s'.tickets[i] == s.tickets[i];
      }
    }
  }

  lemma ReleaseKeepsSettled(s: State, ticketId: int)
    requires Wf(s) && Settled(s)
    ensures Settled(Release(s, ticketId))
  {
    var s' := Release(s, ticketId);
    ReleaseDeletesPayments(s, ticketId);
    ReleaseResetsTicket(s, ticketId);
    forall i | 0 <= i < |s'.tickets| && s'.tickets[i].status == Paid
      ensures PaidFor(s'.payments, i + 1) >= PriceOf(s', s'.tickets[i].raffleId)
    {
      assert s'.tickets[i] == s.tickets[i];
    }
  }
}
