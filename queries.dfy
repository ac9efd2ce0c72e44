/** The read-only queries of the handlers: the public ticket grid
    (`getTickets`), the administrator's user search (`AdminSearchUsers`)
    and the dashboard (`AdminDashboard`) with its aggregation loop. Each
    reads a snapshot of the ledger. */
module LedgerQueries {
  import opened Wrappers
  import opened Text
  import opened Sorting
  import opened Ledger

  // ---------------------------------------------------------------------
  // getTickets

  /** The two columns `getTickets` selects. */
  datatype TicketRow = TicketRow(number: string, status: Status)

  function RowNumber(r: TicketRow): string {
    r.number
  }

  /** `raffle_id = ?`, and `number LIKE '%q%'` when a query is given. */
  predicate Listed(t: Ticket, raffleId: int, query: string) {
    t.raffleId == raffleId && (query == "" || Contains(t.number, query))
  }

  /** The rows the `WHERE` clause keeps, in table order. */
  function Matching(ts: seq<Ticket>, raffleId: int, query: string): seq<TicketRow>
    decreases |ts|
  {
    if ts == [] then []
    else
      var t := ts[|ts| - 1];
      Matching(ts[..|ts| - 1], raffleId, query) + (if Listed(t, raffleId, query) then [TicketRow(t.number, t.status)] else [])
  }

  /** `getTickets(raffleID, query)`: the matching rows, `ORDER BY number ASC`. */
  function GetTickets(ts: seq<Ticket>, raffleId: int, query: string): seq<TicketRow> {
    SortBy(Matching(ts, raffleId, query), RowNumber)
  }

  lemma {:induction false} MatchingMembers(ts: seq<Ticket>, raffleId: int, query: string)
    ensures forall x :: x in Matching(ts, raffleId, query) <==>
      exists i :: 0 <= i < |ts| && Listed(ts[i], raffleId, query) && x == TicketRow(ts[i].number, ts[i].status)
    decreases |ts|
  {
    if ts != [] {
      var init := ts[..|ts| - 1];
      MatchingMembers(init, raffleId, query);
      forall x
        ensures x in Matching(ts, raffleId, query) <==>
          exists i :: 0 <= i < |ts| && Listed(ts[i], raffleId, query) && x == TicketRow(ts[i].number, ts[i].status)
      {
        if x in Matching(init, raffleId, query) {
          var i :| 0 <= i < |init| && Listed(init[i], raffleId, query) && x == TicketRow(init[i].number, init[i].status);
          assert ts[i] == init[i];
        }
        if exists i :: 0 <= i < |ts| && Listed(ts[i], raffleId, query) && x == TicketRow(ts[i].number, ts[i].status) {
          var i :| 0 <= i < |ts| && Listed(ts[i], raffleId, query) && x == TicketRow(ts[i].number, ts[i].status);
          if i < |init| {
            assert init[i] == ts[i];
          }
        }
      }
    }
  }

  /** The grid lists exactly the raffle's tickets whose number contains
      the query (all of them for an empty query), ascending by number. */
  lemma GetTicketsSpec(ts: seq<Ticket>, raffleId: int, query: string)
    ensures var r := GetTickets(ts, raffleId, query);
      && SortedBy(r, RowNumber)
      && (forall x :: x in r <==>
            exists i :: 0 <= i < |ts| && ts[i].raffleId == raffleId
                        && (query == "" || Contains(ts[i].number, query))
                        && x == TicketRow(ts[i].number, ts[i].status))
  {
    var m := Matching(ts, raffleId, query);
    MatchingMembers(ts, raffleId, query);
    forall x
      ensures x in GetTickets(ts, raffleId, query) <==> x in m
    {
      assert x in GetTickets(ts, raffleId, query) <==> x in multiset(GetTickets(ts, raffleId, query));
      assert x in m <==> x in multiset(m);
    }
  }

  /** Within one raffle the matching rows carry pairwise different
      numbers, since no two tickets of a raffle share one. */
  lemma {:induction false} MatchingNumbersApart(ts: seq<Ticket>, raffleId: int, query: string)
    requires NumbersUnique(ts)
    ensures forall k, l :: 0 <= k < l < |Matching(ts, raffleId, query)| ==>
      Matching(ts, raffleId, query)[k].number != Matching(ts, raffleId, query)[l].number
    decreases |ts|
  {
    if ts != [] {
      var init, t := ts[..|ts| - 1], ts[|ts| - 1];
      assert NumbersUnique(init) by {
        forall i, j | 0 <= i < j < |init| && init[i].raffleId == init[j].raffleId
          ensures init[i].number != init[j].number
        {
          assert init[i] == ts[i] && init[j] == ts[j];
        }
      }
      MatchingNumbersApart(init, raffleId, query);
      MatchingMembers(init, raffleId, query);
      var m := Matching(init, raffleId, query);
      forall x | x in m
        ensures x.number != t.number || !Listed(t, raffleId, query)
      {
        var i :| 0 <= i < |init| && Listed(init[i], raffleId, query) && x == TicketRow(init[i].number, init[i].status);
        assert init[i] == ts[i];
      }
    }
  }

  /** With the numbers of a raffle unique (as ticket generation makes
      them), the grid lists each matching ticket once: its numbers
      strictly ascend. */
  lemma GetTicketsOnce(ts: seq<Ticket>, raffleId: int, query: string)
    requires NumbersUnique(ts)
    ensures forall k, l :: 0 <= k < l < |GetTickets(ts, raffleId, query)| ==>
      LexLess(GetTickets(ts, raffleId, query)[k].number, GetTickets(ts, raffleId, query)[l].number)
  {
    MatchingNumbersApart(ts, raffleId, query);
    KeysApartPermutation(Matching(ts, raffleId, query), GetTickets(ts, raffleId, query), RowNumber);
  }

  // ---------------------------------------------------------------------
  // AdminSearchUsers

  datatype UserRow = UserRow(id: int, name: string, phone: string)

  /** `name LIKE '%q%' OR phone LIKE '%q%'`. */
  predicate UserMatches(u: User, q: string) {
    Contains(u.name, q) || Contains(u.phone, q)
  }

  /** All matching users in id order. */
  function MatchingUsers(us: seq<User>, q: string): seq<UserRow>
    decreases |us|
  {
    if us == [] then []
    else
      var u := us[|us| - 1];
      MatchingUsers(us[..|us| - 1], q) + (if UserMatches(u, q) then [UserRow(|us|, u.name, u.phone)] else [])
  }

  /** `AdminSearchUsers`: nothing for a query shorter than two characters,
      otherwise the first five matching users (`LIMIT 5`, table order). */
  function SearchUsers(us: seq<User>, q: string): seq<UserRow> {
    if |q| < 2 then []
    else
      var m := MatchingUsers(us, q);
      if |m| <= 5 then m else m[..5]
  }

  /** `row` is user `row.id` as the table holds it, and that user matches. */
  predicate UserRowOf(us: seq<User>, row: UserRow, q: string) {
    && 1 <= row.id <= |us|
    && row == UserRow(row.id, us[row.id - 1].name, us[row.id - 1].phone)
    && UserMatches(us[row.id - 1], q)
  }

  lemma {:induction false} MatchingUsersSpec(us: seq<User>, q: string)
    ensures forall k :: 0 <= k < |MatchingUsers(us, q)| ==> UserRowOf(us, MatchingUsers(us, q)[k], q)
    ensures forall k, l :: 0 <= k < l < |MatchingUsers(us, q)| ==> MatchingUsers(us, q)[k].id < MatchingUsers(us, q)[l].id
    ensures forall k :: 0 <= k < |MatchingUsers(us, q)| ==> MatchingUsers(us, q)[k].id <= |us|
    ensures forall i :: 0 <= i < |us| && UserMatches(us[i], q) ==> UserRow(i + 1, us[i].name, us[i].phone) in MatchingUsers(us, q)
    decreases |us|
  {
    if us != [] {
      var init := us[..|us| - 1];
      MatchingUsersSpec(init, q);
      var m0 := MatchingUsers(init, q);
      var m := MatchingUsers(us, q);
      forall k | 0 <= k < |m|
        ensures UserRowOf(us, m[k], q)
      {
        if k < |m0| {
          assert m[k] == m0[k];
          assert UserRowOf(init, m0[k], q);
          assert us[m0[k].id - 1] == init[m0[k].id - 1];
        }
      }
      forall i | 0 <= i < |us| && UserMatches(us[i], q)
        ensures UserRow(i + 1, us[i].name, us[i].phone) in m
      {
        if i < |init| {
          assert init[i] == us[i];
        }
      }
    }
  }

  /** The search returns nothing for a query of fewer than two
      characters, otherwise at most five rows; each row is an existing
      user whose name or phone contains the query, in ascending id order. */
  lemma SearchUsersSound(us: seq<User>, q: string)
    ensures |q| < 2 ==> SearchUsers(us, q) == []
    ensures |SearchUsers(us, q)| <= 5
    ensures forall k :: 0 <= k < |SearchUsers(us, q)| ==> UserRowOf(us, SearchUsers(us, q)[k], q)
    ensures forall k, l :: 0 <= k < l < |SearchUsers(us, q)| ==> SearchUsers(us, q)[k].id < SearchUsers(us, q)[l].id
  {
    MatchingUsersSpec(us, q);
  }

  /** No matching user is left out in favour of a later one: a matching
      user is either in the result, or five rows were returned, all of
      users with smaller ids. In particular, when fewer than five users
      match, all of them are returned. */
  lemma SearchUsersFirstMatches(us: seq<User>, q: string, i: int)
    requires |q| >= 2 && 0 <= i < |us| && UserMatches(us[i], q)
    ensures || UserRow(i + 1, us[i].name, us[i].phone) in SearchUsers(us, q)
            || (|SearchUsers(us, q)| == 5 && forall k :: 0 <= k < 5 ==> SearchUsers(us, q)[k].id < i + 1)
  {
    var r := SearchUsers(us, q);
    var m := MatchingUsers(us, q);
    MatchingUsersSpec(us, q);
    var row := UserRow(i + 1, us[i].name, us[i].phone);
    var j :| 0 <= j < |m| && m[j] == row;
    if |m| <= 5 {
      assert r == m;
    } else if j < 5 {
      assert r[j] == row;
    } else {
      forall k | 0 <= k < 5
        ensures r[k].id < i + 1
      {
        assert r[k] == m[k];
      }
    }
  }

  // ---------------------------------------------------------------------
  // AdminDashboard

  datatype RaffleOption = RaffleOption(id: int, name: string)

  /** `SELECT id, name FROM raffles WHERE status = 'active'`, table order. */
  function ActiveRaffles(rs: seq<Raffle>): seq<RaffleOption>
    decreases |rs|
  {
    if rs == [] then []
    else
      var r := rs[|rs| - 1];
      ActiveRaffles(rs[..|rs| - 1]) + (if r.status == Active then [RaffleOption(|rs|, r.name)] else [])
  }

  /** `o` names active raffle `o.id`. */
  predicate ActiveOption(rs: seq<Raffle>, o: RaffleOption) {
    1 <= o.id <= |rs| && rs[o.id - 1].status == Active && o.name == rs[o.id - 1].name
  }

  /** The raffle selector lists exactly the active raffles, in ascending
      id order; so the one picked by default is the active raffle with the
      smallest id. */
  lemma {:induction false} ActiveRafflesSpec(rs: seq<Raffle>)
    ensures forall k :: 0 <= k < |ActiveRaffles(rs)| ==> ActiveOption(rs, ActiveRaffles(rs)[k])
    ensures forall k, l :: 0 <= k < l < |ActiveRaffles(rs)| ==> ActiveRaffles(rs)[k].id < ActiveRaffles(rs)[l].id
    ensures forall k :: 0 <= k < |ActiveRaffles(rs)| ==> ActiveRaffles(rs)[k].id <= |rs|
    ensures forall i :: 0 <= i < |rs| && rs[i].status == Active ==> RaffleOption(i + 1, rs[i].name) in ActiveRaffles(rs)
    decreases |rs|
  {
    if rs != [] {
      var init := rs[..|rs| - 1];
      ActiveRafflesSpec(init);
      var a0 := ActiveRaffles(init);
      var a := ActiveRaffles(rs);
      forall k | 0 <= k < |a|
        ensures ActiveOption(rs, a[k])
      {
        if k < |a0| {
          assert a[k] == a0[k];
          assert ActiveOption(init, a0[k]);
          assert rs[a0[k].id - 1] == init[a0[k].id - 1];
        }
      }
      forall i | 0 <= i < |rs| && rs[i].status == Active
        ensures RaffleOption(i + 1, rs[i].name) in a
      {
        if i < |init| {
          assert init[i] == rs[i];
        }
      }
    }
  }

  /** One row of the dashboard query, before the loop computes the
      remaining amount. */
  datatype QueryRow = QueryRow(
    ticketId: int,
    number: string,
    status: Status,
    userName: string,
    userPhone: string,
    paid: real,
    price: real,
    raffleName: string)

  /** One ticket as the dashboard shows it. */
  datatype DashboardRow = DashboardRow(
    ticketId: int,
    number: string,
    status: Status,
    userName: string,
    userPhone: string,
    totalPaid: real,
    remaining: real)

  datatype DashboardData = DashboardData(
    raffleName: string,
    activeRaffles: seq<RaffleOption>,
    selectedRaffleId: int,
    totalCollected: real,
    pendingAmount: real,
    soldCount: int,
    totalTickets: int,
    tickets: seq<DashboardRow>)

  const NoRaffleSelected := "Sin Sorteo Seleccionado"

  function QueryNumber(q: QueryRow): string {
    q.number
  }

  /** The user joined to a ticket (`LEFT JOIN users`), if the row exists. */
  function OwnerOf(s: State, t: Ticket): Option<User> {
    if t.userId.Some? && 1 <= t.userId.value <= |s.users| then Some(s.users[t.userId.value - 1]) else None
  }

  /** The query row of ticket `i` of raffle `raffleId`:
      `COALESCE(u.name, 'Anon')`, `COALESCE(u.phone, '')`, the sum of the
      ticket's payments, the raffle's price and name. */
  function RowAt(s: State, raffleId: int, i: int): QueryRow
    requires 1 <= raffleId <= |s.raffles| && 0 <= i < |s.tickets|
  {
    var t := s.tickets[i];
    var owner := OwnerOf(s, t);
    var r := s.raffles[raffleId - 1];
    QueryRow(i + 1, t.number, t.status,
             if owner.Some? then owner.value.name else "Anon",
             if owner.Some? then owner.value.phone else "",
             PaidFor(s.payments, i + 1), r.ticketPrice, r.name)
  }

  function QueryRows(s: State, raffleId: int, n: nat): seq<QueryRow>
    requires 1 <= raffleId <= |s.raffles| && n <= |s.tickets|
  {
    if n == 0 then []
    else QueryRows(s, raffleId, n - 1) + (if s.tickets[n - 1].raffleId == raffleId then [RowAt(s, raffleId, n - 1)] else [])
  }

  /** The dashboard query: the tickets of raffle `raffleId` joined with
      their user and raffle (no rows when the raffle does not exist),
      `ORDER BY t.number ASC`. */
  function TicketQuery(s: State, raffleId: int): seq<QueryRow> {
    if 1 <= raffleId <= |s.raffles| then SortBy(QueryRows(s, raffleId, |s.tickets|), QueryNumber) else []
  }

  /** `q` is the row of some ticket of raffle `raffleId`. */
  predicate RowOfRaffle(s: State, raffleId: int, q: QueryRow) {
    && 1 <= raffleId <= |s.raffles|
    && 1 <= q.ticketId <= |s.tickets|
    && s.tickets[q.ticketId - 1].raffleId == raffleId
    && q == RowAt(s, raffleId, q.ticketId - 1)
  }

  lemma {:induction false} QueryRowsMembers(s: State, raffleId: int, n: nat)
    requires 1 <= raffleId <= |s.raffles| && n <= |s.tickets|
    ensures forall q :: q in QueryRows(s, raffleId, n) <==> RowOfRaffle(s, raffleId, q) && q.ticketId <= n
  {
    if n > 0 {
      QueryRowsMembers(s, raffleId, n - 1);
    }
  }

  /** Table order: the query rows come in ascending ticket id. */
  lemma {:induction false} QueryRowsAscending(s: State, raffleId: int, n: nat)
    requires 1 <= raffleId <= |s.raffles| && n <= |s.tickets|
    ensures forall k, l :: 0 <= k < l < |QueryRows(s, raffleId, n)| ==>
      QueryRows(s, raffleId, n)[k].ticketId < QueryRows(s, raffleId, n)[l].ticketId
    ensures forall k :: 0 <= k < |QueryRows(s, raffleId, n)| ==> QueryRows(s, raffleId, n)[k].ticketId <= n
  {
    if n > 0 {
      QueryRowsAscending(s, raffleId, n - 1);
    }
  }

  /** The dashboard lists, in ascending number order, one row for each
      ticket of the selected raffle and nothing else (nothing at all when
      the raffle does not exist): the ticket's id, number and status, its
      owner's name and phone (or 'Anon' and '' when it has none), the sum
      of its payments, and the raffle's price and name. No ticket is
      listed twice. */
  lemma TicketQueryMembers(s: State, raffleId: int)
    ensures SortedBy(TicketQuery(s, raffleId), QueryNumber)
    ensures forall q :: q in TicketQuery(s, raffleId) <==> RowOfRaffle(s, raffleId, q)
    ensures forall k, l :: 0 <= k < l < |TicketQuery(s, raffleId)| ==>
      TicketQuery(s, raffleId)[k].ticketId != TicketQuery(s, raffleId)[l].ticketId
  {
    if 1 <= raffleId <= |s.raffles| {
      var m := QueryRows(s, raffleId, |s.tickets|);
      QueryRowsMembers(s, raffleId, |s.tickets|);
      forall q
        ensures q in TicketQuery(s, raffleId) <==> q in m
      {
        assert q in TicketQuery(s, raffleId) <==> q in multiset(TicketQuery(s, raffleId));
        assert q in m <==> q in multiset(m);
      }
      TicketQueryOnce(s, raffleId);
    }
  }

  lemma TicketQueryOnce(s: State, raffleId: int)
    requires 1 <= raffleId <= |s.raffles|
    ensures forall k, l :: 0 <= k < l < |TicketQuery(s, raffleId)| ==>
      TicketQuery(s, raffleId)[k].ticketId != TicketQuery(s, raffleId)[l].ticketId
  {
    QueryRowsAscending(s, raffleId, |s.tickets|);
    QueryRowsMembers(s, raffleId, |s.tickets|);
    ReorderedRowsOnce(s, raffleId, QueryRows(s, raffleId, |s.tickets|), TicketQuery(s, raffleId));
  }

  /** Rows of a raffle with ascending ticket ids, in any order, list no
      ticket twice. */
  lemma ReorderedRowsOnce(s: State, raffleId: int, m: seq<QueryRow>, r: seq<QueryRow>)
    requires multiset(r) == multiset(m)
    requires forall k, l :: 0 <= k < l < |m| ==> m[k].ticketId < m[l].ticketId
    requires forall q :: q in m ==> RowOfRaffle(s, raffleId, q)
    ensures forall k, l :: 0 <= k < l < |r| ==> r[k].ticketId != r[l].ticketId
  {
    DistinctPermutation(m, r);
    forall k, l | 0 <= k < l < |r|
      ensures r[k].ticketId != r[l].ticketId
    {
      assert r[k] in multiset(m) && r[l] in multiset(m);
      assert r[k] in m && r[l] in m;
      assert r[k] == RowAt(s, raffleId, r[k].ticketId - 1);
      assert r[l] == RowAt(s, raffleId, r[l].ticketId - 1);
    }
  }

  /** Every dashboard row carries the ticket's payment total and the
      raffle's price and name. */
  lemma TicketQueryColumns(s: State, raffleId: int)
    ensures forall q :: q in TicketQuery(s, raffleId) ==>
      && 1 <= q.ticketId <= |s.tickets|
      && q.paid == PaidFor(s.payments, q.ticketId)
      && q.price == PriceOf(s, raffleId)
      && q.raffleName == s.raffles[raffleId - 1].name
  {
    TicketQueryMembers(s, raffleId);
  }

  // The three aggregates of the dashboard loop, over the rows seen so far.

  function SoldCount(qs: seq<QueryRow>): nat
    decreases |qs|
  {
    if qs == [] then 0
    else SoldCount(qs[..|qs| - 1]) + (if qs[|qs| - 1].status != Available then 1 else 0)
  }

  function Collected(qs: seq<QueryRow>): real
    decreases |qs|
  {
    if qs == [] then 0.0
    else Collected(qs[..|qs| - 1]) + (if qs[|qs| - 1].status != Available then qs[|qs| - 1].paid else 0.0)
  }

  function Pending(qs: seq<QueryRow>): real
    decreases |qs|
  {
    if qs == [] then 0.0
    else
      var q := qs[|qs| - 1];
      Pending(qs[..|qs| - 1]) + (if q.status != Available then q.price - q.paid else 0.0)
  }

  function ToDashboardRow(q: QueryRow): DashboardRow {
    DashboardRow(q.ticketId, q.number, q.status, q.userName, q.userPhone, q.paid, q.price - q.paid)
  }

  /** The rows the dashboard reads for the selected raffle id. */
  function Listing(s: State, selected: int): seq<QueryRow> {
    if selected > 0 then TicketQuery(s, selected) else []
  }

  /** `AdminDashboard`: picks the first active raffle when none is
      requested, then runs the ticket query and accumulates the totals
      row by row. `requested` is what `strconv.ParseInt` returned for the
      `raffle_id` parameter (0 when it is missing or malformed). */
  method AdminDashboard(s: State, requested: int) returns (d: DashboardData)
    ensures d.activeRaffles == ActiveRaffles(s.raffles)
    ensures d.selectedRaffleId == if requested == 0 && |d.activeRaffles| > 0 then d.activeRaffles[0].id else requested
    ensures |d.tickets| == d.totalTickets == |Listing(s, d.selectedRaffleId)|
    ensures forall k :: 0 <= k < |d.tickets| ==> d.tickets[k] == ToDashboardRow(Listing(s, d.selectedRaffleId)[k])
    ensures d.soldCount == SoldCount(Listing(s, d.selectedRaffleId))
    ensures d.totalCollected == Collected(Listing(s, d.selectedRaffleId))
    ensures d.pendingAmount == Pending(Listing(s, d.selectedRaffleId))
    ensures d.raffleName == if d.tickets == [] then NoRaffleSelected
                            else Listing(s, d.selectedRaffleId)[|d.tickets| - 1].raffleName
  {
    var active := ActiveRaffles(s.raffles);
    var selected := requested;
    if selected == 0 && |active| > 0 {
      selected := active[0].id;
    }
    var rows, soldCount, totalCollected, pending, raffleName := Tally(Listing(s, selected));
    d := DashboardData(raffleName, active, selected, totalCollected, pending, soldCount, |rows|, rows);
  }

  /** The loop of `AdminDashboard` over the query's rows: converts each
      row, totals the sold ones, and keeps the raffle name of the last. */
  method Tally(qs: seq<QueryRow>) returns (rows: seq<DashboardRow>, soldCount: nat, totalCollected: real,
                                          pending: real, raffleName: string)
    ensures |rows| == |qs|
    ensures forall k :: 0 <= k < |qs| ==> rows[k] == ToDashboardRow(qs[k])
    ensures soldCount == SoldCount(qs)
    ensures totalCollected == Collected(qs)
    ensures pending == Pending(qs)
    ensures raffleName == if qs == [] then NoRaffleSelected else qs[|qs| - 1].raffleName
  {
    rows := [];
    totalCollected, pending := 0.0, 0.0;
    soldCount := 0;
    raffleName := NoRaffleSelected;
    var i := 0;
    while i < |qs|
      invariant 0 <= i <= |qs|
      invariant |rows| == i
      invariant forall k :: 0 <= k < i ==> rows[k] == ToDashboardRow(qs[k])
      invariant soldCount == SoldCount(qs[..i])
      invariant totalCollected == Collected(qs[..i])
      invariant pending == Pending(qs[..i])
      invariant raffleName == if i == 0 then NoRaffleSelected else qs[i - 1].raffleName
    {
      var row := ToDashboardRow(qs[i]);
      raffleName := qs[i].raffleName;
      AggregatesStep(qs, i);
      if row.status != Available {
        totalCollected := totalCollected + row.totalPaid;
        pending := pending + row.remaining;
        soldCount := soldCount + 1;
      }
      rows := rows + [row];
      i := i + 1;
    }
    assert qs[..i] == qs;
  }

  lemma AggregatesStep(qs: seq<QueryRow>, i: int)
    requires 0 <= i < |qs|
    ensures SoldCount(qs[..i + 1]) == SoldCount(qs[..i]) + (if qs[i].status != Available then 1 else 0)
    ensures Collected(qs[..i + 1]) == Collected(qs[..i]) + (if qs[i].status != Available then qs[i].paid else 0.0)
    ensures Pending(qs[..i + 1]) == Pending(qs[..i]) + (if qs[i].status != Available then qs[i].price - qs[i].paid else 0.0)
  {
    assert qs[..i + 1][..i] == qs[..i];
  }

  // Properties of the aggregates

  lemma {:induction false} AggregatesAppend(a: seq<QueryRow>, b: seq<QueryRow>)
    ensures SoldCount(a + b) == SoldCount(a) + SoldCount(b)
    ensures Collected(a + b) == Collected(a) + Collected(b)
    ensures Pending(a + b) == Pending(a) + Pending(b)
    decreases |b|
  {
    if b == [] {
      assert a + b == a;
    } else {
      var init := b[..|b| - 1];
      AggregatesAppend(a, init);
      assert (a + b)[..|a + b| - 1] == a + init;
    }
  }

  /** The totals depend only on which rows there are, not on their
      order: any reordering of the rows (the `ORDER BY` among them) keeps
      the number sold, the amount collected and the amount pending. */
  lemma {:induction false} AggregatesPermutation(a: seq<QueryRow>, b: seq<QueryRow>)
    requires multiset(a) == multiset(b)
    ensures SoldCount(a) == SoldCount(b)
    ensures Collected(a) == Collected(b)
    ensures Pending(a) == Pending(b)
    decreases |a|
  {
    if a == [] {
      assert |b| == |multiset(b)|;
    } else {
      var x := a[|a| - 1];
      assert x in multiset(b);
      var j :| 0 <= j < |b| && b[j] == x;
      RemoveMatching(a, b, j);
      AggregatesPermutation(a[..|a| - 1], b[..j] + b[j + 1..]);
      assert b == b[..j] + [x] + b[j + 1..];
      AggregatesMove(b[..j], x, b[j + 1..]);
      AggregatesAppend(a[..|a| - 1], [x]);
      assert a[..|a| - 1] + [x] == a;
    }
  }

  /** Moving a row to the end keeps the totals. */
  lemma AggregatesMove(front: seq<QueryRow>, x: QueryRow, back: seq<QueryRow>)
    ensures SoldCount(front + [x] + back) == SoldCount(front + back) + SoldCount([x])
    ensures Collected(front + [x] + back) == Collected(front + back) + Collected([x])
    ensures Pending(front + [x] + back) == Pending(front + back) + Pending([x])
  {
    AggregatesAppend(front, [x]);
    AggregatesAppend(front + [x], back);
    AggregatesAppend(front, back);
  }

  /** Counted straight off the tickets table: how many of the first `n`
      tickets belong to raffle `raffleId` and are not available. */
  function SoldTickets(s: State, raffleId: int, n: nat): nat
    requires n <= |s.tickets|
  {
    if n == 0 then 0
    else
      var t := s.tickets[n - 1];
      SoldTickets(s, raffleId, n - 1) + (if t.raffleId == raffleId && t.status != Available then 1 else 0)
  }

  /** The payments collected by those same tickets. */
  function CollectedTickets(s: State, raffleId: int, n: nat): real
    requires n <= |s.tickets|
  {
    if n == 0 then 0.0
    else
      var t := s.tickets[n - 1];
      CollectedTickets(s, raffleId, n - 1) + (if t.raffleId == raffleId && t.status != Available then PaidFor(s.payments, n) else 0.0)
  }

  lemma {:induction false} QueryRowsTotals(s: State, raffleId: int, n: nat)
    requires 1 <= raffleId <= |s.raffles| && n <= |s.tickets|
    ensures SoldCount(QueryRows(s, raffleId, n)) == SoldTickets(s, raffleId, n)
    ensures Collected(QueryRows(s, raffleId, n)) == CollectedTickets(s, raffleId, n)
  {
    if n > 0 {
      QueryRowsTotals(s, raffleId, n - 1);
      AggregatesAppend(QueryRows(s, raffleId, n - 1),
                       if s.tickets[n - 1].raffleId == raffleId then [RowAt(s, raffleId, n - 1)] else []);
    }
  }

  /** The dashboard's sold count is the number of the raffle's tickets
      that are not available, and its collected amount is what their
      payments add up to; both are zero for a raffle that does not
      exist. */
  lemma DashboardTotals(s: State, raffleId: int)
    ensures SoldCount(TicketQuery(s, raffleId)) ==
      if 1 <= raffleId <= |s.raffles| then SoldTickets(s, raffleId, |s.tickets|) else 0
    ensures Collected(TicketQuery(s, raffleId)) ==
      if 1 <= raffleId <= |s.raffles| then CollectedTickets(s, raffleId, |s.tickets|) else 0.0
  {
    if 1 <= raffleId <= |s.raffles| {
      QueryRowsTotals(s, raffleId, |s.tickets|);
      AggregatesPermutation(QueryRows(s, raffleId, |s.tickets|), TicketQuery(s, raffleId));
    }
  }

  /** At most every listed ticket is sold. */
  lemma {:induction false} SoldAtMostListed(qs: seq<QueryRow>)
    ensures SoldCount(qs) <= |qs|
    decreases |qs|
  {
    if qs != [] {
      SoldAtMostListed(qs[..|qs| - 1]);
    }
  }

  /** When every row carries the same price, what is pending and what was
      collected add up to the price of the sold tickets. */
  lemma {:induction false} PendingPlusCollected(qs: seq<QueryRow>, price: real)
    requires forall q :: q in qs ==> q.price == price
    ensures Pending(qs) + Collected(qs) == SoldCount(qs) as real * price
    decreases |qs|
  {
    if qs != [] {
      var init := qs[..|qs| - 1];
      assert forall q :: q in init ==> q in qs;
      PendingPlusCollected(init, price);
      assert qs[|qs| - 1] in qs;
    }
  }

  /** The dashboard of a raffle balances: the amount pending plus the
      amount collected is the raffle's price times the number of sold
      tickets, and no more tickets are sold than listed. */
  lemma DashboardBalances(s: State, raffleId: int)
    ensures var qs := TicketQuery(s, raffleId);
      Pending(qs) + Collected(qs) == SoldCount(qs) as real * PriceOf(s, raffleId)
    ensures SoldCount(TicketQuery(s, raffleId)) <= |TicketQuery(s, raffleId)|
  {
    TicketQueryColumns(s, raffleId);
    PendingPlusCollected(TicketQuery(s, raffleId), PriceOf(s, raffleId));
    SoldAtMostListed(TicketQuery(s, raffleId));
  }
}
