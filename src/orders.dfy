/** ReservationsService: the Reservations and Purchases tables. Statuses are
    free-form strings; the service accepts any status in any state. */
module ReservationsService {
  import opened Wrappers
  import opened Seqs

  /** Status a new row takes from the table default. */
  const INITIAL_STATUS: string := "pending"
  /** The one status whose update also stamps completed_at. */
  const COMPLETED: string := "completed"

  /** One row of Reservations. */
  datatype ReservationRow = ReservationRow(
    id: int,
    carId: int,
    userId: int,
    customerName: string,
    phone: string,
    email: string,
    reservationDate: int,
    status: string,
    notes: Option<string>,
    createdAt: int,
    updatedAt: int)

  /** One row of Purchases; the price is kept in whole currency units. */
  datatype PurchaseRow = PurchaseRow(
    id: int,
    carId: int,
    userId: int,
    customerName: string,
    phone: string,
    email: string,
    price: int,
    paymentMethod: Option<string>,
    status: string,
    notes: Option<string>,
    purchaseDate: int,
    completedAt: Option<int>)

  /** A listed reservation: the row joined with the car's name and the user's name. */
  datatype ReservationListing = ReservationListing(row: ReservationRow, carName: string, userName: string)

  /** A listed purchase: the row joined with the car's name and the user's name. */
  datatype PurchaseListing = PurchaseListing(row: PurchaseRow, carName: string, userName: string)

  function ReservationId(r: ReservationRow): int {
    r.id
  }

  function PurchaseId(p: PurchaseRow): int {
    p.id
  }

  // ---------------------------------------------------------------------
  // Reservations

  /** createReservation's INSERT; status, created_at and updated_at come from the defaults. */
  function NewReservation(id: int, carId: int, userId: int, customerName: string, phone: string,
                          email: string, reservationDate: int, notes: Option<string>, now: int): ReservationRow
  {
    ReservationRow(id, carId, userId, customerName, phone, email, reservationDate, INITIAL_STATUS, notes, now, now)
  }

  /** UPDATE Reservations SET status = ?, updated_at = GETDATE() WHERE id = ?. */
  function ReservationStatusSet(rows: seq<ReservationRow>, id: int, status: string, now: int)
    : (r: seq<ReservationRow>)
    ensures |r| == |rows|
  {
    seq(|rows|, i requires 0 <= i < |rows| =>
      if rows[i].id == id then rows[i].(status := status, updatedAt := now) else rows[i])
  }

  /** DELETE FROM Reservations WHERE id = ?. */
  function ReservationDeleted(rows: seq<ReservationRow>, id: int): seq<ReservationRow> {
    Filter(rows, (r: ReservationRow) => r.id != id)
  }

  /** The JOIN with Cars and users_secure: rows whose car or user is unknown drop out. */
  function ReservationsJoined(rows: seq<ReservationRow>, carNames: map<int, string>, userNames: map<int, string>)
    : (r: seq<ReservationListing>)
    ensures |r| <= |rows|
    ensures forall i :: 0 <= i < |r| ==>
      (r[i].row.carId in carNames && r[i].carName == carNames[r[i].row.carId]
       && r[i].row.userId in userNames && r[i].userName == userNames[r[i].row.userId])
  {
    if rows == [] then []
    else
      ReservationsJoined(rows[..|rows| - 1], carNames, userNames)
        + ReservationJoinOne(rows[|rows| - 1], carNames, userNames)
  }

  function ReservationNewestFirst(l: ReservationListing): int {
    -l.row.createdAt
  }

  predicate HasStatus(l: ReservationListing, status: string) {
    l.row.status == status
  }

  /** getAllReservations: ORDER BY created_at DESC. */
  function AllReservations(rows: seq<ReservationRow>, carNames: map<int, string>, userNames: map<int, string>)
    : seq<ReservationListing>
  {
    SortBy(ReservationsJoined(rows, carNames, userNames), ReservationNewestFirst)
  }

  /** getReservationsByStatus: WHERE status = ? ORDER BY created_at DESC. */
  function ReservationsByStatus(rows: seq<ReservationRow>, status: string,
                                carNames: map<int, string>, userNames: map<int, string>)
    : seq<ReservationListing>
  {
    SortBy(ReservationsJoined(Filter(rows, (r: ReservationRow) => RowHasStatus(r, status)), carNames, userNames),
      ReservationNewestFirst)
  }

  /** The listing one row contributes to the join: none when its car or user is unknown. */
  function ReservationJoinOne(x: ReservationRow, carNames: map<int, string>, userNames: map<int, string>)
    : seq<ReservationListing>
  {
    if x.carId in carNames && x.userId in userNames
    then [ReservationListing(x, carNames[x.carId], userNames[x.userId])]
    else []
  }

  lemma ReservationsJoinedSnoc(s: seq<ReservationRow>, x: ReservationRow,
                               carNames: map<int, string>, userNames: map<int, string>)
    ensures ReservationsJoined(s + [x], carNames, userNames)
      == ReservationsJoined(s, carNames, userNames) + ReservationJoinOne(x, carNames, userNames)
  {
    assert (s + [x])[..|s + [x]| - 1] == s;
  }

  predicate RowHasStatus(r: ReservationRow, status: string) {
    r.status == status
  }

  /** Filtering by status before or after the join selects the same listings. */
  lemma {:induction false} JoinedFilterCommute(rows: seq<ReservationRow>, status: string,
                                               carNames: map<int, string>, userNames: map<int, string>)
    ensures ReservationsJoined(Filter(rows, (r: ReservationRow) => RowHasStatus(r, status)), carNames, userNames)
      == Filter(ReservationsJoined(rows, carNames, userNames), (l: ReservationListing) => HasStatus(l, status))
  {
    if rows != [] {
      var init, last := rows[..|rows| - 1], rows[|rows| - 1];
      assert rows == init + [last];
      JoinedFilterCommute(init, status, carNames, userNames);
      CommuteStepRows(init, last, status, carNames, userNames);
      CommuteStepListings(init, last, status, carNames, userNames);
    }
  }

  /** Left-hand side of one step of the commutation: filter, then join. */
  lemma CommuteStepRows(init: seq<ReservationRow>, last: ReservationRow, status: string,
                        carNames: map<int, string>, userNames: map<int, string>)
    ensures ReservationsJoined(Filter(init + [last], (r: ReservationRow) => RowHasStatus(r, status)), carNames, userNames)
      == ReservationsJoined(Filter(init, (r: ReservationRow) => RowHasStatus(r, status)), carNames, userNames)
         + (if RowHasStatus(last, status) then ReservationJoinOne(last, carNames, userNames) else [])
  {
    var p := (r: ReservationRow) => RowHasStatus(r, status);
    var f := Filter(init, p);
    FilterSnoc(init, last, p);
    if p(last) {
      ReservationsJoinedSnoc(f, last, carNames, userNames);
    } else {
      assert f + [] == f;
    }
  }

  /** Right-hand side of one step of the commutation: join, then filter. */
  lemma CommuteStepListings(init: seq<ReservationRow>, last: ReservationRow, status: string,
                            carNames: map<int, string>, userNames: map<int, string>)
    ensures Filter(ReservationsJoined(init + [last], carNames, userNames), (l: ReservationListing) => HasStatus(l, status))
      == Filter(ReservationsJoined(init, carNames, userNames), (l: ReservationListing) => HasStatus(l, status))
         + (if RowHasStatus(last, status) then ReservationJoinOne(last, carNames, userNames) else [])
  {
    var q := (l: ReservationListing) => HasStatus(l, status);
    var one := ReservationJoinOne(last, carNames, userNames);
    var joinedInit := ReservationsJoined(init, carNames, userNames);
    ReservationsJoinedSnoc(init, last, carNames, userNames);
    if one != [] {
      assert joinedInit + one == joinedInit + [one[0]];
      FilterSnoc(joinedInit, one[0], q);
    } else {
      assert joinedInit + one == joinedInit;
    }
  }

  /** getReservationsByStatus(s) lists exactly the listings of getAllReservations
      whose status is s, each with status s, newest first. */
  lemma ReservationsByStatusSpec(rows: seq<ReservationRow>, status: string,
                                 carNames: map<int, string>, userNames: map<int, string>)
    ensures multiset(ReservationsByStatus(rows, status, carNames, userNames))
      == multiset(Filter(AllReservations(rows, carNames, userNames), (l: ReservationListing) => HasStatus(l, status)))
    ensures var r := ReservationsByStatus(rows, status, carNames, userNames);
      && (forall i :: 0 <= i < |r| ==> r[i].row.status == status)
      && (forall i, j :: 0 <= i < j < |r| ==> r[i].row.createdAt >= r[j].row.createdAt)
  {
    var q := (l: ReservationListing) => HasStatus(l, status);
    var joined := ReservationsJoined(rows, carNames, userNames);
    JoinedFilterCommute(rows, status, carNames, userNames);
    FilterPermutation(joined, AllReservations(rows, carNames, userNames), q);
    var r := ReservationsByStatus(rows, status, carNames, userNames);
    ListingsOrdered(r, Filter(joined, q), status);
  }

  /** A newest-first arrangement of listings that all have status s. */
  lemma ListingsOrdered(r: seq<ReservationListing>, from: seq<ReservationListing>, status: string)
    requires multiset(r) == multiset(from) && SortedBy(r, ReservationNewestFirst)
    requires forall i :: 0 <= i < |from| ==> HasStatus(from[i], status)
    ensures forall i :: 0 <= i < |r| ==> r[i].row.status == status
    ensures forall i, j :: 0 <= i < j < |r| ==> r[i].row.createdAt >= r[j].row.createdAt
  {
    SubMultisetKeeps(r, from, (l: ReservationListing) => HasStatus(l, status));
    forall i, j | 0 <= i < j < |r| ensures r[i].row.createdAt >= r[j].row.createdAt {
      assert ReservationNewestFirst(r[i]) <= ReservationNewestFirst(r[j]);
    }
  }

  /** A reservation listing carries the names the join finds for its row. */
  predicate ReservationJoins(l: ReservationListing, carNames: map<int, string>, userNames: map<int, string>) {
    && l.row.carId in carNames && l.carName == carNames[l.row.carId]
    && l.row.userId in userNames && l.userName == userNames[l.row.userId]
  }

  /** The join lists each row whose car and user are known, as often as the
      row occurs, with its own columns and the joined names; nothing else. */
  lemma {:induction false} ReservationsJoinedCounts(rows: seq<ReservationRow>, carNames: map<int, string>,
                                                    userNames: map<int, string>, l: ReservationListing)
    ensures multiset(ReservationsJoined(rows, carNames, userNames))[l]
      == if ReservationJoins(l, carNames, userNames) then multiset(rows)[l.row] else 0
  {
    if rows != [] {
      var init, last := rows[..|rows| - 1], rows[|rows| - 1];
      assert rows == init + [last];
      ReservationsJoinedSnoc(init, last, carNames, userNames);
      ReservationsJoinedCounts(init, carNames, userNames, l);
    }
  }

  /** getAllReservations lists every reservation whose car and user are known,
      exactly once, with its own columns. */
  lemma AllReservationsComplete(rows: seq<ReservationRow>, carNames: map<int, string>, userNames: map<int, string>,
                                k: int)
    requires UniqueKeys(rows, ReservationId)
    requires 0 <= k < |rows| && rows[k].carId in carNames && rows[k].userId in userNames
    ensures multiset(AllReservations(rows, carNames, userNames))
      [ReservationListing(rows[k], carNames[rows[k].carId], userNames[rows[k].userId])] == 1
  {
    ReservationsJoinedCounts(rows, carNames, userNames,
      ReservationListing(rows[k], carNames[rows[k].carId], userNames[rows[k].userId]));
    UniqueKeysOnce(rows, ReservationId, k);
  }

  /** getAllReservations lists every joined row once, newest first. */
  lemma AllReservationsSpec(rows: seq<ReservationRow>, carNames: map<int, string>, userNames: map<int, string>)
    ensures var r := AllReservations(rows, carNames, userNames);
      && multiset(r) == multiset(ReservationsJoined(rows, carNames, userNames))
      && (forall i, j :: 0 <= i < j < |r| ==> r[i].row.createdAt >= r[j].row.createdAt)
  {
    var r := AllReservations(rows, carNames, userNames);
    forall i, j | 0 <= i < j < |r| ensures r[i].row.createdAt >= r[j].row.createdAt {
      assert ReservationNewestFirst(r[i]) <= ReservationNewestFirst(r[j]);
    }
  }

  /** updateReservationStatus sets status and updated_at of the row with that id,
      whatever its current status, and leaves every other row as it was. */
  lemma ReservationStatusSetSpec(rows: seq<ReservationRow>, id: int, status: string, now: int)
    ensures var r := ReservationStatusSet(rows, id, status, now);
      && (forall i :: 0 <= i < |r| && rows[i].id == id ==>
            r[i] == rows[i].(status := status, updatedAt := now))
      && (forall i :: 0 <= i < |r| && rows[i].id != id ==> r[i] == rows[i])
      && (!HasKey(rows, ReservationId, id) ==> r == rows)
  {
  }

  // ---------------------------------------------------------------------
  // Purchases

  /** createPurchase's INSERT: the price is stored as given. */
  function NewPurchase(id: int, carId: int, userId: int, customerName: string, phone: string, email: string,
                       price: int, paymentMethod: Option<string>, notes: Option<string>, now: int): PurchaseRow
  {
    PurchaseRow(id, carId, userId, customerName, phone, email, price, paymentMethod, INITIAL_STATUS, notes, now, None)
  }

  /** UPDATE Purchases SET status = ? [, completed_at = GETDATE()] WHERE id = ?,
      the completed_at part present only for "completed". */
  function PurchaseStatusSet(rows: seq<PurchaseRow>, id: int, status: string, now: int)
    : (r: seq<PurchaseRow>)
    ensures |r| == |rows|
  {
    seq(|rows|, i requires 0 <= i < |rows| =>
      if rows[i].id != id then rows[i]
      else if status == COMPLETED then rows[i].(status := status, completedAt := Some(now))
      else rows[i].(status := status))
  }

  /** DELETE FROM Purchases WHERE id = ?. */
  function PurchaseDeleted(rows: seq<PurchaseRow>, id: int): seq<PurchaseRow> {
    Filter(rows, (p: PurchaseRow) => p.id != id)
  }

  function PurchasesJoined(rows: seq<PurchaseRow>, carNames: map<int, string>, userNames: map<int, string>)
    : (r: seq<PurchaseListing>)
    ensures |r| <= |rows|
    ensures forall i :: 0 <= i < |r| ==>
      (r[i].row.carId in carNames && r[i].carName == carNames[r[i].row.carId]
       && r[i].row.userId in userNames && r[i].userName == userNames[r[i].row.userId])
  {
    if rows == [] then []
    else
      var init, last := rows[..|rows| - 1], rows[|rows| - 1];
      PurchasesJoined(init, carNames, userNames)
        + if last.carId in carNames && last.userId in userNames
          then [PurchaseListing(last, carNames[last.carId], userNames[last.userId])]
          else []
  }

  function PurchaseNewestFirst(l: PurchaseListing): int {
    -l.row.purchaseDate
  }

  /** getAllPurchases: ORDER BY purchase_date DESC. */
  function AllPurchases(rows: seq<PurchaseRow>, carNames: map<int, string>, userNames: map<int, string>)
    : seq<PurchaseListing>
  {
    SortBy(PurchasesJoined(rows, carNames, userNames), PurchaseNewestFirst)
  }

  lemma AllPurchasesSpec(rows: seq<PurchaseRow>, carNames: map<int, string>, userNames: map<int, string>)
    ensures var r := AllPurchases(rows, carNames, userNames);
      && multiset(r) == multiset(PurchasesJoined(rows, carNames, userNames))
      && (forall i, j :: 0 <= i < j < |r| ==> r[i].row.purchaseDate >= r[j].row.purchaseDate)
  {
    var r := AllPurchases(rows, carNames, userNames);
    forall i, j | 0 <= i < j < |r| ensures r[i].row.purchaseDate >= r[j].row.purchaseDate {
      assert PurchaseNewestFirst(r[i]) <= PurchaseNewestFirst(r[j]);
    }
  }

  /** A purchase listing carries the names the join finds for its row. */
  predicate PurchaseJoins(l: PurchaseListing, carNames: map<int, string>, userNames: map<int, string>) {
    && l.row.carId in carNames && l.carName == carNames[l.row.carId]
    && l.row.userId in userNames && l.userName == userNames[l.row.userId]
  }

  /** The join lists each purchase whose car and user are known, as often as
      the row occurs, with its own columns and the joined names; nothing else. */
  lemma {:induction false} PurchasesJoinedCounts(rows: seq<PurchaseRow>, carNames: map<int, string>,
                                                 userNames: map<int, string>, l: PurchaseListing)
    ensures multiset(PurchasesJoined(rows, carNames, userNames))[l]
      == if PurchaseJoins(l, carNames, userNames) then multiset(rows)[l.row] else 0
  {
    if rows != [] {
      var init, last := rows[..|rows| - 1], rows[|rows| - 1];
      assert rows == init + [last];
      PurchasesJoinedCounts(init, carNames, userNames, l);
    }
  }

  /** getAllPurchases lists every purchase whose car and user are known,
      exactly once, with its own columns. */
  lemma AllPurchasesComplete(rows: seq<PurchaseRow>, carNames: map<int, string>, userNames: map<int, string>,
                             k: int)
    requires UniqueKeys(rows, PurchaseId)
    requires 0 <= k < |rows| && rows[k].carId in carNames && rows[k].userId in userNames
    ensures multiset(AllPurchases(rows, carNames, userNames))
      [PurchaseListing(rows[k], carNames[rows[k].carId], userNames[rows[k].userId])] == 1
  {
    PurchasesJoinedCounts(rows, carNames, userNames,
      PurchaseListing(rows[k], carNames[rows[k].carId], userNames[rows[k].userId]));
    UniqueKeysOnce(rows, PurchaseId, k);
  }

  /** updatePurchaseStatus sets the status of the row with that id from any
      state; completed_at becomes `now` exactly for "completed" and keeps its
      value otherwise; no other column and no other row changes. */
  lemma PurchaseStatusSetSpec(rows: seq<PurchaseRow>, id: int, status: string, now: int)
    ensures var r := PurchaseStatusSet(rows, id, status, now);
      && (forall i :: 0 <= i < |r| && rows[i].id == id ==>
            r[i].status == status
            && r[i].completedAt == (if status == COMPLETED then Some(now) else rows[i].completedAt)
            && r[i] == rows[i].(status := r[i].status, completedAt := r[i].completedAt))
      && (forall i :: 0 <= i < |r| && rows[i].id != id ==> r[i] == rows[i])
  {
  }

  /** A second "completed" refreshes completed_at to the later time. */
  lemma CompletedTwiceRefreshes(rows: seq<PurchaseRow>, k: int, now1: int, now2: int)
    requires 0 <= k < |rows|
    ensures var id := rows[k].id;
      PurchaseStatusSet(PurchaseStatusSet(rows, id, COMPLETED, now1), id, COMPLETED, now2)[k].completedAt
        == Some(now2)
  {
  }

  /** No statement of the service rewrites a stored price. */
  lemma PriceNeverRewritten(rows: seq<PurchaseRow>, id: int, status: string, now: int)
    ensures var r := PurchaseStatusSet(rows, id, status, now);
      forall i :: 0 <= i < |r| ==> r[i].price == rows[i].price
    ensures var d := PurchaseDeleted(rows, id);
      forall i :: 0 <= i < |d| ==> exists j :: 0 <= j < |rows| && rows[j] == d[i]
  {
    var d := PurchaseDeleted(rows, id);
    forall i | 0 <= i < |d| ensures exists j :: 0 <= j < |rows| && rows[j] == d[i] {
      FilterFrom(rows, (p: PurchaseRow) => p.id != id, d[i]);
    }
  }

  /** Both deletes remove exactly the row with that id, when it exists. */
  lemma DeletedSpec(reservations: seq<ReservationRow>, purchases: seq<PurchaseRow>, id: int)
    requires UniqueKeys(reservations, ReservationId) && UniqueKeys(purchases, PurchaseId)
    ensures |ReservationDeleted(reservations, id)|
      == if HasKey(reservations, ReservationId, id) then |reservations| - 1 else |reservations|
    ensures |PurchaseDeleted(purchases, id)|
      == if HasKey(purchases, PurchaseId, id) then |purchases| - 1 else |purchases|
    ensures forall i :: 0 <= i < |ReservationDeleted(reservations, id)| ==>
      ReservationDeleted(reservations, id)[i].id != id
  {
    FilterOutKey(reservations, ReservationId, id, (r: ReservationRow) => r.id != id);
    FilterOutKey(purchases, PurchaseId, id, (p: PurchaseRow) => p.id != id);
  }

  // ---------------------------------------------------------------------
  // The two tables and the service's statements

  class OrdersStore {
    var reservations: seq<ReservationRow>
    var purchases: seq<PurchaseRow>
    var nextReservationId: int
    var nextPurchaseId: int

    ghost predicate Valid()
      reads this
    {
      && UniqueKeys(reservations, ReservationId) && KeysBelow(reservations, ReservationId, nextReservationId)
      && UniqueKeys(purchases, PurchaseId) && KeysBelow(purchases, PurchaseId, nextPurchaseId)
    }

    constructor ()
      ensures Valid() && reservations == [] && purchases == []
    {
      reservations := [];
      purchases := [];
      nextReservationId := 1;
      nextPurchaseId := 1;
    }

    /** createReservation: true iff the row was inserted. */
    method CreateReservation(carId: int, userId: int, customerName: string, phone: string, email: string,
                             reservationDate: int, notes: Option<string>, now: int, up: bool)
      returns (ok: bool)
      requires Valid()
      modifies this
      ensures Valid() && ok == up && purchases == old(purchases)
      ensures reservations == if up then old(reservations) + [NewReservation(old(nextReservationId), carId,
        userId, customerName, phone, email, reservationDate, notes, now)] else old(reservations)
    {
      if !up {
        return false;
      }
      var row := NewReservation(nextReservationId, carId, userId, customerName, phone, email,
        reservationDate, notes, now);
      AppendFresh(reservations, row, ReservationId, nextReservationId);
      reservations := reservations + [row];
      nextReservationId := nextReservationId + 1;
      return true;
    }

    /** getAllReservations: the ordered join read into a list. */
    method GetAllReservations(carNames: map<int, string>, userNames: map<int, string>, up: bool)
      returns (list: seq<ReservationListing>)
      ensures list == if up then AllReservations(reservations, carNames, userNames) else []
    {
      list := [];
      if up {
        list := ReadAll(AllReservations(reservations, carNames, userNames));
      }
    }

    /** getReservationsByStatus. */
    method GetReservationsByStatus(status: string, carNames: map<int, string>, userNames: map<int, string>,
                                   up: bool)
      returns (list: seq<ReservationListing>)
      ensures list == if up then ReservationsByStatus(reservations, status, carNames, userNames) else []
    {
      list := [];
      if up {
        list := ReadAll(ReservationsByStatus(reservations, status, carNames, userNames));
      }
    }

    /** updateReservationStatus: true iff a row has that id. */
    method UpdateReservationStatus(id: int, status: string, now: int, up: bool) returns (ok: bool)
      requires Valid()
      modifies this
      ensures Valid() && purchases == old(purchases)
      ensures ok <==> up && HasKey(old(reservations), ReservationId, id)
      ensures reservations == if up then ReservationStatusSet(old(reservations), id, status, now)
        else old(reservations)
    {
      if !up {
        return false;
      }
      ok := HasKey(reservations, ReservationId, id);
      reservations := ReservationStatusSet(reservations, id, status, now);
      assert forall i :: 0 <= i < |reservations| ==> reservations[i].id == old(reservations)[i].id;
    }

    /** deleteReservation: true iff a row has that id. */
    method DeleteReservation(id: int, up: bool) returns (ok: bool)
      requires Valid()
      modifies this
      ensures Valid() && purchases == old(purchases)
      ensures ok <==> up && HasKey(old(reservations), ReservationId, id)
      ensures reservations == if up then ReservationDeleted(old(reservations), id) else old(reservations)
    {
      if !up {
        return false;
      }
      ok := HasKey(reservations, ReservationId, id);
      FilterUnique(reservations, (r: ReservationRow) => r.id != id, ReservationId);
      FilterBelow(reservations, (r: ReservationRow) => r.id != id, ReservationId, nextReservationId);
      reservations := ReservationDeleted(reservations, id);
    }

    /** createPurchase: true iff the row was inserted. */
    method CreatePurchase(carId: int, userId: int, customerName: string, phone: string, email: string,
                          price: int, paymentMethod: Option<string>, notes: Option<string>, now: int, up: bool)
      returns (ok: bool)
      requires Valid()
      modifies this
      ensures Valid() && ok == up && reservations == old(reservations)
      ensures purchases == if up then old(purchases) + [NewPurchase(old(nextPurchaseId), carId, userId,
        customerName, phone, email, price, paymentMethod, notes, now)] else old(purchases)
    {
      if !up {
        return false;
      }
      var row := NewPurchase(nextPurchaseId, carId, userId, customerName, phone, email, price,
        paymentMethod, notes, now);
      AppendFresh(purchases, row, PurchaseId, nextPurchaseId);
      purchases := purchases + [row];
      nextPurchaseId := nextPurchaseId + 1;
      return true;
    }

    /** getAllPurchases. */
    method GetAllPurchases(carNames: map<int, string>, userNames: map<int, string>, up: bool)
      returns (list: seq<PurchaseListing>)
      ensures list == if up then AllPurchases(purchases, carNames, userNames) else []
    {
      list := [];
      if up {
        list := ReadAll(AllPurchases(purchases, carNames, userNames));
      }
    }

    /** updatePurchaseStatus: true iff a row has that id. */
    method UpdatePurchaseStatus(id: int, status: string, now: int, up: bool) returns (ok: bool)
      requires Valid()
      modifies this
      ensures Valid() && reservations == old(reservations)
      ensures ok <==> up && HasKey(old(purchases), PurchaseId, id)
      ensures purchases == if up then PurchaseStatusSet(old(purchases), id, status, now) else old(purchases)
    {
      if !up {
        return false;
      }
      ok := HasKey(purchases, PurchaseId, id);
      purchases := PurchaseStatusSet(purchases, id, status, now);
      assert forall i :: 0 <= i < |purchases| ==> purchases[i].id == old(purchases)[i].id;
    }

    /** deletePurchase: true iff a row has that id. */
    method DeletePurchase(id: int, up: bool) returns (ok: bool)
      requires Valid()
      modifies this
      ensures Valid() && reservations == old(reservations)
      ensures ok <==> up && HasKey(old(purchases), PurchaseId, id)
      ensures purchases == if up then PurchaseDeleted(old(purchases), id) else old(purchases)
    {
      if !up {
        return false;
      }
      ok := HasKey(purchases, PurchaseId, id);
      FilterUnique(purchases, (p: PurchaseRow) => p.id != id, PurchaseId);
      FilterBelow(purchases, (p: PurchaseRow) => p.id != id, PurchaseId, nextPurchaseId);
      purchases := PurchaseDeleted(purchases, id);
    }
  }
}
