/** StatisticsService: read-only counts, groupings and extremes over the
    tables, as functions of table snapshots. `up` says whether the connection
    and the query succeeded (every counter reports 0 otherwise); a table that
    the metadata probe does not find is None. */
module StatisticsService {
  import opened Wrappers
  import opened Seqs
  import opened Cars
  import CommentsService
  import ReservationsService
  import FavoritesService

  /** The columns of users_secure the counters read; is_active is a nullable bit. */
  datatype UserRow = UserRow(role: string, isActive: Option<bool>)

  // ---------------------------------------------------------------------
  // Plain counters

  /** getTotalCars. */
  function TotalCars(cars: seq<Car>, up: bool): nat {
    if up then |cars| else 0
  }

  /** getTotalUsers: role = 'user'. */
  function TotalUsers(users: seq<UserRow>, up: bool): nat {
    if up then Count(users, (u: UserRow) => u.role == "user") else 0
  }

  /** getTotalAdmins: role = 'admin'. */
  function TotalAdmins(users: seq<UserRow>, up: bool): nat {
    if up then Count(users, (u: UserRow) => u.role == "admin") else 0
  }

  /** getTotalActiveUsers: is_active = 1. */
  function TotalActiveUsers(users: seq<UserRow>, up: bool): nat {
    if up then Count(users, (u: UserRow) => u.isActive == Some(true)) else 0
  }

  /** getTotalInactiveUsers: is_active = 0. */
  function TotalInactiveUsers(users: seq<UserRow>, up: bool): nat {
    if up then Count(users, (u: UserRow) => u.isActive == Some(false)) else 0
  }

  /** COUNT(*) ... WHERE p on a table that may be missing. */
  function ProbedCount<T>(table: Option<seq<T>>, p: T -> bool, up: bool): nat {
    if !up then 0
    else match table
      case None => 0
      case Some(rows) => Count(rows, p)
  }

  function All<T>(x: T): bool {
    true
  }

  /** getTotalReservations. */
  function TotalReservations(table: Option<seq<ReservationsService.ReservationRow>>, up: bool): nat {
    ProbedCount(table, All, up)
  }

  /** getTotalPurchases. */
  function TotalPurchases(table: Option<seq<ReservationsService.PurchaseRow>>, up: bool): nat {
    ProbedCount(table, All, up)
  }

  /** getTotalFavorites. */
  function TotalFavorites(table: Option<seq<FavoritesService.FavoriteRow>>, up: bool): nat {
    ProbedCount(table, All, up)
  }

  predicate HasCommentText(r: CommentsService.CommentRow) {
    r.comment.Some? && r.comment.value != ""
  }

  predicate HasPositiveRating(r: CommentsService.CommentRow) {
    r.rating.Some? && r.rating.value > 0
  }

  /** getTotalComments: comment IS NOT NULL AND comment != ''. */
  function TotalComments(table: Option<seq<CommentsService.CommentRow>>, up: bool): nat {
    ProbedCount(table, HasCommentText, up)
  }

  /** getTotalRatings: rating IS NOT NULL AND rating > 0. */
  function TotalRatings(table: Option<seq<CommentsService.CommentRow>>, up: bool): nat {
    ProbedCount(table, HasPositiveRating, up)
  }

  /** The probed counters report 0 for a missing table or a failed query and
      the table's size otherwise. */
  lemma ProbedCountersSpec(reservations: Option<seq<ReservationsService.ReservationRow>>,
                           purchases: Option<seq<ReservationsService.PurchaseRow>>,
                           favorites: Option<seq<FavoritesService.FavoriteRow>>, up: bool)
    ensures TotalReservations(reservations, up) == if up && reservations.Some? then |reservations.value| else 0
    ensures TotalPurchases(purchases, up) == if up && purchases.Some? then |purchases.value| else 0
    ensures TotalFavorites(favorites, up) == if up && favorites.Some? then |favorites.value| else 0
  {
    if up && reservations.Some? {
      AllCount(reservations.value);
    }
    if up && purchases.Some? {
      AllCount(purchases.value);
    }
    if up && favorites.Some? {
      AllCount(favorites.value);
    }
  }

  lemma {:induction false} AllCount<T>(s: seq<T>)
    ensures Count(s, All) == |s|
  {
    if s != [] {
      AllCount(s[..|s| - 1]);
    }
  }

  /** Users and administrators are counted apart; active and inactive users
      make up every user whose flag is set. */
  lemma UserCountersSpec(users: seq<UserRow>)
    ensures TotalUsers(users, true) + TotalAdmins(users, true) <= |users|
    ensures TotalActiveUsers(users, true) + TotalInactiveUsers(users, true) <= |users|
    ensures (forall i :: 0 <= i < |users| ==> users[i].isActive.Some?) ==>
      TotalActiveUsers(users, true) + TotalInactiveUsers(users, true) == |users|
  {
    CountDisjoint(users, (u: UserRow) => u.role == "user", (u: UserRow) => u.role == "admin");
    var p := (u: UserRow) => u.isActive == Some(true);
    var q := (u: UserRow) => u.isActive == Some(false);
    CountDisjoint(users, p, q);
    if forall i :: 0 <= i < |users| ==> users[i].isActive.Some? {
      forall i | 0 <= i < |users| ensures p(users[i]) || q(users[i]) {
        if users[i].isActive.value {
          assert users[i].isActive == Some(true);
        } else {
          assert users[i].isActive == Some(false);
        }
      }
    }
  }

  /** Ratings written by setRating lie in 1..5, so on such a table the "> 0"
      test drops nothing: getTotalRatings counts every rated row. Comment texts
      are counted only when non-empty. */
  lemma CommentCountersSpec(rows: seq<CommentsService.CommentRow>)
    requires forall i :: 0 <= i < |rows| && rows[i].rating.Some? ==>
      CommentsService.MIN_RATING <= rows[i].rating.value <= CommentsService.MAX_RATING
    ensures TotalRatings(Some(rows), true) == Count(rows, (r: CommentsService.CommentRow) => r.rating.Some?)
    ensures TotalComments(Some(rows), true) <= Count(rows, (r: CommentsService.CommentRow) => r.comment.Some?)
  {
    FilterCongruent(rows, HasPositiveRating, (r: CommentsService.CommentRow) => r.rating.Some?);
    CountImplies(rows, HasCommentText, (r: CommentsService.CommentRow) => r.comment.Some?);
  }

  /** A predicate that implies another selects no more elements. */
  lemma {:induction false} CountImplies<T>(s: seq<T>, p: T -> bool, q: T -> bool)
    requires forall i :: 0 <= i < |s| ==> p(s[i]) ==> q(s[i])
    ensures Count(s, p) <= Count(s, q)
  {
    if s != [] {
      CountImplies(s[..|s| - 1], p, q);
    }
  }

  // ---------------------------------------------------------------------
  // Extremes

  /** The first car of highest price (TOP 1 ... ORDER BY price DESC). */
  function HighestPriced(cars: seq<Car>): (c: Car)
    requires |cars| > 0
    ensures exists i :: 0 <= i < |cars| && cars[i] == c
    ensures forall i :: 0 <= i < |cars| ==> cars[i].price <= c.price
  {
    if |cars| == 1 then cars[0]
    else
      var rest := HighestPriced(cars[1..]);
      assert forall i :: 1 <= i < |cars| ==> cars[i] == cars[1..][i - 1];
      if cars[0].price >= rest.price then cars[0] else rest
  }

  /** The first car of lowest price (TOP 1 ... ORDER BY price ASC). */
  function LowestPriced(cars: seq<Car>): (c: Car)
    requires |cars| > 0
    ensures exists i :: 0 <= i < |cars| && cars[i] == c
    ensures forall i :: 0 <= i < |cars| ==> c.price <= cars[i].price
  {
    if |cars| == 1 then cars[0]
    else
      var rest := LowestPriced(cars[1..]);
      assert forall i :: 1 <= i < |cars| ==> cars[i] == cars[1..][i - 1];
      if cars[0].price <= rest.price then cars[0] else rest
  }

  /** getMostExpensiveCar: null without cars or on failure. */
  function MostExpensiveCar(cars: seq<Car>, up: bool): (r: Option<Car>)
    ensures r.None? <==> !up || cars == []
    ensures r.Some? ==> ((exists i :: 0 <= i < |cars| && cars[i] == r.value)
      && forall i :: 0 <= i < |cars| ==> cars[i].price <= r.value.price)
  {
    if !up || cars == [] then None else Some(HighestPriced(cars))
  }

  /** getCheapestCar: null without cars or on failure. */
  function CheapestCar(cars: seq<Car>, up: bool): (r: Option<Car>)
    ensures r.None? <==> !up || cars == []
    ensures r.Some? ==> ((exists i :: 0 <= i < |cars| && cars[i] == r.value)
      && forall i :: 0 <= i < |cars| ==> r.value.price <= cars[i].price)
  {
    if !up || cars == [] then None else Some(LowestPriced(cars))
  }

  // ---------------------------------------------------------------------
  // Groupings

  /** GROUP BY ... COUNT(*): each distinct key once, with its number of occurrences. */
  function Tally<K(==)>(keys: seq<K>): (r: seq<(K, nat)>)
    ensures |r| == |Distinct(keys)|
    ensures forall i :: 0 <= i < |r| ==> r[i].0 == Distinct(keys)[i] && r[i].1 == multiset(keys)[r[i].0]
  {
    var d := Distinct(keys);
    seq(|d|, i requires 0 <= i < |d| => (d[i], multiset(keys)[d[i]]))
  }

  /** The brand of every car with a non-NULL, non-empty brand, in table order. */
  function BrandKeys(cars: seq<Car>): seq<string> {
    if cars == [] then []
    else
      var c := cars[|cars| - 1];
      BrandKeys(cars[..|cars| - 1]) + if c.brand.Some? && c.brand.value != "" then [c.brand.value] else []
  }

  /** Number of cars of brand b. */
  function BrandCount(cars: seq<Car>, b: string): nat {
    Count(cars, (c: Car) => c.brand == Some(b))
  }

  lemma {:induction false} BrandKeysCount(cars: seq<Car>, b: string)
    requires b != ""
    ensures multiset(BrandKeys(cars))[b] == BrandCount(cars, b)
  {
    if cars != [] {
      var init, last := cars[..|cars| - 1], cars[|cars| - 1];
      assert cars == init + [last];
      BrandKeysCount(init, b);
      CountSnoc(init, last, (c: Car) => c.brand == Some(b));
    }
  }

  lemma {:induction false} BrandKeysNonEmpty(cars: seq<Car>)
    ensures forall i :: 0 <= i < |BrandKeys(cars)| ==> BrandKeys(cars)[i] != ""
  {
    if cars != [] {
      BrandKeysNonEmpty(cars[..|cars| - 1]);
    }
  }

  lemma {:induction false} BrandKeysComplete(cars: seq<Car>, k: int)
    requires 0 <= k < |cars| && cars[k].brand.Some? && cars[k].brand.value != ""
    ensures cars[k].brand.value in BrandKeys(cars)
  {
    var init, last := cars[..|cars| - 1], cars[|cars| - 1];
    if k < |cars| - 1 {
      assert init[k] == cars[k];
      BrandKeysComplete(init, k);
    }
  }

  function ByCountDesc(g: (string, nat)): int {
    -(g.1 as int)
  }

  /** getTopBrands: the brand groups by non-increasing count, at most `limit`
      of them; a negative limit is an SQL error and gives nothing. */
  function TopBrands(cars: seq<Car>, limit: int, up: bool): seq<(string, nat)> {
    if !up || limit < 0 then []
    else
      var sorted := SortBy(Tally(BrandKeys(cars)), ByCountDesc);
      sorted[..if limit < |sorted| then limit else |sorted|]
  }

  /** getTopBrands returns at most `limit` distinct non-empty brands, each with
      its number of cars, by non-increasing count; a brand left out has no more
      cars than the last one listed, and none is left out below the limit. */
  lemma TopBrandsSpec(cars: seq<Car>, limit: int, k: int)
    requires 0 <= limit && 0 <= k < |cars| && cars[k].brand.Some? && cars[k].brand.value != ""
    ensures var r := TopBrands(cars, limit, true);
      && |r| <= limit
      && (forall i :: 0 <= i < |r| ==> r[i].0 != "" && r[i].1 == BrandCount(cars, r[i].0) && r[i].1 > 0)
      && (forall i, j :: 0 <= i < j < |r| ==> r[i].0 != r[j].0 && r[i].1 >= r[j].1)
      && ((exists i :: 0 <= i < |r| && r[i].0 == cars[k].brand.value)
          || (|r| == limit && (limit == 0 || BrandCount(cars, cars[k].brand.value) <= r[limit - 1].1)))
  {
    var sorted := SortBy(Tally(BrandKeys(cars)), ByCountDesc);
    var s := BrandGroupFound(cars, k, sorted);
    TopSelection(cars, sorted, limit, s);
  }

  /** The sorted brand groups: their facts, and the position of the group of car k's brand. */
  lemma BrandGroupFound(cars: seq<Car>, k: int, sorted: seq<(string, nat)>) returns (s: int)
    requires 0 <= k < |cars| && cars[k].brand.Some? && cars[k].brand.value != ""
    requires multiset(sorted) == multiset(Tally(BrandKeys(cars)))
    ensures 0 <= s < |sorted| && sorted[s].0 == cars[k].brand.value
    ensures forall i :: 0 <= i < |sorted| ==>
      sorted[i].0 != "" && sorted[i].1 == BrandCount(cars, sorted[i].0) && sorted[i].1 > 0
    ensures forall i, j :: 0 <= i < j < |sorted| ==> sorted[i].0 != sorted[j].0
  {
    var keys := BrandKeys(cars);
    var groups := Tally(keys);
    BrandKeysNonEmpty(cars);
    GroupsFacts(cars, groups);
    GroupsCarried(cars, groups, sorted);
    BrandKeysComplete(cars, k);
    var d := Distinct(keys);
    var m :| 0 <= m < |d| && d[m] == cars[k].brand.value;
    assert groups[m].0 == cars[k].brand.value;
    assert groups[m] in multiset(sorted);
    s :| 0 <= s < |sorted| && sorted[s] == groups[m];
  }

  /** Cutting the sorted groups at `limit`. */
  lemma TopSelection(cars: seq<Car>, sorted: seq<(string, nat)>, limit: int, s: int)
    requires 0 <= limit && 0 <= s < |sorted| && SortedBy(sorted, ByCountDesc)
    requires forall i :: 0 <= i < |sorted| ==>
      sorted[i].0 != "" && sorted[i].1 == BrandCount(cars, sorted[i].0) && sorted[i].1 > 0
    requires forall i, j :: 0 <= i < j < |sorted| ==> sorted[i].0 != sorted[j].0
    ensures var r := sorted[..if limit < |sorted| then limit else |sorted|];
      && |r| <= limit
      && (forall i :: 0 <= i < |r| ==> r[i].0 != "" && r[i].1 == BrandCount(cars, r[i].0) && r[i].1 > 0)
      && (forall i, j :: 0 <= i < j < |r| ==> r[i].0 != r[j].0 && r[i].1 >= r[j].1)
      && ((exists i :: 0 <= i < |r| && r[i].0 == sorted[s].0)
          || (|r| == limit && (limit == 0 || sorted[s].1 <= r[limit - 1].1)))
  {
    var n := if limit < |sorted| then limit else |sorted|;
    var r := sorted[..n];
    forall i, j | 0 <= i < j < |r| ensures r[i].1 >= r[j].1 {
      assert ByCountDesc(sorted[i]) <= ByCountDesc(sorted[j]);
    }
    if s >= n {
      if limit > 0 {
        assert ByCountDesc(sorted[limit - 1]) <= ByCountDesc(sorted[s]);
      }
    } else {
      assert r[s].0 == sorted[s].0;
    }
  }

  /** The groups of the brand tally: distinct, non-empty brands with their counts. */
  lemma GroupsFacts(cars: seq<Car>, groups: seq<(string, nat)>)
    requires groups == Tally(BrandKeys(cars))
    requires forall i :: 0 <= i < |BrandKeys(cars)| ==> BrandKeys(cars)[i] != ""
    ensures NoDuplicates(groups)
    ensures forall i :: 0 <= i < |groups| ==>
      groups[i].0 != "" && groups[i].1 == BrandCount(cars, groups[i].0) && groups[i].1 > 0
  {
    var keys := BrandKeys(cars);
    var d := Distinct(keys);
    forall i | 0 <= i < |groups|
      ensures groups[i].0 != "" && groups[i].1 == BrandCount(cars, groups[i].0) && groups[i].1 > 0
    {
      assert d[i] in keys;
      BrandKeysCount(cars, d[i]);
    }
  }

  /** What the sorted groups inherit from the groups. */
  lemma GroupsCarried(cars: seq<Car>, groups: seq<(string, nat)>, sorted: seq<(string, nat)>)
    requires multiset(sorted) == multiset(groups) && NoDuplicates(groups)
    requires forall i :: 0 <= i < |groups| ==>
      groups[i].0 != "" && groups[i].1 == BrandCount(cars, groups[i].0) && groups[i].1 > 0
    ensures forall i :: 0 <= i < |sorted| ==>
      sorted[i].0 != "" && sorted[i].1 == BrandCount(cars, sorted[i].0) && sorted[i].1 > 0
    ensures forall i, j :: 0 <= i < j < |sorted| ==> sorted[i].0 != sorted[j].0
  {
    SubMultisetKeeps(sorted, groups,
      (g: (string, nat)) => g.0 != "" && g.1 == BrandCount(cars, g.0) && g.1 > 0);
    PermutationNoDuplicates(sorted, groups);
  }

  /** The year of every car with a non-NULL year, in table order. */
  function YearKeys(cars: seq<Car>): seq<int> {
    if cars == [] then []
    else
      var c := cars[|cars| - 1];
      YearKeys(cars[..|cars| - 1]) + if c.year.Some? then [c.year.value] else []
  }

  function YearCount(cars: seq<Car>, y: int): nat {
    Count(cars, (c: Car) => c.year == Some(y))
  }

  lemma {:induction false} YearKeysCount(cars: seq<Car>, y: int)
    ensures multiset(YearKeys(cars))[y] == YearCount(cars, y)
  {
    if cars != [] {
      var init, last := cars[..|cars| - 1], cars[|cars| - 1];
      assert cars == init + [last];
      YearKeysCount(init, y);
      CountSnoc(init, last, (c: Car) => c.year == Some(y));
    }
  }

  lemma {:induction false} YearKeysComplete(cars: seq<Car>, k: int)
    requires 0 <= k < |cars| && cars[k].year.Some?
    ensures cars[k].year.value in YearKeys(cars)
  {
    var init := cars[..|cars| - 1];
    if k < |cars| - 1 {
      assert init[k] == cars[k];
      YearKeysComplete(init, k);
    }
  }

  function ByYearDesc(g: (int, nat)): int {
    -g.0
  }

  /** getCarsByYear: each year with cars, latest first, with its number of cars. */
  function CarsByYear(cars: seq<Car>, up: bool): seq<(int, nat)> {
    if !up then [] else SortBy(Tally(YearKeys(cars)), ByYearDesc)
  }

  /** getCarsByYear lists each year of a car exactly once, in strictly
      decreasing order, with the number of cars of that year. */
  lemma CarsByYearSpec(cars: seq<Car>, k: int)
    requires 0 <= k < |cars| && cars[k].year.Some?
    ensures var r := CarsByYear(cars, true);
      && (forall i :: 0 <= i < |r| ==> r[i].1 == YearCount(cars, r[i].0) && r[i].1 > 0)
      && (forall i, j :: 0 <= i < j < |r| ==> r[i].0 > r[j].0)
      && exists i :: 0 <= i < |r| && r[i].0 == cars[k].year.value
  {
    var keys := YearKeys(cars);
    var groups := Tally(keys);
    var r := CarsByYear(cars, true);
    var d := Distinct(keys);
    forall i | 0 <= i < |groups| ensures groups[i].1 == YearCount(cars, groups[i].0) && groups[i].1 > 0 {
      assert d[i] in keys;
      YearKeysCount(cars, d[i]);
    }
    YearGroupsCarried(cars, groups, r);
    YearKeysComplete(cars, k);
    var m :| 0 <= m < |d| && d[m] == cars[k].year.value;
    assert groups[m] in multiset(r);
  }

  lemma YearGroupsCarried(cars: seq<Car>, groups: seq<(int, nat)>, r: seq<(int, nat)>)
    requires multiset(r) == multiset(groups) && SortedBy(r, ByYearDesc)
    requires forall i, j :: 0 <= i < j < |groups| ==> groups[i].0 != groups[j].0
    requires forall i :: 0 <= i < |groups| ==> groups[i].1 == YearCount(cars, groups[i].0) && groups[i].1 > 0
    ensures forall i :: 0 <= i < |r| ==> r[i].1 == YearCount(cars, r[i].0) && r[i].1 > 0
    ensures forall i, j :: 0 <= i < j < |r| ==> r[i].0 > r[j].0
  {
    SubMultisetKeeps(r, groups, (g: (int, nat)) => g.1 == YearCount(cars, g.0) && g.1 > 0);
    PermutationNoDuplicates(r, groups);
    forall i, j | 0 <= i < j < |r| ensures r[i].0 > r[j].0 {
      assert ByYearDesc(r[i]) <= ByYearDesc(r[j]);
      assert r[i] != r[j];
    }
  }
}
