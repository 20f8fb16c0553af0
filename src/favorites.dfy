/** FavoritesService: the favorites table, a bag of (user, car) pairs. Adding
    never checks for an existing pair and removing deletes every copy. */
module FavoritesService {
  import opened Wrappers
  import opened Seqs
  import opened Cars
  import CarImagesService

  /** One row of favorites; created_at comes from the table default. */
  datatype FavoriteRow = FavoriteRow(userId: int, carId: int, createdAt: int)

  predicate IsPair(r: FavoriteRow, userId: int, carId: int) {
    r.userId == userId && r.carId == carId
  }

  predicate NotPair(r: FavoriteRow, userId: int, carId: int) {
    !IsPair(r, userId, carId)
  }

  /** isFavorite's and the add/remove statements' selection. */
  function PairCount(rows: seq<FavoriteRow>, userId: int, carId: int): nat {
    Count(rows, (r: FavoriteRow) => IsPair(r, userId, carId))
  }

  /** getFavoritesCount: every row of the user, duplicates included. */
  function UserCount(rows: seq<FavoriteRow>, userId: int): nat {
    Count(rows, (r: FavoriteRow) => r.userId == userId)
  }

  /** DELETE FROM favorites WHERE user_id = ? AND car_id = ?. */
  function PairRemoved(rows: seq<FavoriteRow>, userId: int, carId: int): seq<FavoriteRow> {
    Filter(rows, (r: FavoriteRow) => NotPair(r, userId, carId))
  }

  /** addToFavorites makes the pair a favorite, adds one row and one to the user's count. */
  lemma AddedSpec(rows: seq<FavoriteRow>, userId: int, carId: int, now: int)
    ensures var r := rows + [FavoriteRow(userId, carId, now)];
      && PairCount(r, userId, carId) == PairCount(rows, userId, carId) + 1
      && PairCount(r, userId, carId) > 0
      && UserCount(r, userId) == UserCount(rows, userId) + 1
  {
    var x := FavoriteRow(userId, carId, now);
    CountSnoc(rows, x, (r: FavoriteRow) => IsPair(r, userId, carId));
    CountSnoc(rows, x, (r: FavoriteRow) => r.userId == userId);
  }

  /** After removeFromFavorites no row of the pair is left, however many
      copies there were. */
  lemma {:induction false} RemovedNoPair(rows: seq<FavoriteRow>, userId: int, carId: int)
    ensures PairCount(PairRemoved(rows, userId, carId), userId, carId) == 0
  {
    if rows != [] {
      var init, last := rows[..|rows| - 1], rows[|rows| - 1];
      assert rows == init + [last];
      RemovedNoPair(init, userId, carId);
      FilterSnoc(init, last, (r: FavoriteRow) => NotPair(r, userId, carId));
      if NotPair(last, userId, carId) {
        CountSnoc(PairRemoved(init, userId, carId), last, (r: FavoriteRow) => IsPair(r, userId, carId));
      } else {
        assert PairRemoved(init, userId, carId) + [] == PairRemoved(init, userId, carId);
      }
    }
  }

  /** Removing lowers the user's count by the number of copies of the pair. */
  lemma {:induction false} RemovedUserCount(rows: seq<FavoriteRow>, userId: int, carId: int)
    ensures UserCount(PairRemoved(rows, userId, carId), userId)
      == UserCount(rows, userId) - PairCount(rows, userId, carId)
  {
    if rows != [] {
      var init, last := rows[..|rows| - 1], rows[|rows| - 1];
      assert rows == init + [last];
      RemovedUserCount(init, userId, carId);
      FilterSnoc(init, last, (r: FavoriteRow) => NotPair(r, userId, carId));
      CountSnoc(init, last, (r: FavoriteRow) => IsPair(r, userId, carId));
      CountSnoc(init, last, (r: FavoriteRow) => r.userId == userId);
      if NotPair(last, userId, carId) {
        CountSnoc(PairRemoved(init, userId, carId), last, (r: FavoriteRow) => r.userId == userId);
      } else {
        assert PairRemoved(init, userId, carId) + [] == PairRemoved(init, userId, carId);
      }
    }
  }

  /** Removing drops exactly the copies of the pair. */
  lemma {:induction false} RemovedLength(rows: seq<FavoriteRow>, userId: int, carId: int)
    ensures |PairRemoved(rows, userId, carId)| == |rows| - PairCount(rows, userId, carId)
  {
    if rows != [] {
      var init, last := rows[..|rows| - 1], rows[|rows| - 1];
      assert rows == init + [last];
      RemovedLength(init, userId, carId);
      FilterSnoc(init, last, (r: FavoriteRow) => NotPair(r, userId, carId));
      CountSnoc(init, last, (r: FavoriteRow) => IsPair(r, userId, carId));
    }
  }

  /** removeFromFavorites leaves no row of the pair, however many copies there
      were, and lowers the user's count and the table's size by the number of
      copies. */
  lemma RemovedSpec(rows: seq<FavoriteRow>, userId: int, carId: int)
    ensures PairCount(PairRemoved(rows, userId, carId), userId, carId) == 0
    ensures UserCount(PairRemoved(rows, userId, carId), userId)
      == UserCount(rows, userId) - PairCount(rows, userId, carId)
    ensures |PairRemoved(rows, userId, carId)| == |rows| - PairCount(rows, userId, carId)
  {
    RemovedNoPair(rows, userId, carId);
    RemovedUserCount(rows, userId, carId);
    RemovedLength(rows, userId, carId);
  }

  /** Removing keeps every copy of every row outside the pair. */
  lemma RemovedKeepsOthers(rows: seq<FavoriteRow>, userId: int, carId: int, x: FavoriteRow)
    requires !IsPair(x, userId, carId)
    ensures multiset(PairRemoved(rows, userId, carId))[x] == multiset(rows)[x]
  {
    FilterMultiset(rows, (r: FavoriteRow) => NotPair(r, userId, carId), x);
  }

  /** getMainImageUrl: the url of the first main CarImages row of the car. */
  function FirstMainUrl(images: seq<CarImagesService.CarImage>, carId: int): (u: Option<string>)
    ensures u.Some? ==> exists i :: (0 <= i < |images| && images[i].carId == carId && images[i].isMain
      && images[i].imageUrl == u.value)
    ensures u.None? ==> forall i :: 0 <= i < |images| ==> !(images[i].carId == carId && images[i].isMain)
  {
    if images == [] then None
    else if images[0].carId == carId && images[0].isMain then Some(images[0].imageUrl)
    else
      var u := FirstMainUrl(images[1..], carId);
      assert forall i :: 1 <= i < |images| ==> images[i] == images[1..][i - 1];
      u
  }

  /** The car as getFavoritesCars returns it: its picture replaced by the main
      CarImages url when that is present and non-empty. */
  function WithMainImage(c: Car, images: seq<CarImagesService.CarImage>): Car {
    match FirstMainUrl(images, c.id)
    case Some(u) => if u != "" then c.(imageUrl := Some(u)) else c
    case None => c
  }

  function NewestFirst(r: FavoriteRow): int {
    -r.createdAt
  }

  predicate CarKnown(r: FavoriteRow, cars: map<int, Car>) {
    r.carId in cars
  }

  /** The user's favorite rows whose car exists, newest first: the rows the
      INNER JOIN with Cars keeps, in ORDER BY f.created_at DESC. */
  function FavoriteRowsListed(rows: seq<FavoriteRow>, userId: int, cars: map<int, Car>): seq<FavoriteRow> {
    Filter(SortBy(Filter(rows, (r: FavoriteRow) => r.userId == userId), NewestFirst),
      (r: FavoriteRow) => CarKnown(r, cars))
  }

  /** getFavoritesCars: one car per listed favorite row. */
  function FavoriteCars(rows: seq<FavoriteRow>, userId: int, cars: map<int, Car>,
                        images: seq<CarImagesService.CarImage>): seq<Car>
  {
    var listed := FavoriteRowsListed(rows, userId, cars);
    seq(|listed|, i requires 0 <= i < |listed| =>
      assert CarKnown(listed[i], cars);
      WithMainImage(cars[listed[i].carId], images))
  }

  /** The listed rows are the user's rows with an existing car, every copy of
      each, newest first; entry i is the car of row i with the image override. */
  lemma FavoriteCarsSpec(rows: seq<FavoriteRow>, userId: int, cars: map<int, Car>,
                         images: seq<CarImagesService.CarImage>, x: FavoriteRow)
    ensures var listed := FavoriteRowsListed(rows, userId, cars);
      && multiset(listed)[x] == (if x.userId == userId && x.carId in cars then multiset(rows)[x] else 0)
      && (forall i, j :: 0 <= i < j < |listed| ==> listed[i].createdAt >= listed[j].createdAt)
      && |FavoriteCars(rows, userId, cars, images)| == |listed|
      && (forall i :: 0 <= i < |listed| ==> (listed[i].carId in cars
            && FavoriteCars(rows, userId, cars, images)[i] == WithMainImage(cars[listed[i].carId], images)))
  {
    var own := Filter(rows, (r: FavoriteRow) => r.userId == userId);
    var sorted := SortBy(own, NewestFirst);
    var listed := FavoriteRowsListed(rows, userId, cars);
    FilterMultiset(sorted, (r: FavoriteRow) => CarKnown(r, cars), x);
    FilterMultiset(rows, (r: FavoriteRow) => r.userId == userId, x);
    FilterSorted(sorted, (r: FavoriteRow) => CarKnown(r, cars), NewestFirst);
    forall i, j | 0 <= i < j < |listed| ensures listed[i].createdAt >= listed[j].createdAt {
      assert NewestFirst(listed[i]) <= NewestFirst(listed[j]);
    }
  }

  /** The picture override: every field but the picture is the car's own, and
      the picture is the main image url exactly when one is present and non-empty. */
  lemma WithMainImageSpec(c: Car, images: seq<CarImagesService.CarImage>)
    ensures var r := WithMainImage(c, images);
      && r == c.(imageUrl := r.imageUrl)
      && (match FirstMainUrl(images, c.id)
          case Some(u) => r.imageUrl == if u != "" then Some(u) else c.imageUrl
          case None => r.imageUrl == c.imageUrl)
  {
  }

  class FavoritesTable {
    var rows: seq<FavoriteRow>

    constructor ()
      ensures rows == []
    {
      rows := [];
    }

    /** addToFavorites: an INSERT with no duplicate check; false and no write
        when the connection is missing or the statement fails. */
    method AddToFavorites(userId: int, carId: int, now: int, up: bool) returns (ok: bool)
      modifies this
      ensures ok == up
      ensures rows == if up then old(rows) + [FavoriteRow(userId, carId, now)] else old(rows)
    {
      if !up {
        return false;
      }
      rows := rows + [FavoriteRow(userId, carId, now)];
      return true;
    }

    /** removeFromFavorites: deletes every row of the pair; true iff there was one. */
    method RemoveFromFavorites(userId: int, carId: int, up: bool) returns (ok: bool)
      modifies this
      ensures ok <==> up && PairCount(old(rows), userId, carId) > 0
      ensures rows == if up then PairRemoved(old(rows), userId, carId) else old(rows)
    {
      if !up {
        return false;
      }
      var before := |rows|;
      RemovedSpec(rows, userId, carId);
      rows := PairRemoved(rows, userId, carId);
      ok := |rows| < before;
    }

    /** isFavorite: COUNT(*) of the pair is positive; false on failure. */
    method IsFavorite(userId: int, carId: int, up: bool) returns (b: bool)
      ensures b <==> up && exists i :: 0 <= i < |rows| && IsPair(rows[i], userId, carId)
    {
      if !up {
        return false;
      }
      CountPositive(rows, (r: FavoriteRow) => IsPair(r, userId, carId));
      b := PairCount(rows, userId, carId) > 0;
    }

    /** getFavoritesCount; 0 on failure. */
    method GetFavoritesCount(userId: int, up: bool) returns (n: int)
      ensures n == if up then UserCount(rows, userId) else 0
    {
      n := 0;
      if up {
        n := UserCount(rows, userId);
      }
    }

    /** getFavoritesCars: the joined cars read into a list; empty on failure. */
    method GetFavoritesCars(userId: int, cars: map<int, Car>, images: seq<CarImagesService.CarImage>, up: bool)
      returns (list: seq<Car>)
      ensures list == if up then FavoriteCars(rows, userId, cars, images) else []
    {
      list := [];
      if up {
        list := ReadAll(FavoriteCars(rows, userId, cars, images));
      }
    }
  }
}
