/** CommentsService: the comments_ratings table, which holds comments and
    ratings side by side (a row may carry a comment, a rating, or both). */
module CommentsService {
  import opened Wrappers
  import opened Seqs

  /** One row of comments_ratings; a missing value is SQL NULL. */
  datatype CommentRow = CommentRow(
    id: int,
    carId: int,
    userId: int,
    rating: Option<int>,
    comment: Option<string>,
    createdAt: int)

  /** What getCommentsByCar hands to the screen (models.Comment). */
  datatype Comment = Comment(
    id: int,
    carId: int,
    userId: int,
    userName: string,
    commentText: string,
    createdAt: int)

  function Id(r: CommentRow): int {
    r.id
  }

  const MIN_RATING: int := 1
  const MAX_RATING: int := 5

  /** Rows of one (car, user) pair. */
  predicate OfPair(r: CommentRow, carId: int, userId: int) {
    r.carId == carId && r.userId == userId
  }

  predicate HasPairRow(rows: seq<CommentRow>, carId: int, userId: int) {
    exists i :: 0 <= i < |rows| && OfPair(rows[i], carId, userId)
  }

  // ---------------------------------------------------------------------
  // Specification of the statements

  /** addComment's INSERT: rating is left NULL. */
  function CommentAdded(rows: seq<CommentRow>, id: int, carId: int, userId: int, text: Option<string>, now: int)
    : seq<CommentRow>
  {
    rows + [CommentRow(id, carId, userId, None, text, now)]
  }

  /** setRating's UPDATE ... SET rating = ? WHERE car_id = ? AND user_id = ?. */
  function RatingUpdated(rows: seq<CommentRow>, carId: int, userId: int, rating: int): (r: seq<CommentRow>)
    ensures |r| == |rows|
    ensures forall i :: 0 <= i < |r| && OfPair(rows[i], carId, userId) ==> r[i] == rows[i].(rating := Some(rating))
    ensures forall i :: 0 <= i < |r| && !OfPair(rows[i], carId, userId) ==> r[i] == rows[i]
  {
    seq(|rows|, i requires 0 <= i < |rows| =>
      if OfPair(rows[i], carId, userId) then rows[i].(rating := Some(rating)) else rows[i])
  }

  /** The table after a successful setRating with a rating in range: the check
      query decides between updating every row of the pair and inserting one. */
  function Rated(rows: seq<CommentRow>, id: int, carId: int, userId: int, rating: int, now: int)
    : seq<CommentRow>
  {
    if HasPairRow(rows, carId, userId) then RatingUpdated(rows, carId, userId, rating)
    else rows + [CommentRow(id, carId, userId, Some(rating), None, now)]
  }

  /** getUserRating: the first non-NULL rating of the pair, 0 when there is none. */
  function UserRating(rows: seq<CommentRow>, carId: int, userId: int): (v: int)
    ensures v != 0 ==> exists i :: 0 <= i < |rows| && OfPair(rows[i], carId, userId) && rows[i].rating == Some(v)
    ensures (forall i :: 0 <= i < |rows| && OfPair(rows[i], carId, userId) ==> rows[i].rating.None?) ==> v == 0
  {
    if rows == [] then 0
    else if OfPair(rows[0], carId, userId) && rows[0].rating.Some? then rows[0].rating.value
    else
      var v := UserRating(rows[1..], carId, userId);
      assert forall i :: 1 <= i < |rows| ==> rows[i] == rows[1..][i - 1];
      v
  }

  /** getCommentsCount: rows of the car with a non-NULL comment. */
  function CommentsCount(rows: seq<CommentRow>, carId: int): nat {
    Count(rows, (r: CommentRow) => r.carId == carId && r.comment.Some?)
  }

  /** getRatingsCount: rows of the car with a non-NULL rating. */
  function RatingsCount(rows: seq<CommentRow>, carId: int): nat {
    Count(rows, (r: CommentRow) => r.carId == carId && r.rating.Some?)
  }

  /** Whether deleteComment's WHERE clause selects the row: the id, and the
      author too unless the caller is an administrator. */
  predicate DeleteSelects(r: CommentRow, commentId: int, userId: int, isAdmin: bool) {
    r.id == commentId && (isAdmin || r.userId == userId)
  }

  function CommentDeleted(rows: seq<CommentRow>, commentId: int, userId: int, isAdmin: bool): seq<CommentRow> {
    Filter(rows, (r: CommentRow) => !DeleteSelects(r, commentId, userId, isAdmin))
  }

  /** Whether a row is listed by getCommentsByCar: the car's row with a
      comment whose author is known to the join. */
  predicate Listed(r: CommentRow, carId: int, userNames: map<int, string>) {
    r.carId == carId && r.comment.Some? && r.userId in userNames
  }

  /** The listing a row is read into, with the author's user name. */
  function ListingOf(r: CommentRow, userNames: map<int, string>): Comment
    requires r.comment.Some? && r.userId in userNames
  {
    Comment(r.id, r.carId, r.userId, userNames[r.userId], r.comment.value, r.createdAt)
  }

  /** The rows that are read into the listing `c`. */
  function Yields(c: Comment, carId: int, userNames: map<int, string>): CommentRow -> bool {
    (r: CommentRow) => Listed(r, carId, userNames) && ListingOf(r, userNames) == c
  }

  /** getCommentsByCar before the ORDER BY: the car's commented rows joined with
      the author's user name; rows whose author is unknown drop out of the join. */
  function CommentsJoined(rows: seq<CommentRow>, carId: int, userNames: map<int, string>): (r: seq<Comment>)
    ensures |r| <= |rows|
    ensures forall i :: 0 <= i < |r| ==>
      (r[i].carId == carId && r[i].userId in userNames && r[i].userName == userNames[r[i].userId])
  {
    if rows == [] then []
    else
      var init, last := rows[..|rows| - 1], rows[|rows| - 1];
      CommentsJoined(init, carId, userNames)
        + if Listed(last, carId, userNames) then [ListingOf(last, userNames)] else []
  }

  function NewestFirst(c: Comment): int {
    -c.createdAt
  }

  /** ORDER BY created_at DESC. */
  function CommentsOfCar(rows: seq<CommentRow>, carId: int, userNames: map<int, string>): seq<Comment> {
    SortBy(CommentsJoined(rows, carId, userNames), NewestFirst)
  }

  // ---------------------------------------------------------------------
  // Properties

  /** setRating on a pair with no row inserts one row holding the rating and no comment. */
  lemma RatedInsertsOnce(rows: seq<CommentRow>, id: int, carId: int, userId: int, rating: int, now: int)
    requires !HasPairRow(rows, carId, userId)
    ensures Rated(rows, id, carId, userId, rating, now)
      == rows + [CommentRow(id, carId, userId, Some(rating), None, now)]
    ensures CommentsCount(Rated(rows, id, carId, userId, rating, now), carId) == CommentsCount(rows, carId)
  {
    CountSnoc(rows, CommentRow(id, carId, userId, Some(rating), None, now),
      (r: CommentRow) => r.carId == carId && r.comment.Some?);
  }

  /** setRating on a pair that has rows inserts nothing and writes the rating on
      every row of the pair, comment rows included; other rows are untouched. */
  lemma RatedUpdatesAll(rows: seq<CommentRow>, id: int, carId: int, userId: int, rating: int, now: int)
    requires HasPairRow(rows, carId, userId)
    ensures var r := Rated(rows, id, carId, userId, rating, now);
      && |r| == |rows|
      && (forall i :: 0 <= i < |r| && OfPair(rows[i], carId, userId) ==>
            r[i].rating == Some(rating) && r[i].comment == rows[i].comment && r[i].id == rows[i].id)
      && (forall i :: 0 <= i < |r| && !OfPair(rows[i], carId, userId) ==> r[i] == rows[i])
  {
  }

  /** After setRating(c, u, r), getUserRating(c, u) is r. */
  lemma {:induction false} RatedThenUserRating(rows: seq<CommentRow>, id: int, carId: int, userId: int, rating: int, now: int)
    requires MIN_RATING <= rating <= MAX_RATING
    ensures UserRating(Rated(rows, id, carId, userId, rating, now), carId, userId) == rating
  {
    var r := Rated(rows, id, carId, userId, rating, now);
    if HasPairRow(rows, carId, userId) {
      var k :| 0 <= k < |rows| && OfPair(rows[k], carId, userId);
      assert OfPair(r[k], carId, userId);
    } else {
      assert OfPair(r[|rows|], carId, userId);
    }
    forall i | 0 <= i < |r| && OfPair(r[i], carId, userId) ensures r[i].rating == Some(rating) {
    }
    EveryPairRowRated(r, carId, userId, rating);
  }

  /** When every row of the pair holds rating v and one exists, getUserRating is v. */
  lemma {:induction false} EveryPairRowRated(rows: seq<CommentRow>, carId: int, userId: int, v: int)
    requires HasPairRow(rows, carId, userId) && v != 0
    requires forall i :: 0 <= i < |rows| && OfPair(rows[i], carId, userId) ==> rows[i].rating == Some(v)
    ensures UserRating(rows, carId, userId) == v
  {
    if !OfPair(rows[0], carId, userId) {
      var k :| 0 <= k < |rows| && OfPair(rows[k], carId, userId);
      assert OfPair(rows[1..][k - 1], carId, userId);
      EveryPairRowRated(rows[1..], carId, userId, v);
    }
  }

  /** A second setRating with the same value changes nothing. */
  lemma RatedIdempotent(rows: seq<CommentRow>, id: int, id2: int, carId: int, userId: int, rating: int, now: int, now2: int)
    ensures var once := Rated(rows, id, carId, userId, rating, now);
      Rated(once, id2, carId, userId, rating, now2) == once
  {
    var once := Rated(rows, id, carId, userId, rating, now);
    assert OfPair(once[|once| - 1], carId, userId) || HasPairRow(rows, carId, userId);
    if !HasPairRow(rows, carId, userId) {
      assert OfPair(once[|rows|], carId, userId);
    }
    var twice := Rated(once, id2, carId, userId, rating, now2);
    assert |twice| == |once|;
    forall i | 0 <= i < |once| ensures twice[i] == once[i] {
      if OfPair(once[i], carId, userId) {
        assert once[i].rating == Some(rating);
      }
    }
  }

  /** Because the rating lands on every row of the pair, one user who commented
      twice and then rated once is counted as two ratings. */
  lemma RatingCountedPerRow()
    ensures var rows := [CommentRow(1, 7, 3, None, Some("Good"), 0), CommentRow(2, 7, 3, None, Some("Fast"), 1)];
      RatingsCount(Rated(rows, 3, 7, 3, 5, 2), 7) == 2
  {
    var rows := [CommentRow(1, 7, 3, None, Some("Good"), 0), CommentRow(2, 7, 3, None, Some("Fast"), 1)];
    assert OfPair(rows[0], 7, 3);
    var r := Rated(rows, 3, 7, 3, 5, 2);
    assert r == [rows[0].(rating := Some(5)), rows[1].(rating := Some(5))];
    assert r[..1] == [r[0]];
    assert r[..0] == [];
  }

  /** addComment appends one row with no rating and leaves existing rows alone. */
  lemma CommentAddedSpec(rows: seq<CommentRow>, id: int, carId: int, userId: int, text: string, now: int)
    ensures var r := CommentAdded(rows, id, carId, userId, Some(text), now);
      && r[..|rows|] == rows && |r| == |rows| + 1 && r[|rows|].rating.None?
      && CommentsCount(r, carId) == CommentsCount(rows, carId) + 1
      && RatingsCount(r, carId) == RatingsCount(rows, carId)
  {
    var x := CommentRow(id, carId, userId, None, Some(text), now);
    CountSnoc(rows, x, (r: CommentRow) => r.carId == carId && r.comment.Some?);
    CountSnoc(rows, x, (r: CommentRow) => r.carId == carId && r.rating.Some?);
  }

  /** deleteComment removes exactly the selected rows: with distinct ids at most
      one, and none when a non-administrator names someone else's comment. */
  lemma CommentDeletedSpec(rows: seq<CommentRow>, commentId: int, userId: int, isAdmin: bool)
    requires UniqueKeys(rows, Id)
    ensures var r := CommentDeleted(rows, commentId, userId, isAdmin);
      && (forall i :: 0 <= i < |r| ==> !DeleteSelects(r[i], commentId, userId, isAdmin))
      && |r| == |rows| - Count(rows, (x: CommentRow) => DeleteSelects(x, commentId, userId, isAdmin))
      && |rows| - 1 <= |r|
  {
    var p := (x: CommentRow) => !DeleteSelects(x, commentId, userId, isAdmin);
    var q := (x: CommentRow) => DeleteSelects(x, commentId, userId, isAdmin);
    ComplementCounts(rows, p, q);
    AtMostOneSelected(rows, commentId, userId, isAdmin);
  }

  lemma {:induction false} ComplementCounts(rows: seq<CommentRow>, p: CommentRow -> bool, q: CommentRow -> bool)
    requires forall x :: p(x) <==> !q(x)
    ensures |Filter(rows, p)| + Count(rows, q) == |rows|
  {
    if rows != [] {
      var init, last := rows[..|rows| - 1], rows[|rows| - 1];
      assert rows == init + [last];
      FilterSnoc(init, last, p);
      CountSnoc(init, last, q);
      ComplementCounts(init, p, q);
    }
  }

  lemma {:induction false} AtMostOneSelected(rows: seq<CommentRow>, commentId: int, userId: int, isAdmin: bool)
    requires UniqueKeys(rows, Id)
    ensures Count(rows, (x: CommentRow) => DeleteSelects(x, commentId, userId, isAdmin)) <= 1
  {
    var q := (x: CommentRow) => DeleteSelects(x, commentId, userId, isAdmin);
    if rows != [] {
      var init, last := rows[..|rows| - 1], rows[|rows| - 1];
      assert rows == init + [last];
      UniqueLast(init, last, Id);
      CountSnoc(init, last, q);
      AtMostOneSelected(init, commentId, userId, isAdmin);
      if q(last) {
        forall i | 0 <= i < |init| ensures !q(init[i]) {
          assert Id(init[i]) != Id(last);
        }
        CountPositive(init, q);
      }
    }
  }

  /** Each listing of the join occurs exactly as often as there are rows read
      into it: every listed row appears, and nothing else does. */
  lemma {:induction false} CommentsJoinedCounts(rows: seq<CommentRow>, carId: int, userNames: map<int, string>,
                                                c: Comment)
    ensures multiset(CommentsJoined(rows, carId, userNames))[c] == Count(rows, Yields(c, carId, userNames))
  {
    if rows != [] {
      var init, last := rows[..|rows| - 1], rows[|rows| - 1];
      assert rows == init + [last];
      CountSnoc(init, last, Yields(c, carId, userNames));
      CommentsJoinedCounts(init, carId, userNames, c);
    }
  }

  /** getCommentsByCar lists exactly the joined comments of the car, newest
      first, and never more of them than getCommentsCount counts. */
  lemma CommentsOfCarSpec(rows: seq<CommentRow>, carId: int, userNames: map<int, string>)
    ensures var r := CommentsOfCar(rows, carId, userNames);
      && multiset(r) == multiset(CommentsJoined(rows, carId, userNames))
      && (forall i :: 0 <= i < |r| ==> r[i].carId == carId && r[i].userId in userNames)
      && (forall i, j :: 0 <= i < j < |r| ==> r[i].createdAt >= r[j].createdAt)
      && |r| <= CommentsCount(rows, carId)
  {
    var joined := CommentsJoined(rows, carId, userNames);
    var r := SortBy(joined, NewestFirst);
    SubMultisetKeeps(r, joined, (c: Comment) => c.carId == carId && c.userId in userNames);
    forall i, j | 0 <= i < j < |r| ensures r[i].createdAt >= r[j].createdAt {
      assert NewestFirst(r[i]) <= NewestFirst(r[j]);
    }
    JoinedAtMostCount(rows, carId, userNames);
  }

  /** Every row of the car with a comment and a known author is listed by
      getCommentsByCar with its id, text, date and user name, exactly once
      when ids are unique; and every listing comes from such a row. */
  lemma CommentsOfCarComplete(rows: seq<CommentRow>, carId: int, userNames: map<int, string>, k: int)
    requires 0 <= k < |rows| && Listed(rows[k], carId, userNames)
    ensures multiset(CommentsOfCar(rows, carId, userNames))[ListingOf(rows[k], userNames)] >= 1
    ensures UniqueKeys(rows, Id) ==>
      multiset(CommentsOfCar(rows, carId, userNames))[ListingOf(rows[k], userNames)] == 1
    ensures forall c :: c in multiset(CommentsOfCar(rows, carId, userNames)) ==>
      exists i :: 0 <= i < |rows| && Listed(rows[i], carId, userNames) && ListingOf(rows[i], userNames) == c
  {
    var c := ListingOf(rows[k], userNames);
    var p := Yields(c, carId, userNames);
    CommentsJoinedCounts(rows, carId, userNames, c);
    assert p(rows[k]);
    CountPositive(rows, p);
    if UniqueKeys(rows, Id) {
      CountKeyAtMostOne(rows, Id, c.id, p);
    }
    forall c' | c' in multiset(CommentsOfCar(rows, carId, userNames))
      ensures exists i :: 0 <= i < |rows| && Listed(rows[i], carId, userNames) && ListingOf(rows[i], userNames) == c'
    {
      CommentsJoinedCounts(rows, carId, userNames, c');
      CountPositive(rows, Yields(c', carId, userNames));
      var i :| 0 <= i < |rows| && Yields(c', carId, userNames)(rows[i]);
    }
  }

  lemma {:induction false} JoinedAtMostCount(rows: seq<CommentRow>, carId: int, userNames: map<int, string>)
    ensures |CommentsJoined(rows, carId, userNames)| <= CommentsCount(rows, carId)
  {
    if rows != [] {
      var init, last := rows[..|rows| - 1], rows[|rows| - 1];
      assert rows == init + [last];
      CountSnoc(init, last, (r: CommentRow) => r.carId == carId && r.comment.Some?);
      JoinedAtMostCount(init, carId, userNames);
    }
  }

  // ---------------------------------------------------------------------
  // The table and the service's statements

  /** Deleting keeps the ids unique and below the next id, and shortens the
      table exactly when some row was selected. */
  lemma DeletedKeepsKeys(rows: seq<CommentRow>, nextId: int, commentId: int, userId: int, isAdmin: bool)
    requires UniqueKeys(rows, Id) && KeysBelow(rows, Id, nextId)
    ensures var r := CommentDeleted(rows, commentId, userId, isAdmin);
      && UniqueKeys(r, Id) && KeysBelow(r, Id, nextId)
      && (|r| < |rows| <==> exists i :: 0 <= i < |rows| && DeleteSelects(rows[i], commentId, userId, isAdmin))
  {
    var p := (r: CommentRow) => !DeleteSelects(r, commentId, userId, isAdmin);
    CommentDeletedSpec(rows, commentId, userId, isAdmin);
    FilterUnique(rows, p, Id);
    FilterBelow(rows, p, Id, nextId);
    CountPositive(rows, (r: CommentRow) => DeleteSelects(r, commentId, userId, isAdmin));
  }

  class CommentsTable {
    var rows: seq<CommentRow>
    var nextId: int

    ghost predicate Valid()
      reads this
    {
      UniqueKeys(rows, Id) && KeysBelow(rows, Id, nextId)
    }

    constructor ()
      ensures Valid() && rows == [] && nextId == 1
    {
      rows := [];
      nextId := 1;
    }

    /** addComment: true iff the row was inserted. */
    method AddComment(carId: int, userId: int, text: Option<string>, now: int, up: bool) returns (ok: bool)
      requires Valid()
      modifies this
      ensures Valid() && ok == up
      ensures rows == if up then CommentAdded(old(rows), old(nextId), carId, userId, text, now) else old(rows)
      ensures nextId == if up then old(nextId) + 1 else old(nextId)
    {
      if !up {
        return false;
      }
      AppendFresh(rows, CommentRow(nextId, carId, userId, None, text, now), Id, nextId);
      rows := rows + [CommentRow(nextId, carId, userId, None, text, now)];
      nextId := nextId + 1;
      return true;
    }

    /** getCommentsByCar: the joined, ordered result set read into a list. */
    method GetCommentsByCar(carId: int, userNames: map<int, string>, up: bool) returns (comments: seq<Comment>)
      ensures comments == if up then CommentsOfCar(rows, carId, userNames) else []
    {
      comments := [];
      if up {
        comments := ReadAll(CommentsOfCar(rows, carId, userNames));
      }
    }

    /** deleteComment: the statement depends on isAdmin; true iff a row went. */
    method DeleteComment(commentId: int, userId: int, isAdmin: bool, up: bool) returns (ok: bool)
      requires Valid()
      modifies this
      ensures Valid() && nextId == old(nextId)
      ensures ok <==> up && exists i :: 0 <= i < |old(rows)| && DeleteSelects(old(rows)[i], commentId, userId, isAdmin)
      ensures rows == if up then CommentDeleted(old(rows), commentId, userId, isAdmin) else old(rows)
    {
      ok := false;
      if up {
        var remaining := CommentDeleted(rows, commentId, userId, isAdmin);
        DeletedKeepsKeys(rows, nextId, commentId, userId, isAdmin);
        ok := |remaining| < |rows|;
        rows := remaining;
      }
    }

    /** getCommentsCount: 0 on failure. */
    method GetCommentsCount(carId: int, up: bool) returns (n: int)
      ensures n == if up then CommentsCount(rows, carId) else 0
    {
      n := 0;
      if up {
        n := Count(rows, (r: CommentRow) => r.carId == carId && r.comment.Some?);
      }
    }

    /** setRating: range check, then the check query, then UPDATE or INSERT. */
    method SetRating(carId: int, userId: int, rating: int, now: int, up: bool) returns (ok: bool)
      requires Valid()
      modifies this
      ensures Valid()
      ensures ok <==> up && MIN_RATING <= rating <= MAX_RATING
      ensures rows == if ok then Rated(old(rows), old(nextId), carId, userId, rating, now) else old(rows)
      ensures nextId == if ok && !HasPairRow(old(rows), carId, userId) then old(nextId) + 1 else old(nextId)
    {
      if rating < MIN_RATING || rating > MAX_RATING {
        return false;
      }
      if !up {
        return false;
      }
      if HasPairRow(rows, carId, userId) {
        rows := RatingUpdated(rows, carId, userId, rating);
        assert forall i :: 0 <= i < |rows| ==> rows[i].id == old(rows)[i].id;
      } else {
        AppendFresh(rows, CommentRow(nextId, carId, userId, Some(rating), None, now), Id, nextId);
        rows := rows + [CommentRow(nextId, carId, userId, Some(rating), None, now)];
        nextId := nextId + 1;
      }
      return true;
    }

    /** getUserRating: 0 when the pair has no rating or the query fails. */
    method GetUserRating(carId: int, userId: int, up: bool) returns (v: int)
      ensures v == if up then UserRating(rows, carId, userId) else 0
    {
      v := 0;
      if up {
        v := UserRating(rows, carId, userId);
      }
    }

    /** getRatingsCount: 0 on failure. */
    method GetRatingsCount(carId: int, up: bool) returns (n: int)
      ensures n == if up then RatingsCount(rows, carId) else 0
    {
      n := 0;
      if up {
        n := Count(rows, (r: CommentRow) => r.carId == carId && r.rating.Some?);
      }
    }
  }
}
