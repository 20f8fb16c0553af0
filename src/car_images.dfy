/** CarImagesService: the CarImages table (several photos per car, one of them
    flagged main, each with a display position) and the statements the service
    runs against it. `up` stands for "the connection and the statement
    succeeded"; `now` is the value GETDATE() would give the created_at default. */
module CarImagesService {
  import opened Wrappers
  import opened Seqs

  /** One row of CarImages. */
  datatype CarImage = CarImage(
    id: int,
    carId: int,
    imageUrl: string,
    isMain: bool,
    displayOrder: int,
    createdAt: int)

  /** The identity column. */
  function Id(x: CarImage): int {
    x.id
  }

  /** WHERE car_id = ?, in storage order. */
  function ImagesOf(rows: seq<CarImage>, carId: int): (r: seq<CarImage>)
    ensures forall i :: 0 <= i < |r| ==> r[i].carId == carId
    ensures multiset(r) <= multiset(rows)
  {
    Filter(rows, (x: CarImage) => x.carId == carId)
  }

  function MainRows(images: seq<CarImage>): (r: seq<CarImage>)
    ensures forall i :: 0 <= i < |r| ==> r[i].isMain
    ensures multiset(r) <= multiset(images)
  {
    Filter(images, (x: CarImage) => x.isMain)
  }

  function OtherRows(images: seq<CarImage>): (r: seq<CarImage>)
    ensures forall i :: 0 <= i < |r| ==> !r[i].isMain
    ensures multiset(r) <= multiset(images)
  {
    Filter(images, (x: CarImage) => !x.isMain)
  }

  function Order(x: CarImage): int {
    x.displayOrder
  }

  /** ORDER BY is_main DESC, display_order ASC over the car's rows. */
  function OrderedImages(rows: seq<CarImage>, carId: int): seq<CarImage> {
    var images := ImagesOf(rows, carId);
    SortBy(MainRows(images), Order) + SortBy(OtherRows(images), Order)
  }

  /** The ordered list holds exactly the car's rows, every main row before every
      other row, and ascending display_order within each of the two groups. */
  lemma OrderedImagesSpec(rows: seq<CarImage>, carId: int)
    ensures var r := OrderedImages(rows, carId);
      && multiset(r) == multiset(ImagesOf(rows, carId))
      && (forall i :: 0 <= i < |r| ==> r[i].carId == carId)
      && (forall i, j :: 0 <= i < j < |r| && r[j].isMain ==> r[i].isMain)
      && (forall i, j :: 0 <= i < j < |r| && r[i].isMain == r[j].isMain ==>
            r[i].displayOrder <= r[j].displayOrder)
  {
    var images := ImagesOf(rows, carId);
    MainOtherSplit(images);
    SortedGroups(images, carId, SortBy(MainRows(images), Order), SortBy(OtherRows(images), Order));
  }

  lemma SortedGroups(images: seq<CarImage>, carId: int, m: seq<CarImage>, o: seq<CarImage>)
    requires forall i :: 0 <= i < |images| ==> images[i].carId == carId
    requires multiset(MainRows(images)) + multiset(OtherRows(images)) == multiset(images)
    requires multiset(m) == multiset(MainRows(images)) && SortedBy(m, Order)
    requires multiset(o) == multiset(OtherRows(images)) && SortedBy(o, Order)
    ensures var r := m + o;
      && multiset(r) == multiset(images)
      && (forall i :: 0 <= i < |r| ==> r[i].carId == carId)
      && (forall i, j :: 0 <= i < j < |r| && r[j].isMain ==> r[i].isMain)
      && (forall i, j :: 0 <= i < j < |r| && r[i].isMain == r[j].isMain ==>
            r[i].displayOrder <= r[j].displayOrder)
  {
    SubMultisetKeeps(m + o, images, (x: CarImage) => x.carId == carId);
    SubMultisetKeeps(m, MainRows(images), (x: CarImage) => x.isMain);
    SubMultisetKeeps(o, OtherRows(images), (x: CarImage) => !x.isMain);
    GroupsConcat(m, o);
  }

  /** Main rows sorted by position followed by the other rows sorted by position
      is main-first and ascending within each group. */
  lemma GroupsConcat(m: seq<CarImage>, o: seq<CarImage>)
    requires forall i :: 0 <= i < |m| ==> m[i].isMain
    requires forall i :: 0 <= i < |o| ==> !o[i].isMain
    requires SortedBy(m, Order) && SortedBy(o, Order)
    ensures var r := m + o;
      && (forall i, j :: 0 <= i < j < |r| && r[j].isMain ==> r[i].isMain)
      && (forall i, j :: 0 <= i < j < |r| && r[i].isMain == r[j].isMain ==>
            r[i].displayOrder <= r[j].displayOrder)
  {
    var r := m + o;
    forall i, j | 0 <= i < j < |r| && r[i].isMain == r[j].isMain
      ensures r[i].displayOrder <= r[j].displayOrder
    {
      if j < |m| {
        assert Order(m[i]) <= Order(m[j]);
      } else if i >= |m| {
        assert Order(o[i - |m|]) <= Order(o[j - |m|]);
      }
    }
  }

  /** Splitting the car's rows by the flag loses and duplicates nothing. */
  lemma {:induction false} MainOtherSplit(images: seq<CarImage>)
    ensures multiset(MainRows(images)) + multiset(OtherRows(images)) == multiset(images)
  {
    if images != [] {
      var init, last := images[..|images| - 1], images[|images| - 1];
      assert images == init + [last];
      FilterSnoc(init, last, (x: CarImage) => x.isMain);
      FilterSnoc(init, last, (x: CarImage) => !x.isMain);
      MainOtherSplit(init);
    }
  }

  /** ISNULL(MAX(display_order), 0) before the + 1: None when the car has no rows. */
  function MaxOrder(rows: seq<CarImage>, carId: int): (m: Option<int>)
    ensures m.None? <==> forall i :: 0 <= i < |rows| ==> rows[i].carId != carId
    ensures m.Some? ==>
      (forall i :: 0 <= i < |rows| && rows[i].carId == carId ==> rows[i].displayOrder <= m.value)
      && exists i :: 0 <= i < |rows| && rows[i].carId == carId && rows[i].displayOrder == m.value
  {
    if rows == [] then None
    else
      var init, last := rows[..|rows| - 1], rows[|rows| - 1];
      assert rows == init + [last];
      var m := MaxOrder(init, carId);
      if last.carId != carId then m
      else if m.Some? && m.value >= last.displayOrder then m
      else Some(last.displayOrder)
  }

  /** getNextDisplayOrder's query: one past the largest display_order of the car, 1 for none. */
  function NextDisplayOrder(rows: seq<CarImage>, carId: int): int {
    match MaxOrder(rows, carId)
    case None => 1
    case Some(m) => m + 1
  }

  /** The next position is above every position of the car, and it is exactly
      one past a position in use, or 1 when the car has no photo. */
  lemma NextDisplayOrderSpec(rows: seq<CarImage>, carId: int)
    ensures forall i :: 0 <= i < |rows| && rows[i].carId == carId ==>
      rows[i].displayOrder < NextDisplayOrder(rows, carId)
    ensures (forall i :: 0 <= i < |rows| ==> rows[i].carId != carId) ==> NextDisplayOrder(rows, carId) == 1
    ensures (exists i :: 0 <= i < |rows| && rows[i].carId == carId) ==>
      exists i :: 0 <= i < |rows| && rows[i].carId == carId
        && rows[i].displayOrder == NextDisplayOrder(rows, carId) - 1
  {
  }

  /** Two rows that differ at most in the main flag. */
  predicate SameButFlag(a: CarImage, b: CarImage) {
    a.(isMain := b.isMain) == b
  }

  /** resetMainFlag's UPDATE ... SET is_main = 0 WHERE car_id = ?. */
  function ResetMain(rows: seq<CarImage>, carId: int): (r: seq<CarImage>)
    ensures |r| == |rows|
    ensures forall i :: 0 <= i < |r| && r[i].carId == carId ==> !r[i].isMain
    ensures forall i :: 0 <= i < |r| && rows[i].carId != carId ==> r[i] == rows[i]
    ensures forall i :: 0 <= i < |r| ==> SameButFlag(r[i], rows[i])
  {
    seq(|rows|, i requires 0 <= i < |rows| =>
      if rows[i].carId == carId then rows[i].(isMain := false) else rows[i])
  }

  /** Clearing the flag moves no row and changes no position. */
  lemma ResetMainKeepsOrders(rows: seq<CarImage>, carId: int, other: int)
    ensures MaxOrder(ResetMain(rows, carId), other) == MaxOrder(rows, other)
  {
    var r := ResetMain(rows, carId);
    assert forall i :: 0 <= i < |r| ==>
      r[i].carId == rows[i].carId && r[i].displayOrder == rows[i].displayOrder;
    var a, b := MaxOrder(r, other), MaxOrder(rows, other);
    if a.Some? && b.Some? {
      var i :| 0 <= i < |r| && r[i].carId == other && r[i].displayOrder == a.value;
      var j :| 0 <= j < |rows| && rows[j].carId == other && rows[j].displayOrder == b.value;
      assert a.value <= b.value;
      assert b.value <= a.value;
    }
  }

  /** The table after addImage: the car's flags cleared first when the new photo
      is main, then one row appended at the next display position. */
  function AddedRows(rows: seq<CarImage>, id: int, carId: int, url: string, isMain: bool, now: int)
    : seq<CarImage>
  {
    var before := if isMain then ResetMain(rows, carId) else rows;
    before + [CarImage(id, carId, url, isMain, NextDisplayOrder(before, carId), now)]
  }

  /** addImage appends exactly one row, of that car and at the next position. A
      main photo becomes the car's only main row; a non-main photo leaves every
      existing row, and so every flag, as it was. */
  lemma AddedRowsSpec(rows: seq<CarImage>, id: int, carId: int, url: string, isMain: bool, now: int)
    ensures var r := AddedRows(rows, id, carId, url, isMain, now);
      && |r| == |rows| + 1
      && r[|rows|] == CarImage(id, carId, url, isMain, NextDisplayOrder(rows, carId), now)
      && (forall i :: 0 <= i < |rows| && rows[i].carId == carId ==>
            r[i].displayOrder < r[|rows|].displayOrder)
      && (isMain ==> forall i :: 0 <= i < |r| && r[i].carId == carId && r[i].isMain ==> i == |rows|)
      && (isMain ==> forall i :: 0 <= i < |rows| && rows[i].carId != carId ==> r[i] == rows[i])
      && (!isMain ==> r[..|rows|] == rows)
      && (forall i :: 0 <= i < |rows| ==> SameButFlag(r[i], rows[i]))
  {
    if isMain {
      ResetMainKeepsOrders(rows, carId, carId);
    }
    NextDisplayOrderSpec(rows, carId);
  }

  /** The part of AddedRowsSpec that repeated additions rely on: the new row's
      identity, car, url and flag, and what happens to the old rows. */
  lemma AddedRowsShape(rows: seq<CarImage>, id: int, carId: int, url: string, isMain: bool, now: int)
    ensures var r := AddedRows(rows, id, carId, url, isMain, now);
      && |r| == |rows| + 1
      && r[|rows|].id == id && r[|rows|].carId == carId && r[|rows|].imageUrl == url && r[|rows|].isMain == isMain
      && (forall i :: 0 <= i < |rows| ==> SameButFlag(r[i], rows[i]))
      && (forall i :: 0 <= i < |rows| && rows[i].carId != carId ==> r[i] == rows[i])
      && (isMain ==> forall i :: 0 <= i < |rows| && r[i].carId == carId ==> !r[i].isMain)
      && (!isMain ==> r[..|rows|] == rows)
  {
    AddedRowsSpec(rows, id, carId, url, isMain, now);
  }

  /** Several photos added one after the other, each with its own main flag,
      the k-th taking identity id + k. */
  function AddedInOrder(rows: seq<CarImage>, id: int, carId: int, photos: seq<(string, bool)>, now: int)
    : (r: seq<CarImage>)
    ensures |r| == |rows| + |photos|
  {
    if photos == [] then rows
    else
      AddedRows(AddedInOrder(rows, id, carId, photos[..|photos| - 1], now), id + |photos| - 1, carId,
                photos[|photos| - 1].0, photos[|photos| - 1].1, now)
  }

  lemma AddedInOrderLast(rows: seq<CarImage>, id: int, carId: int, photos: seq<(string, bool)>, now: int)
    requires photos != []
    ensures AddedInOrder(rows, id, carId, photos, now)
         == AddedRows(AddedInOrder(rows, id, carId, photos[..|photos| - 1], now), id + |photos| - 1, carId,
                      photos[|photos| - 1].0, photos[|photos| - 1].1, now)
  {
  }

  lemma AddedInOrderCongruent(rows: seq<CarImage>, id: int, carId: int, p: seq<(string, bool)>,
                              q: seq<(string, bool)>, now: int)
    requires p == q
    ensures AddedInOrder(rows, id, carId, p, now) == AddedInOrder(rows, id, carId, q, now)
  {
  }

  lemma AddedRowsCongruent(a: seq<CarImage>, b: seq<CarImage>, id: int, carId: int, p: seq<(string, bool)>, n: int,
                           last: (string, bool), now: int)
    requires a == b && p != [] && |p| - 1 == n && p[|p| - 1] == last
    ensures AddedRows(a, id + |p| - 1, carId, p[|p| - 1].0, p[|p| - 1].1, now)
         == AddedRows(b, id + n, carId, last.0, last.1, now)
  {
  }

  /** Adding photos p is adding all but its last (giving `before`), then the
      last with the next identity (giving `after`). Each step is a lemma of its
      own: together in one context the solver unfolds every addImage along the
      way. */
  lemma AddedInOrderSnoc(rows: seq<CarImage>, id: int, carId: int, p: seq<(string, bool)>,
                         init: seq<(string, bool)>, last: (string, bool), n: int, now: int,
                         before: seq<CarImage>, after: seq<CarImage>)
    requires p != [] && p[..|p| - 1] == init && p[|p| - 1] == last && n == |init|
    requires before == AddedInOrder(rows, id, carId, init, now)
    requires after == AddedRows(before, id + n, carId, last.0, last.1, now)
    ensures after == AddedInOrder(rows, id, carId, p, now)
  {
    AddedInOrderLast(rows, id, carId, p, now);
    AddedInOrderCongruent(rows, id, carId, p[..|p| - 1], init, now);
    AddedRowsCongruent(AddedInOrder(rows, id, carId, p[..|p| - 1], now), before, id, carId, p, n, last, now);
  }

  lemma PrefixOfPrefix<T>(s: seq<T>, k: int)
    requires 0 <= k < |s|
    ensures s[..k + 1] != [] && s[..k + 1][..|s[..k + 1]| - 1] == s[..k] && s[..k + 1][|s[..k + 1]| - 1] == s[k]
    ensures |s[..k]| == k
  {
  }

  /** Adding the first k+1 photos is adding the first k, then photo k. */
  lemma AddedInOrderPrefix(rows: seq<CarImage>, id: int, carId: int, photos: seq<(string, bool)>, k: int, now: int,
                           before: seq<CarImage>, after: seq<CarImage>)
    requires 0 <= k < |photos|
    requires before == AddedInOrder(rows, id, carId, photos[..k], now)
    requires after == AddedRows(before, id + k, carId, photos[k].0, photos[k].1, now)
    ensures after == AddedInOrder(rows, id, carId, photos[..k + 1], now)
  {
    PrefixOfPrefix(photos, k);
    AddedInOrderSnoc(rows, id, carId, photos[..k + 1], photos[..k], photos[k], k, now, before, after);
  }

  lemma AddedInOrderWhole(rows: seq<CarImage>, id: int, carId: int, photos: seq<(string, bool)>, now: int,
                          r: seq<CarImage>)
    requires r == AddedInOrder(rows, id, carId, photos[..|photos|], now)
    ensures r == AddedInOrder(rows, id, carId, photos, now)
  {
    assert photos[..|photos|] == photos;
  }

  /** The position of the last photo flagged main, -1 when none is. */
  function LastMain(photos: seq<(string, bool)>): (k: int)
    ensures -1 <= k < |photos|
    ensures k >= 0 ==> photos[k].1
    ensures forall j :: k < j < |photos| ==> !photos[j].1
  {
    if photos == [] then -1
    else if photos[|photos| - 1].1 then |photos| - 1
    else LastMain(photos[..|photos| - 1])
  }

  /** The facts AddedInOrderRows states, for rows r grown from rows by photos. */
  predicate GrownRows(rows: seq<CarImage>, r: seq<CarImage>, id: int, carId: int, photos: seq<(string, bool)>) {
    && |r| == |rows| + |photos|
    && (forall i :: |rows| <= i < |r| ==>
          r[i].imageUrl == photos[i - |rows|].0 && r[i].carId == carId && r[i].id == id + i - |rows|)
    && (forall i :: 0 <= i < |rows| ==> SameButFlag(r[i], rows[i]))
    && (forall i :: 0 <= i < |rows| && rows[i].carId != carId ==> r[i] == rows[i])
  }

  /** One more photo keeps GrownRows. */
  lemma GrownRowsStep(rows: seq<CarImage>, prev: seq<CarImage>, r: seq<CarImage>, id: int, carId: int,
                      photos: seq<(string, bool)>)
    requires photos != []
    requires GrownRows(rows, prev, id, carId, photos[..|photos| - 1])
    requires |r| == |prev| + 1
    requires forall i :: 0 <= i < |prev| ==> SameButFlag(r[i], prev[i])
    requires forall i :: 0 <= i < |prev| && prev[i].carId != carId ==> r[i] == prev[i]
    requires r[|prev|].imageUrl == photos[|photos| - 1].0 && r[|prev|].carId == carId
    requires r[|prev|].id == id + |photos| - 1
    ensures GrownRows(rows, r, id, carId, photos)
  {
    var n := |photos| - 1;
    forall i | |rows| <= i < |r|
      ensures r[i].imageUrl == photos[i - |rows|].0 && r[i].carId == carId && r[i].id == id + i - |rows|
    {
      if i < |prev| {
        assert SameButFlag(r[i], prev[i]);
        assert photos[..n][i - |rows|] == photos[i - |rows|];
      }
    }
    forall i | 0 <= i < |rows| ensures SameButFlag(r[i], rows[i]) {
      assert SameButFlag(r[i], prev[i]) && SameButFlag(prev[i], rows[i]);
    }
  }

  /** Adding photos in order appends one row per photo, with its url and the
      next identity; rows of other cars are untouched and old rows keep all
      but the flag. */
  lemma {:induction false} AddedInOrderRows(rows: seq<CarImage>, id: int, carId: int,
                                            photos: seq<(string, bool)>, now: int)
    ensures GrownRows(rows, AddedInOrder(rows, id, carId, photos, now), id, carId, photos)
  {
    if photos != [] {
      var n := |photos| - 1;
      var prev := AddedInOrder(rows, id, carId, photos[..n], now);
      AddedInOrderRows(rows, id, carId, photos[..n], now);
      GrownRowsAdded(rows, prev, id, carId, photos, now);
    }
  }

  lemma GrownRowsAdded(rows: seq<CarImage>, prev: seq<CarImage>, id: int, carId: int,
                       photos: seq<(string, bool)>, now: int)
    requires photos != []
    requires GrownRows(rows, prev, id, carId, photos[..|photos| - 1])
    ensures GrownRows(rows, AddedRows(prev, id + |photos| - 1, carId, photos[|photos| - 1].0,
                                      photos[|photos| - 1].1, now), id, carId, photos)
  {
    var r := AddedRows(prev, id + |photos| - 1, carId, photos[|photos| - 1].0, photos[|photos| - 1].1, now);
    AddedRowsShape(prev, id + |photos| - 1, carId, photos[|photos| - 1].0, photos[|photos| - 1].1, now);
    GrownRowsStep(rows, prev, r, id, carId, photos);
  }

  /** The flag facts AddedInOrderMain states. */
  predicate MainsAfter(rows: seq<CarImage>, r: seq<CarImage>, carId: int, last: int) {
    && (last >= 0 ==> forall i :: 0 <= i < |r| && r[i].carId == carId ==> (r[i].isMain <==> i == |rows| + last))
    && (last < 0 ==> |rows| <= |r| && r[..|rows|] == rows && forall i :: |rows| <= i < |r| ==> !r[i].isMain)
  }

  /** A main photo leaves its own row as the car's only main row. */
  lemma MainsAfterMain(rows: seq<CarImage>, prev: seq<CarImage>, r: seq<CarImage>, carId: int, last: int)
    requires last >= 0 && |prev| == |rows| + last && |r| == |prev| + 1
    requires r[|prev|].isMain
    requires forall i :: 0 <= i < |prev| && r[i].carId == carId ==> !r[i].isMain
    ensures MainsAfter(rows, r, carId, last)
  {
  }

  /** A non-main photo keeps MainsAfter. */
  lemma MainsAfterPlain(rows: seq<CarImage>, prev: seq<CarImage>, r: seq<CarImage>, carId: int, last: int)
    requires |rows| <= |prev| && last < |prev| - |rows|
    requires MainsAfter(rows, prev, carId, last)
    requires |r| == |prev| + 1 && r[..|prev|] == prev && !r[|prev|].isMain
    ensures MainsAfter(rows, r, carId, last)
  {
    assert forall i :: 0 <= i < |prev| ==> r[i] == prev[i];
    if last < 0 {
      assert r[..|rows|] == prev[..|rows|];
    }
  }

  /** Every main photo clears the car's flags first, so when any photo was
      flagged the car ends with exactly one main row, that of the last photo
      flagged; when none was, the old rows stay exactly as they were and no
      new row is main. */
  lemma {:induction false} AddedInOrderMain(rows: seq<CarImage>, id: int, carId: int,
                                            photos: seq<(string, bool)>, now: int)
    ensures MainsAfter(rows, AddedInOrder(rows, id, carId, photos, now), carId, LastMain(photos))
    decreases |photos|, 1
  {
    if photos == [] {
    } else if photos[|photos| - 1].1 {
      AddedInOrderLastFlagged(rows, id, carId, photos, now);
    } else {
      AddedInOrderLastPlain(rows, id, carId, photos, now);
    }
  }

  lemma AddedInOrderLastFlagged(rows: seq<CarImage>, id: int, carId: int,
                                photos: seq<(string, bool)>, now: int)
    requires photos != [] && photos[|photos| - 1].1
    ensures MainsAfter(rows, AddedInOrder(rows, id, carId, photos, now), carId, LastMain(photos))
  {
    var n := |photos| - 1;
    var prev := AddedInOrder(rows, id, carId, photos[..n], now);
    var r := AddedRows(prev, id + n, carId, photos[n].0, photos[n].1, now);
    AddedRowsShape(prev, id + n, carId, photos[n].0, photos[n].1, now);
    MainsAfterMain(rows, prev, r, carId, n);
  }

  lemma {:induction false} AddedInOrderLastPlain(rows: seq<CarImage>, id: int, carId: int,
                                                 photos: seq<(string, bool)>, now: int)
    requires photos != [] && !photos[|photos| - 1].1
    ensures MainsAfter(rows, AddedInOrder(rows, id, carId, photos, now), carId, LastMain(photos))
    decreases |photos|, 0
  {
    var init := photos[..|photos| - 1];
    var prev := AddedInOrder(rows, id, carId, init, now);
    AddedInOrderMain(rows, id, carId, init, now);
    assert LastMain(photos) == LastMain(init);
    PlainAdded(rows, prev, id, carId, photos, now);
  }

  lemma PlainAdded(rows: seq<CarImage>, prev: seq<CarImage>, id: int, carId: int,
                   photos: seq<(string, bool)>, now: int)
    requires photos != [] && !photos[|photos| - 1].1
    requires |prev| == |rows| + |photos| - 1
    requires MainsAfter(rows, prev, carId, LastMain(photos[..|photos| - 1]))
    ensures MainsAfter(rows, AddedRows(prev, id + |photos| - 1, carId, photos[|photos| - 1].0,
                                       photos[|photos| - 1].1, now), carId, LastMain(photos[..|photos| - 1]))
  {
    var r := AddedRows(prev, id + |photos| - 1, carId, photos[|photos| - 1].0, photos[|photos| - 1].1, now);
    AddedRowsShape(prev, id + |photos| - 1, carId, photos[|photos| - 1].0, photos[|photos| - 1].1, now);
    MainsAfterPlain(rows, prev, r, carId, LastMain(photos[..|photos| - 1]));
  }

  /** getCarIdByImageId: the car of the row with that id, -1 when there is none. */
  function CarIdOf(rows: seq<CarImage>, imageId: int): (c: int)
    ensures c != -1 ==> exists i :: 0 <= i < |rows| && rows[i].id == imageId && rows[i].carId == c
    ensures !HasKey(rows, Id, imageId) ==> c == -1
    ensures UniqueKeys(rows, Id) ==> forall i :: 0 <= i < |rows| && rows[i].id == imageId ==> rows[i].carId == c
  {
    if rows == [] then -1
    else if rows[0].id == imageId then rows[0].carId
    else
      var c := CarIdOf(rows[1..], imageId);
      assert forall i :: 1 <= i < |rows| ==> rows[i] == rows[1..][i - 1];
      c
  }

  /** UPDATE CarImages SET is_main = 1 WHERE id = ?. */
  function SetMainFlag(rows: seq<CarImage>, imageId: int): (r: seq<CarImage>)
    ensures |r| == |rows|
    ensures forall i :: 0 <= i < |r| && rows[i].id == imageId ==> r[i].isMain
    ensures forall i :: 0 <= i < |r| && rows[i].id != imageId ==> r[i] == rows[i]
    ensures forall i :: 0 <= i < |r| ==> SameButFlag(r[i], rows[i])
  {
    seq(|rows|, i requires 0 <= i < |rows| =>
      if rows[i].id == imageId then rows[i].(isMain := true) else rows[i])
  }

  /** The table after a fully successful setMainImage. */
  function MainSetRows(rows: seq<CarImage>, imageId: int): seq<CarImage> {
    var c := CarIdOf(rows, imageId);
    if c == -1 then rows else SetMainFlag(ResetMain(rows, c), imageId)
  }

  /** setMainImage on an existing photo leaves that photo the only main row of
      its car and touches no row of another car. */
  lemma MainSetRowsSpec(rows: seq<CarImage>, k: int)
    requires UniqueKeys(rows, Id) && 0 <= k < |rows| && rows[k].carId != -1
    ensures var r := MainSetRows(rows, rows[k].id);
      && |r| == |rows| && r[k].isMain
      && (forall i :: 0 <= i < |r| && i != k && rows[i].carId == rows[k].carId ==> !r[i].isMain)
      && (forall i :: 0 <= i < |r| && rows[i].carId != rows[k].carId ==> r[i] == rows[i])
      && (forall i :: 0 <= i < |r| ==> r[i].id == rows[i].id && r[i].carId == rows[i].carId)
  {
    assert CarIdOf(rows, rows[k].id) == rows[k].carId;
  }

  /** setMainImage on an id with no row changes nothing. */
  lemma MainSetRowsUnknown(rows: seq<CarImage>, imageId: int)
    requires !HasKey(rows, Id, imageId)
    ensures MainSetRows(rows, imageId) == rows
  {
  }

  /** DELETE FROM CarImages WHERE id = ?. */
  function DeletedRows(rows: seq<CarImage>, imageId: int): (r: seq<CarImage>)
    ensures forall i :: 0 <= i < |r| ==> r[i].id != imageId
    ensures multiset(r) <= multiset(rows)
  {
    Filter(rows, (x: CarImage) => x.id != imageId)
  }

  /** With distinct ids, deleting an existing id removes exactly one row and an
      unknown id removes none. */
  lemma DeletedRowsCount(rows: seq<CarImage>, imageId: int)
    requires UniqueKeys(rows, Id)
    ensures |DeletedRows(rows, imageId)| == if HasKey(rows, Id, imageId) then |rows| - 1 else |rows|
  {
    FilterOutKey(rows, Id, imageId, (x: CarImage) => x.id != imageId);
  }

  /** Whether a row is photo `imageId` of car `carId`. */
  predicate IsPhotoOf(x: CarImage, imageId: int, carId: int) {
    x.id == imageId && x.carId == carId
  }

  /** Deleting an id takes from a car exactly the rows of that car with the id. */
  lemma DeletedImagesCount(rows: seq<CarImage>, imageId: int, carId: int)
    ensures |ImagesOf(DeletedRows(rows, imageId), carId)|
      + Count(rows, (x: CarImage) => IsPhotoOf(x, imageId, carId)) == |ImagesOf(rows, carId)|
  {
    FilterTwiceCount(rows, (x: CarImage) => x.id != imageId, (x: CarImage) => x.carId == carId,
      (x: CarImage) => IsPhotoOf(x, imageId, carId));
  }

  /** When every main row of a car has the deleted id, none is left. */
  lemma NoMainLeft(rows: seq<CarImage>, imageId: int, carId: int)
    requires forall i :: 0 <= i < |rows| && rows[i].carId == carId && rows[i].isMain ==> rows[i].id == imageId
    ensures MainRows(ImagesOf(DeletedRows(rows, imageId), carId)) == []
  {
    var d := DeletedRows(rows, imageId);
    var images := ImagesOf(d, carId);
    SubMultisetKeeps(images, d, (x: CarImage) => x.id != imageId);
    SubMultisetKeeps(images, rows, (x: CarImage) => !(x.carId == carId && x.isMain && x.id != imageId));
    FilterNone(images, (x: CarImage) => x.isMain);
  }

  /** The service's delete neither refuses the last photo of a car nor promotes
      another photo: with distinct ids, deleting any photo leaves its car one
      photo fewer (none after its only photo), and deleting the car's only main
      photo leaves the car with no main photo. */
  lemma DeleteDoesNotPromote(rows: seq<CarImage>, k: int)
    requires UniqueKeys(rows, Id) && 0 <= k < |rows|
    ensures |ImagesOf(DeletedRows(rows, rows[k].id), rows[k].carId)| == |ImagesOf(rows, rows[k].carId)| - 1
    ensures rows[k].isMain
      && (forall i :: 0 <= i < |rows| && i != k && rows[i].carId == rows[k].carId ==> !rows[i].isMain)
      ==> MainRows(ImagesOf(DeletedRows(rows, rows[k].id), rows[k].carId)) == []
  {
    var id, c := rows[k].id, rows[k].carId;
    var p := (x: CarImage) => IsPhotoOf(x, id, c);
    DeletedImagesCount(rows, id, c);
    assert p(rows[k]);
    CountPositive(rows, p);
    CountKeyAtMostOne(rows, Id, id, p);
    if forall i :: 0 <= i < |rows| && i != k && rows[i].carId == c ==> !rows[i].isMain {
      NoMainLeft(rows, id, c);
    }
  }

  /** getMainImage's two queries: a main row's url; otherwise the url of the
      lowest display_order row; otherwise null. */
  function MainImageUrl(rows: seq<CarImage>, carId: int): Option<string> {
    var images := ImagesOf(rows, carId);
    var mains := MainRows(images);
    if mains != [] then Some(mains[0].imageUrl)
    else
      var sorted := SortBy(images, Order);
      if sorted == [] then None else Some(sorted[0].imageUrl)
  }

  /** A row of the car is in the car's result set. */
  lemma CarRowSelected(rows: seq<CarImage>, carId: int, k: int)
    requires 0 <= k < |rows| && rows[k].carId == carId
    ensures rows[k] in ImagesOf(rows, carId)
  {
    FilterKeeps(rows, (x: CarImage) => x.carId == carId, k);
  }

  /** Whatever the car's result set holds is a stored row of the car. */
  lemma SelectedIsCarRow(rows: seq<CarImage>, carId: int, x: CarImage)
    requires x in multiset(ImagesOf(rows, carId))
    ensures x.carId == carId
    ensures exists k :: 0 <= k < |rows| && rows[k] == x
  {
    assert x in multiset(rows);
  }

  /** getMainImage returns null exactly when the car has no photo. */
  lemma MainImageUrlNone(rows: seq<CarImage>, carId: int)
    ensures MainImageUrl(rows, carId).None? <==> forall i :: 0 <= i < |rows| ==> rows[i].carId != carId
  {
    var images := ImagesOf(rows, carId);
    if MainImageUrl(rows, carId).None? {
      assert |SortBy(images, Order)| == 0;
      forall i | 0 <= i < |rows| ensures rows[i].carId != carId {
        if rows[i].carId == carId {
          CarRowSelected(rows, carId, i);
        }
      }
    } else if images != [] {
      SelectedIsCarRow(rows, carId, images[0]);
    }
  }

  /** When the car has a main photo, getMainImage returns the url of one. */
  lemma MainImageUrlMain(rows: seq<CarImage>, carId: int, k: int)
    requires 0 <= k < |rows| && rows[k].carId == carId && rows[k].isMain
    ensures exists i :: (0 <= i < |rows| && rows[i].carId == carId && rows[i].isMain
      && MainImageUrl(rows, carId) == Some(rows[i].imageUrl))
  {
    var images := ImagesOf(rows, carId);
    CarRowSelected(rows, carId, k);
    var j :| 0 <= j < |images| && images[j] == rows[k];
    FilterKeeps(images, (x: CarImage) => x.isMain, j);
    var mains := MainRows(images);
    assert mains[0] in multiset(images);
    SelectedIsCarRow(rows, carId, mains[0]);
  }

  /** The first of the car's rows sorted by display_order has the lowest
      display_order of the car. */
  lemma SortedFirstLowest(rows: seq<CarImage>, carId: int, j: int)
    requires 0 <= j < |rows| && rows[j].carId == carId
    ensures var sorted := SortBy(ImagesOf(rows, carId), Order);
      sorted != [] && sorted[0].displayOrder <= rows[j].displayOrder
  {
    var sorted := SortBy(ImagesOf(rows, carId), Order);
    CarRowSelected(rows, carId, j);
    assert rows[j] in multiset(sorted);
    var m :| 0 <= m < |sorted| && sorted[m] == rows[j];
    assert m == 0 || Order(sorted[0]) <= Order(sorted[m]);
  }

  /** Without a main photo, getMainImage returns the url of a photo with the
      lowest display_order of the car. */
  lemma MainImageUrlFallback(rows: seq<CarImage>, carId: int)
    requires forall i :: 0 <= i < |rows| && rows[i].carId == carId ==> !rows[i].isMain
    requires MainImageUrl(rows, carId).Some?
    ensures exists i :: (0 <= i < |rows| && rows[i].carId == carId
      && MainImageUrl(rows, carId) == Some(rows[i].imageUrl)
      && forall j :: 0 <= j < |rows| && rows[j].carId == carId ==>
           rows[i].displayOrder <= rows[j].displayOrder)
  {
    var images := ImagesOf(rows, carId);
    forall i | 0 <= i < |images| ensures !images[i].isMain {
      SelectedIsCarRow(rows, carId, images[i]);
    }
    FilterNone(images, (x: CarImage) => x.isMain);
    var sorted := SortBy(images, Order);
    assert sorted[0] in multiset(images);
    SelectedIsCarRow(rows, carId, sorted[0]);
    forall j | 0 <= j < |rows| && rows[j].carId == carId
      ensures sorted[0].displayOrder <= rows[j].displayOrder
    {
      SortedFirstLowest(rows, carId, j);
    }
  }


  /** The CarImages table with its identity counter. */
  class CarImagesTable {
    var rows: seq<CarImage>
    var nextId: int

    ghost predicate Valid()
      reads this
    {
      UniqueKeys(rows, Id) && KeysBelow(rows, Id, nextId)
    }

    constructor ()
      ensures Valid() && rows == [] && nextId == 1
    {
      rows := [];
      nextId := 1;
    }

    /** getCarImages: reads the ordered result set row by row into a list. */
    method GetCarImages(carId: int, up: bool) returns (images: seq<CarImage>)
      ensures images == if up then OrderedImages(rows, carId) else []
    {
      images := [];
      if up {
        images := ReadAll(OrderedImages(rows, carId));
      }
    }

    /** getMainImage: the main-row query, then the TOP 1 by display_order query. */
    method GetMainImage(carId: int, up: bool) returns (url: Option<string>)
      ensures url == if up then MainImageUrl(rows, carId) else None
    {
      if up {
        var mains := MainRows(ImagesOf(rows, carId));
        if mains != [] {
          return Some(mains[0].imageUrl);
        }
        var byOrder := SortBy(ImagesOf(rows, carId), Order);
        if byOrder != [] {
          return Some(byOrder[0].imageUrl);
        }
      }
      return None;
    }

    /** getNextDisplayOrder: 1 also when the query fails. */
    method GetNextDisplayOrder(carId: int, up: bool) returns (n: int)
      ensures n == if up then NextDisplayOrder(rows, carId) else 1
    {
      n := 1;
      if up {
        n := NextDisplayOrder(rows, carId);
      }
    }

    /** getCarIdByImageId: -1 when no row has that id or the query fails. */
    method GetCarIdByImageId(imageId: int, up: bool) returns (c: int)
      ensures c == if up then CarIdOf(rows, imageId) else -1
    {
      c := -1;
      if up {
        c := CarIdOf(rows, imageId);
      }
    }

    /** getImagesCount: COUNT(*) of the car's rows, 0 on failure. */
    method GetImagesCount(carId: int, up: bool) returns (n: int)
      ensures n == if up then |ImagesOf(rows, carId)| else 0
    {
      n := 0;
      if up {
        n := Count(rows, (x: CarImage) => x.carId == carId);
      }
    }

    /** resetMainFlag: errors are logged and swallowed. */
    method ResetMainFlag(carId: int, up: bool)
      requires Valid()
      modifies this
      ensures Valid() && nextId == old(nextId)
      ensures rows == if up then ResetMain(old(rows), carId) else old(rows)
    {
      if up {
        rows := ResetMain(rows, carId);
      }
    }

    /** addImage: reset the car's flags for a main photo, then insert at the next position. */
    method AddImage(carId: int, url: string, isMain: bool, now: int, up: bool) returns (ok: bool)
      requires Valid()
      modifies this
      ensures Valid() && ok == up
      ensures nextId == if ok then old(nextId) + 1 else old(nextId)
      ensures ok ==> rows == AddedRows(old(rows), old(nextId), carId, url, isMain, now)
      ensures !ok ==> rows == old(rows)
    {
      if isMain {
        ResetMainFlag(carId, up);
      }
      if !up {
        return false;
      }
      var nextOrder := GetNextDisplayOrder(carId, up);
      rows := rows + [CarImage(nextId, carId, url, isMain, nextOrder, now)];
      nextId := nextId + 1;
      return true;
    }

    /** The loop both page controllers run over the chosen photos: addImage for
        each, in order, with its own main flag. */
    method AddImages(carId: int, photos: seq<(string, bool)>, now: int, up: bool)
      requires Valid()
      modifies this
      ensures Valid()
      ensures rows == if up then AddedInOrder(old(rows), old(nextId), carId, photos, now) else old(rows)
      ensures nextId == if up then old(nextId) + |photos| else old(nextId)
    {
      ghost var rows0, id0 := rows, nextId;
      var k := 0;
      while k < |photos|
        invariant 0 <= k <= |photos| && Valid()
        invariant rows == if up then AddedInOrder(rows0, id0, carId, photos[..k], now) else rows0
        invariant nextId == if up then id0 + k else id0
      {
        ghost var before := rows;
        var ok := AddImage(carId, photos[k].0, photos[k].1, now, up);
        if up {
          AddedInOrderPrefix(rows0, id0, carId, photos, k, now, before, rows);
        }
        k := k + 1;
      }
      if up {
        AddedInOrderWhole(rows0, id0, carId, photos, now, rows);
      }
    }

    /** setMainImage: look up the car, reset its flags, then flag the photo. */
    method SetMainImage(imageId: int, up: bool) returns (ok: bool)
      requires Valid()
      modifies this
      ensures Valid() && nextId == old(nextId)
      ensures ok <==> up && CarIdOf(old(rows), imageId) != -1
      ensures rows == if up then MainSetRows(old(rows), imageId) else old(rows)
    {
      var carId := GetCarIdByImageId(imageId, up);
      if carId == -1 {
        return false;
      }
      ResetMainFlag(carId, up);
      rows := SetMainFlag(rows, imageId);
      return true;
    }

    /** deleteImage: true iff a row was removed. */
    method DeleteImage(imageId: int, up: bool) returns (ok: bool)
      requires Valid()
      modifies this
      ensures Valid() && nextId == old(nextId)
      ensures ok <==> up && HasKey(old(rows), Id, imageId)
      ensures rows == if up then DeletedRows(old(rows), imageId) else old(rows)
    {
      ok := false;
      if up {
        ok := HasKey(rows, Id, imageId);
        FilterUnique(rows, (x: CarImage) => x.id != imageId, Id);
        FilterBelow(rows, (x: CarImage) => x.id != imageId, Id, nextId);
        rows := DeletedRows(rows, imageId);
      }
    }
  }
}
