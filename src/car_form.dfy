/** CarFormController: the add / edit car form. saveCar runs the field
    validators in a fixed order and stops at the first failure; a valid form
    is written and its pending photos are handed to addImage in list order,
    with only the photo whose "main" box was ticked flagged main. The pending
    photos are their file URIs; Double.parseDouble is the parameter
    `parseDouble`; whether the database answered is the parameter
    `connected`. */
module CarFormController {
  import opened Wrappers
  import opened JavaText
  import opened ValidationUtil
  import opened CarImagesService
  import CarDetailsController

  // ---------------------------------------------------------------- validation

  /** The form's texts; a control that is absent reads as None. */
  datatype FormFields = FormFields(
    name: Option<string>, model: Option<string>, price: Option<string>,
    brand: Option<string>, year: Option<string>, mileage: Option<string>,
    description: Option<string>)

  /** The field name and the issue showError is given. */
  datatype FieldError = FieldError(field: string, issue: string) {
    /** The alert's header text. */
    function Message(): string {
      FormatValidationError(field, issue)
    }
  }

  const NAME_EMPTY := FieldError("Название", "не может быть пустым")
  const NAME_LENGTH := FieldError("Название", "должно быть от 2 до 100 символов")
  const MODEL_EMPTY := FieldError("Модель", "не может быть пустой")
  const MODEL_LENGTH := FieldError("Модель", "должна быть от 1 до 50 символов")
  const PRICE_INVALID := FieldError("Цена", "должна быть положительным числом")
  const BRAND_LENGTH := FieldError("Бренд", "должен быть от 2 до 50 символов")
  const YEAR_INVALID := FieldError("Год", "должен быть в диапазоне 1900-2030")
  const MILEAGE_INVALID := FieldError("Пробег", "должен быть от 0 до 999999 км")
  const DESCRIPTION_LENGTH := FieldError("Описание", "не должно превышать 500 символов")

  const MAX_DESCRIPTION: int := 500

  /** An optional field that is null or blank skips its check. */
  predicate OptionalBlank(t: Option<string>) {
    t.None? || IsBlank(t.value)
  }

  /** saveCar's checks in the order it runs them, each with the error it
      reports. */
  function Checks(f: FormFields, parseDouble: string -> Option<real>): seq<(bool, FieldError)> {
    [ (IsNotEmpty(f.name), NAME_EMPTY),
      (IsValidLength(f.name, 2, 100), NAME_LENGTH),
      (IsNotEmpty(f.model), MODEL_EMPTY),
      (IsValidLength(f.model, 1, 50), MODEL_LENGTH),
      (IsValidPrice(f.price, parseDouble), PRICE_INVALID),
      (OptionalBlank(f.brand) || IsValidLength(f.brand, 2, 50), BRAND_LENGTH),
      (OptionalBlank(f.year) || IsValidYear(f.year), YEAR_INVALID),
      (OptionalBlank(f.mileage) || IsValidMileage(f.mileage), MILEAGE_INVALID),
      (OptionalBlank(f.description) || |f.description.value| <= MAX_DESCRIPTION, DESCRIPTION_LENGTH) ]
  }

  /** The early-return chain: the error of the first check that fails. */
  function FirstFailure(cs: seq<(bool, FieldError)>): Option<FieldError> {
    if cs == [] then None
    else if !cs[0].0 then Some(cs[0].1)
    else FirstFailure(cs[1..])
  }

  /** The chain passes exactly when every check does, and otherwise reports the
      error of a failing check all of whose predecessors passed. */
  lemma {:induction false} FirstFailureSpec(cs: seq<(bool, FieldError)>)
    ensures FirstFailure(cs).None? <==> forall i :: 0 <= i < |cs| ==> cs[i].0
    ensures FirstFailure(cs).Some? ==>
      exists i :: 0 <= i < |cs| && !cs[i].0 && FirstFailure(cs) == Some(cs[i].1)
                  && forall j :: 0 <= j < i ==> cs[j].0
  {
    if cs != [] && cs[0].0 {
      FirstFailureSpec(cs[1..]);
      if FirstFailure(cs).Some? {
        var i :| 0 <= i < |cs[1..]| && !cs[1..][i].0 && FirstFailure(cs[1..]) == Some(cs[1..][i].1)
                 && forall j :: 0 <= j < i ==> cs[1..][j].0;
        assert !cs[i + 1].0 && FirstFailure(cs) == Some(cs[i + 1].1);
        forall j | 0 <= j < i + 1 ensures cs[j].0 {
          if j > 0 {
            assert cs[j] == cs[1..][j - 1];
          }
        }
      }
      forall i | 0 <= i < |cs[1..]| ensures cs[1..][i] == cs[i + 1] {
      }
    }
  }

  /** The validation part of saveCar: None lets the save go ahead. */
  function SaveCarCheck(f: FormFields, parseDouble: string -> Option<real>): Option<FieldError> {
    FirstFailure(Checks(f, parseDouble))
  }

  /** Every constraint of the form, field by field. */
  predicate Accepted(f: FormFields, parseDouble: string -> Option<real>) {
    && f.name.Some? && 2 <= |Trim(f.name.value)| <= 100
    && f.model.Some? && 1 <= |Trim(f.model.value)| <= 50
    && f.price.Some? && !IsBlank(f.price.value) && parseDouble(f.price.value).Some?
    && parseDouble(f.price.value).value > 0.0
    && (OptionalBlank(f.brand) || 2 <= |Trim(f.brand.value)| <= 50)
    && (OptionalBlank(f.year) || (ParseInt(f.year.value).Some? && MIN_YEAR <= ParseInt(f.year.value).value <= MAX_YEAR))
    && (OptionalBlank(f.mileage) || (ParseInt(f.mileage.value).Some? && 0 <= ParseInt(f.mileage.value).value <= MAX_MILEAGE))
    && (OptionalBlank(f.description) || |f.description.value| <= MAX_DESCRIPTION)
  }

  /** The chain lets a form through exactly when it meets every constraint:
      the two-step name and model checks come to one length check each. */
  lemma SaveCarCheckSpec(f: FormFields, parseDouble: string -> Option<real>)
    ensures SaveCarCheck(f, parseDouble).None? <==> Accepted(f, parseDouble)
  {
    var cs := Checks(f, parseDouble);
    FirstFailureSpec(cs);
    if f.name.Some? {
      IsNotEmptySpec(f.name.value, 2, 100);
    }
    if f.model.Some? {
      IsNotEmptySpec(f.model.value, 1, 50);
    }
    if Accepted(f, parseDouble) {
      forall i | 0 <= i < |cs| ensures cs[i].0 {
      }
    }
    assert (forall i :: 0 <= i < |cs| ==> cs[i].0) ==> Accepted(f, parseDouble) by {
      if forall i :: 0 <= i < |cs| ==> cs[i].0 {
        assert cs[0].0 && cs[1].0 && cs[2].0 && cs[3].0 && cs[4].0;
        assert cs[5].0 && cs[6].0 && cs[7].0 && cs[8].0;
      }
    }
  }

  /** The chain stops at the first failing check. */
  lemma {:induction false} FirstFailureAt(cs: seq<(bool, FieldError)>, i: int)
    requires 0 <= i < |cs| && !cs[i].0
    requires forall j :: 0 <= j < i ==> cs[j].0
    ensures FirstFailure(cs) == Some(cs[i].1)
  {
    if i > 0 {
      FirstFailureAt(cs[1..], i - 1);
    }
  }

  /** The order of the chain: an empty name is reported whatever else is wrong,
      a one-character name is reported as too short, and with name and model
      valid an invalid price is reported before any optional field. */
  lemma SaveCarCheckOrder(f: FormFields, parseDouble: string -> Option<real>)
    ensures !IsNotEmpty(f.name) ==> SaveCarCheck(f, parseDouble) == Some(NAME_EMPTY)
    ensures f.name.Some? && |f.name.value| == 1 && !IsTrimmable(f.name.value[0]) ==>
      SaveCarCheck(f, parseDouble) == Some(NAME_LENGTH)
    ensures IsValidLength(f.name, 2, 100) && IsValidLength(f.model, 1, 50) && !IsValidPrice(f.price, parseDouble) ==>
      SaveCarCheck(f, parseDouble) == Some(PRICE_INVALID)
  {
    var cs := Checks(f, parseDouble);
    if !IsNotEmpty(f.name) {
      FirstFailureAt(cs, 0);
    }
    if f.name.Some? && |f.name.value| == 1 && !IsTrimmable(f.name.value[0]) {
      var n := f.name.value;
      TrimSpec(n);
      assert Trim(n) == n;
      FirstFailureAt(cs, 1);
    }
    if IsValidLength(f.name, 2, 100) && IsValidLength(f.model, 1, 50) && !IsValidPrice(f.price, parseDouble) {
      IsNotEmptySpec(f.name.value, 2, 100);
      IsNotEmptySpec(f.model.value, 1, 50);
      FirstFailureAt(cs, 4);
    }
  }

  /** A null or blank optional field is skipped: the outcome is the same as
      with that control absent. */
  lemma BlankOptionalSkipped(f: FormFields, parseDouble: string -> Option<real>, b: string)
    requires IsBlank(b)
    ensures SaveCarCheck(f.(brand := Some(b)), parseDouble) == SaveCarCheck(f.(brand := None), parseDouble)
    ensures SaveCarCheck(f.(year := Some(b)), parseDouble) == SaveCarCheck(f.(year := None), parseDouble)
    ensures SaveCarCheck(f.(mileage := Some(b)), parseDouble) == SaveCarCheck(f.(mileage := None), parseDouble)
    ensures SaveCarCheck(f.(description := Some(b)), parseDouble)
         == SaveCarCheck(f.(description := None), parseDouble)
  {
    assert Checks(f.(brand := Some(b)), parseDouble) == Checks(f.(brand := None), parseDouble);
    assert Checks(f.(year := Some(b)), parseDouble) == Checks(f.(year := None), parseDouble);
    assert Checks(f.(mileage := Some(b)), parseDouble) == Checks(f.(mileage := None), parseDouble);
    assert Checks(f.(description := Some(b)), parseDouble) == Checks(f.(description := None), parseDouble);
  }

  /** emptyToNull: null or blank becomes null, anything else is kept. */
  function EmptyToNull(s: Option<string>): (r: Option<string>)
    ensures r.None? <==> OptionalBlank(s)
    ensures r.Some? ==> r == s
  {
    if s.None? || IsBlank(s.value) then None else s
  }

  /** Applying emptyToNull twice is applying it once. */
  lemma EmptyToNullIdempotent(s: Option<string>)
    ensures EmptyToNull(EmptyToNull(s)) == EmptyToNull(s)
  {
  }

  /** The values the INSERT or UPDATE writes. */
  datatype CarValues = CarValues(
    name: string, model: string, price: real,
    brand: Option<string>, year: Option<int>, mileage: Option<int>,
    description: Option<string>)

  /** What saveCar writes for a form that passed validation: the texts as
      typed, the parsed price, year and mileage (blank ones as NULL), and the
      brand and description through emptyToNull. Every number it parses was
      accepted by its validator, so no parse of a validated form fails, and
      every value is in its range. */
  function ValuesOf(f: FormFields, parseDouble: string -> Option<real>): (v: CarValues)
    requires SaveCarCheck(f, parseDouble).None?
    ensures 2 <= |Trim(v.name)| <= 100 && 1 <= |Trim(v.model)| <= 50
    ensures v.price > 0.0
    ensures v.brand.Some? ==> 2 <= |Trim(v.brand.value)| <= 50
    ensures v.year.Some? ==> MIN_YEAR <= v.year.value <= MAX_YEAR
    ensures v.mileage.Some? ==> 0 <= v.mileage.value <= MAX_MILEAGE
    ensures v.description.Some? ==> !IsBlank(v.description.value) && |v.description.value| <= MAX_DESCRIPTION
    ensures v.year.None? <==> OptionalBlank(f.year)
    ensures v.mileage.None? <==> OptionalBlank(f.mileage)
  {
    SaveCarCheckSpec(f, parseDouble);
    CarValues(
      f.name.value, f.model.value, parseDouble(f.price.value).value,
      EmptyToNull(f.brand),
      if OptionalBlank(f.year) then None else ParseInt(f.year.value),
      if OptionalBlank(f.mileage) then None else ParseInt(f.mileage.value),
      EmptyToNull(f.description))
  }

  // ---------------------------------------------------------------- photos

  /** The main-photo index the save loop picks: the last ticked box, 0 when
      none is ticked. */
  function ChosenMain(checks: seq<bool>): (m: nat)
    ensures m == 0 || m < |checks|
  {
    if checks == [] then 0
    else if checks[|checks| - 1] then |checks| - 1
    else ChosenMain(checks[..|checks| - 1])
  }

  /** With a box ticked, the chosen index is ticked and no later box is; with
      none ticked it is 0. */
  lemma {:induction false} ChosenMainSpec(checks: seq<bool>)
    ensures (exists i :: 0 <= i < |checks| && checks[i]) ==>
      var m := ChosenMain(checks);
      m < |checks| && checks[m] && forall j :: m < j < |checks| ==> !checks[j]
    ensures (forall i :: 0 <= i < |checks| ==> !checks[i]) ==> ChosenMain(checks) == 0
  {
    if checks != [] && !checks[|checks| - 1] {
      var init := checks[..|checks| - 1];
      ChosenMainSpec(init);
      if exists i :: 0 <= i < |checks| && checks[i] {
        var i :| 0 <= i < |checks| && checks[i];
        assert init[i] == checks[i];
      }
      forall i | 0 <= i < |init| ensures init[i] == checks[i] {
      }
    }
  }

  /** Saving photos with one of them flagged: one new row per photo, in list
      order; among the car's rows exactly the chosen photo's row is main. */
  lemma SavedPhotosSpec(rows: seq<CarImage>, id: int, carId: int, photos: seq<string>, checks: seq<bool>,
                        now: int)
    requires photos != [] && |checks| == |photos|
    ensures var m := ChosenMain(checks);
      var r := AddedInOrder(rows, id, carId, CarDetailsController.FlagOnly(photos, m), now);
      && |r| == |rows| + |photos|
      && (forall k :: 0 <= k < |photos| ==> r[|rows| + k].imageUrl == photos[k] && r[|rows| + k].carId == carId)
      && (forall i :: 0 <= i < |r| && r[i].carId == carId ==> (r[i].isMain <==> i == |rows| + m))
  {
    var m := ChosenMain(checks);
    var p := CarDetailsController.FlagOnly(photos, m);
    CarDetailsController.FlagOnlySpec(photos, m);
    AddedInOrderRows(rows, id, carId, p, now);
    AddedInOrderMain(rows, id, carId, p, now);
    var r := AddedInOrder(rows, id, carId, p, now);
    forall k | 0 <= k < |photos| ensures r[|rows| + k].imageUrl == photos[k] && r[|rows| + k].carId == carId {
      assert r[|rows| + k].imageUrl == p[k].0;
    }
  }

  datatype SaveOutcome = Rejected(error: FieldError) | NoConnection | Saved(values: CarValues)

  /** The form's pending photos and their "main" check boxes, one per row. */
  class CarFormView {
    var photos: seq<string>
    var mainChecks: seq<bool>

    ghost predicate Valid()
      reads this
    {
      |mainChecks| == |photos|
    }

    constructor ()
      ensures Valid() && photos == [] && mainChecks == []
    {
      photos, mainChecks := [], [];
    }

    /** updatePhotosList: one row per photo, with only the first row's box
        ticked. */
    method UpdatePhotosList()
      modifies this
      ensures Valid() && photos == old(photos)
      ensures forall i :: 0 <= i < |mainChecks| ==> (mainChecks[i] <==> i == 0)
    {
      var rows: seq<bool> := [];
      var i := 0;
      while i < |photos|
        invariant 0 <= i <= |photos| && |rows| == i
        invariant forall j :: 0 <= j < i ==> (rows[j] <==> j == 0)
      {
        rows := rows + [i == 0];
        i := i + 1;
      }
      mainChecks := rows;
    }

    /** addPhotos: the chosen files are appended and the rows rebuilt; a
        cancelled or empty choice changes nothing. */
    method AddPhotos(files: Option<seq<string>>)
      requires Valid()
      modifies this
      ensures Valid()
      ensures files.None? || files.value == [] ==> photos == old(photos) && mainChecks == old(mainChecks)
      ensures files.Some? && files.value != [] ==>
        && photos == old(photos) + files.value
        && (forall i :: 0 <= i < |mainChecks| ==> (mainChecks[i] <==> i == 0))
        && ChosenMain(mainChecks) == 0
    {
      if files.Some? && files.value != [] {
        photos := photos + files.value;
        UpdatePhotosList();
        ChosenMainSpec(mainChecks);
      }
    }

    /** A row's delete button: the photo at that row's index leaves the list,
        every other photo keeps its order, and the rows are rebuilt. */
    method RemovePhoto(index: int)
      requires Valid() && 0 <= index < |photos|
      modifies this
      ensures Valid()
      ensures photos == old(photos)[..index] + old(photos)[index + 1..]
      ensures forall j :: 0 <= j < |photos| ==> photos[j] == old(photos)[if j < index then j else j + 1]
      ensures multiset(photos) + multiset{old(photos)[index]} == multiset(old(photos))
      ensures forall j :: 0 <= j < |mainChecks| ==> (mainChecks[j] <==> j == 0)
    {
      ghost var before := photos;
      photos := photos[..index] + photos[index + 1..];
      assert before == before[..index] + [before[index]] + before[index + 1..];
      UpdatePhotosList();
    }

    /** A click on row i's box flips it, and its handler clears every other
        box, so at most one box is ticked. */
    method ClickMain(i: int)
      requires Valid() && 0 <= i < |mainChecks|
      modifies this
      ensures Valid() && photos == old(photos)
      ensures mainChecks[i] == !old(mainChecks)[i]
      ensures forall j :: 0 <= j < |mainChecks| && j != i ==> !mainChecks[j]
      ensures ChosenMain(mainChecks) == if mainChecks[i] then i else 0
    {
      var flipped := !mainChecks[i];
      var rows: seq<bool> := [];
      var j := 0;
      while j < |mainChecks|
        invariant 0 <= j <= |mainChecks| && |rows| == j
        invariant forall k :: 0 <= k < j ==> (rows[k] <==> k == i && flipped)
      {
        rows := rows + [j == i && flipped];
        j := j + 1;
      }
      mainChecks := rows;
      ChosenMainSpec(mainChecks);
    }

    /** saveCar's first loop: the index of the last row whose box is ticked,
        0 when none is. */
    method MainPhotoIndex() returns (m: nat)
      ensures m == ChosenMain(mainChecks)
    {
      m := 0;
      var i := 0;
      while i < |mainChecks|
        invariant 0 <= i <= |mainChecks|
        invariant m == ChosenMain(mainChecks[..i])
      {
        assert mainChecks[..i + 1][..i] == mainChecks[..i];
        if mainChecks[i] {
          m := i;
        }
        i := i + 1;
      }
      assert mainChecks[..i] == mainChecks;
    }

    /** saveCar's second loop: with photos pending, addImage once per photo in
        list order, flagged main exactly at the chosen index. */
    method SavePhotos(images: CarImagesTable, carId: int, now: int, up: bool)
      requires Valid() && images.Valid()
      modifies images
      ensures images.Valid()
      ensures images.rows == if photos == [] || !up then old(images.rows)
        else AddedInOrder(old(images.rows), old(images.nextId), carId,
                          CarDetailsController.FlagOnly(photos, ChosenMain(mainChecks)), now)
    {
      if photos != [] {
        var m := MainPhotoIndex();
        images.AddImages(carId, CarDetailsController.FlagOnly(photos, m), now, up);
      }
    }

    /** saveCar: an invalid form is refused with the first failing check's
        error and nothing is written; with no connection nothing is written
        either; otherwise the car's values are written and the pending photos
        saved under carId (the new row's generated key, or the edited car's
        id). */
    method SaveCar(f: FormFields, parseDouble: string -> Option<real>, connected: bool, carId: int,
                   images: CarImagesTable, now: int)
      returns (outcome: SaveOutcome)
      requires Valid() && images.Valid()
      modifies images
      ensures images.Valid()
      ensures SaveCarCheck(f, parseDouble).Some? ==>
        outcome == Rejected(SaveCarCheck(f, parseDouble).value) && images.rows == old(images.rows)
      ensures SaveCarCheck(f, parseDouble).None? && !connected ==>
        outcome == NoConnection && images.rows == old(images.rows)
      ensures SaveCarCheck(f, parseDouble).None? && connected ==>
        && outcome == Saved(ValuesOf(f, parseDouble))
        && images.rows == if photos == [] then old(images.rows)
           else AddedInOrder(old(images.rows), old(images.nextId), carId,
                             CarDetailsController.FlagOnly(photos, ChosenMain(mainChecks)), now)
    {
      var error := SaveCarCheck(f, parseDouble);
      if error.Some? {
        outcome := Rejected(error.value);
      } else if !connected {
        outcome := NoConnection;
      } else {
        outcome := Saved(ValuesOf(f, parseDouble));
        SavePhotos(images, carId, now, true);
      }
    }
  }
}
