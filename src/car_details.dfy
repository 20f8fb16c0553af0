/** CarDetailsController: the car page. Its photo gallery (navigation and the
    admin's add / set-main / delete actions), the star rating, the comment
    box, and the reservation and purchase forms with their validation. The
    dialogs' answers, the chosen files and the picked date are parameters;
    the signed-in user is the Session object. */
module CarDetailsController {
  import opened Wrappers
  import opened Seqs
  import opened JavaText
  import opened Cars
  import opened CarImagesService
  import CommentsService
  import ReservationsService
  import PurchaseModel
  import AdminOrdersController
  import SessionManager

  // ---------------------------------------------------------------- gallery

  /** nextPhoto's step on a gallery of n photos: forward, wrapping to 0. */
  function NextIndex(i: int, n: int): int {
    if i + 1 >= n then 0 else i + 1
  }

  /** previousPhoto's step: backward, wrapping to the last photo. */
  function PrevIndex(i: int, n: int): int {
    if i - 1 < 0 then n - 1 else i - 1
  }

  /** On an index in range both steps stay in range, are arithmetic modulo n,
      and undo each other. */
  lemma NavigationSpec(i: int, n: int)
    requires 0 <= i < n
    ensures 0 <= NextIndex(i, n) < n && 0 <= PrevIndex(i, n) < n
    ensures NextIndex(i, n) == (i + 1) % n && PrevIndex(i, n) == (i - 1) % n
    ensures PrevIndex(NextIndex(i, n), n) == i && NextIndex(PrevIndex(i, n), n) == i
  {
  }

  /** k presses of the next button. */
  function NextTimes(i: int, n: int, k: nat): int {
    if k == 0 then i else NextIndex(NextTimes(i, n, k - 1), n)
  }

  lemma {:induction false} MulAtLeast(a: int, n: int)
    requires a >= 1 && n > 0
    ensures a * n >= n
  {
    if a > 1 {
      MulAtLeast(a - 1, n);
      assert a * n == (a - 1) * n + n;
    }
  }

  /** The remainder is the one r with x == q * n + r and 0 <= r < n. */
  lemma ModUnique(x: int, n: int, q: int, r: int)
    requires 0 <= r < n && x == q * n + r
    ensures x % n == r
  {
    var q', r' := x / n, x % n;
    assert x == q' * n + r';
    assert (q - q') * n == q * n - q' * n;
    if q > q' {
      MulAtLeast(q - q', n);
    } else if q < q' {
      MulAtLeast(q' - q, n);
    }
  }

  lemma ModNext(x: int, n: int)
    requires n > 0
    ensures NextIndex(x % n, n) == (x + 1) % n
  {
    var q := x / n;
    if x % n + 1 < n {
      ModUnique(x + 1, n, q, x % n + 1);
    } else {
      ModUnique(x + 1, n, q + 1, 0);
    }
  }

  /** k presses of next move k places round the gallery. */
  lemma {:induction false} NextTimesSpec(i: int, n: int, k: nat)
    requires 0 <= i < n
    ensures NextTimes(i, n, k) == (i + k) % n
  {
    if k == 0 {
      ModUnique(i, n, 0, i);
    } else {
      NextTimesSpec(i, n, k - 1);
      ModNext(i + k - 1, n);
    }
  }

  /** So as many presses as there are photos come back to the photo shown. */
  lemma NextTimesRoundTrip(i: int, n: int)
    requires 0 <= i < n
    ensures NextTimes(i, n, n) == i
  {
    NextTimesSpec(i, n, n);
    ModUnique(i + n, n, 1, i);
  }

  /** The single photo made from a car's legacy picture url when the table has
      none: CarImage(carId, url, true), so identity 0, position 0 and no time. */
  function LegacyImage(c: Car): CarImage
    requires c.imageUrl.Some?
  {
    CarImage(0, c.id, c.imageUrl.value, true, 0, 0)
  }

  /** loadPhotoGallery: the car's rows as getCarImages lists them, or the
      legacy picture alone when there are none and the url is non-empty. */
  function Gallery(loaded: seq<CarImage>, c: Car): seq<CarImage> {
    if loaded == [] && c.imageUrl.Some? && c.imageUrl.value != "" then [LegacyImage(c)] else loaded
  }

  /** The gallery is empty only when there are no rows and no usable legacy url;
      otherwise it is the loaded rows, or the one legacy photo, which is main. */
  lemma GallerySpec(loaded: seq<CarImage>, c: Car)
    ensures Gallery(loaded, c) == [] <==> loaded == [] && (c.imageUrl.None? || c.imageUrl.value == "")
    ensures loaded != [] ==> Gallery(loaded, c) == loaded
    ensures loaded == [] && Gallery(loaded, c) != [] ==>
      var g := Gallery(loaded, c);
      |g| == 1 && g[0].isMain && g[0].carId == c.id && Some(g[0].imageUrl) == c.imageUrl
  {
  }

  /** The photos addPhoto hands to addImage, as written: every file carries
      isMain = (the gallery was empty when the dialog opened). */
  function AddPhotoFlagsAsWritten(files: seq<string>, wasEmpty: bool): seq<(string, bool)> {
    seq(|files|, k requires 0 <= k < |files| => (files[k], wasEmpty))
  }

  /** Photos of which only the one at mainIndex is flagged main. */
  function FlagOnly(files: seq<string>, mainIndex: int): (r: seq<(string, bool)>)
    ensures |r| == |files|
  {
    seq(|files|, k requires 0 <= k < |files| => (files[k], k == mainIndex))
  }

  /** The photos addPhoto evidently means to add: the first file becomes main
      when the gallery was empty, no file otherwise. */
  function AddPhotoFlags(files: seq<string>, wasEmpty: bool): seq<(string, bool)> {
    FlagOnly(files, if wasEmpty then 0 else -1)
  }

  /** With one photo flagged, that photo is the last flagged; with none, none is. */
  lemma FlagOnlySpec(files: seq<string>, mainIndex: int)
    ensures 0 <= mainIndex < |files| ==> LastMain(FlagOnly(files, mainIndex)) == mainIndex
    ensures !(0 <= mainIndex < |files|) ==> LastMain(FlagOnly(files, mainIndex)) == -1
  {
    var p := FlagOnly(files, mainIndex);
    var k := LastMain(p);
    if 0 <= mainIndex < |files| {
      assert p[mainIndex].1;
    } else if k >= 0 {
      assert false;
    }
  }

  /** As written, adding two or more files to an empty gallery leaves the LAST
      file as the car's main photo and the first one not main, since every
      addImage(…, true) clears the flags set by the one before. */
  lemma AddPhotoAsWrittenLastMain(rows: seq<CarImage>, id: int, carId: int, files: seq<string>, now: int)
    requires |files| >= 2
    ensures var r := AddedInOrder(rows, id, carId, AddPhotoFlagsAsWritten(files, true), now);
      && r[|rows|].imageUrl == files[0] && !r[|rows|].isMain
      && r[|r| - 1].imageUrl == files[|files| - 1] && r[|r| - 1].isMain
  {
    var p := AddPhotoFlagsAsWritten(files, true);
    var k := LastMain(p);
    assert p[|p| - 1].1;
    assert k == |p| - 1;
    AddedInOrderRows(rows, id, carId, p, now);
    AddedInOrderMain(rows, id, carId, p, now);
    var r := AddedInOrder(rows, id, carId, p, now);
    assert r[|rows|].carId == carId && r[|r| - 1].carId == carId;
  }

  /** Corrected: adding files to an empty gallery makes the FIRST file the car's
      only main photo; adding to a non-empty gallery keeps every existing row
      and flag and adds no main photo. */
  lemma AddPhotoFlagsSpec(rows: seq<CarImage>, id: int, carId: int, files: seq<string>, wasEmpty: bool,
                          now: int)
    requires files != []
    ensures var r := AddedInOrder(rows, id, carId, AddPhotoFlags(files, wasEmpty), now);
      && r[|rows|].imageUrl == files[0]
      && (wasEmpty ==> forall i :: 0 <= i < |r| && r[i].carId == carId ==> (r[i].isMain <==> i == |rows|))
      && (!wasEmpty ==> r[..|rows|] == rows && forall i :: |rows| <= i < |r| ==> !r[i].isMain)
  {
    var p := AddPhotoFlags(files, wasEmpty);
    FlagOnlySpec(files, if wasEmpty then 0 else -1);
    AddedInOrderRows(rows, id, carId, p, now);
    AddedInOrderMain(rows, id, carId, p, now);
  }

  /** What an admin action on the gallery came to. */
  datatype GalleryOutcome = Denied | NothingChosen | NoSelection | AlreadyMain | LastPhoto | Cancelled
                          | Done | Failed

  // ---------------------------------------------------------------- rating

  /** updateStarButtons: star i is drawn filled exactly when i < rating. */
  method UpdateStarButtons(stars: array<bool>, rating: int)
    modifies stars
    ensures forall i :: 0 <= i < stars.Length ==> stars[i] == (i < rating)
  {
    for i := 0 to stars.Length
      invariant forall j :: 0 <= j < i ==> stars[j] == (j < rating)
    {
      stars[i] := i < rating;
    }
  }

  /** rateCar's search for the clicked star (buttons compared by identity):
      one more than the first matching position, 0 when none matches. */
  method ClickedRating(starButtons: array<int>, clicked: int) returns (rating: int)
    ensures 0 <= rating <= starButtons.Length
    ensures rating == 0 <==> forall k :: 0 <= k < starButtons.Length ==> starButtons[k] != clicked
    ensures rating > 0 ==> starButtons[rating - 1] == clicked
    ensures forall k :: 0 <= k < rating - 1 ==> starButtons[k] != clicked
  {
    var i := 0;
    while i < starButtons.Length
      invariant 0 <= i <= starButtons.Length
      invariant forall k :: 0 <= k < i ==> starButtons[k] != clicked
    {
      if starButtons[i] == clicked {
        return i + 1;
      }
      i := i + 1;
    }
    return 0;
  }

  // ---------------------------------------------------------------- comments

  const MAX_COMMENT_LENGTH: int := 1000

  /** addComment's guard on the trimmed text: None when it is refused. */
  function CheckedComment(text: string): Option<string> {
    var t := Trim(text);
    if t == [] || |t| > MAX_COMMENT_LENGTH then None else Some(t)
  }

  /** A comment is accepted exactly when its trimmed text is non-empty and at
      most 1000 characters; what is stored is that trimmed text, which starts
      and ends with a character above U+0020. */
  lemma CheckedCommentSpec(text: string)
    ensures CheckedComment(text).Some? <==> 0 < |Trim(text)| <= MAX_COMMENT_LENGTH
    ensures CheckedComment(text).Some? ==> var t := CheckedComment(text).value;
      t == Trim(text) && !IsTrimmable(t[0]) && !IsTrimmable(t[|t| - 1])
    ensures (forall i :: 0 <= i < |text| ==> IsTrimmable(text[i])) ==> CheckedComment(text).None?
  {
    TrimEmpty(text);
    TrimSpec(text);
  }

  /** The delete button on a comment: shown to a signed-in author or admin. */
  predicate ShowsDeleteButton(loggedIn: bool, currentUserId: int, isAdmin: bool, commentUserId: int) {
    loggedIn && (currentUserId == commentUserId || isAdmin)
  }

  /** Whenever the button is shown, deleteComment with the same user and admin
      flag selects that comment's row. */
  lemma DeleteButtonAgreesWithService(row: CommentsService.CommentRow, currentUserId: int, isAdmin: bool)
    requires ShowsDeleteButton(true, currentUserId, isAdmin, row.userId)
    ensures CommentsService.DeleteSelects(row, row.id, currentUserId, isAdmin)
  {
  }

  datatype CommentOutcome = SignInFirst | EmptyComment | TooLong | Added | NotAdded

  // ---------------------------------------------------------------- e-mail

  predicate IsAsciiLetter(c: char) {
    ('A' <= c <= 'Z') || ('a' <= c <= 'z')
  }

  /** The first character class of the e-mail pattern: [A-Za-z0-9+_.-]. */
  predicate IsLocalChar(c: char) {
    IsAsciiLetter(c) || IsDigit(c) || c == '+' || c == '_' || c == '.' || c == '-'
  }

  /** The second one: [A-Za-z0-9.-]. */
  predicate IsDomainChar(c: char) {
    IsAsciiLetter(c) || IsDigit(c) || c == '.' || c == '-'
  }

  /** s read as local@domain.tld with '@' at i and the final '.' at j. */
  predicate EmailSplit(s: string, i: int, j: int) {
    && 0 < i && i + 1 < j && j + 3 <= |s|
    && s[i] == '@' && s[j] == '.'
    && (forall k :: 0 <= k < i ==> IsLocalChar(s[k]))
    && (forall k :: i < k < j ==> IsDomainChar(s[k]))
    && (forall k :: j < k < |s| ==> IsAsciiLetter(s[k]))
  }

  /** String.matches("^[A-Za-z0-9+_.-]+@[A-Za-z0-9.-]+\\.[A-Za-z]{2,}$"). */
  predicate MatchesEmailPattern(s: string) {
    exists i, j | 0 <= i < j < |s| :: EmailSplit(s, i, j)
  }

  /** isValidEmail: false for null or empty text, else the pattern. */
  predicate IsValidEmail(email: Option<string>) {
    email.Some? && email.value != "" && MatchesEmailPattern(email.value)
  }

  /** The characters of a split address: none is white space, and the only
      '@' is the one at i. */
  lemma EmailSplitChars(s: string, i: int, j: int, k: int)
    requires EmailSplit(s, i, j) && 0 <= k < |s|
    ensures !IsWhitespace(s[k])
    ensures s[k] == '@' ==> k == i
  {
    if k < i {
      assert IsLocalChar(s[k]);
    } else if i < k < j {
      assert IsDomainChar(s[k]);
    } else if j < k {
      assert IsAsciiLetter(s[k]);
    }
  }

  /** user@mail.com is valid; user@mail, @mail.com, null and "" are not. */
  lemma EmailExamples()
    ensures IsValidEmail(Some("user@mail.com"))
    ensures !IsValidEmail(Some("user@mail")) && !IsValidEmail(Some("@mail.com"))
    ensures !IsValidEmail(None) && !IsValidEmail(Some(""))
  {
    assert EmailSplit("user@mail.com", 4, 9);
    var noDot := "user@mail";
    forall i, j | 0 <= i < j < |noDot| ensures !EmailSplit(noDot, i, j) {
      assert noDot[j] != '.';
    }
  }

  /** A valid address has exactly one '@', at least six characters and no
      white space. */
  lemma IsValidEmailSpec(s: string)
    ensures forall i, j, k :: EmailSplit(s, i, j) && 0 <= k < |s| && s[k] == '@' ==> k == i
    ensures IsValidEmail(Some(s)) ==> |s| >= 6 && forall k :: 0 <= k < |s| ==> !IsWhitespace(s[k])
  {
    forall i, j, k | EmailSplit(s, i, j) && 0 <= k < |s|
      ensures !IsWhitespace(s[k]) && (s[k] == '@' ==> k == i)
    {
      EmailSplitChars(s, i, j, k);
    }
  }

  // ---------------------------------------------------------------- order forms

  /** One message of the forms' error label. */
  datatype FormError = NameMissing | NameTooShort | PhoneMissing | PhoneTooShort | EmailMissing
                     | EmailInvalid | DateMissing | DateInPast | PaymentMissing
  {
    function Message(): string {
      match this
      case NameMissing => "❌ Укажите ваше имя\n"
      case NameTooShort => "❌ Имя должно содержать минимум 2 символа\n"
      case PhoneMissing => "❌ Укажите номер телефона\n"
      case PhoneTooShort => "❌ Телефон должен содержать минимум 10 цифр\n"
      case EmailMissing => "❌ Укажите email\n"
      case EmailInvalid => "❌ Неверный формат email (пример: user@mail.com)\n"
      case DateMissing => "❌ Выберите дату бронирования\n"
      case DateInPast => "❌ Дата не может быть в прошлом\n"
      case PaymentMissing => "❌ Выберите способ оплаты\n"
    }
  }

  const MIN_NAME_LENGTH: int := 2
  const MIN_PHONE_DIGITS: int := 10

  /** phone.replaceAll("[^0-9]", "").length(). */
  function PhoneDigitCount(phone: string): nat {
    Count(phone, IsDigit)
  }

  function NameErrors(name: string): seq<FormError> {
    if name == "" then [NameMissing] else if |name| < MIN_NAME_LENGTH then [NameTooShort] else []
  }

  function PhoneErrors(phone: string): seq<FormError> {
    if phone == "" then [PhoneMissing] else if PhoneDigitCount(phone) < MIN_PHONE_DIGITS then [PhoneTooShort] else []
  }

  function EmailErrors(email: string): seq<FormError> {
    if email == "" then [EmailMissing] else if !IsValidEmail(Some(email)) then [EmailInvalid] else []
  }

  /** The date check; days are counted from any fixed origin. */
  function DateErrors(date: Option<int>, today: int): seq<FormError> {
    if date.None? then [DateMissing] else if date.value < today then [DateInPast] else []
  }

  function PaymentErrors(payment: Option<string>): seq<FormError> {
    if payment.None? || payment.value == "" then [PaymentMissing] else []
  }

  /** The contact fields of both order forms, each text trimmed as it is read. */
  datatype ContactFields = ContactFields(name: string, phone: string, email: string, notes: string)

  function Contact(nameText: string, phoneText: string, emailText: string, notesText: string): ContactFields {
    ContactFields(Trim(nameText), Trim(phoneText), Trim(emailText), Trim(notesText))
  }

  /** The reservation form's messages, field by field. */
  function ReservationErrors(c: ContactFields, date: Option<int>, today: int): seq<FormError> {
    NameErrors(c.name) + PhoneErrors(c.phone) + EmailErrors(c.email) + DateErrors(date, today)
  }

  /** The purchase form's messages. */
  function PurchaseErrors(c: ContactFields, payment: Option<string>): seq<FormError> {
    NameErrors(c.name) + PhoneErrors(c.phone) + EmailErrors(c.email) + PaymentErrors(payment)
  }

  /** The error label's text: the messages in order. */
  function ErrorText(errors: seq<FormError>): string {
    if errors == [] then "" else ErrorText(errors[..|errors| - 1]) + errors[|errors| - 1].Message()
  }

  /** Each field check, by itself: it reports one message exactly when it fails. */
  lemma FieldErrorsSpec(name: string, phone: string, email: string, date: Option<int>, today: int,
                        payment: Option<string>)
    ensures |NameErrors(name)| == if |name| < MIN_NAME_LENGTH then 1 else 0
    ensures |PhoneErrors(phone)| == if PhoneDigitCount(phone) < MIN_PHONE_DIGITS then 1 else 0
    ensures |EmailErrors(email)| == if IsValidEmail(Some(email)) then 0 else 1
    ensures |DateErrors(date, today)| == if date.Some? && date.value >= today then 0 else 1
    ensures |PaymentErrors(payment)| == if payment.Some? && payment.value != "" then 0 else 1
  {
    if phone == [] {
      assert PhoneDigitCount(phone) == 0;
    }
  }

  /** The reservation form is accepted exactly when the trimmed name has two
      characters or more, the phone ten digits or more, the e-mail is valid and
      a date not before today is picked; and every failing check is reported,
      each with one message, not only the first. */
  lemma ReservationErrorsSpec(c: ContactFields, date: Option<int>, today: int)
    ensures var errors := ReservationErrors(c, date, today);
      && (errors == [] <==> |c.name| >= MIN_NAME_LENGTH && PhoneDigitCount(c.phone) >= MIN_PHONE_DIGITS
                            && IsValidEmail(Some(c.email)) && date.Some? && date.value >= today)
      && |errors| == (if |c.name| < MIN_NAME_LENGTH then 1 else 0)
                     + (if PhoneDigitCount(c.phone) < MIN_PHONE_DIGITS then 1 else 0)
                     + (if IsValidEmail(Some(c.email)) then 0 else 1)
                     + (if date.Some? && date.value >= today then 0 else 1)
  {
    FieldErrorsSpec(c.name, c.phone, c.email, date, today, None);
  }

  /** The same for the purchase form, with a chosen payment method in place of
      the date. */
  lemma PurchaseErrorsSpec(c: ContactFields, payment: Option<string>)
    ensures var errors := PurchaseErrors(c, payment);
      && (errors == [] <==> |c.name| >= MIN_NAME_LENGTH && PhoneDigitCount(c.phone) >= MIN_PHONE_DIGITS
                            && IsValidEmail(Some(c.email)) && payment.Some? && payment.value != "")
      && |errors| == (if |c.name| < MIN_NAME_LENGTH then 1 else 0)
                     + (if PhoneDigitCount(c.phone) < MIN_PHONE_DIGITS then 1 else 0)
                     + (if IsValidEmail(Some(c.email)) then 0 else 1)
                     + (if payment.Some? && payment.value != "" then 0 else 1)
  {
    FieldErrorsSpec(c.name, c.phone, c.email, None, 0, payment);
  }

  /** Texts are trimmed before they are checked: a name typed as blanks only is
      reported missing, and the first message is always about the name when
      the name fails. */
  lemma BlankNameIsMissing(nameText: string, phoneText: string, emailText: string, notesText: string,
                           date: Option<int>, today: int)
    requires forall i :: 0 <= i < |nameText| ==> IsTrimmable(nameText[i])
    ensures var errors := ReservationErrors(Contact(nameText, phoneText, emailText, notesText), date, today);
      errors != [] && errors[0] == NameMissing
  {
    TrimEmpty(nameText);
  }

  /** The purchase form's payment choices, stored as the payment method as
      they are. */
  const PAYMENT_CHOICES: seq<string> := ["💵 Наличные", "💳 Карта", "🏦 Банковский перевод", "📊 Кредит"]

  /** None of the form's choices is a code Purchase or the admin screen knows:
      both show the stored text unchanged. */
  lemma PaymentChoicesAreNotCodes(k: int)
    requires 0 <= k < |PAYMENT_CHOICES|
    ensures PurchaseModel.ParsePaymentMethod(PAYMENT_CHOICES[k]).None?
    ensures PurchaseModel.PaymentMethodRu(Some(PAYMENT_CHOICES[k])) == PAYMENT_CHOICES[k]
    ensures AdminOrdersController.ParsePaymentMethod(PAYMENT_CHOICES[k]).None?
    ensures AdminOrdersController.TranslatePaymentMethod(Some(PAYMENT_CHOICES[k])) == Some(PAYMENT_CHOICES[k])
  {
  }

  const SECONDS_PER_DAY: int := 86400

  /** LocalDate.atStartOfDay, as a time in seconds, of the picked day (only
      ever asked of a picked day). */
  function StartOfDay(date: Option<int>): int {
    if date.Some? then date.value * SECONDS_PER_DAY else 0
  }

  datatype FormOutcome = SignInRequired | Rejected(errors: seq<FormError>) | Submitted(saved: bool)

  // ---------------------------------------------------------------- the page

  class CarDetailsView {
    const car: Car
    var carImages: seq<CarImage>
    var currentPhotoIndex: int

    ghost predicate Valid()
      reads this
    {
      currentPhotoIndex >= 0
    }

    /** setCar on a fresh page, before the gallery is loaded. */
    constructor (c: Car)
      ensures car == c && carImages == [] && currentPhotoIndex == 0 && Valid()
    {
      car := c;
      carImages := [];
      currentPhotoIndex := 0;
    }

    /** loadPhotoGallery; the shown index is kept as it was. */
    method LoadPhotoGallery(images: CarImagesTable, up: bool)
      modifies this
      ensures carImages == Gallery(if up then OrderedImages(images.rows, car.id) else [], car)
      ensures currentPhotoIndex == old(currentPhotoIndex)
    {
      var loaded := images.GetCarImages(car.id, up);
      if loaded == [] && car.imageUrl.Some? && car.imageUrl.value != "" {
        loaded := [LegacyImage(car)];
      }
      carImages := loaded;
    }

    /** previousPhoto: nothing on an empty gallery. */
    method PreviousPhoto()
      requires Valid()
      modifies this
      ensures Valid() && carImages == old(carImages)
      ensures currentPhotoIndex == if carImages == [] then old(currentPhotoIndex)
                                   else PrevIndex(old(currentPhotoIndex), |carImages|)
    {
      if carImages == [] {
        return;
      }
      currentPhotoIndex := currentPhotoIndex - 1;
      if currentPhotoIndex < 0 {
        currentPhotoIndex := |carImages| - 1;
      }
    }

    /** nextPhoto: nothing on an empty gallery. */
    method NextPhoto()
      requires Valid()
      modifies this
      ensures Valid() && carImages == old(carImages)
      ensures currentPhotoIndex == if carImages == [] then old(currentPhotoIndex)
                                   else NextIndex(old(currentPhotoIndex), |carImages|)
    {
      if carImages == [] {
        return;
      }
      currentPhotoIndex := currentPhotoIndex + 1;
      if currentPhotoIndex >= |carImages| {
        currentPhotoIndex := 0;
      }
    }

    /** A click on thumbnail `index`. */
    method SelectThumbnail(index: int)
      requires 0 <= index < |carImages|
      modifies this
      ensures Valid() && currentPhotoIndex == index && carImages == old(carImages)
    {
      currentPhotoIndex := index;
    }

    /** addPhoto, as written: each chosen file is added in order with isMain
        = (the gallery was empty when the dialog opened), so on an empty
        gallery every file is added as main; then the gallery is reloaded. */
    method AddPhoto(session: SessionManager.Session, images: CarImagesTable, files: Option<seq<string>>,
                    now: int, up: bool)
      returns (outcome: GalleryOutcome)
      requires images.Valid() && Valid()
      modifies this, images
      ensures images.Valid() && Valid()
      ensures !session.IsAdmin() ==> outcome == Denied && images.rows == old(images.rows)
      ensures session.IsAdmin() && (files.None? || files.value == []) ==>
        outcome == NothingChosen && images.rows == old(images.rows)
      ensures session.IsAdmin() && files.Some? && files.value != [] ==>
        && outcome == Done
        && images.rows == (if up then AddedInOrder(old(images.rows), old(images.nextId), car.id,
                                                  AddPhotoFlagsAsWritten(files.value, old(carImages) == []), now)
                           else old(images.rows))
        && carImages == Gallery(if up then OrderedImages(images.rows, car.id) else [], car)
    {
      if !session.IsAdmin() {
        return Denied;
      }
      if files.None? || files.value == [] {
        return NothingChosen;
      }
      var fs := files.value;
      images.AddImages(car.id, AddPhotoFlagsAsWritten(fs, carImages == []), now, up);
      LoadPhotoGallery(images, up);
      return Done;
    }

    /** addPhoto as evidently intended: each chosen file is added in order,
        only the first one as main and only when the gallery was empty; then
        the gallery is reloaded. */
    method AddPhotoIntended(session: SessionManager.Session, images: CarImagesTable, files: Option<seq<string>>,
                    now: int, up: bool)
      returns (outcome: GalleryOutcome)
      requires images.Valid() && Valid()
      modifies this, images
      ensures images.Valid() && Valid()
      ensures !session.IsAdmin() ==> outcome == Denied && images.rows == old(images.rows)
      ensures session.IsAdmin() && (files.None? || files.value == []) ==>
        outcome == NothingChosen && images.rows == old(images.rows)
      ensures session.IsAdmin() && files.Some? && files.value != [] ==>
        && outcome == Done
        && images.rows == (if up then AddedInOrder(old(images.rows), old(images.nextId), car.id,
                                                  AddPhotoFlags(files.value, old(carImages) == []), now)
                           else old(images.rows))
        && carImages == Gallery(if up then OrderedImages(images.rows, car.id) else [], car)
    {
      if !session.IsAdmin() {
        return Denied;
      }
      if files.None? || files.value == [] {
        return NothingChosen;
      }
      var fs := files.value;
      images.AddImages(car.id, AddPhotoFlags(fs, carImages == []), now, up);
      LoadPhotoGallery(images, up);
      return Done;
    }

    /** setMainPhoto: refused without a photo in range or when the shown one is
        already main, otherwise setMainImage on it and a reload on success. */
    method SetMainPhoto(session: SessionManager.Session, images: CarImagesTable, up: bool)
      returns (outcome: GalleryOutcome)
      requires images.Valid() && Valid()
      modifies this, images
      ensures images.Valid() && Valid() && currentPhotoIndex == old(currentPhotoIndex)
      ensures !session.IsAdmin() ==> outcome == Denied && images.rows == old(images.rows)
      ensures session.IsAdmin() && !(old(currentPhotoIndex) < |old(carImages)|) ==>
        outcome == NoSelection && images.rows == old(images.rows)
      ensures session.IsAdmin() && old(currentPhotoIndex) < |old(carImages)| && old(carImages)[old(currentPhotoIndex)].isMain ==>
        outcome == AlreadyMain && images.rows == old(images.rows)
      ensures session.IsAdmin() && old(currentPhotoIndex) < |old(carImages)| && !old(carImages)[old(currentPhotoIndex)].isMain ==>
        var imageId := old(carImages)[old(currentPhotoIndex)].id;
        && images.rows == (if up then MainSetRows(old(images.rows), imageId) else old(images.rows))
        && (outcome == Done <==> up && CarIdOf(old(images.rows), imageId) != -1)
        && (outcome != Done ==> outcome == Failed)
    {
      if !session.IsAdmin() {
        outcome := Denied;
      } else if carImages == [] || currentPhotoIndex >= |carImages| {
        outcome := NoSelection;
      } else if carImages[currentPhotoIndex].isMain {
        outcome := AlreadyMain;
      } else {
        var ok := images.SetMainImage(carImages[currentPhotoIndex].id, up);
        if ok {
          LoadPhotoGallery(images, up);
          outcome := Done;
        } else {
          outcome := Failed;
        }
      }
    }

    /** deletePhoto's confirmed branch: deleteImage on the shown photo and, on
        success, a step back unless at the first photo, and a reload. */
    method DeleteShownPhoto(images: CarImagesTable, up: bool) returns (outcome: GalleryOutcome)
      requires images.Valid() && Valid() && currentPhotoIndex < |carImages|
      modifies this, images
      ensures images.Valid() && Valid()
      ensures var imageId := old(carImages)[old(currentPhotoIndex)].id;
        && images.rows == (if up then DeletedRows(old(images.rows), imageId) else old(images.rows))
        && (outcome == Done || outcome == Failed)
        && (outcome == Done <==> up && HasKey(old(images.rows), Id, imageId))
        && (outcome == Done ==> currentPhotoIndex == if old(currentPhotoIndex) > 0
                                                    then old(currentPhotoIndex) - 1
                                                    else old(currentPhotoIndex))
    {
      var ok := images.DeleteImage(carImages[currentPhotoIndex].id, up);
      if ok {
        if currentPhotoIndex > 0 {
          currentPhotoIndex := currentPhotoIndex - 1;
        }
        LoadPhotoGallery(images, up);
        outcome := Done;
      } else {
        outcome := Failed;
      }
    }

    /** deletePhoto: refused without a photo in range and when it is the only
        one; otherwise the shown photo goes once the deletion is confirmed. */
    method DeletePhoto(session: SessionManager.Session, images: CarImagesTable, confirmed: bool, up: bool)
      returns (outcome: GalleryOutcome)
      requires images.Valid() && Valid()
      modifies this, images
      ensures images.Valid() && Valid()
      ensures !session.IsAdmin() ==> outcome == Denied && images.rows == old(images.rows)
      ensures outcome == Done ==> |old(carImages)| >= 2
      ensures session.IsAdmin() && !(old(currentPhotoIndex) < |old(carImages)|) ==>
        outcome == NoSelection && images.rows == old(images.rows)
      ensures session.IsAdmin() && |old(carImages)| == 1 && old(currentPhotoIndex) == 0 ==>
        outcome == LastPhoto && images.rows == old(images.rows)
      ensures session.IsAdmin() && old(currentPhotoIndex) < |old(carImages)| && |old(carImages)| >= 2 ==>
        var imageId := old(carImages)[old(currentPhotoIndex)].id;
        && (!confirmed ==> outcome == Cancelled && images.rows == old(images.rows))
        && (confirmed ==>
              && images.rows == (if up then DeletedRows(old(images.rows), imageId) else old(images.rows))
              && (outcome == Done <==> up && HasKey(old(images.rows), Id, imageId))
              && (outcome == Done ==> currentPhotoIndex == if old(currentPhotoIndex) > 0
                                                          then old(currentPhotoIndex) - 1
                                                          else old(currentPhotoIndex)))
    {
      if !session.IsAdmin() {
        outcome := Denied;
      } else if carImages == [] || currentPhotoIndex >= |carImages| {
        outcome := NoSelection;
      } else if |carImages| == 1 {
        outcome := LastPhoto;
      } else if !confirmed {
        outcome := Cancelled;
      } else {
        outcome := DeleteShownPhoto(images, up);
      }
    }

    /** rateCar: the clicked star's rating goes to setRating, for the signed-in
        user; a click on no star sends 0, which setRating refuses. */
    method RateCar(session: SessionManager.Session, comments: CommentsService.CommentsTable,
                   starButtons: array<int>, clicked: int, now: int, up: bool)
      returns (ok: bool)
      requires comments.Valid()
      modifies comments
      ensures comments.Valid()
      ensures !session.IsLoggedIn() ==> !ok && comments.rows == old(comments.rows)
      ensures (forall k :: 0 <= k < starButtons.Length ==> starButtons[k] != clicked) ==>
        !ok && comments.rows == old(comments.rows)
      ensures ok ==> exists k :: 0 <= k < starButtons.Length && starButtons[k] == clicked
      ensures session.IsLoggedIn() && 0 <= starButtons.Length <= CommentsService.MAX_RATING ==>
        forall k ::
          && 0 <= k < starButtons.Length && starButtons[k] == clicked
          && (forall j :: 0 <= j < k ==> starButtons[j] != clicked)
          ==>
          comments.rows == if up then CommentsService.Rated(old(comments.rows), old(comments.nextId), car.id,
                                                            session.currentUserId, k + 1, now)
                           else old(comments.rows)
    {
      if !session.IsLoggedIn() {
        return false;
      }
      var rating := ClickedRating(starButtons, clicked);
      ok := comments.SetRating(car.id, session.currentUserId, rating, now, up);
      if rating == 0 {
        assert !ok;
      }
      forall k | 0 <= k < starButtons.Length && starButtons[k] == clicked
          && (forall j :: 0 <= j < k ==> starButtons[j] != clicked)
        ensures rating == k + 1
      {
      }
    }

    /** addComment: for a signed-in user, the trimmed text when it passes the
        guard; nothing is sent otherwise. */
    method AddComment(session: SessionManager.Session, comments: CommentsService.CommentsTable, text: string,
                      now: int, up: bool)
      returns (outcome: CommentOutcome)
      requires comments.Valid()
      modifies comments
      ensures comments.Valid()
      ensures outcome == Added ==> session.IsLoggedIn() && CheckedComment(text).Some?
      ensures comments.rows == if session.IsLoggedIn() && CheckedComment(text).Some? && up
        then CommentsService.CommentAdded(old(comments.rows), old(comments.nextId), car.id,
                                          session.currentUserId, CheckedComment(text), now)
        else old(comments.rows)
    {
      if !session.IsLoggedIn() {
        return SignInFirst;
      }
      var t := Trim(text);
      if t == [] {
        return EmptyComment;
      }
      if |t| > MAX_COMMENT_LENGTH {
        return TooLong;
      }
      var ok := comments.AddComment(car.id, session.currentUserId, Some(t), now, up);
      outcome := if ok then Added else NotAdded;
    }

    /** The reservation form's reserve button: the messages when a check fails,
        otherwise createReservation with the trimmed fields, the date at the
        start of its day, and the trimmed notes. */
    method SubmitReservation(session: SessionManager.Session, store: ReservationsService.OrdersStore,
                             nameText: string, phoneText: string, emailText: string, date: Option<int>,
                             notesText: string, today: int, now: int, up: bool)
      returns (outcome: FormOutcome)
      requires store.Valid()
      modifies store
      ensures store.Valid() && store.purchases == old(store.purchases)
      ensures !session.IsLoggedIn() ==> outcome == SignInRequired && store.reservations == old(store.reservations)
      ensures session.IsLoggedIn() ==>
        var c := Contact(nameText, phoneText, emailText, notesText);
        var errors := ReservationErrors(c, date, today);
        && (|errors| > 0 ==> outcome == Rejected(errors) && store.reservations == old(store.reservations))
        && (|errors| == 0 ==>
              && outcome == Submitted(up)
              && store.reservations == if up then old(store.reservations) + [ReservationsService.NewReservation(
                   old(store.nextReservationId), car.id, session.currentUserId, c.name, c.phone, c.email, StartOfDay(date), Some(c.notes), now)]
                 else old(store.reservations))
    {
      if !session.IsLoggedIn() {
        outcome := SignInRequired;
      } else {
        var c := Contact(nameText, phoneText, emailText, notesText);
        var errors := ReservationErrors(c, date, today);
        if |errors| > 0 {
          outcome := Rejected(errors);
        } else {
          var saved := store.CreateReservation(car.id, session.currentUserId, c.name, c.phone, c.email,
            StartOfDay(date), Some(c.notes), now, up);
          outcome := Submitted(saved);
        }
      }
    }

    /** The purchase form's buy button: createPurchase with the car's price and
        the chosen payment text. */
    method SubmitPurchase(session: SessionManager.Session, store: ReservationsService.OrdersStore,
                          nameText: string, phoneText: string, emailText: string, payment: Option<string>,
                          notesText: string, now: int, up: bool)
      returns (outcome: FormOutcome)
      requires store.Valid()
      modifies store
      ensures store.Valid() && store.reservations == old(store.reservations)
      ensures !session.IsLoggedIn() ==> outcome == SignInRequired && store.purchases == old(store.purchases)
      ensures session.IsLoggedIn() ==>
        var c := Contact(nameText, phoneText, emailText, notesText);
        var errors := PurchaseErrors(c, payment);
        && (|errors| > 0 ==> outcome == Rejected(errors) && store.purchases == old(store.purchases))
        && (|errors| == 0 ==>
              && outcome == Submitted(up)
              && store.purchases == if up then old(store.purchases) + [ReservationsService.NewPurchase(
                   old(store.nextPurchaseId), car.id, session.currentUserId, c.name, c.phone, c.email, car.price, payment, Some(c.notes), now)]
                 else old(store.purchases))
    {
      if !session.IsLoggedIn() {
        outcome := SignInRequired;
      } else {
        var c := Contact(nameText, phoneText, emailText, notesText);
        var errors := PurchaseErrors(c, payment);
        if |errors| > 0 {
          outcome := Rejected(errors);
        } else {
          var saved := store.CreatePurchase(car.id, session.currentUserId, c.name, c.phone, c.email, car.price,
            payment, Some(c.notes), now, up);
          outcome := Submitted(saved);
        }
      }
    }
  }
}
