/** models.Reservation: a listed reservation. Only the status and the update
    time can change after construction; every other field is read-only. */
module ReservationModel {
  import opened Wrappers

  /** The statuses getStatusRu knows. */
  datatype ReservationStatus = Pending | Approved | Completed | Cancelled {
    function Code(): string {
      match this
      case Pending => "pending"
      case Approved => "approved"
      case Completed => "completed"
      case Cancelled => "cancelled"
    }
  }

  /** The status a code names, if getStatusRu has a case for it. */
  function ParseStatus(s: string): (r: Option<ReservationStatus>)
    ensures r.Some? ==> r.value.Code() == s
  {
    if s == "pending" then Some(Pending)
    else if s == "approved" then Some(Approved)
    else if s == "completed" then Some(Completed)
    else if s == "cancelled" then Some(Cancelled)
    else None
  }

  /** getStatusRu: a fixed label for the four known statuses, the status itself otherwise. */
  function StatusRu(status: string): string {
    match status
    case "pending" => "🟡 Ожидает"
    case "approved" => "🟢 Одобрено"
    case "completed" => "✅ Завершено"
    case "cancelled" => "❌ Отменено"
    case _ => status
  }

  /** Every status code is recognised, and only the codes are. */
  lemma ParseStatusCode(st: ReservationStatus, s: string)
    ensures ParseStatus(st.Code()) == Some(st)
    ensures ParseStatus(s).Some? <==> exists t: ReservationStatus :: t.Code() == s
  {
    if exists t: ReservationStatus :: t.Code() == s {
      var t: ReservationStatus :| t.Code() == s;
      assert ParseStatus(s) == Some(t);
    }
  }

  /** A status gets a label exactly when it is one of the four codes; any other
      status, "confirmed" among them, is shown as it is. */
  lemma StatusRuSpec(s: string)
    ensures StatusRu(s) != s <==> ParseStatus(s).Some?
    ensures StatusRu("confirmed") == "confirmed"
    ensures forall a, b: ReservationStatus :: a != b ==> StatusRu(a.Code()) != StatusRu(b.Code())
  {
  }

  class Reservation {
    const id: int
    const carId: int
    const carName: string
    const userId: int
    const userName: string
    const customerName: string
    const phone: string
    const email: string
    const reservationDate: int
    var status: string
    const notes: Option<string>
    const createdAt: int
    var updatedAt: int

    constructor (id: int, carId: int, carName: string, userId: int, userName: string,
                 customerName: string, phone: string, email: string, reservationDate: int,
                 status: string, notes: Option<string>, createdAt: int, updatedAt: int)
      ensures this.id == id && this.carId == carId && this.carName == carName
      ensures this.userId == userId && this.userName == userName
      ensures this.customerName == customerName && this.phone == phone && this.email == email
      ensures this.reservationDate == reservationDate && this.status == status && this.notes == notes
      ensures this.createdAt == createdAt && this.updatedAt == updatedAt
    {
      this.id := id;
      this.carId := carId;
      this.carName := carName;
      this.userId := userId;
      this.userName := userName;
      this.customerName := customerName;
      this.phone := phone;
      this.email := email;
      this.reservationDate := reservationDate;
      this.status := status;
      this.notes := notes;
      this.createdAt := createdAt;
      this.updatedAt := updatedAt;
    }

    /** setStatus. */
    method SetStatus(status: string)
      modifies this
      ensures this.status == status && updatedAt == old(updatedAt)
    {
      this.status := status;
    }

    /** setUpdatedAt. */
    method SetUpdatedAt(updatedAt: int)
      modifies this
      ensures this.updatedAt == updatedAt && status == old(status)
    {
      this.updatedAt := updatedAt;
    }
  }
}

/** models.Purchase: a listed purchase. Only the status and the completion
    time can change after construction. */
module PurchaseModel {
  import opened Wrappers

  /** The statuses getStatusRu knows. */
  datatype PurchaseStatus = Pending | Paid | Completed | Cancelled {
    function Code(): string {
      match this
      case Pending => "pending"
      case Paid => "paid"
      case Completed => "completed"
      case Cancelled => "cancelled"
    }
  }

  /** The payment methods getPaymentMethodRu knows. */
  datatype PaymentMethod = Cash | Card | BankTransfer | Credit {
    function Code(): string {
      match this
      case Cash => "cash"
      case Card => "card"
      case BankTransfer => "bank_transfer"
      case Credit => "credit"
    }
  }

  function ParseStatus(s: string): (r: Option<PurchaseStatus>)
    ensures r.Some? ==> r.value.Code() == s
  {
    if s == "pending" then Some(Pending)
    else if s == "paid" then Some(Paid)
    else if s == "completed" then Some(Completed)
    else if s == "cancelled" then Some(Cancelled)
    else None
  }

  function ParsePaymentMethod(s: string): (r: Option<PaymentMethod>)
    ensures r.Some? ==> r.value.Code() == s
  {
    if s == "cash" then Some(Cash)
    else if s == "card" then Some(Card)
    else if s == "bank_transfer" then Some(BankTransfer)
    else if s == "credit" then Some(Credit)
    else None
  }

  /** getStatusRu. */
  function StatusRu(status: string): string {
    match status
    case "pending" => "🟡 Ожидает оплаты"
    case "paid" => "💰 Оплачено"
    case "completed" => "✅ Завершено"
    case "cancelled" => "❌ Отменено"
    case _ => status
  }

  /** Shown for a purchase without a payment method. */
  const NO_PAYMENT_METHOD: string := "—"

  /** getPaymentMethodRu: a dash for a missing method, a label for the four known
      codes, the code itself otherwise. */
  function PaymentMethodRu(paymentMethod: Option<string>): string {
    match paymentMethod
    case None => NO_PAYMENT_METHOD
    case Some(m) =>
      match m
      case "cash" => "💵 Наличные"
      case "card" => "💳 Карта"
      case "bank_transfer" => "🏦 Перевод"
      case "credit" => "📊 Кредит"
      case _ => m
  }

  lemma ParseCodes(st: PurchaseStatus, pm: PaymentMethod)
    ensures ParseStatus(st.Code()) == Some(st)
    ensures ParsePaymentMethod(pm.Code()) == Some(pm)
  {
  }

  /** A status gets a label exactly when it is one of the four codes, and the
      labels are distinct. */
  lemma StatusRuSpec(s: string)
    ensures StatusRu(s) != s <==> ParseStatus(s).Some?
    ensures forall a, b: PurchaseStatus :: a != b ==> StatusRu(a.Code()) != StatusRu(b.Code())
  {
  }

  /** A payment method gets a label exactly when it is one of the four codes;
      a missing one is shown as a dash. */
  lemma PaymentMethodRuSpec(m: string)
    ensures PaymentMethodRu(None) == NO_PAYMENT_METHOD
    ensures PaymentMethodRu(Some(m)) != m <==> ParsePaymentMethod(m).Some?
    ensures forall a, b: PaymentMethod :: a != b ==> PaymentMethodRu(Some(a.Code())) != PaymentMethodRu(Some(b.Code()))
  {
  }

  class Purchase {
    const id: int
    const carId: int
    const carName: string
    const userId: int
    const userName: string
    const customerName: string
    const phone: string
    const email: string
    const price: int
    const paymentMethod: Option<string>
    var status: string
    const notes: Option<string>
    const purchaseDate: int
    var completedAt: Option<int>

    constructor (id: int, carId: int, carName: string, userId: int, userName: string,
                 customerName: string, phone: string, email: string, price: int,
                 paymentMethod: Option<string>, status: string, notes: Option<string>,
                 purchaseDate: int, completedAt: Option<int>)
      ensures this.id == id && this.carId == carId && this.carName == carName
      ensures this.userId == userId && this.userName == userName
      ensures this.customerName == customerName && this.phone == phone && this.email == email
      ensures this.price == price && this.paymentMethod == paymentMethod
      ensures this.status == status && this.notes == notes
      ensures this.purchaseDate == purchaseDate && this.completedAt == completedAt
    {
      this.id := id;
      this.carId := carId;
      this.carName := carName;
      this.userId := userId;
      this.userName := userName;
      this.customerName := customerName;
      this.phone := phone;
      this.email := email;
      this.price := price;
      this.paymentMethod := paymentMethod;
      this.status := status;
      this.notes := notes;
      this.purchaseDate := purchaseDate;
      this.completedAt := completedAt;
    }

    /** setStatus. */
    method SetStatus(status: string)
      modifies this
      ensures this.status == status && completedAt == old(completedAt)
    {
      this.status := status;
    }

    /** setCompletedAt. */
    method SetCompletedAt(completedAt: Option<int>)
      modifies this
      ensures this.completedAt == completedAt && status == old(status)
    {
      this.completedAt := completedAt;
    }
  }
}
