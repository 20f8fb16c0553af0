/** AdminOrdersController: the administrator's orders screen. It holds the
    reservations and purchases last loaded from ReservationsService, shows one
    of the two tables, and filters it by a status chosen with toggle buttons. */
module AdminOrdersController {
  import opened Wrappers
  import opened Seqs
  import ReservationsService
  import ReservationModel
  import PurchaseModel

  type ReservationListing = ReservationsService.ReservationListing
  type PurchaseListing = ReservationsService.PurchaseListing

  /** The filter value of the "all" toggle. */
  const ALL: string := "all"

  /** The statuses the screen itself knows (its toggles, buttons and labels). */
  datatype AdminStatus = Pending | Confirmed | Completed | Cancelled {
    function Code(): string {
      match this
      case Pending => "pending"
      case Confirmed => "confirmed"
      case Completed => "completed"
      case Cancelled => "cancelled"
    }
  }

  /** The payment methods translatePaymentMethod knows. */
  datatype AdminPaymentMethod = Cash | Card | Transfer | Installment {
    function Code(): string {
      match this
      case Cash => "cash"
      case Card => "card"
      case Transfer => "transfer"
      case Installment => "installment"
    }
  }

  function ParseStatus(s: string): (r: Option<AdminStatus>)
    ensures r.Some? ==> r.value.Code() == s
  {
    if s == "pending" then Some(Pending)
    else if s == "confirmed" then Some(Confirmed)
    else if s == "completed" then Some(Completed)
    else if s == "cancelled" then Some(Cancelled)
    else None
  }

  function ParsePaymentMethod(s: string): (r: Option<AdminPaymentMethod>)
    ensures r.Some? ==> r.value.Code() == s
  {
    if s == "cash" then Some(Cash)
    else if s == "card" then Some(Card)
    else if s == "transfer" then Some(Transfer)
    else if s == "installment" then Some(Installment)
    else None
  }

  /** translateStatus. */
  function TranslateStatus(status: string): string {
    match status
    case "pending" => "⏳ В обработке"
    case "confirmed" => "✅ Подтверждено"
    case "completed" => "🎉 Завершено"
    case "cancelled" => "❌ Отменено"
    case _ => status
  }

  /** translatePaymentMethod: a switch on the code, which throws on a missing
      one (None here). */
  function TranslatePaymentMethod(paymentMethod: Option<string>): Option<string> {
    match paymentMethod
    case None => None
    case Some(m) =>
      Some(match m
        case "cash" => "💵 Наличные"
        case "card" => "💳 Карта"
        case "transfer" => "🏦 Перевод"
        case "installment" => "📅 Рассрочка"
        case _ => m)
  }

  /** Both translations label exactly their four codes and pass anything else
      through; a missing payment method has no translation. */
  lemma TranslateSpec(s: string)
    ensures TranslateStatus(s) != s <==> ParseStatus(s).Some?
    ensures TranslatePaymentMethod(None) == None
    ensures TranslatePaymentMethod(Some(s)).Some?
    ensures TranslatePaymentMethod(Some(s)).value != s <==> ParsePaymentMethod(s).Some?
  {
  }

  /** The screen's vocabularies disagree with the models': the status it writes
      on confirming ("confirmed") has no label in models.Reservation, whose
      "approved" it cannot label itself; "paid" has no label here; and the two
      sides name the non-cash payment methods differently. */
  lemma VocabularyMismatch()
    ensures ReservationModel.ParseStatus(Confirmed.Code()) == None
    ensures ReservationModel.StatusRu(Confirmed.Code()) == Confirmed.Code()
    ensures ParseStatus(ReservationModel.ReservationStatus.Approved.Code()) == None
    ensures ParseStatus(PurchaseModel.PurchaseStatus.Paid.Code()) == None
    ensures PurchaseModel.ParseStatus(Confirmed.Code()) == None
    ensures forall m: AdminPaymentMethod :: PurchaseModel.ParsePaymentMethod(m.Code()).Some? <==> m == Cash || m == Card
    ensures forall m: PurchaseModel.PaymentMethod ::
      ParsePaymentMethod(m.Code()).Some? <==> m == PurchaseModel.PaymentMethod.Cash || m == PurchaseModel.PaymentMethod.Card
  {
  }

  /** Whether a row shows its action buttons (confirm or complete, and cancel). */
  predicate ActionsVisible(status: string) {
    status == "pending" || status == "confirmed"
  }

  /** The status each action button sends to the service. */
  const RESERVATION_CONFIRM: string := "confirmed"
  const PURCHASE_COMPLETE: string := "completed"
  const CANCEL: string := "cancelled"

  /** Buttons show on pending and confirmed rows only: a confirmed reservation
      keeps them, a completed or cancelled row and a paid purchase lose them. */
  lemma ActionsVisibleSpec(status: string)
    ensures ActionsVisible(status) <==> ParseStatus(status) == Some(Pending) || ParseStatus(status) == Some(Confirmed)
    ensures ActionsVisible(RESERVATION_CONFIRM)
    ensures !ActionsVisible(PURCHASE_COMPLETE) && !ActionsVisible(CANCEL)
    ensures !ActionsVisible(PurchaseModel.PurchaseStatus.Paid.Code())
  {
  }

  function ReservationStatus(l: ReservationListing): string {
    l.row.status
  }

  function PurchaseStatus(l: PurchaseListing): string {
    l.row.status
  }

  /** applyFilter's choice of items: the whole loaded list for "all", otherwise
      the loaded rows whose status equals the filter, in load order. */
  function Shown<T>(loaded: seq<T>, filter: string, status: T -> string): seq<T> {
    if filter == ALL then loaded else Filter(loaded, StatusIs(status, filter))
  }

  /** The test of ObservableList.filtered: the row's status equals the filter. */
  function StatusIs<T>(status: T -> string, filter: string): T -> bool {
    (x: T) => status(x) == filter
  }

  /** The shown rows are the loaded rows with the filter's status, every copy of
      each and nothing else; "all" shows the loaded list itself. */
  lemma ShownSpec<T>(loaded: seq<T>, filter: string, status: T -> string, x: T)
    ensures filter == ALL ==> Shown(loaded, filter, status) == loaded
    ensures filter != ALL ==>
      && (forall i :: 0 <= i < |Shown(loaded, filter, status)| ==> status(Shown(loaded, filter, status)[i]) == filter)
      && multiset(Shown(loaded, filter, status))[x] == if status(x) == filter then multiset(loaded)[x] else 0
  {
    if filter != ALL {
      FilterMultiset(loaded, StatusIs(status, filter), x);
    }
  }

  /** filterByStatus: the first selected toggle in screen order, or nothing. */
  function SelectedFilter(all: bool, pending: bool, confirmed: bool, completed: bool, cancelled: bool)
    : Option<string>
  {
    if all then Some(ALL)
    else if pending then Some(Pending.Code())
    else if confirmed then Some(Confirmed.Code())
    else if completed then Some(Completed.Code())
    else if cancelled then Some(Cancelled.Code())
    else None
  }

  /** The chosen filter is "all" or one of the screen's statuses; a toggle wins
      over every toggle after it, and no selection chooses nothing. */
  lemma SelectedFilterSpec(all: bool, pending: bool, confirmed: bool, completed: bool, cancelled: bool)
    ensures var f := SelectedFilter(all, pending, confirmed, completed, cancelled);
      && (f.Some? ==> f.value == ALL || ParseStatus(f.value).Some?)
      && (f == None <==> !all && !pending && !confirmed && !completed && !cancelled)
      && (all ==> f == Some(ALL))
      && (!all && pending ==> f == Some("pending"))
      && (!all && !pending && confirmed ==> f == Some("confirmed"))
      && (!all && !pending && !confirmed && completed ==> f == Some("completed"))
      && (!all && !pending && !confirmed && !completed && cancelled ==> f == Some("cancelled"))
  {
  }

  class AdminOrdersView {
    var allReservations: seq<ReservationListing>
    var allPurchases: seq<PurchaseListing>
    var currentFilter: string
    var showingReservations: bool
    /** The items of the two tables. */
    var reservationsItems: seq<ReservationListing>
    var purchasesItems: seq<PurchaseListing>
    /** The number in the "total" label. */
    var total: int

    /** The active table shows the filtered loaded list and the label counts it. */
    ghost predicate Consistent()
      reads this
    {
      if showingReservations then
        reservationsItems == Shown(allReservations, currentFilter, ReservationStatus)
        && total == |reservationsItems|
      else
        purchasesItems == Shown(allPurchases, currentFilter, PurchaseStatus)
        && total == |purchasesItems|
    }

    constructor ()
      ensures currentFilter == ALL && showingReservations
      ensures allReservations == [] && allPurchases == []
      ensures Consistent()
    {
      allReservations := [];
      allPurchases := [];
      currentFilter := ALL;
      showingReservations := true;
      reservationsItems := [];
      purchasesItems := [];
      total := 0;
    }

    /** updateTotalLabel: the size of the active table. */
    method UpdateTotalLabel()
      modifies this
      ensures total == if showingReservations then |reservationsItems| else |purchasesItems|
      ensures allReservations == old(allReservations) && allPurchases == old(allPurchases)
      ensures currentFilter == old(currentFilter) && showingReservations == old(showingReservations)
      ensures reservationsItems == old(reservationsItems) && purchasesItems == old(purchasesItems)
    {
      total := if showingReservations then |reservationsItems| else |purchasesItems|;
    }

    /** applyFilter: refills only the active table, then the label. */
    method ApplyFilter()
      modifies this
      ensures Consistent()
      ensures allReservations == old(allReservations) && allPurchases == old(allPurchases)
      ensures currentFilter == old(currentFilter) && showingReservations == old(showingReservations)
      ensures showingReservations ==> purchasesItems == old(purchasesItems)
      ensures !showingReservations ==> reservationsItems == old(reservationsItems)
    {
      var filter := currentFilter;
      if showingReservations {
        if filter == ALL {
          reservationsItems := allReservations;
        } else {
          reservationsItems := Filter(allReservations, StatusIs(ReservationStatus, filter));
        }
      } else {
        if filter == ALL {
          purchasesItems := allPurchases;
        } else {
          purchasesItems := Filter(allPurchases, StatusIs(PurchaseStatus, filter));
        }
      }
      UpdateTotalLabel();
    }

    /** loadData: replaces both loaded lists with what the service returned. */
    method LoadData(reservations: seq<ReservationListing>, purchases: seq<PurchaseListing>)
      modifies this
      ensures allReservations == reservations && allPurchases == purchases
      ensures currentFilter == old(currentFilter) && showingReservations == old(showingReservations)
      ensures Consistent()
    {
      allReservations := reservations;
      allPurchases := purchases;
      ApplyFilter();
    }

    /** showReservations. */
    method ShowReservations()
      modifies this
      ensures showingReservations && currentFilter == old(currentFilter)
      ensures allReservations == old(allReservations) && allPurchases == old(allPurchases)
      ensures Consistent()
    {
      showingReservations := true;
      ApplyFilter();
    }

    /** showPurchases. */
    method ShowPurchases()
      modifies this
      ensures !showingReservations && currentFilter == old(currentFilter)
      ensures allReservations == old(allReservations) && allPurchases == old(allPurchases)
      ensures Consistent()
    {
      showingReservations := false;
      ApplyFilter();
    }

    /** filterByStatus: the first selected toggle sets the filter; with none
        selected the filter stays, and the table is refilled either way. */
    method FilterByStatus(all: bool, pending: bool, confirmed: bool, completed: bool, cancelled: bool)
      modifies this
      ensures currentFilter == SelectedFilter(all, pending, confirmed, completed, cancelled).GetOr(old(currentFilter))
      ensures showingReservations == old(showingReservations)
      ensures allReservations == old(allReservations) && allPurchases == old(allPurchases)
      ensures Consistent()
    {
      if all {
        currentFilter := ALL;
      } else if pending {
        currentFilter := "pending";
      } else if confirmed {
        currentFilter := "confirmed";
      } else if completed {
        currentFilter := "completed";
      } else if cancelled {
        currentFilter := "cancelled";
      }
      ApplyFilter();
    }

    /** updateReservationStatus: the status goes to the service only when the
        confirmation dialog returned OK; a success reloads both lists. `up`
        says whether the update's statement succeeds, `reloadUp` whether the
        reload's queries do. */
    method UpdateReservationStatus(store: ReservationsService.OrdersStore, id: int, newStatus: string,
                                   dialogOk: bool, carNames: map<int, string>, userNames: map<int, string>,
                                   now: int, up: bool, reloadUp: bool)
      requires store.Valid()
      modifies this, store
      ensures store.Valid() && store.purchases == old(store.purchases)
      ensures !(dialogOk && up) ==> store.reservations == old(store.reservations)
      ensures dialogOk && up ==>
        store.reservations == ReservationsService.ReservationStatusSet(old(store.reservations), id, newStatus, now)
      ensures currentFilter == old(currentFilter) && showingReservations == old(showingReservations)
      ensures dialogOk && up && HasKey(old(store.reservations), ReservationsService.ReservationId, id)
        ==> allReservations
              == (if reloadUp then ReservationsService.AllReservations(store.reservations, carNames, userNames) else [])
            && allPurchases
              == (if reloadUp then ReservationsService.AllPurchases(store.purchases, carNames, userNames) else [])
            && Consistent()
      ensures !(dialogOk && up && HasKey(old(store.reservations), ReservationsService.ReservationId, id))
        ==> unchanged(this)
    {
      if dialogOk {
        var success := store.UpdateReservationStatus(id, newStatus, now, up);
        if success {
          Refresh(store, carNames, userNames, reloadUp);
        }
      }
    }

    /** updatePurchaseStatus: the same guard for purchases. */
    method UpdatePurchaseStatus(store: ReservationsService.OrdersStore, id: int, newStatus: string,
                                dialogOk: bool, carNames: map<int, string>, userNames: map<int, string>,
                                now: int, up: bool, reloadUp: bool)
      requires store.Valid()
      modifies this, store
      ensures store.Valid() && store.reservations == old(store.reservations)
      ensures !(dialogOk && up) ==> store.purchases == old(store.purchases)
      ensures dialogOk && up ==>
        store.purchases == ReservationsService.PurchaseStatusSet(old(store.purchases), id, newStatus, now)
      ensures currentFilter == old(currentFilter) && showingReservations == old(showingReservations)
      ensures dialogOk && up && HasKey(old(store.purchases), ReservationsService.PurchaseId, id)
        ==> allReservations
              == (if reloadUp then ReservationsService.AllReservations(store.reservations, carNames, userNames) else [])
            && allPurchases
              == (if reloadUp then ReservationsService.AllPurchases(store.purchases, carNames, userNames) else [])
            && Consistent()
      ensures !(dialogOk && up && HasKey(old(store.purchases), ReservationsService.PurchaseId, id))
        ==> unchanged(this)
    {
      if dialogOk {
        var success := store.UpdatePurchaseStatus(id, newStatus, now, up);
        if success {
          Refresh(store, carNames, userNames, reloadUp);
        }
      }
    }

    /** refreshData: reload both lists from the service. The service hands
        back an empty list when its query fails, so a failed reload empties
        both tables (and the screen still reports the data as refreshed). */
    method Refresh(store: ReservationsService.OrdersStore, carNames: map<int, string>, userNames: map<int, string>,
                   up: bool)
      modifies this
      ensures allReservations
        == if up then ReservationsService.AllReservations(store.reservations, carNames, userNames) else []
      ensures allPurchases
        == if up then ReservationsService.AllPurchases(store.purchases, carNames, userNames) else []
      ensures currentFilter == old(currentFilter) && showingReservations == old(showingReservations)
      ensures Consistent()
    {
      var reservations := store.GetAllReservations(carNames, userNames, up);
      var purchases := store.GetAllPurchases(carNames, userNames, up);
      LoadData(reservations, purchases);
    }
  }
}
