/** The table-detail screen: the open tab (`adisyon`) of one table, the
    product list, and what each user action does to them. Every service
    call is an input: the reply it produced (`Ok(value)` or `Fail`) is a
    parameter of the action, and each action reports the requests it sent.
    Each action is modelled as one step; the interleaving of actions whose
    requests overlap is not modelled. */
module TabSession {
  import opened Options

  datatype Product = Product(urunId: int, urunAdi: string, urunFiyati: real)

  /** One line of a tab: `adet` units of a product, priced by the service. */
  datatype OrderLine = OrderLine(siparisId: int, adet: int, urun: Option<Product>, toplamTutar: real)

  /** A tab as the service returns it; its totals are the service's own. */
  datatype Tab = Tab(siparisler: seq<OrderLine>, toplamTutar: real, masaNo: string)

  /** The tab shown before anything has been fetched. */
  const EmptyTab: Tab := Tab([], 0.0, "")

  datatype Severity = Success | Info | Error

  datatype Snackbar = Snackbar(open: bool, message: string, severity: Severity)

  const LoadFailed: string := "Veriler yüklenirken hata oluştu"
  const Added: string := "Ürün sepete eklendi"
  const AddFailed: string := "Ürün eklenemedi"
  const Removed: string := "Ürün çıkarıldı"
  const RemoveFailed: string := "İşlem başarısız"
  const Closed: string := "Adisyon kapatıldı"
  const CloseFailed: string := "Adisyon kapatılamadı"

  /** What the screen holds. While `loading` is set only a spinner is shown,
      so no button can be pressed. */
  datatype State = State(adisyon: Tab, urunler: seq<Product>, loading: bool, snackbar: Snackbar)

  function Initial(): State {
    State(EmptyTab, [], true, Snackbar(false, "", Success))
  }

  /** The calls the screen makes on the order service. */
  datatype Request =
    | GetTab(masaId: string)
    | ListProducts
    | PostOrder(masaId: string, urunId: int, adet: int)
    | PutQuantity(siparisId: int, yeniAdet: int)
    | DeleteTabOrders(masaId: string)

  /** Requests that change orders on the service. */
  predicate IsMutation(q: Request) {
    q.PostOrder? || q.PutQuantity? || q.DeleteTabOrders?
  }

  /** The outcome of one action: the new state, the requests sent in order,
      and whether the screen returns to the table list. */
  datatype Step = Step(next: State, sent: seq<Request>, goHome: bool)

  /** Opening the screen: the tab and the product list are fetched together
      and installed only when both arrive. */
  function Load(s: State, masaId: string, tab: Reply<Tab>, products: Reply<seq<Product>>): (r: Step)
    ensures r.sent == [GetTab(masaId), ListProducts] && !r.goHome
    ensures !r.next.loading
    ensures tab.Ok? && products.Ok? ==>
      r.next.adisyon == tab.value && r.next.urunler == products.value && r.next.snackbar == s.snackbar
    ensures tab.Fail? || products.Fail? ==>
      r.next.adisyon == s.adisyon && r.next.urunler == s.urunler &&
      r.next.snackbar == Snackbar(true, LoadFailed, Error)
  {
    var next :=
      match (tab, products)
      case (Ok(t), Ok(ps)) => s.(adisyon := t, urunler := ps)
      case _ => s.(snackbar := Snackbar(true, LoadFailed, Error));
    Step(next.(loading := false), [GetTab(masaId), ListProducts], false)
  }

  /** The pattern every change follows: send the mutation; if it succeeds,
      fetch the tab again and show it; report success only when both calls
      succeeded, and an error otherwise. */
  function Mutate(s: State, masaId: string, mutation: Request, done: Reply<()>, refetch: Reply<Tab>,
                  success: Snackbar, failure: Snackbar): (r: Step)
    requires IsMutation(mutation)
    ensures !r.goHome
    ensures done.Ok? ==> r.sent == [mutation, GetTab(masaId)]
    ensures done.Fail? ==> r.sent == [mutation]
    ensures r.next.urunler == s.urunler && r.next.loading == s.loading
    ensures done.Ok? && refetch.Ok? ==> r.next.adisyon == refetch.value && r.next.snackbar == success
    ensures done.Fail? || refetch.Fail? ==> r.next.adisyon == s.adisyon && r.next.snackbar == failure
  {
    match done
    case Fail => Step(s.(snackbar := failure), [mutation], false)
    case Ok(_) =>
      var next :=
        match refetch
        case Ok(t) => s.(adisyon := t, snackbar := success)
        case Fail => s.(snackbar := failure);
      Step(next, [mutation, GetTab(masaId)], false)
  }

  /** Adds one unit of a product to the tab. */
  function AddProduct(s: State, masaId: string, urunId: int, posted: Reply<()>, refetch: Reply<Tab>): (r: Step)
    ensures posted.Ok? ==> r.sent == [PostOrder(masaId, urunId, 1), GetTab(masaId)]
    ensures posted.Fail? ==> r.sent == [PostOrder(masaId, urunId, 1)]
    ensures r.next.urunler == s.urunler && r.next.loading == s.loading && !r.goHome
    ensures posted.Ok? && refetch.Ok? ==> r.next.adisyon == refetch.value && r.next.snackbar == Snackbar(true, Added, Success)
    ensures posted.Fail? || refetch.Fail? ==> r.next.adisyon == s.adisyon && r.next.snackbar == Snackbar(true, AddFailed, Error)
  {
    Mutate(s, masaId, PostOrder(masaId, urunId, 1), posted, refetch,
      Snackbar(true, Added, Success), Snackbar(true, AddFailed, Error))
  }

  /** Takes one unit off a line: the service is told the line's new quantity,
      one less than the quantity shown, even when that reaches zero; the
      line itself is never edited or dropped on the screen. Nothing checks
      that the line is still on the shown tab. */
  function RemoveOne(s: State, masaId: string, line: OrderLine, put: Reply<()>, refetch: Reply<Tab>): (r: Step)
    ensures put.Ok? ==> r.sent == [PutQuantity(line.siparisId, line.adet - 1), GetTab(masaId)]
    ensures put.Fail? ==> r.sent == [PutQuantity(line.siparisId, line.adet - 1)]
    ensures r.next.urunler == s.urunler && r.next.loading == s.loading && !r.goHome
    ensures r.next.adisyon == s.adisyon || (refetch.Ok? && r.next.adisyon == refetch.value)
    ensures put.Ok? && refetch.Ok? ==> r.next.adisyon == refetch.value && r.next.snackbar == Snackbar(true, Removed, Info)
    ensures put.Fail? || refetch.Fail? ==> r.next.adisyon == s.adisyon && r.next.snackbar == Snackbar(true, RemoveFailed, Error)
  {
    Mutate(s, masaId, PutQuantity(line.siparisId, line.adet - 1), put, refetch,
      Snackbar(true, Removed, Info), Snackbar(true, RemoveFailed, Error))
  }

  /** Closes the tab after the user confirms: all of the table's orders are
      deleted, the tab is fetched again, and only then is success reported
      and the return to the table list scheduled. */
  function CloseTab(s: State, masaId: string, confirmed: bool, deleted: Reply<()>, refetch: Reply<Tab>): (r: Step)
    ensures !confirmed ==> r.sent == [] && r.next == s
    ensures confirmed && deleted.Ok? ==> r.sent == [DeleteTabOrders(masaId), GetTab(masaId)]
    ensures confirmed && deleted.Fail? ==> r.sent == [DeleteTabOrders(masaId)]
    ensures r.next.urunler == s.urunler && r.next.loading == s.loading
    ensures r.goHome <==> confirmed && deleted.Ok? && refetch.Ok?
    ensures r.goHome ==> r.next.adisyon == refetch.value && r.next.snackbar == Snackbar(true, Closed, Success)
    ensures confirmed && (deleted.Fail? || refetch.Fail?) ==>
      r.next.adisyon == s.adisyon && r.next.snackbar == Snackbar(true, CloseFailed, Error)
  {
    if !confirmed then Step(s, [], false)
    else
      var m := Mutate(s, masaId, DeleteTabOrders(masaId), deleted, refetch,
        Snackbar(true, Closed, Success), Snackbar(true, CloseFailed, Error));
      m.(goHome := deleted.Ok? && refetch.Ok?)
  }

  /** The close button is disabled while the tab has no lines. */
  predicate CloseEnabled(t: Tab) {
    |t.siparisler| != 0
  }

  /** Something that happens to the screen, with the replies it met. */
  datatype Event =
    | Loaded(tab: Reply<Tab>, products: Reply<seq<Product>>)
    | AddPressed(urunId: int, posted: Reply<()>, addRefetch: Reply<Tab>)
    | RemovePressed(line: OrderLine, put: Reply<()>, removeRefetch: Reply<Tab>)
    | ClosePressed(confirmed: bool, deleted: Reply<()>, closeRefetch: Reply<Tab>)
    | SnackbarClosed

  /** Whether the screen offers the event: buttons exist only once loading
      is over, an add button per listed product, a remove button per line
      of the tab, and a close button that is enabled for a non-empty tab. */
  predicate Offered(s: State, e: Event) {
    match e
    case Loaded(_, _) => true
    case SnackbarClosed => true
    case AddPressed(u, _, _) => !s.loading && exists p :: p in s.urunler && p.urunId == u
    case RemovePressed(line, _, _) => !s.loading && line in s.adisyon.siparisler
    case ClosePressed(_, _, _) => !s.loading && CloseEnabled(s.adisyon)
  }

  /** A close request can only come from a screen showing a tab with lines. */
  lemma CloseNeedsLines(s: State, masaId: string, e: Event)
    requires Offered(s, e)
    ensures DeleteTabOrders(masaId) in Dispatch(s, masaId, e).sent ==> CloseEnabled(s.adisyon)
  {
  }

  function Dispatch(s: State, masaId: string, e: Event): (r: Step)
    ensures e.SnackbarClosed? ==> r.sent == [] && !r.goHome && !r.next.snackbar.open
    ensures e.SnackbarClosed? ==>
      && r.next.adisyon == s.adisyon && r.next.urunler == s.urunler && r.next.loading == s.loading
      && r.next.snackbar.message == s.snackbar.message && r.next.snackbar.severity == s.snackbar.severity
  {
    match e
    case Loaded(t, ps) => Load(s, masaId, t, ps)
    case AddPressed(u, posted, refetch) => AddProduct(s, masaId, u, posted, refetch)
    case RemovePressed(line, put, refetch) => RemoveOne(s, masaId, line, put, refetch)
    case ClosePressed(c, deleted, refetch) => CloseTab(s, masaId, c, deleted, refetch)
    case SnackbarClosed => Step(s.(snackbar := s.snackbar.(open := false)), [], false)
  }

  /** The tab a successful fetch in `e` delivered, if any. */
  function FetchedTab(e: Event): Option<Tab> {
    match e
    case Loaded(Ok(t), Ok(_)) => Some(t)
    case AddPressed(_, Ok(_), Ok(t)) => Some(t)
    case RemovePressed(_, Ok(_), Ok(t)) => Some(t)
    case ClosePressed(true, Ok(_), Ok(t)) => Some(t)
    case _ => None
  }

  /** Read after write: an event leaves the tab alone unless it fetched one,
      and then the shown tab is exactly the fetched one. */
  lemma DispatchShowsFetchedTab(s: State, masaId: string, e: Event)
    ensures FetchedTab(e).None? ==> Dispatch(s, masaId, e).next.adisyon == s.adisyon
    ensures FetchedTab(e).Some? ==> Dispatch(s, masaId, e).next.adisyon == FetchedTab(e).value
    ensures FetchedTab(e).Some? ==> GetTab(masaId) in Dispatch(s, masaId, e).sent
  {
  }

  /** At most one mutation per event, and it is the first request sent. */
  lemma DispatchMutatesOnce(s: State, masaId: string, e: Event)
    ensures forall i :: 0 < i < |Dispatch(s, masaId, e).sent| ==> !IsMutation(Dispatch(s, masaId, e).sent[i])
    ensures e.Loaded? || e.SnackbarClosed? || (e.ClosePressed? && !e.confirmed) ==>
      forall q :: q in Dispatch(s, masaId, e).sent ==> !IsMutation(q)
  {
  }

  /** Replays events from a state; returns the final state and every
      request sent, in order. */
  function Run(s: State, masaId: string, events: seq<Event>): (r: (State, seq<Request>))
    decreases |events|
  {
    if events == [] then (s, [])
    else
      var step := Dispatch(s, masaId, events[0]);
      var rest := Run(step.next, masaId, events[1..]);
      (rest.0, step.sent + rest.1)
  }

  /** The tabs the service delivered during a run. */
  function FetchedTabs(events: seq<Event>): (r: set<Tab>)
    decreases |events|
  {
    if events == [] then {}
    else
      (match FetchedTab(events[0]) case Some(t) => {t} case None => {}) + FetchedTabs(events[1..])
  }

  /** Whatever happens, the tab on screen is the one the run started with
      or one the service returned: the client never builds a tab itself. */
  lemma {:induction false} RunShowsServiceTabs(s: State, masaId: string, events: seq<Event>)
    ensures Run(s, masaId, events).0.adisyon == s.adisyon ||
            Run(s, masaId, events).0.adisyon in FetchedTabs(events)
    decreases |events|
  {
    if events != [] {
      var step := Dispatch(s, masaId, events[0]);
      DispatchShowsFetchedTab(s, masaId, events[0]);
      RunShowsServiceTabs(step.next, masaId, events[1..]);
    }
  }

  /** From the initial screen, the shown tab stays the empty tab until a
      fetch delivers one. */
  lemma RunFromInitial(masaId: string, events: seq<Event>)
    ensures Run(Initial(), masaId, events).0.adisyon == EmptyTab ||
            Run(Initial(), masaId, events).0.adisyon in FetchedTabs(events)
  {
    RunShowsServiceTabs(Initial(), masaId, events);
  }
}
