/** Fetching every employee of a tenant through the paged employee endpoint. */
module Paging {
  import opened Prelude

  const PAGE_SIZE: nat := 100
  const MAX_PAGES: nat := 500

  // What the employee service answers to one request.
  datatype Response<+E> =
    | Page(items: seq<E>, total: Option<int>, totalPages: Option<int>)
    | LegacyList(items: seq<E>)
    | BadStatus
    | BadPayload

  datatype Fetched<+E> = Items(items: seq<E>) | Unavailable

  // The employee service's own paging of a stably ordered list; pages start at 1.
  function GetEmployees<E>(all: seq<E>, page: nat, pageSize: nat): Response<E>
    requires page >= 1 && pageSize >= 1
  {
    var skip := (page - 1) * pageSize;
    var items := if skip >= |all| then [] else all[skip..Least(skip + pageSize, |all|)];
    var pages := (|all| + pageSize - 1) / pageSize;
    Page(items, Some(|all|), Some(if pages > 1 then pages else 1))
  }

  // What is fetched from `page` on, after `got`, from any service.
  function FetchFrom<E>(service: nat -> Response<E>, page: nat, got: seq<E>): Fetched<E>
    decreases MAX_PAGES + 1 - page
  {
    if page > MAX_PAGES then Items(got)
    else
      match service(page)
      case BadStatus => Unavailable
      case BadPayload => Unavailable
      case LegacyList(items) => Items(got + items)
      case Page(batch, total, totalPages) =>
        if batch == [] || (total.Some? && |got + batch| >= total.value) || (totalPages.Some? && page >= totalPages.value)
        then Items(got + batch)
        else FetchFrom(service, page + 1, got + batch)
  }

  method FetchTenantEmployees<E>(service: nat -> Response<E>) returns (r: Fetched<E>)
    ensures r == FetchFrom(service, 1, [])
  {
    var items: seq<E> := [];
    var page := 1;
    while page <= MAX_PAGES
      invariant 1 <= page <= MAX_PAGES + 1
      invariant FetchFrom(service, 1, []) == FetchFrom(service, page, items)
    {
      var payload := service(page);
      match payload
      case BadStatus => return Unavailable;
      case BadPayload => return Unavailable;
      case LegacyList(batch) => return Items(items + batch);
      case Page(batch, total, totalPages) =>
        var got := items + batch;
        if batch == [] || (total.Some? && |got| >= total.value) || (totalPages.Some? && page >= totalPages.value) {
          return Items(got);
        }
        items := got;
        page := page + 1;
    }
    return Items(items);
  }

  // A page holds its slice of the list, and says it is the last exactly when it is.
  lemma {:induction false} PageContents<E>(all: seq<E>, page: nat)
    requires page >= 1 && (page - 1) * PAGE_SIZE <= |all|
    ensures var r, skip := GetEmployees(all, page, PAGE_SIZE), (page - 1) * PAGE_SIZE;
            var upTo := Least(skip + PAGE_SIZE, |all|);
            && r.Page? && r.items == all[skip..upTo] && r.total == Some(|all|) && r.totalPages.Some?
            && (page >= r.totalPages.value <==> upTo == |all|)
            && (r.items == [] ==> upTo == |all|)
  {
  }

  lemma SliceAfter<E>(all: seq<E>, a: nat, b: nat)
    requires a <= b <= |all|
    ensures all[..a] + all[a..b] == all[..b] && all[..|all|] == all
  {
  }

  // Walking the pages gives back the whole list, up to the page cap, each employee
  // once and in order.
  lemma {:induction false} PagesGiveBackTheList<E>(all: seq<E>, service: nat -> Response<E>, page: nat)
    requires 1 <= page <= MAX_PAGES + 1 && (page - 1) * PAGE_SIZE <= |all|
    requires forall p: nat :: p >= 1 ==> service(p) == GetEmployees(all, p, PAGE_SIZE)
    ensures FetchFrom(service, page, all[..(page - 1) * PAGE_SIZE]) == Items(all[..Least(|all|, MAX_PAGES * PAGE_SIZE)])
    decreases MAX_PAGES + 1 - page
  {
    hide GetEmployees;
    if page <= MAX_PAGES {
      var skip := (page - 1) * PAGE_SIZE;
      var upTo := Least(skip + PAGE_SIZE, |all|);
      PageContents(all, page);
      SliceAfter(all, skip, upTo);
      if upTo < |all| {
        PagesGiveBackTheList(all, service, page + 1);
      }
    }
  }

  lemma EveryEmployeeOnce<E>(all: seq<E>, service: nat -> Response<E>)
    requires forall p: nat :: p >= 1 ==> service(p) == GetEmployees(all, p, PAGE_SIZE)
    ensures FetchFrom(service, 1, []) == Items(all[..Least(|all|, 50_000)])
  {
    PagesGiveBackTheList(all, service, 1);
    assert all[..0] == [];
  }

  // ------------------------------------------------------------- any service

  function Batch<E>(r: Response<E>): seq<E> {
    if r.Page? then r.items else []
  }

  // What the first k pages hold.
  function Got<E>(service: nat -> Response<E>, k: nat): seq<E> {
    if k == 0 then [] else Got(service, k - 1) + Batch(service(k))
  }

  // Page k does not end the fetch: it is a page, it holds somebody, and neither the total
  // nor the number of pages says that it is the last.
  predicate GoesOn<E>(service: nat -> Response<E>, k: nat) {
    && service(k).Page? && service(k).items != []
    && (service(k).total.Some? ==> |Got(service, k)| < service(k).total.value)
    && (service(k).totalPages.Some? ==> k < service(k).totalPages.value)
  }

  // Any service: the first page that does not go on decides. A bad answer there, however
  // much has been fetched before it, makes the whole unavailable; a plain list ends the
  // fetch and is appended; so is a last page.
  lemma {:induction false} FirstStopDecides<E>(service: nat -> Response<E>, k: nat)
    requires 1 <= k <= 500 && !GoesOn(service, k) && forall p :: 1 <= p < k ==> GoesOn(service, p)
    ensures FetchFrom(service, 1, []) ==
            match service(k)
            case BadStatus => Unavailable
            case BadPayload => Unavailable
            case LegacyList(items) => Items(Got(service, k - 1) + items)
            case Page(items, _, _) => Items(Got(service, k))
  {
    FetchedSoFar(service, k - 1);
  }

  // Where no page ends it, the cap does.
  lemma {:induction false} CapDecides<E>(service: nat -> Response<E>)
    requires forall p :: 1 <= p <= 500 ==> GoesOn(service, p)
    ensures FetchFrom(service, 1, []) == Items(Got(service, 500))
  {
    FetchedSoFar(service, 500);
  }

  lemma {:induction false} FetchedSoFar<E>(service: nat -> Response<E>, k: nat)
    requires k <= 500 && forall p :: 1 <= p <= k ==> GoesOn(service, p)
    ensures FetchFrom(service, 1, []) == FetchFrom(service, k + 1, Got(service, k))
  {
    if k > 0 {
      FetchedSoFar(service, k - 1);
      assert GoesOn(service, k);
    }
  }
}
