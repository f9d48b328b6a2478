/**
 * The administrator's dashboard list: the same filters as the link list except
 * the domain, fewer orderings, and short URLs always on the request's host.
 * The query does not load the owner, yet the projection reads its name.
 */
module AdminIndex {
  import opened Wrappers
  import opened Text
  import opened Model
  import opened Store
  import opened Numbers
  import opened Listing
  import AdminLinkList

  /** The dashboard's orderings; the domain orderings of the link list are not among them. */
  datatype Order =
    | CreatedAsc | ClicksDesc | ClicksAsc | CodeAsc | CodeDesc | OwnerAsc | OwnerDesc
    | TargetAsc | TargetDesc | CreatedDesc

  function Name(o: Order): string {
    match o
    case CreatedAsc => "CreatedAsc"
    case ClicksDesc => "ClicksDesc"
    case ClicksAsc => "ClicksAsc"
    case CodeAsc => "CodeAsc"
    case CodeDesc => "CodeDesc"
    case OwnerAsc => "OwnerAsc"
    case OwnerDesc => "OwnerDesc"
    case TargetAsc => "TargetAsc"
    case TargetDesc => "TargetDesc"
    case CreatedDesc => "CreatedDesc"
  }

  /**
   * The `OrderBy switch`: an exact name, or newest first. The link list's
   * domain orderings are not known here and fall back to newest first.
   */
  function OrderOf(orderBy: Option<string>): (o: Order)
    ensures o != CreatedDesc ==> orderBy == Some(Name(o))
    ensures forall n: Order :: orderBy == Some(Name(n)) ==> o == n
    ensures orderBy == Some("DomainAsc") || orderBy == Some("DomainDesc") ==> o == CreatedDesc
  {
    match orderBy
    case None => CreatedDesc
    case Some(s) =>
      if s == "CreatedAsc" then CreatedAsc
      else if s == "ClicksDesc" then ClicksDesc
      else if s == "ClicksAsc" then ClicksAsc
      else if s == "CodeAsc" then CodeAsc
      else if s == "CodeDesc" then CodeDesc
      else if s == "OwnerAsc" then OwnerAsc
      else if s == "OwnerDesc" then OwnerDesc
      else if s == "TargetAsc" then TargetAsc
      else if s == "TargetDesc" then TargetDesc
      else CreatedDesc
  }

  /** One row of the dashboard. */
  datatype Row = Row(
    id: int,
    code: string,
    targetUrl: string,
    shortUrl: string,
    ownerDisplay: string,
    createdAt: Time,
    clicks: int,
    isEnabled: bool,
    activeFrom: Option<Time>,
    activeTo: Option<Time>,
    deletedAt: Option<Time>)

  /** A row for `l` showing `ownerDisplay`; the short URL is the request's base and the code. */
  function RowOf(l: Link, ownerDisplay: string, req: Request): (r: Row)
    ensures r.id == l.id && r.code == l.code && r.targetUrl == l.targetUrl && r.ownerDisplay == ownerDisplay
    ensures r.shortUrl == BaseUrl(req) + "/" + l.code
    ensures r.createdAt == l.createdAt && r.clicks == l.clicks && r.isEnabled == l.isEnabled
    ensures r.activeFrom == l.activeFrom && r.activeTo == l.activeTo && r.deletedAt == l.deletedAt
  {
    Row(l.id, l.code, l.targetUrl, BaseUrl(req) + "/" + l.code, ownerDisplay,
        l.createdAt, l.clicks, l.isEnabled, l.activeFrom, l.activeTo, l.deletedAt)
  }

  /**
   * The projection as written: each row reads the name of the link's loaded
   * owner, and dereferencing an owner that was not loaded throws.
   */
  function Project(links: seq<Link>, loaded: Link -> Option<Owner>, req: Request): (r: Call<seq<Row>>)
    ensures r.Throws? <==> exists k | 0 <= k < |links| :: loaded(links[k]).None?
    ensures r.Throws? ==> r.error == NullReference
    ensures r.Returns? ==> |r.value| == |links|
    ensures r.Returns? ==> forall k | 0 <= k < |links| ::
      r.value[k] == RowOf(links[k], NameOr(loaded(links[k]).value.displayName, AdminLinkList.NoOwner), req)
  {
    if |links| == 0 then Returns([])
    else
      match loaded(links[0])
      case None => Throws(NullReference)
      case Some(o) =>
        var rest := Project(links[1..], loaded, req);
        assert forall k | 1 <= k < |links| :: links[k] == links[1..][k - 1];
        match rest
        case Throws(e) => Throws(e)
        case Returns(rows) => Returns([RowOf(links[0], NameOr(o.displayName, AdminLinkList.NoOwner), req)] + rows)
  }

  /** A query without `Include`: no link comes with its owner. */
  function NotLoaded(l: Link): Option<Owner> {
    None
  }

  /** A query with `Include(l => l.Owner)`: each link comes with its owner row. */
  function Included(db: Db): Link -> Option<Owner> {
    (l: Link) => if l.ownerSub in db.owners then Some(db.owners[l.ownerSub]) else None
  }

  const FetchFailed: string := "An error occurred while fetching the links. Please try again later."

  /** The rendered dashboard: ordering, count and paging, rows, and the failure message if any. */
  datatype Page = Page(order: Order, listing: Listing<Row>, failure: Option<string>)

  /** The page of matching links the query returns, before projection. */
  function PageLinks(ordered: seq<Link>, pageNo: Option<int>, pageSize: Option<int>, opts: Options): seq<Link> {
    PageRows(ordered, PageNumberOf(pageNo), PageSizeOf(pageSize, opts.pageSizes, opts.defaultPageSize))
  }

  /**
   * `OnGetAsync` as written. The count, page number and size are set before
   * the projection; the projection throws on the first row, the handler
   * catches it, and the page shows the count with no rows and the failure
   * message. So any page that has a row fails.
   */
  function OnGetAsWritten(db: Db, q: AdminLinkList.Query, orderBy: Option<string>, pageNo: Option<int>,
                          pageSize: Option<int>, opts: Options, ordered: seq<Link>, req: Request): (p: Page)
    requires Enumerates(ordered, AdminLinkList.Matching(db, q, false))
    ensures p.listing.totalCount == |AdminLinkList.Matching(db, q, false)|
    ensures p.failure.Some? <==> PageLinks(ordered, pageNo, pageSize, opts) != []
    ensures p.failure.Some? ==> p.failure.value == FetchFailed
    ensures p.listing.rows == []
  {
    EnumerationCount(ordered, AdminLinkList.Matching(db, q, false));
    var page: Listing<Link> := Present(ordered, pageNo, pageSize, opts.pageSizes, opts.defaultPageSize);
    match Project(page.rows, NotLoaded, req)
    case Throws(_) =>
      assert NotLoaded(page.rows[0]).None?;
      Page(OrderOf(orderBy), Listing(page.totalCount, page.pageNo, page.pageSize, []), Some(FetchFailed))
    case Returns(rows) =>
      Page(OrderOf(orderBy), Listing(page.totalCount, page.pageNo, page.pageSize, rows), None)
  }

  /**
   * `OnGetAsync` with the owner loaded as the link list loads it, and its name
   * read null-safely: every page shows its rows.
   */
  function OnGet(db: Db, q: AdminLinkList.Query, orderBy: Option<string>, pageNo: Option<int>,
                 pageSize: Option<int>, opts: Options, ordered: seq<Link>, req: Request): (p: Page)
    requires Enumerates(ordered, AdminLinkList.Matching(db, q, false))
    ensures p.failure.None?
    ensures p.order == OrderOf(orderBy)
    ensures p.listing.totalCount == |AdminLinkList.Matching(db, q, false)|
    ensures p.listing.pageNo == PageNumberOf(pageNo)
    ensures p.listing.pageSize == PageSizeOf(pageSize, opts.pageSizes, opts.defaultPageSize)
    ensures |p.listing.rows| == |PageLinks(ordered, pageNo, pageSize, opts)|
    ensures forall k | 0 <= k < |p.listing.rows| ::
      exists l | l in AdminLinkList.Matching(db, q, false) ::
        p.listing.rows[k] == RowOf(l, NameOr(AdminLinkList.OwnerName(db, l), AdminLinkList.NoOwner), req)
    ensures var page := PageLinks(ordered, pageNo, pageSize, opts);
      forall k | 0 <= k < |page| ::
        p.listing.rows[k] == RowOf(page[k], NameOr(AdminLinkList.OwnerName(db, page[k]), AdminLinkList.NoOwner), req)
  {
    EnumerationCount(ordered, AdminLinkList.Matching(db, q, false));
    var page: Listing<Link> := Present(ordered, pageNo, pageSize, opts.pageSizes, opts.defaultPageSize);
    var rows := seq(|page.rows|, k requires 0 <= k < |page.rows| =>
      RowOf(page.rows[k], NameOr(AdminLinkList.OwnerName(db, page.rows[k]), AdminLinkList.NoOwner), req));
    assert forall k | 0 <= k < |rows| :: page.rows[k] in AdminLinkList.Matching(db, q, false);
    Page(OrderOf(orderBy), Listing(page.totalCount, page.pageNo, page.pageSize, rows), None)
  }

  /** Paging loses no link: with positive page sizes every matching link is a row of some page. */
  lemma EveryMatchListed(db: Db, q: AdminLinkList.Query, orderBy: Option<string>, pageSize: Option<int>,
                         opts: Options, ordered: seq<Link>, req: Request, l: Link) returns (pageNo: int)
    requires Enumerates(ordered, AdminLinkList.Matching(db, q, false))
    requires 1 <= opts.defaultPageSize && forall k | 0 <= k < |opts.pageSizes| :: 1 <= opts.pageSizes[k]
    requires l in AdminLinkList.Matching(db, q, false)
    ensures 1 <= pageNo
    ensures RowOf(l, NameOr(AdminLinkList.OwnerName(db, l), AdminLinkList.NoOwner), req)
      in OnGet(db, q, orderBy, Some(pageNo), pageSize, opts, ordered, req).listing.rows
  {
    var size := PageSizeOf(pageSize, opts.pageSizes, opts.defaultPageSize);
    pageNo := EveryRowOnSomePage(ordered, l, size);
    var page := PageLinks(ordered, Some(pageNo), pageSize, opts);
    var i :| 0 <= i < |page| && page[i] == l;
    assert OnGet(db, q, orderBy, Some(pageNo), pageSize, opts, ordered, req).listing.rows[i]
      == RowOf(l, NameOr(AdminLinkList.OwnerName(db, l), AdminLinkList.NoOwner), req);
  }

  /**
   * The defect on a concrete input: one stored link, no filters, the first
   * page. The dashboard as written shows no row and the failure message; the
   * corrected one shows the link.
   */
  lemma OneLinkDashboardFails(db: Db, ordered: seq<Link>, opts: Options, req: Request)
    requires |db.links| == 1 && opts.defaultPageSize == 20
    requires Enumerates(ordered, AdminLinkList.Matching(db, AdminLinkList.NoFilters, false))
    ensures OnGetAsWritten(db, AdminLinkList.NoFilters, None, None, None, opts, ordered, req).failure == Some(FetchFailed)
    ensures |OnGet(db, AdminLinkList.NoFilters, None, None, None, opts, ordered, req).listing.rows| == 1
  {
    AdminLinkList.NoFiltersMatchEverything(db, false);
    var id :| id in db.links;
    assert db.links[id] in AdminLinkList.Matching(db, AdminLinkList.NoFilters, false);
    assert db.links.Values == {db.links[id]} by {
      assert db.links.Keys == {id} by {
        forall j | j in db.links ensures j == id {
          if j != id {
            assert {id, j} <= db.links.Keys;
            assert |{id, j}| == 2;
            SubsetCard({id, j}, db.links.Keys);
          }
        }
      }
    }
    EnumerationCount(ordered, AdminLinkList.Matching(db, AdminLinkList.NoFilters, false));
    assert |ordered| == 1;
    assert PageLinks(ordered, None, None, opts) == ordered;
  }

  /**
   * Loading the owners (the fix) makes the written projection agree with the
   * corrected rows whenever every shown link has its owner row.
   */
  lemma IncludedOwnersProject(db: Db, links: seq<Link>, req: Request)
    requires forall k | 0 <= k < |links| :: links[k].ownerSub in db.owners
    ensures Project(links, Included(db), req) ==
      Returns(seq(|links|, k requires 0 <= k < |links| =>
        RowOf(links[k], NameOr(AdminLinkList.OwnerName(db, links[k]), AdminLinkList.NoOwner), req)))
  {
    var r := Project(links, Included(db), req);
    assert forall k | 0 <= k < |links| :: Included(db)(links[k]) == Some(db.owners[links[k].ownerSub]);
    assert r.Returns?;
    var want := seq(|links|, k requires 0 <= k < |links| =>
      RowOf(links[k], NameOr(AdminLinkList.OwnerName(db, links[k]), AdminLinkList.NoOwner), req));
    assert r.value == want;
  }
}
