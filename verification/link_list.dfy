/**
 * A signed-in user's own list of links: only the caller's links that are not
 * soft-deleted, a case-sensitive search, fixed page sizes, and the short URL
 * on the link's domain or on the request's host.
 */
module LinkList {
  import opened Wrappers
  import opened Text
  import opened Model
  import opened Store
  import opened Numbers
  import opened Listing

  /** The page sizes the list offers, and the size used for any other request. */
  const PageSizes: seq<int> := [10, 20, 50, 100]
  const FallbackPageSize: int := 20

  /**
   * One of `sub`'s live links that passes the search: the trimmed text occurs
   * (ordinal, case-sensitive) in the code, the target or the title.
   */
  predicate Mine(l: Link, sub: string, search: Option<string>) {
    && l.Live()
    && l.ownerSub == sub
    && (|| NullOrBlank(search)
        || Contains(l.code, Trim(search.value))
        || Contains(l.targetUrl, Trim(search.value))
        || (l.title.Some? && Contains(l.title.value, Trim(search.value))))
  }

  function Matching(db: Db, sub: string, search: Option<string>): (m: set<Link>)
    ensures forall id | id in db.links && Mine(db.links[id], sub, search) :: db.links[id] in m
    ensures forall l | l in m :: l in db.links.Values && Mine(l, sub, search)
  {
    set id | id in db.links && Mine(db.links[id], sub, search) :: db.links[id]
  }

  /** Two different users never see a common link. */
  lemma ListsAreDisjoint(db: Db, a: string, b: string, sa: Option<string>, sb: Option<string>)
    requires a != b
    ensures Matching(db, a, sa) !! Matching(db, b, sb)
  {
  }

  /** The orderings; the default is newest first. */
  datatype Order = CodeAsc | CodeDesc | ClicksAsc | ClicksDesc | CreatedAsc | CreatedDesc

  function Name(o: Order): string {
    match o
    case CodeAsc => "CodeAsc"
    case CodeDesc => "CodeDesc"
    case ClicksAsc => "ClicksAsc"
    case ClicksDesc => "ClicksDesc"
    case CreatedAsc => "CreatedAsc"
    case CreatedDesc => "CreatedDesc"
  }

  /** The `OrderBy switch`: an exact name, or newest first. */
  function OrderOf(orderBy: Option<string>): (o: Order)
    ensures o != CreatedDesc ==> orderBy == Some(Name(o))
    ensures forall n: Order :: orderBy == Some(Name(n)) ==> o == n
  {
    match orderBy
    case None => CreatedDesc
    case Some(s) =>
      if s == "CodeAsc" then CodeAsc
      else if s == "CodeDesc" then CodeDesc
      else if s == "ClicksAsc" then ClicksAsc
      else if s == "ClicksDesc" then ClicksDesc
      else if s == "CreatedAsc" then CreatedAsc
      else CreatedDesc
  }

  /** `ShortUrlDisplay`: `https://` and the stored domain when there is one, else the request's base. */
  function ShortUrlDisplay(l: Link, req: Request): (r: string)
    ensures !NullOrBlank(l.domain) ==> r == "https://" + l.domain.value + "/" + l.code
    ensures NullOrBlank(l.domain) ==> r == BaseUrl(req) + "/" + l.code
  {
    var base := if !NullOrBlank(l.domain) then "https://" + l.domain.value else BaseUrl(req);
    base + "/" + l.code
  }

  datatype Row = Row(
    id: int,
    code: string,
    targetUrl: string,
    isEnabled: bool,
    createdAt: Time,
    clicks: int,
    activeFrom: Option<Time>,
    activeTo: Option<Time>,
    shortUrl: string)

  function RowOf(l: Link, req: Request): Row {
    Row(l.id, l.code, l.targetUrl, l.isEnabled, l.createdAt, l.clicks, l.activeFrom, l.activeTo,
        ShortUrlDisplay(l, req))
  }

  datatype Outcome = Forbidden | Shown(order: Order, listing: Listing<Row>)

  /**
   * `OnGetAsync`. A blank subject claim is refused. Otherwise the count covers
   * the caller's matching live links and every row of the page is one of them.
   * `ordered` is the database's ordering of those links.
   */
  function OnGet(db: Db, sub: Option<string>, search: Option<string>, orderBy: Option<string>,
                 pageNo: Option<int>, pageSize: Option<int>, ordered: seq<Link>, req: Request): (r: Outcome)
    requires !NullOrBlank(sub) ==> Enumerates(ordered, Matching(db, sub.value, search))
    ensures r.Forbidden? <==> NullOrBlank(sub)
    ensures r.Shown? ==> r.order == OrderOf(orderBy)
    ensures r.Shown? ==> r.listing.totalCount == |Matching(db, sub.value, search)|
    ensures r.Shown? ==> r.listing.pageNo == PageNumberOf(pageNo)
    ensures r.Shown? ==> r.listing.pageSize in PageSizes
    ensures r.Shown? ==> |r.listing.rows| <= r.listing.pageSize
    ensures r.Shown? ==> forall k | 0 <= k < |r.listing.rows| ::
      exists l | l in Matching(db, sub.value, search) :: r.listing.rows[k] == RowOf(l, req)
    ensures r.Shown? ==>
      && r.listing.pageSize == PageSizeOf(pageSize, PageSizes, FallbackPageSize)
      && var page := PageRows(ordered, r.listing.pageNo, r.listing.pageSize);
      && |r.listing.rows| == |page|
      && forall k | 0 <= k < |page| :: r.listing.rows[k] == RowOf(page[k], req)
  {
    if NullOrBlank(sub) then Forbidden
    else
      var m := Matching(db, sub.value, search);
      EnumerationCount(ordered, m);
      var page: Listing<Link> := Present(ordered, pageNo, pageSize, PageSizes, FallbackPageSize);
      var rows := seq(|page.rows|, k requires 0 <= k < |page.rows| => RowOf(page.rows[k], req));
      assert forall k | 0 <= k < |rows| :: page.rows[k] in m;
      Shown(OrderOf(orderBy), Listing(page.totalCount, page.pageNo, page.pageSize, rows))
  }

  /** Paging loses no link: every one of the caller's matching links is a row of some page. */
  lemma EveryMatchListed(db: Db, sub: string, search: Option<string>, orderBy: Option<string>,
                         pageSize: Option<int>, ordered: seq<Link>, req: Request, l: Link) returns (pageNo: int)
    requires !Blank(sub) && Enumerates(ordered, Matching(db, sub, search))
    requires l in Matching(db, sub, search)
    ensures 1 <= pageNo
    ensures var r := OnGet(db, Some(sub), search, orderBy, Some(pageNo), pageSize, ordered, req);
      r.Shown? && RowOf(l, req) in r.listing.rows
  {
    var size := PageSizeOf(pageSize, PageSizes, FallbackPageSize);
    pageNo := EveryRowOnSomePage(ordered, l, size);
    var page := PageRows(ordered, pageNo, size);
    var i :| 0 <= i < |page| && page[i] == l;
    assert OnGet(db, Some(sub), search, orderBy, Some(pageNo), pageSize, ordered, req).listing.rows[i] == RowOf(l, req);
  }
}
