/**
 * The administrator's list of all links: text, owner, state and creation-day
 * filters, a whitelisted ordering, clamped paging, and the short URL shown for
 * each row; plus the soft-delete and restore buttons of the list.
 */
module AdminLinkList {
  import opened Wrappers
  import opened Text
  import opened Model
  import opened Store
  import opened Annotations
  import opened Numbers
  import opened Listing

  /** The bound filter parameters. A blank text filter and an absent value are not applied. */
  datatype Query = Query(
    search: Option<string>,
    short: Option<string>,
    domain: Option<string>,
    target: Option<string>,
    owner: Option<string>,
    enabled: Option<bool>,
    createdFrom: Option<Time>,
    createdTo: Option<Time>)

  /** No filter at all. */
  const NoFilters: Query := Query(None, None, None, None, None, None, None, None)

  /** The owner's display name the join with the owner rows yields; none without an owner row. */
  function OwnerName(db: Db, l: Link): (r: Option<string>)
    ensures l.ownerSub in db.owners ==> r == db.owners[l.ownerSub].displayName
    ensures l.ownerSub !in db.owners ==> r.None?
  {
    if l.ownerSub in db.owners then db.owners[l.ownerSub].displayName else None
  }

  /**
   * The free-text search: code, target, owner name, note or title contain the
   * needle, ignoring case; with `withDomain` (this list, not the dashboard) the
   * domain too. A null column never matches.
   */
  predicate SearchHits(db: Db, l: Link, needle: string, withDomain: bool) {
    || (withDomain && OptHasText(l.domain, needle))
    || HasText(l.code, needle)
    || HasText(l.targetUrl, needle)
    || OptHasText(OwnerName(db, l), needle)
    || OptHasText(l.note, needle)
    || OptHasText(l.title, needle)
  }

  /** A link passes every filter of the query. The dashboard has no domain filter (`withDomain` false). */
  predicate Passes(db: Db, l: Link, q: Query, withDomain: bool) {
    && (NullOrBlank(q.search) || SearchHits(db, l, Needle(q.search.value), withDomain))
    && (!withDomain || NullOrBlank(q.domain) || OptHasText(l.domain, Needle(q.domain.value)))
    && (NullOrBlank(q.short) || HasText(l.code, Needle(q.short.value)))
    && (NullOrBlank(q.target) || HasText(l.targetUrl, Needle(q.target.value)))
    && (NullOrBlank(q.owner) || OptHasText(OwnerName(db, l), Needle(q.owner.value)))
    && (q.enabled.None? || l.isEnabled == q.enabled.value)
    && CreatedWithin(l.createdAt, q.createdFrom, q.createdTo)
  }

  /** The stored links, deleted ones included, that pass the query. */
  function Matching(db: Db, q: Query, withDomain: bool): (m: set<Link>)
    ensures forall id | id in db.links :: db.links[id] in m <== Passes(db, db.links[id], q, withDomain)
    ensures forall l | l in m :: l in db.links.Values && Passes(db, l, q, withDomain)
  {
    set id | id in db.links && Passes(db, db.links[id], q, withDomain) :: db.links[id]
  }

  /** Without filters the list holds every stored link, soft-deleted ones included. */
  lemma NoFiltersMatchEverything(db: Db, withDomain: bool)
    ensures Matching(db, NoFilters, withDomain) == db.links.Values
  {
  }

  /** A domain filter never matches a link without a domain. */
  lemma DomainFilterSkipsNullDomain(db: Db, q: Query, l: Link)
    requires !NullOrBlank(q.domain) && l.domain.None?
    ensures !Passes(db, l, q, true)
  {
  }

  /** The orderings the list offers; anything else falls back to newest first. */
  datatype Order =
    | CreatedAsc | ClicksDesc | ClicksAsc | CodeAsc | CodeDesc | OwnerAsc | OwnerDesc
    | TargetAsc | TargetDesc | DomainAsc | DomainDesc | CreatedDesc

  /** The `OrderBy` value that selects the ordering. */
  function Name(o: Order): string {
    match o
    case CreatedAsc => "CreatedAsc"
    case ClicksDesc => "ClicksDesc"
    case ClicksAsc => "ClicksAsc"
    case CodeAsc => "CodeAsc"
    case CodeDesc => "CodeDesc"
    case OwnerAsc => "OwnerAsc"
    case OwnerDesc => "OwnerDesc"
    case TargetAsc => "TargetAsc"
    case TargetDesc => "TargetDesc"
    case DomainAsc => "DomainAsc"
    case DomainDesc => "DomainDesc"
    case CreatedDesc => "CreatedDesc"
  }

  /** The `OrderBy switch`: an exact (case-sensitive) name, or the discard arm. */
  function OrderOf(orderBy: Option<string>): (o: Order)
    ensures o != CreatedDesc ==> orderBy == Some(Name(o))
    ensures forall n: Order :: orderBy == Some(Name(n)) ==> o == n
  {
    match orderBy
    case None => CreatedDesc
    case Some(s) =>
      if s == "CreatedAsc" then CreatedAsc
      else if s == "ClicksDesc" then ClicksDesc
      else if s == "ClicksAsc" then ClicksAsc
      else if s == "CodeAsc" then CodeAsc
      else if s == "CodeDesc" then CodeDesc
      else if s == "OwnerAsc" then OwnerAsc
      else if s == "OwnerDesc" then OwnerDesc
      else if s == "TargetAsc" then TargetAsc
      else if s == "TargetDesc" then TargetDesc
      else if s == "DomainAsc" then DomainAsc
      else if s == "DomainDesc" then DomainDesc
      else CreatedDesc
  }


  /** `https://…` or `http://…` in any case: a domain stored as an absolute base. */
  predicate AbsoluteDomain(domain: Option<string>) {
    && !NullOrBlank(domain)
    && (StartsWithIgnoreCase(domain.value, "http://") || StartsWithIgnoreCase(domain.value, "https://"))
  }

  /**
   * `BuildShortUrl`: an absolute domain is used as the base; another domain
   * becomes the host under the request's scheme; no domain means the request's
   * own scheme and host. Trailing slashes of the domain are dropped.
   */
  function BuildShortUrl(domain: Option<string>, code: string, req: Request): (r: string)
    ensures |code| + 1 <= |r| && r[|r| - |code| - 1..] == "/" + code
    ensures AbsoluteDomain(domain) ==> StripsTrailing(domain.value, '/', r[..|r| - |code| - 1])
    ensures NullOrBlank(domain) ==> r[..|r| - |code| - 1] == BaseUrl(req)
    ensures !NullOrBlank(domain) && !AbsoluteDomain(domain) ==>
      var prefix := req.scheme + "://";
      && StartsWith(r, prefix)
      && |prefix| + |code| + 1 <= |r|
      && StripsTrailing(domain.value, '/', r[|prefix|..|r| - |code| - 1])
  {
    if AbsoluteDomain(domain) then
      var base := TrimEndChar(domain.value, '/');
      SlashJoin(base, code);
      base + "/" + code
    else
      var prefix := req.scheme + "://";
      var host := if !NullOrBlank(domain) then TrimEndChar(domain.value, '/') else req.host;
      SlashJoin(prefix + host, code);
      HostAfterScheme(prefix, host, code);
      prefix + host + "/" + code
  }

  /** `base + "/" + code` splits back into `base` and `"/" + code`. */
  lemma SlashJoin(base: string, code: string)
    ensures var r := base + "/" + code;
      |r| == |base| + 1 + |code| && r[..|base|] == base && r[|base|..] == "/" + code
  {
  }

  /** In `prefix + host + "/" + code` the host sits between the prefix and the final slash. */
  lemma HostAfterScheme(prefix: string, host: string, code: string)
    ensures var r := prefix + host + "/" + code;
      r[..|prefix|] == prefix && r[|prefix|..|r| - |code| - 1] == host
  {
    var r := prefix + host + "/" + code;
    assert r == prefix + (host + "/" + code);
  }

  const NoOwner: string := "(no owner)"

  /** One row of the list. */
  datatype Row = Row(
    id: int,
    domain: Option<string>,
    code: string,
    targetUrl: string,
    shortUrl: string,
    ownerDisplay: string,
    createdAt: Time,
    clicks: int,
    isEnabled: bool,
    activeFrom: Option<Time>,
    activeTo: Option<Time>,
    deletedAt: Option<Time>)

  /** The projection of a link with its joined owner; a blank owner name shows as "(no owner)". */
  function RowOf(db: Db, l: Link, req: Request): (r: Row)
    ensures r.id == l.id && r.domain == l.domain && r.code == l.code && r.targetUrl == l.targetUrl
    ensures r.shortUrl == BuildShortUrl(l.domain, l.code, req)
    ensures r.ownerDisplay == NameOr(OwnerName(db, l), NoOwner)
    ensures r.createdAt == l.createdAt && r.clicks == l.clicks && r.isEnabled == l.isEnabled
    ensures r.activeFrom == l.activeFrom && r.activeTo == l.activeTo && r.deletedAt == l.deletedAt
  {
    Row(l.id, l.domain, l.code, l.targetUrl, BuildShortUrl(l.domain, l.code, req),
        NameOr(OwnerName(db, l), NoOwner), l.createdAt, l.clicks, l.isEnabled,
        l.activeFrom, l.activeTo, l.deletedAt)
  }

  /** The rendered list: the ordering it was asked for and one page of rows. */
  datatype Page = Page(order: Order, listing: Listing<Row>)

  /**
   * `OnGetAsync`. `ordered` is what the database returns for the filtered query
   * under the chosen ordering. The count covers every matching link; the page
   * holds at most one page of them, each projected with its owner.
   */
  function OnGet(db: Db, q: Query, orderBy: Option<string>, pageNo: Option<int>, pageSize: Option<int>,
                 opts: Options, ordered: seq<Link>, req: Request): (p: Page)
    requires Enumerates(ordered, Matching(db, q, true))
    ensures p.order == OrderOf(orderBy)
    ensures p.listing.totalCount == |Matching(db, q, true)|
    ensures p.listing.pageNo == PageNumberOf(pageNo)
    ensures p.listing.pageSize == PageSizeOf(pageSize, opts.pageSizes, opts.defaultPageSize)
    ensures |p.listing.rows| <= Max(0, p.listing.pageSize)
    ensures forall k | 0 <= k < |p.listing.rows| ::
      exists l | l in Matching(db, q, true) :: p.listing.rows[k] == RowOf(db, l, req)
    ensures var page := PageRows(ordered, p.listing.pageNo, p.listing.pageSize);
      && |p.listing.rows| == |page|
      && forall k | 0 <= k < |page| :: p.listing.rows[k] == RowOf(db, page[k], req)
  {
    EnumerationCount(ordered, Matching(db, q, true));
    var page: Listing<Link> := Present(ordered, pageNo, pageSize, opts.pageSizes, opts.defaultPageSize);
    var rows := seq(|page.rows|, k requires 0 <= k < |page.rows| => RowOf(db, page.rows[k], req));
    assert forall k | 0 <= k < |rows| :: page.rows[k] in Matching(db, q, true) && rows[k] == RowOf(db, page.rows[k], req);
    Page(OrderOf(orderBy), Listing(page.totalCount, page.pageNo, page.pageSize, rows))
  }

  /** Paging loses no link: with positive page sizes every matching link is a row of some page. */
  lemma EveryMatchListed(db: Db, q: Query, orderBy: Option<string>, pageSize: Option<int>,
                         opts: Options, ordered: seq<Link>, req: Request, l: Link) returns (pageNo: int)
    requires Enumerates(ordered, Matching(db, q, true))
    requires 1 <= opts.defaultPageSize && forall k | 0 <= k < |opts.pageSizes| :: 1 <= opts.pageSizes[k]
    requires l in Matching(db, q, true)
    ensures 1 <= pageNo && RowOf(db, l, req) in OnGet(db, q, orderBy, Some(pageNo), pageSize, opts, ordered, req).listing.rows
  {
    var size := PageSizeOf(pageSize, opts.pageSizes, opts.defaultPageSize);
    pageNo := EveryRowOnSomePage(ordered, l, size);
    var page := PageRows(ordered, pageNo, size);
    var i :| 0 <= i < |page| && page[i] == l;
    assert OnGet(db, q, orderBy, Some(pageNo), pageSize, opts, ordered, req).listing.rows[i] == RowOf(db, l, req);
  }

  /**
   * The soft-delete and restore buttons: the service's answer becomes the
   * message; a missing link is reported as not found. The list catches nothing,
   * so a failure of the service propagates.
   */
  function OnPostAction(a: Action, result: Call<Option<Link>>): (r: Call<Notice>)
    ensures r.Throws? <==> result.Throws?
    ensures r.Returns? ==> (r.value.Success? <==> result.value.Some?)
    ensures r.Returns? && r.value.Success? ==> r.value.text == Done(a)
    ensures r.Returns? && r.value.Failure? ==> r.value.text == LinkNotFound
  {
    match result
    case Throws(e) => Throws(e)
    case Returns(None) => Returns(Failure(LinkNotFound))
    case Returns(Some(_)) => Returns(Success(Done(a)))
  }
}
