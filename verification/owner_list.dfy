/**
 * The administrator's list of owners: a search over name, e-mail and subject,
 * the number of live links of each owner, a whitelisted ordering and paging.
 */
module OwnerList {
  import opened Wrappers
  import opened Text
  import opened Model
  import opened Store
  import opened Numbers
  import opened Listing

  /** The owner matches the search (ignoring case) in its name, e-mail or subject; a blank search keeps everyone. */
  predicate Passes(o: Owner, search: Option<string>) {
    || NullOrBlank(search)
    || OptHasText(o.displayName, Needle(search.value))
    || OptHasText(o.email, Needle(search.value))
    || HasText(o.sub, Needle(search.value))
  }

  /** The stored owners that pass the search. */
  function Matching(db: Db, search: Option<string>): (m: set<Owner>)
    ensures forall s | s in db.owners && Passes(db.owners[s], search) :: db.owners[s] in m
    ensures forall o | o in m :: o in db.owners.Values && Passes(o, search)
  {
    set s | s in db.owners && Passes(db.owners[s], search) :: db.owners[s]
  }

  /** The ids of the owner's links that are not soft-deleted. */
  function LiveLinkIds(db: Db, sub: string): (ids: set<int>)
    ensures forall id :: id in ids <==> id in db.links && db.links[id].ownerSub == sub && db.links[id].Live()
  {
    set id | id in db.links && db.links[id].ownerSub == sub && db.links[id].Live()
  }

  /** `LinksCount`: the owner's links, soft-deleted ones not counted. */
  function LinksCount(db: Db, sub: string): nat {
    |LiveLinkIds(db, sub)|
  }

  /** Soft-deleting one live link of an owner lowers the owner's count by exactly one. */
  lemma SoftDeleteLowersCount(db: Db, id: int, at: Time)
    requires id in db.links && db.links[id].Live()
    ensures var sub := db.links[id].ownerSub;
      var db' := db.(links := db.links[id := db.links[id].(deletedAt := Some(at))]);
      LinksCount(db', sub) + 1 == LinksCount(db, sub)
  {
    var sub := db.links[id].ownerSub;
    var db' := db.(links := db.links[id := db.links[id].(deletedAt := Some(at))]);
    assert LiveLinkIds(db', sub) == LiveLinkIds(db, sub) - {id};
  }

  /** A change to another owner's links leaves the count alone. */
  lemma OtherOwnersUnaffected(db: Db, l: Link, sub: string)
    requires l.ownerSub != sub && (l.id in db.links ==> db.links[l.id].ownerSub != sub)
    ensures LinksCount(db.(links := db.links[l.id := l]), sub) == LinksCount(db, sub)
  {
    assert LiveLinkIds(db.(links := db.links[l.id := l]), sub) == LiveLinkIds(db, sub);
  }

  const NoName: string := "(bez jména)"

  /** One row of the owner list. */
  datatype Row = Row(sub: string, displayName: string, email: Option<string>, linksCount: nat, updatedAt: Time)

  /** The projection: a blank name shows as "(bez jména)", and the live-link count. */
  function RowOf(db: Db, o: Owner): (r: Row)
    ensures r.sub == o.sub && r.email == o.email && r.updatedAt == o.updatedAt
    ensures r.displayName == NameOr(o.displayName, NoName)
    ensures r.linksCount == |LiveLinkIds(db, o.sub)|
  {
    Row(o.sub, NameOr(o.displayName, NoName), o.email, LinksCount(db, o.sub), o.updatedAt)
  }

  /** The orderings; the default is most links first. */
  datatype Order = NameAsc | NameDesc | EmailAsc | EmailDesc | LinksAsc | LinksDesc

  function Name(o: Order): string {
    match o
    case NameAsc => "NameAsc"
    case NameDesc => "NameDesc"
    case EmailAsc => "EmailAsc"
    case EmailDesc => "EmailDesc"
    case LinksAsc => "LinksAsc"
    case LinksDesc => "LinksDesc"
  }

  /** The `OrderBy switch`: an exact name, or most links first. */
  function OrderOf(orderBy: Option<string>): (o: Order)
    ensures o != LinksDesc ==> orderBy == Some(Name(o))
    ensures forall n: Order :: orderBy == Some(Name(n)) ==> o == n
  {
    match orderBy
    case None => LinksDesc
    case Some(s) =>
      if s == "NameAsc" then NameAsc
      else if s == "NameDesc" then NameDesc
      else if s == "EmailAsc" then EmailAsc
      else if s == "EmailDesc" then EmailDesc
      else if s == "LinksAsc" then LinksAsc
      else LinksDesc
  }

  datatype Page = Page(order: Order, listing: Listing<Row>)

  /**
   * `OnGetAsync`. `ordered` is the database's ordering of the matching owners.
   * The count covers every matching owner; each row of the page is one of them
   * with its live-link count.
   */
  function OnGet(db: Db, search: Option<string>, orderBy: Option<string>, pageNo: Option<int>,
                 pageSize: Option<int>, opts: Options, ordered: seq<Owner>): (p: Page)
    requires Enumerates(ordered, Matching(db, search))
    ensures p.order == OrderOf(orderBy)
    ensures p.listing.totalCount == |Matching(db, search)|
    ensures p.listing.pageNo == PageNumberOf(pageNo)
    ensures p.listing.pageSize == PageSizeOf(pageSize, opts.pageSizes, opts.defaultPageSize)
    ensures |p.listing.rows| <= Max(0, p.listing.pageSize)
    ensures forall k | 0 <= k < |p.listing.rows| ::
      exists o | o in Matching(db, search) :: p.listing.rows[k] == RowOf(db, o)
    ensures var page := PageRows(ordered, p.listing.pageNo, p.listing.pageSize);
      && |p.listing.rows| == |page|
      && forall k | 0 <= k < |page| :: p.listing.rows[k] == RowOf(db, page[k])
  {
    EnumerationCount(ordered, Matching(db, search));
    var page: Listing<Owner> := Present(ordered, pageNo, pageSize, opts.pageSizes, opts.defaultPageSize);
    var rows := seq(|page.rows|, k requires 0 <= k < |page.rows| => RowOf(db, page.rows[k]));
    assert forall k | 0 <= k < |rows| :: page.rows[k] in Matching(db, search);
    Page(OrderOf(orderBy), Listing(page.totalCount, page.pageNo, page.pageSize, rows))
  }

  /** Paging loses no owner: with positive page sizes every matching owner is a row of some page. */
  lemma EveryMatchListed(db: Db, search: Option<string>, orderBy: Option<string>, pageSize: Option<int>,
                         opts: Options, ordered: seq<Owner>, o: Owner) returns (pageNo: int)
    requires Enumerates(ordered, Matching(db, search))
    requires 1 <= opts.defaultPageSize && forall k | 0 <= k < |opts.pageSizes| :: 1 <= opts.pageSizes[k]
    requires o in Matching(db, search)
    ensures 1 <= pageNo && RowOf(db, o) in OnGet(db, search, orderBy, Some(pageNo), pageSize, opts, ordered).listing.rows
  {
    var size := PageSizeOf(pageSize, opts.pageSizes, opts.defaultPageSize);
    pageNo := EveryRowOnSomePage(ordered, o, size);
    var page := PageRows(ordered, pageNo, size);
    var i :| 0 <= i < |page| && page[i] == o;
    assert OnGet(db, search, orderBy, Some(pageNo), pageSize, opts, ordered).listing.rows[i] == RowOf(db, o);
  }
}
