/**
 * The administrator's detail page of any link: the link with its owner, the
 * short-URL preview on the link's domain, and its hits newest first; plus the
 * soft-delete and restore buttons, which catch the service's failures.
 */
module AdminLinkDetails {
  import opened Wrappers
  import opened Text
  import opened Model
  import opened Store
  import opened Listing
  import AdminLinkList

  datatype View = View(link: Link, preview: string, ownerDisplay: string, ownerEmail: Option<string>, hits: HitsView)

  datatype Outcome = NotFound | Shown(view: View)

  /**
   * `OnGetAsync`. Any stored link is shown, soft-deleted or not; a blank or
   * missing owner name shows as "(no owner)". `generated` is the generator's
   * answer for the link's domain and code.
   */
  function OnGet(db: Db, id: int, hitsPage: Option<int>, hitsPageSize: Option<int>,
                 orderedHits: seq<LinkHit>, generated: Call<string>, req: Request): (r: Outcome)
    requires multiset(orderedHits) == multiset(HitsOf(db.hits, id)) && NewestFirst(orderedHits)
    ensures r.Shown? <==> id in db.links
    ensures r.Shown? ==>
      var l := db.links[id];
      && r.view.link == l
      && r.view.preview == Preview(generated, l.code, req)
      && r.view.ownerDisplay == NameOr(AdminLinkList.OwnerName(db, l), AdminLinkList.NoOwner)
      && r.view.ownerEmail == (if l.ownerSub in db.owners then db.owners[l.ownerSub].email else None)
      && r.view.hits == HitsSection(db.hits, id, orderedHits, hitsPage, hitsPageSize)
  {
    if id !in db.links then NotFound
    else
      var l := db.links[id];
      var email := if l.ownerSub in db.owners then db.owners[l.ownerSub].email else None;
      Shown(View(l, Preview(generated, l.code, req), NameOr(AdminLinkList.OwnerName(db, l), AdminLinkList.NoOwner),
                 email, HitsSection(db.hits, id, orderedHits, hitsPage, hitsPageSize)))
  }

  /** Every recorded hit of a stored link is on some page of its hits section. */
  lemma EveryHitShown(db: Db, id: int, hitsPageSize: Option<int>, orderedHits: seq<LinkHit>,
                      generated: Call<string>, req: Request, h: LinkHit) returns (page: int)
    requires multiset(orderedHits) == multiset(HitsOf(db.hits, id)) && NewestFirst(orderedHits)
    requires id in db.links && h in db.hits && h.linkId == id
    ensures 1 <= page
    ensures var r := OnGet(db, id, Some(page), hitsPageSize, orderedHits, generated, req);
      r.Shown? && h in r.view.hits.hits
  {
    page := EveryHitOnSomePage(db.hits, id, orderedHits, hitsPageSize, h);
  }

  /**
   * The soft-delete and restore buttons: a null answer is "not found", a
   * thrown one is caught and reported as the action failing.
   */
  function OnPostAction(a: Action, result: Call<Option<Link>>): (n: Notice)
    ensures n.Success? <==> result.Returns? && result.value.Some?
    ensures n.Success? ==> n.text == Done(a)
    ensures result == Returns(None) ==> n == Failure(LinkNotFound)
    ensures result.Throws? ==> n == Failure(NotDone(a))
  {
    match result
    case Throws(_) => Failure(NotDone(a))
    case Returns(None) => Failure(LinkNotFound)
    case Returns(Some(_)) => Success(Done(a))
  }

  /**
   * The details page and the list answer the same service result alike,
   * except a thrown one: the list lets it propagate, the details page reports
   * the action as failed.
   */
  lemma AgreesWithListUnlessThrown(a: Action, result: Call<Option<Link>>)
    ensures result.Returns? ==> AdminLinkList.OnPostAction(a, result) == Returns(OnPostAction(a, result))
    ensures result.Throws? ==>
      && AdminLinkList.OnPostAction(a, result) == Throws(result.error)
      && OnPostAction(a, result) == Failure(NotDone(a))
  {
  }
}
