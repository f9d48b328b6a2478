/**
 * A signed-in user's detail page of one of their links: the link, its
 * short-URL preview and its hits newest first; the soft-delete and restore
 * buttons; and the QR code of the short URL. Every handler first registers
 * the caller as an owner, and treats another user's link as missing.
 */
module LinkDetails {
  import opened Wrappers
  import opened Text
  import opened Model
  import opened Store
  import opened Listing
  import opened OwnerManager
  import LinkManager
  import QrCode

  /** What the page shows. */
  datatype View = View(link: Link, preview: string, hits: HitsView)

  /** The page, or the redirect to the list with "Odkaz nenalezen." */
  datatype Outcome = NotFound | Shown(view: View)

  /**
   * `OnGetAsync`. `generated` is the short-URL generator's answer for the
   * link's code without a domain; `orderedHits` is the database's newest-first
   * ordering of the link's hits. Another user's link is not found.
   */
  function OnGet(db: Db, claims: Claims, id: int, now: Time, ensureOk: bool,
                 hitsPage: Option<int>, hitsPageSize: Option<int>, orderedHits: seq<LinkHit>,
                 generated: Call<string>, req: Request): (t: Transition<Call<Outcome>>)
    requires Valid(db)
    requires multiset(orderedHits) == multiset(HitsOf(db.hits, id)) && NewestFirst(orderedHits)
    ensures t.db == EnsureOwner(db, claims, now, ensureOk).db
    ensures t.out.Throws? <==> EnsureOwner(db, claims, now, ensureOk).out.Throws?
    ensures t.out.Returns? ==> (t.out.value.Shown? <==> Owns(db, id, claims.nameIdentifier.value))
    ensures t.out.Returns? && t.out.value.Shown? ==>
      && t.out.value.view.link == db.links[id]
      && t.out.value.view.preview == Preview(generated, db.links[id].code, req)
      && t.out.value.view.hits == HitsSection(db.hits, id, orderedHits, hitsPage, hitsPageSize)
  {
    var e := EnsureOwner(db, claims, now, ensureOk);
    match e.out
    case Throws(err) => Transition(Throws(err), e.db)
    case Returns(sub) =>
      if Owns(e.db, id, sub) then
        var l := e.db.links[id];
        Transition(Returns(Shown(View(l, Preview(generated, l.code, req),
          HitsSection(e.db.hits, id, orderedHits, hitsPage, hitsPageSize)))), e.db)
      else Transition(Returns(NotFound), e.db)
  }

  /**
   * Another user's link is indistinguishable from one that does not exist:
   * for a caller who does not own `id` the page answers exactly as for an id
   * no stored link has.
   */
  lemma ForeignLinkLooksMissing(db: Db, claims: Claims, id: int, missing: int, now: Time, ensureOk: bool,
                                hitsPage: Option<int>, hitsPageSize: Option<int>,
                                orderedHits: seq<LinkHit>, missingHits: seq<LinkHit>,
                                generated: Call<string>, req: Request)
    requires Valid(db)
    requires multiset(orderedHits) == multiset(HitsOf(db.hits, id)) && NewestFirst(orderedHits)
    requires multiset(missingHits) == multiset(HitsOf(db.hits, missing)) && NewestFirst(missingHits)
    requires missing !in db.links
    requires claims.nameIdentifier.Some? ==> !Owns(db, id, claims.nameIdentifier.value)
    ensures OnGet(db, claims, id, now, ensureOk, hitsPage, hitsPageSize, orderedHits, generated, req)
         == OnGet(db, claims, missing, now, ensureOk, hitsPage, hitsPageSize, missingHits, generated, req)
  {
  }

  /** The owner can page to every recorded hit of the link. */
  lemma OwnerSeesEveryHit(db: Db, claims: Claims, id: int, now: Time, ensureOk: bool,
                          hitsPageSize: Option<int>, orderedHits: seq<LinkHit>,
                          generated: Call<string>, req: Request, h: LinkHit) returns (page: int)
    requires Valid(db)
    requires multiset(orderedHits) == multiset(HitsOf(db.hits, id)) && NewestFirst(orderedHits)
    requires claims.nameIdentifier.Some? && claims.nameIdentifier.value in db.owners
    requires Owns(db, id, claims.nameIdentifier.value)
    requires h in db.hits && h.linkId == id
    ensures 1 <= page
    ensures var t := OnGet(db, claims, id, now, ensureOk, Some(page), hitsPageSize, orderedHits, generated, req);
      t.out.Returns? && t.out.value.Shown? && h in t.out.value.view.hits.hits
  {
    page := EveryHitOnSomePage(db.hits, id, orderedHits, hitsPageSize, h);
  }

  /** Where a state change sends the user: the list, or back to this page. */
  datatype Redirect = ToIndex(notice: Notice) | ToDetails(notice: Notice)

  /**
   * `OnPostSoftDeleteAsync` / `OnPostRestoreAsync`. The service (`service`:
   * its answer and the state after it) runs only on the caller's own link;
   * a missing or foreign link goes back to the list as not found. A null
   * answer or a thrown one is reported as the action failing.
   */
  function OnPostAction(a: Action, db: Db, claims: Claims, id: int, now: Time, ensureOk: bool,
                        service: Transition<Call<Option<Link>>>): (t: Transition<Call<Redirect>>)
    requires Valid(db)
    ensures t.out.Throws? <==> EnsureOwner(db, claims, now, ensureOk).out.Throws?
    ensures t.out.Returns? && !Owns(db, id, claims.nameIdentifier.value) ==>
      t.out.value == ToIndex(Failure(LinkNotFound)) && t.db == EnsureOwner(db, claims, now, ensureOk).db
    ensures t.out.Returns? && Owns(db, id, claims.nameIdentifier.value) ==>
      && t.db == service.db
      && t.out.value.ToDetails?
      && (t.out.value.notice.Success? <==> service.out.Returns? && service.out.value.Some?)
      && (t.out.value.notice == if t.out.value.notice.Success? then Success(Done(a)) else Failure(NotDone(a)))
    ensures !(t.out.Returns? && Owns(db, id, claims.nameIdentifier.value)) ==>
      t.db == EnsureOwner(db, claims, now, ensureOk).db
  {
    var e := EnsureOwner(db, claims, now, ensureOk);
    match e.out
    case Throws(err) => Transition(Throws(err), e.db)
    case Returns(sub) =>
      match LinkManager.GetById(e.db, id)
      case None => Transition(Returns(ToIndex(Failure(LinkNotFound))), e.db)
      case Some(l) =>
        if l.ownerSub != sub then Transition(Returns(ToIndex(Failure(LinkNotFound))), e.db)
        else
          var notice := if service.out.Returns? && service.out.value.Some? then Success(Done(a)) else Failure(NotDone(a));
          Transition(Returns(ToDetails(notice)), service.db)
  }

  /**
   * Acting on another user's link is acting on a missing one: the same
   * redirect and state, whatever the service would have answered, since it
   * never runs.
   */
  lemma ForeignActionLooksMissing(a: Action, db: Db, claims: Claims, id: int, missing: int, now: Time,
                                  ensureOk: bool, service: Transition<Call<Option<Link>>>,
                                  other: Transition<Call<Option<Link>>>)
    requires Valid(db)
    requires missing !in db.links
    requires claims.nameIdentifier.Some? ==> !Owns(db, id, claims.nameIdentifier.value)
    ensures OnPostAction(a, db, claims, id, now, ensureOk, service)
         == OnPostAction(a, db, claims, missing, now, ensureOk, other)
  {
    var e := EnsureOwner(db, claims, now, ensureOk);
    assert e.db.links == db.links;
  }

  /**
   * On the caller's own link the page catches the service's exception: a throw
   * is reported exactly as a null answer is, with the state the service left.
   */
  lemma ThrowReportedAsNull(a: Action, db: Db, claims: Claims, id: int, now: Time, ensureOk: bool,
                            after: Db, x: Exception)
    requires Valid(db)
    ensures OnPostAction(a, db, claims, id, now, ensureOk, Transition(Throws(x), after))
         == OnPostAction(a, db, claims, id, now, ensureOk, Transition(Returns(None), after))
    ensures (claims.nameIdentifier.Some? && Owns(db, id, claims.nameIdentifier.value)
             && EnsureOwner(db, claims, now, ensureOk).out.Returns?) ==>
      OnPostAction(a, db, claims, id, now, ensureOk, Transition(Throws(x), after))
        == Transition(Returns(ToDetails(Failure(NotDone(a)))), after)
  {
  }

  /** The QR answer: not found, a PNG, or an SVG. */
  datatype QrResult = QrNotFound | Png(plan: QrCode.PngPlan) | Svg(style: QrCode.Style)

  /**
   * The value bound to `string fmt = "svg"`: the default when the query has no
   * `fmt`, and null (`ConvertEmptyStringToNull`) when it has a blank one.
   */
  function BindFormat(query: Option<string>): (fmt: Option<string>)
    ensures query.None? ==> fmt == Some("svg")
    ensures query.Some? ==> (fmt.None? <==> Blank(query.value))
    ensures query.Some? && fmt.Some? ==> fmt.value == query.value
  {
    match query
    case None => Some("svg")
    case Some(q) => if Blank(q) then None else Some(q)
  }

  /**
   * `OnGetQrAsync`. `query` is the request's `fmt` value (`None` when absent),
   * and `url` is the generator's answer for the link's code on the request's
   * base. Another user's link is not found. `png` in any case selects a PNG of
   * the requested size; a blank format binds as null and its `Equals` throws;
   * anything else is an SVG. Failures of the generator and of the encoder
   * propagate.
   */
  function OnGetQr(db: Db, claims: Claims, id: int, now: Time, ensureOk: bool,
                   query: Option<string>, size: int, preset: QrCode.Preset, url: Call<string>)
    : (t: Transition<Call<QrResult>>)
    requires Valid(db)
    ensures t.db == EnsureOwner(db, claims, now, ensureOk).db
    ensures EnsureOwner(db, claims, now, ensureOk).out.Throws? ==> t.out.Throws?
    ensures t.out == Returns(QrNotFound) <==>
      EnsureOwner(db, claims, now, ensureOk).out.Returns? && !Owns(db, id, claims.nameIdentifier.value)
    ensures t.out.Returns? && t.out.value.Png? ==>
      && query.Some? && EqualsIgnoreCase(query.value, "png") && url.Returns?
      && QrCode.GeneratePng(url.value, size, preset) == Returns(t.out.value.plan)
    ensures t.out.Returns? && t.out.value.Svg? ==>
      && (query.None? || (!Blank(query.value) && !EqualsIgnoreCase(query.value, "png"))) && url.Returns?
      && QrCode.GenerateSvg(url.value, preset) == Returns(t.out.value.style)
    ensures t.out.Throws? && EnsureOwner(db, claims, now, ensureOk).out.Returns? ==>
      && Owns(db, id, claims.nameIdentifier.value)
      && (url.Throws? || (query.Some? && Blank(query.value)) || Blank(url.value))
    ensures (&& EnsureOwner(db, claims, now, ensureOk).out.Returns? && Owns(db, id, claims.nameIdentifier.value)
             && url.Returns? && query.Some? && Blank(query.value)) ==>
      t.out == Throws(NullReference)
    ensures (&& EnsureOwner(db, claims, now, ensureOk).out.Returns? && Owns(db, id, claims.nameIdentifier.value)
             && url.Returns? && !Blank(url.value)) ==>
      (t.out.Returns? <==> query.None? || !Blank(query.value))
  {
    var e := EnsureOwner(db, claims, now, ensureOk);
    match e.out
    case Throws(err) => Transition(Throws(err), e.db)
    case Returns(sub) =>
      if !Owns(e.db, id, sub) then Transition(Returns(QrNotFound), e.db)
      else Transition(QrImage(query, size, preset, url), e.db)
  }

  /** The part of `OnGetQrAsync` after the owner's link is found: the URL, the format test and the encoder. */
  function QrImage(query: Option<string>, size: int, preset: QrCode.Preset, url: Call<string>): (r: Call<QrResult>)
    ensures r != Returns(QrNotFound)
    ensures r.Returns? && r.value.Png? ==>
      && query.Some? && EqualsIgnoreCase(query.value, "png") && url.Returns?
      && QrCode.GeneratePng(url.value, size, preset) == Returns(r.value.plan)
    ensures r.Returns? && r.value.Svg? ==>
      && (query.None? || (!Blank(query.value) && !EqualsIgnoreCase(query.value, "png"))) && url.Returns?
      && QrCode.GenerateSvg(url.value, preset) == Returns(r.value.style)
    ensures r.Throws? ==> url.Throws? || (query.Some? && Blank(query.value)) || Blank(url.value)
    ensures url.Returns? && query.Some? && Blank(query.value) ==> r == Throws(NullReference)
    ensures url.Returns? && !Blank(url.value) ==> (r.Returns? <==> query.None? || !Blank(query.value))
  {
    match url
    case Throws(err) => Throws(err)
    case Returns(u) =>
      match BindFormat(query)
      case None => Throws(NullReference)
      case Some(fmt) =>
        DefaultIsNotPng();
        if EqualsIgnoreCase(fmt, "png") then
          match QrCode.GeneratePng(u, size, preset)
          case Throws(err) => Throws(err)
          case Returns(plan) => Returns(Png(plan))
        else
          match QrCode.GenerateSvg(u, preset)
          case Throws(err) => Throws(err)
          case Returns(style) => Returns(Svg(style))
  }

  /** The default format is not `png` in any case. */
  lemma DefaultIsNotPng()
    ensures !EqualsIgnoreCase("svg", "png")
  {
    assert Lower("svg")[0] == 's' && Lower("png")[0] == 'p';
  }

  /** A request without `fmt` gets the default SVG; one with a blank `fmt` throws before any image is made. */
  lemma FormatDefaults(size: int, preset: QrCode.Preset, u: string)
    requires !Blank(u)
    ensures QrImage(None, size, preset, Returns(u)) == Returns(Svg(QrCode.ResolvePreset(preset)))
    ensures QrImage(Some(""), size, preset, Returns(u)) == Throws(NullReference)
    ensures QrImage(Some("PNG"), size, preset, Returns(u)) == Returns(Png(QrCode.GeneratePng(u, size, preset).value))
  {
    assert Blank("");
    assert !Blank("PNG") by {
      assert !IsWhiteSpace("PNG"[0]);
    }
    assert Lower("PNG") == "png" == Lower("png");
  }
}
