/**
 * The administrators' full create form (`/Admin/Links/Create`): the bound input
 * is normalised into a new link owned by the caller and handed to the link
 * service, which supplies a code when the form left it blank.
 */
module AdminLinkCreate {
  import opened Wrappers
  import opened Text
  import opened Model
  import opened Store
  import opened Annotations
  import LinkManager

  datatype Input = Input(
    domain: Option<string>,
    code: Option<string>,
    targetUrl: Option<string>,
    title: Option<string>,
    note: Option<string>,
    activeFrom: Option<Time>,
    activeTo: Option<Time>,
    isEnabled: bool)

  /** The annotations shared by the admin create and edit forms; the code is optional. */
  predicate FieldsValid(domain: Option<string>, code: Option<string>, targetUrl: Option<string>,
                        title: Option<string>, note: Option<string>) {
    && LengthAtMost(domain, MaxDomain)
    && LengthAtMost(code, MaxCode)
    && Required(targetUrl) && LengthAtMost(targetUrl, MaxTargetUrl) && UrlAttribute(targetUrl)
    && LengthAtMost(title, MaxTitle)
    && LengthAtMost(note, MaxNote)
  }

  predicate InputValid(i: Input) {
    FieldsValid(i.domain, i.code, i.targetUrl, i.title, i.note)
  }

  /** The `new Link { ... }` the page builds: blank optional texts become null, a blank code empty. */
  function Mapped(i: Input, ownerSub: string, now: Time): Link
    requires i.targetUrl.Some?
  {
    NewLink(BlankToEmpty(i.code), i.targetUrl.value, ownerSub, now).(
      domain := BlankToNull(i.domain),
      title := BlankToNull(i.title),
      note := BlankToNull(i.note),
      activeFrom := i.activeFrom,
      activeTo := i.activeTo,
      isEnabled := i.isEnabled)
  }

  datatype Outcome =
    | ShowErrors        // invalid form, nothing attempted
    | Failed            // the form again with an error message
    | Created(link: Link)

  /**
   * `OnPostAsync`. An invalid form is shown again untouched. A missing
   * NameIdentifier claim, a duplicate code (the service's exception) and a
   * failed save (a `null` result) all end in an error message.
   */
  function OnPost(db: Db, i: Input, nameIdentifier: Option<string>, now: Time,
                  generated: string, version: RowVersion, saveOk: bool): (t: Transition<Outcome>)
    requires Valid(db)
    requires LinkManager.GeneratedCode(db.links, generated)
    ensures t.out == ShowErrors <==> !InputValid(i)
    ensures !t.out.Created? ==> t.db == db
    ensures nameIdentifier.None? ==> !t.out.Created?
    ensures !NullOrBlank(i.code) && CodeInUse(db.links, i.code.value) ==> !t.out.Created?
    ensures t.out.Created? ==>
      var l := t.out.link;
      && InputValid(i) && nameIdentifier.Some? && l.ownerSub == nameIdentifier.value
      && l.domain == BlankToNull(i.domain) && l.title == BlankToNull(i.title) && l.note == BlankToNull(i.note)
      && l.code == (if NullOrBlank(i.code) then generated else i.code.value)
      && l.targetUrl == i.targetUrl.value
      && l.activeFrom == i.activeFrom && l.activeTo == i.activeTo && l.isEnabled == i.isEnabled
      && l.clicks == 0 && l.Live() && l.lastAccessAt.None? && l.createdAt == now
      && l.rowVersion == Some(version)
      && l.id == db.nextLinkId && t.db == AddLink(db, l)
    ensures Valid(t.db)
  {
    if !InputValid(i) then Transition(ShowErrors, db)
    else match nameIdentifier
      case None => Transition(Failed, db)
      case Some(sub) =>
        var c := LinkManager.CreateAsync(db, Mapped(i, sub, now), generated, version, saveOk);
        match c.out
        case Throws(_) => Transition(Failed, c.db)
        case Returns(None) => Transition(Failed, c.db)
        case Returns(Some(l)) => Transition(Created(l), c.db)
  }

  /**
   * The converse: a valid form from a signed-in caller whose subject fits its
   * column, with a free (or blank) code, is created whenever the save succeeds.
   */
  lemma CreatedWhenAccepted(db: Db, i: Input, sub: string, now: Time, generated: string,
                            version: RowVersion)
    requires Valid(db)
    requires LinkManager.GeneratedCode(db.links, generated)
    requires InputValid(i) && |sub| <= MaxOwnerSub
    requires !(!NullOrBlank(i.code) && CodeInUse(db.links, i.code.value))
    ensures OnPost(db, i, Some(sub), now, generated, version, true).out.Created?
  {
    var e := Mapped(i, sub, now);
    LinkManager.CreateFailsOnlyOnSave(db, e, generated, version, true);
  }
}
