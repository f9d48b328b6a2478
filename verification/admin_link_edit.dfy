/**
 * The administrators' edit form (`/Admin/Links/Edit`): the page builds a brand
 * new link from the form, copying only the owner and the creation time from the
 * stored row, and hands it to the link service as a whole-row replacement.
 */
module AdminLinkEdit {
  import opened Wrappers
  import opened Text
  import opened Model
  import opened Store
  import LinkManager
  import AdminLinkCreate

  datatype Input = Input(
    id: int,
    domain: Option<string>,
    code: Option<string>,
    targetUrl: Option<string>,
    title: Option<string>,
    note: Option<string>,
    activeFrom: Option<Time>,
    activeTo: Option<Time>,
    isEnabled: bool,
    rowVersion: Option<RowVersion>)

  predicate InputValid(i: Input) {
    AdminLinkCreate.FieldsValid(i.domain, i.code, i.targetUrl, i.title, i.note)
  }

  /**
   * The `new Link { ... }` handed to `UpdateAsync`: the form's fields, the
   * stored owner and creation time, the posted token, and the class defaults
   * for every property the page does not set.
   */
  function ReplacementFor(i: Input, original: Link): (e: Link)
    requires i.targetUrl.Some?
    ensures e.id == i.id && e.ownerSub == original.ownerSub && e.createdAt == original.createdAt
    ensures e.rowVersion == i.rowVersion
    ensures e.domain == BlankToNull(i.domain) && e.title == BlankToNull(i.title) && e.note == BlankToNull(i.note)
    ensures Blank(e.code) <==> NullOrBlank(i.code)
    ensures e.clicks == 0 && e.lastAccessAt.None? && e.Live()
  {
    NewLink(BlankToEmpty(i.code), i.targetUrl.value, original.ownerSub, original.createdAt).(
      id := i.id,
      domain := BlankToNull(i.domain),
      title := BlankToNull(i.title),
      note := BlankToNull(i.note),
      activeFrom := i.activeFrom,
      activeTo := i.activeTo,
      isEnabled := i.isEnabled,
      rowVersion := i.rowVersion)
  }

  datatype Outcome =
    | ShowErrors        // invalid form, nothing attempted
    | NotFound          // no stored link has the posted id
    | Failed            // the form again with an error message
    | Saved(link: Link)

  /**
   * `OnPostAsync` as written. The original is loaded with `FindAsync`, so the
   * context tracks it when the new instance with the same id reaches `Update`;
   * that throws `InvalidOperationException`, which neither specific catch
   * matches, and the general catch shows the unexpected-error message. An
   * invalid form or a missing original attempts no update.
   */
  function OnPostAsWritten(db: Db, i: Input, generated: string, version: RowVersion, saveOk: bool): (t: Transition<Outcome>)
    requires Valid(db)
    requires LinkManager.GeneratedCode(db.links, generated)
    ensures t.out == ShowErrors <==> !InputValid(i)
    ensures t.out == NotFound <==> InputValid(i) && i.id !in db.links
    ensures t.out == Failed <==> InputValid(i) && i.id in db.links
    ensures t.db == db
  {
    if !InputValid(i) then Transition(ShowErrors, db)
    else match LinkManager.GetById(db, i.id)
      case None => Transition(NotFound, db)
      case Some(original) =>
        var u := LinkManager.UpdateAsyncTracking(db, ReplacementFor(i, original), true, generated, version, saveOk);
        match u.out
        case Throws(_) => Transition(Failed, u.db)
        case Returns(None) => Transition(Failed, u.db)
        case Returns(Some(l)) => assert false; Transition(Saved(l), u.db)
  }

  /**
   * The defect: a valid edit of a stored link with a free code, which the
   * corrected handler saves when the save succeeds, never saves as written.
   */
  lemma ValidEditNeverSaved(db: Db, i: Input, generated: string, version: RowVersion)
    requires Valid(db)
    requires LinkManager.GeneratedCode(db.links, generated)
    requires InputValid(i) && i.id in db.links
    requires !(!NullOrBlank(i.code) && CodeHeldByOther(db.links, i.code.value, i.id))
    ensures OnPostAsWritten(db, i, generated, version, true) == Transition(Failed, db)
    ensures OnPost(db, i, generated, version, true).out.Saved?
  {
    SavedWhenAccepted(db, i, generated, version);
  }

  /**
   * `OnPostAsync` with the original loaded without tracking, so the update
   * reaches the save. An invalid form or a missing original attempts no
   * update. A duplicate code (the service's exception) and a failed save (a
   * `null` result) end in an error message.
   */
  function OnPost(db: Db, i: Input, generated: string, version: RowVersion, saveOk: bool): (t: Transition<Outcome>)
    requires Valid(db)
    requires LinkManager.GeneratedCode(db.links, generated)
    ensures t.out == ShowErrors <==> !InputValid(i)
    ensures t.out == NotFound <==> InputValid(i) && i.id !in db.links
    ensures !t.out.Saved? ==> t.db == db
    ensures !NullOrBlank(i.code) && CodeHeldByOther(db.links, i.code.value, i.id) ==> !t.out.Saved?
    ensures t.out.Saved? ==>
      var l := t.out.link;
      && InputValid(i) && i.id in db.links
      && l.id == i.id
      && l.ownerSub == db.links[i.id].ownerSub && l.createdAt == db.links[i.id].createdAt
      && l.domain == BlankToNull(i.domain) && l.title == BlankToNull(i.title) && l.note == BlankToNull(i.note)
      && l.code == (if NullOrBlank(i.code) then generated else i.code.value)
      && l.targetUrl == i.targetUrl.value
      && l.activeFrom == i.activeFrom && l.activeTo == i.activeTo && l.isEnabled == i.isEnabled
      && l.rowVersion == Some(version)
      && t.db == db.(links := db.links[i.id := l])
    ensures Valid(t.db)
  {
    if !InputValid(i) then Transition(ShowErrors, db)
    else match LinkManager.GetById(db, i.id)
      case None => Transition(NotFound, db)
      case Some(original) =>
        var u := LinkManager.UpdateAsync(db, ReplacementFor(i, original), generated, version, saveOk);
        match u.out
        case Throws(_) => Transition(Failed, u.db)
        case Returns(None) => Transition(Failed, u.db)
        case Returns(Some(l)) => Transition(Saved(l), u.db)
  }

  /**
   * Replacement, not merge: a successful save stores the click counter as zero,
   * forgets the last access and clears a soft deletion, whatever the row held.
   */
  lemma SaveResetsStatistics(db: Db, i: Input, generated: string, version: RowVersion, saveOk: bool)
    requires Valid(db)
    requires LinkManager.GeneratedCode(db.links, generated)
    requires OnPost(db, i, generated, version, saveOk).out.Saved?
    ensures var t := OnPost(db, i, generated, version, saveOk);
      && i.id in t.db.links
      && t.db.links[i.id].clicks == 0
      && t.db.links[i.id].lastAccessAt.None?
      && t.db.links[i.id].Live()
  {
    var original := db.links[i.id];
    var u := LinkManager.UpdateAsync(db, ReplacementFor(i, original), generated, version, saveOk);
    assert u.out.Returns? && u.out.value.Some?;
  }

  /** The converse of the guards: a valid form for a stored id with a free code saves when the save succeeds. */
  lemma SavedWhenAccepted(db: Db, i: Input, generated: string, version: RowVersion)
    requires Valid(db)
    requires LinkManager.GeneratedCode(db.links, generated)
    requires InputValid(i) && i.id in db.links
    requires !(!NullOrBlank(i.code) && CodeHeldByOther(db.links, i.code.value, i.id))
    ensures OnPost(db, i, generated, version, true).out.Saved?
  {
    var e := ReplacementFor(i, db.links[i.id]);
    assert |e.ownerSub| <= MaxOwnerSub;
    LinkManager.UpdateFailsOnlyOnSave(db, e, generated, version, true);
  }
}
