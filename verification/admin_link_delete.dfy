/**
 * The administrators' hard delete (`/Admin/Links/Delete`): an optimistic
 * row-version comparison guards the call to the link service.
 */
module AdminLinkDelete {
  import opened Wrappers
  import opened Model
  import opened Store
  import LinkManager

  /** The read-only form; it round-trips the stored link and its token. */
  datatype Input = Input(
    id: int,
    domain: Option<string>,
    code: Option<string>,
    targetUrl: Option<string>,
    title: Option<string>,
    note: Option<string>,
    createdAt: Time,
    activeFrom: Option<Time>,
    activeTo: Option<Time>,
    isEnabled: bool,
    clicks: int,
    deletedAt: Option<Time>,
    rowVersion: Option<RowVersion>)

  /** The form filled from a stored link (`OnGetAsync`, and the refill after a conflict). */
  function FromLink(l: Link): (i: Input)
    ensures i.id == l.id && i.rowVersion == l.rowVersion
    ensures i.code == Some(l.code) && i.targetUrl == Some(l.targetUrl) && i.domain == l.domain
    ensures i.clicks == l.clicks && i.deletedAt == l.deletedAt
  {
    Input(l.id, l.domain, Some(l.code), Some(l.targetUrl), l.title, l.note, l.createdAt,
          l.activeFrom, l.activeTo, l.isEnabled, l.clicks, l.deletedAt, l.rowVersion)
  }

  /** The tokens disagree; the comparison is skipped when either one is absent. */
  predicate VersionConflict(posted: Option<RowVersion>, stored: Option<RowVersion>) {
    posted.Some? && stored.Some? && posted.value != stored.value
  }

  datatype Outcome =
    | ShowErrors           // the bound form is invalid
    | NotFound
    | Conflict(form: Input) // the form refilled from the stored row, offering its current token
    | Failed               // the service reported a failed delete
    | Deleted

  /**
   * `OnPostAsync`. `modelValid` is the model state of the binding (the form
   * declares no annotations of its own). The stored row is looked up by the
   * posted id; unequal tokens stop the delete; otherwise `DeleteAsync` runs.
   */
  function OnPost(db: Db, i: Input, modelValid: bool, saveOk: bool): (t: Transition<Outcome>)
    requires Valid(db)
    ensures t.out == ShowErrors <==> !modelValid
    ensures t.out == NotFound <==> modelValid && i.id !in db.links
    ensures t.out.Conflict? <==>
      modelValid && i.id in db.links && VersionConflict(i.rowVersion, db.links[i.id].rowVersion)
    ensures t.out.Conflict? ==>
      t.out.form == FromLink(db.links[i.id]) && t.out.form.rowVersion == db.links[i.id].rowVersion
    ensures t.out == Deleted <==>
      modelValid && i.id in db.links && !VersionConflict(i.rowVersion, db.links[i.id].rowVersion) && saveOk
    ensures t.out == Deleted ==>
      && t.db.links == db.links - {i.id}
      && (forall k | 0 <= k < |t.db.hits| :: t.db.hits[k].linkId != i.id)
    ensures t.out != Deleted ==> t.db == db
    ensures Valid(t.db)
  {
    if !modelValid then Transition(ShowErrors, db)
    else match LinkManager.GetById(db, i.id)
      case None => Transition(NotFound, db)
      case Some(link) =>
        if VersionConflict(i.rowVersion, link.rowVersion) then Transition(Conflict(FromLink(link)), db)
        else
          var d := LinkManager.DeleteAsync(db, link, saveOk);
          Transition(if d.out then Deleted else Failed, d.db)
  }

  /**
   * A conflict answer offers the stored token, so posting the refilled form
   * again passes the version check (unless the row changes in between).
   */
  lemma RefilledFormPassesCheck(db: Db, i: Input, saveOk: bool)
    requires Valid(db)
    requires OnPost(db, i, true, saveOk).out.Conflict?
    ensures var form := OnPost(db, i, true, saveOk).out.form;
      && form.id == i.id
      && OnPost(db, form, true, saveOk).out == (if saveOk then Deleted else Failed)
  {
  }
}
