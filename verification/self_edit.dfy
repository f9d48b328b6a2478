/**
 * Self-service editing (`/Links/Edit`): only the owner sees or changes a link,
 * anyone else is told it does not exist; the update touches a fixed set of
 * fields and leaves the owner, the domain and the statistics alone.
 */
module SelfEdit {
  import opened Wrappers
  import opened Text
  import opened Model
  import opened Store
  import opened Annotations
  import LinkManager
  import OwnerManager

  /** The bound form; the concurrency token travels as base-64 text. */
  datatype EditInput = EditInput(
    code: Option<string>,
    targetUrl: Option<string>,
    title: Option<string>,
    note: Option<string>,
    activeFrom: Option<Time>,
    activeTo: Option<Time>,
    isEnabled: bool,
    rowVersion: Option<string>)

  /** The form's data annotations. */
  predicate InputValid(input: EditInput) {
    && Required(input.code) && LengthAtMost(input.code, MaxCode)
    && Required(input.targetUrl) && LengthAtMost(input.targetUrl, MaxTargetUrl) && UrlAttribute(input.targetUrl)
    && LengthAtMost(input.title, MaxTitle)
    && LengthAtMost(input.note, MaxNote)
  }

  /** The edit page refuses only an end strictly before the start; equal bounds pass. */
  predicate WindowReversed(from: Option<Time>, to: Option<Time>) {
    from.Some? && to.Some? && to.value < from.value
  }


  /** `MapToInput`; `encode` stands for `Convert.ToBase64String`. */
  function MapToInput(link: Link, encode: RowVersion -> string): (input: EditInput)
    ensures input.code == Some(link.code) && input.targetUrl == Some(link.targetUrl)
    ensures input.title == link.title && input.note == link.note && input.isEnabled == link.isEnabled
    ensures input.activeFrom == link.activeFrom && input.activeTo == link.activeTo
    ensures input.rowVersion.Some? <==> link.rowVersion.Some?
  {
    EditInput(Some(link.code), Some(link.targetUrl), link.title, link.note, link.activeFrom, link.activeTo,
              link.isEnabled, if link.rowVersion.Some? then Some(encode(link.rowVersion.value)) else None)
  }

  datatype GetOutcome = GetNotFound | ShowForm(input: EditInput)

  /**
   * `OnGetAsync`: the owner is ensured first (its failure propagates), then a
   * missing link and a link of someone else both redirect with "not found".
   */
  function OnGet(db: Db, claims: OwnerManager.Claims, id: int, now: Time, ensureOk: bool,
                 encode: RowVersion -> string): (t: Transition<Call<GetOutcome>>)
    requires Valid(db)
    ensures t.out.Returns? <==> OwnerManager.EnsureOwner(db, claims, now, ensureOk).out.Returns?
    ensures t.out.Returns? && t.out.value.ShowForm? <==>
      t.out.Returns? && Owns(db, id, claims.nameIdentifier.value)
    ensures t.out.Returns? && t.out.value.ShowForm? ==>
      t.out.value.input == MapToInput(db.links[id], encode)
    ensures t.db.links == db.links
    ensures Valid(t.db)
  {
    var e := OwnerManager.EnsureOwner(db, claims, now, ensureOk);
    match e.out
    case Throws(x) => Transition(Throws(x), e.db)
    case Returns(sub) =>
      match LinkManager.GetById(e.db, id)
      case None => Transition(Returns(GetNotFound), e.db)
      case Some(link) =>
        if link.ownerSub != sub then Transition(Returns(GetNotFound), e.db)
        else Transition(Returns(ShowForm(MapToInput(link, encode))), e.db)
  }

  datatype PostOutcome =
    | ShowErrors        // the form again, with validation messages
    | PostNotFound      // redirect with "not found"
    | NotSaved          // the form again, with a save error
    | Saved(link: Link) // redirect with success

  /** The link as the page hands it to the service: only the editable fields change. */
  function Edited(link: Link, input: EditInput, token: Option<RowVersion>): (e: Link)
    requires input.code.Some? && input.targetUrl.Some?
    ensures e == link.(code := e.code, targetUrl := e.targetUrl, title := e.title, note := e.note,
                       activeFrom := e.activeFrom, activeTo := e.activeTo, isEnabled := e.isEnabled,
                       rowVersion := e.rowVersion)
    ensures e.code == Trim(input.code.value) && e.targetUrl == input.targetUrl.value
    ensures e.title == BlankToNull(input.title) && e.note == BlankToNull(input.note)
    ensures e.activeFrom == input.activeFrom && e.activeTo == input.activeTo && e.isEnabled == input.isEnabled
    ensures e.rowVersion == token
  {
    link.(
      rowVersion := token,
      code := Trim(input.code.value),
      targetUrl := input.targetUrl.value,
      title := BlankToNull(input.title),
      note := BlankToNull(input.note),
      activeFrom := input.activeFrom,
      activeTo := input.activeTo,
      isEnabled := input.isEnabled)
  }

  /**
   * The posted token: a blank one keeps the stored token, one that decodes
   * (`decode` stands for `Convert.FromBase64String`) replaces it, and one that
   * does not is `None`, the page's `FormatException`.
   */
  function TokenOf(posted: Option<string>, stored: Option<RowVersion>, decode: string -> Option<RowVersion>)
    : (r: Option<Option<RowVersion>>)
    ensures NullOrBlank(posted) ==> r == Some(stored)
    ensures !NullOrBlank(posted) ==> (r.Some? <==> decode(posted.value).Some?)
    ensures !NullOrBlank(posted) && r.Some? ==> r.value == decode(posted.value)
  {
    if NullOrBlank(posted) then Some(stored)
    else match decode(posted.value)
         case None => None
         case Some(rv) => Some(Some(rv))
  }

  /**
   * The part of `OnPostAsync` after the owner `sub` is ensured, on the state
   * it left: a missing or foreign link is "not found"; otherwise the token is
   * read, the editable fields are copied and `UpdateAsync` runs, and any
   * exception or a null result is "not saved".
   */
  function SaveAsOwner(db: Db, sub: string, id: int, input: EditInput, decode: string -> Option<RowVersion>,
                       version: RowVersion, saveOk: bool): (t: Transition<PostOutcome>)
    requires Valid(db)
    requires InputValid(input)
    ensures t.out != ShowErrors
    ensures t.out == PostNotFound <==> !Owns(db, id, sub)
    ensures !t.out.Saved? ==> t.db == db
    ensures t.out.Saved? ==>
      var l := t.out.link;
      && Owns(db, id, sub)
      && l.id == id
      && l == db.links[id].(code := l.code, targetUrl := l.targetUrl, title := l.title, note := l.note,
                            activeFrom := l.activeFrom, activeTo := l.activeTo, isEnabled := l.isEnabled,
                            rowVersion := l.rowVersion)
      && l.code == Trim(input.code.value) && l.targetUrl == input.targetUrl.value
      && l.title == BlankToNull(input.title) && l.note == BlankToNull(input.note)
      && l.activeFrom == input.activeFrom && l.activeTo == input.activeTo && l.isEnabled == input.isEnabled
      && l.rowVersion == Some(version)
      && t.db == db.(links := db.links[id := l])
    ensures Valid(t.db)
  {
    match LinkManager.GetById(db, id)
    case None => Transition(PostNotFound, db)
    case Some(link) =>
      if link.ownerSub != sub then Transition(PostNotFound, db)
      else
        match TokenOf(input.rowVersion, link.rowVersion, decode)
        case None => Transition(NotSaved, db)
        case Some(tok) =>
          var entity := Edited(link, input, tok);
          assert !Blank(entity.code) by {
            assert !IsWhiteSpace(entity.code[0]);
          }
          var u := LinkManager.UpdateAsync(db, entity, "", version, saveOk);
          match u.out
          case Throws(_) => Transition(NotSaved, u.db)
          case Returns(None) => Transition(NotSaved, u.db)
          case Returns(Some(l)) => Transition(Saved(l), u.db)
  }

  /**
   * The owner's edit with a usable token and a trimmed code no other link
   * holds is saved exactly when the save goes through.
   */
  lemma SaveAsOwnerSaves(db: Db, sub: string, id: int, input: EditInput, decode: string -> Option<RowVersion>,
                         version: RowVersion)
    requires Valid(db)
    requires InputValid(input)
    requires Owns(db, id, sub)
    requires TokenOf(input.rowVersion, db.links[id].rowVersion, decode).Some?
    requires !CodeHeldByOther(db.links, Trim(input.code.value), id)
    ensures SaveAsOwner(db, sub, id, input, decode, version, true).out.Saved?
  {
    var link := db.links[id];
    var tok := TokenOf(input.rowVersion, link.rowVersion, decode).value;
    assert link.id == id && FitsColumns(link);
    EditUpdates(db, link, input, tok, version);
  }

  /** The edited copy of a row that fits its columns fits them too, and keeps a non-blank code. */
  lemma EditedFits(link: Link, input: EditInput, tok: Option<RowVersion>)
    requires FitsColumns(link) && InputValid(input)
    ensures FitsColumns(Edited(link, input, tok)) && !Blank(Edited(link, input, tok).code)
  {
    var e := Edited(link, input, tok);
    assert !IsWhiteSpace(e.code[0]);
  }

  /** `UpdateAsync` of the edited copy of a stored row, whose trimmed code no other row holds, saves. */
  lemma EditUpdates(db: Db, link: Link, input: EditInput, tok: Option<RowVersion>, version: RowVersion)
    requires Valid(db)
    requires InputValid(input)
    requires link.id in db.links && db.links[link.id] == link && FitsColumns(link)
    requires !CodeHeldByOther(db.links, Trim(input.code.value), link.id)
    ensures LinkManager.UpdateAsync(db, Edited(link, input, tok), "", version, true).out == Returns(Some(
      LinkManager.Replacement(Edited(link, input, tok), Edited(link, input, tok).code, version)))
  {
    var e := Edited(link, input, tok);
    EditedFits(link, input, tok);
    LinkManager.UpdateFailsOnlyOnSave(db, e, "", version, true);
  }


  /**
   * `OnPostAsync(id)`. An invalid form or a reversed window shows the form again.
   * Otherwise, inside the page's catch-all: the owner is ensured (a failure is
   * "not saved"), then `SaveAsOwner` runs on the state that left.
   */
  function OnPost(db: Db, claims: OwnerManager.Claims, id: int, input: EditInput, now: Time, ensureOk: bool,
                  decode: string -> Option<RowVersion>, version: RowVersion, saveOk: bool)
    : (t: Transition<PostOutcome>)
    requires Valid(db)
    ensures t.out == ShowErrors <==> WindowReversed(input.activeFrom, input.activeTo) || !InputValid(input)
    ensures t.out == ShowErrors ==> t.db == db
    ensures t.out == PostNotFound ==>
      claims.nameIdentifier.Some? && !Owns(db, id, claims.nameIdentifier.value)
    ensures claims.nameIdentifier.Some? && !Owns(db, id, claims.nameIdentifier.value) ==> !t.out.Saved?
    ensures !t.out.Saved? ==> t.db.links == db.links && t.db.hits == db.hits
    ensures t.out.Saved? ==>
      var l := t.out.link;
      && InputValid(input) && !WindowReversed(input.activeFrom, input.activeTo)
      && claims.nameIdentifier.Some? && Owns(db, id, claims.nameIdentifier.value)
      && l.id == id
      && l == db.links[id].(code := l.code, targetUrl := l.targetUrl, title := l.title, note := l.note,
                            activeFrom := l.activeFrom, activeTo := l.activeTo, isEnabled := l.isEnabled,
                            rowVersion := l.rowVersion)
      && l.code == Trim(input.code.value) && l.targetUrl == input.targetUrl.value
      && l.title == BlankToNull(input.title) && l.note == BlankToNull(input.note)
      && l.activeFrom == input.activeFrom && l.activeTo == input.activeTo && l.isEnabled == input.isEnabled
      && l.rowVersion == Some(version)
      && t.db.links == db.links[id := l]
    ensures Valid(t.db)
  {
    if WindowReversed(input.activeFrom, input.activeTo) || !InputValid(input) then Transition(ShowErrors, db)
    else
      var e := OwnerManager.EnsureOwner(db, claims, now, ensureOk);
      match e.out
      case Throws(_) => Transition(NotSaved, e.db)
      case Returns(sub) =>
        assert e.db.links == db.links && e.db.hits == db.hits;
        SaveAsOwner(e.db, sub, id, input, decode, version, saveOk)
  }

  /**
   * The converse of the guards: the owner's valid form, with a blank token or
   * one that decodes and a trimmed code no other link holds, is saved when the
   * save succeeds.
   */
  lemma SavedWhenAccepted(db: Db, claims: OwnerManager.Claims, id: int, input: EditInput, now: Time, ensureOk: bool,
                          decode: string -> Option<RowVersion>, version: RowVersion)
    requires Valid(db)
    requires InputValid(input) && !WindowReversed(input.activeFrom, input.activeTo)
    requires OwnerManager.EnsureOwner(db, claims, now, ensureOk).out.Returns?
    requires claims.nameIdentifier.Some? && Owns(db, id, claims.nameIdentifier.value)
    requires NullOrBlank(input.rowVersion) || decode(input.rowVersion.value).Some?
    requires !CodeHeldByOther(db.links, Trim(input.code.value), id)
    ensures OnPost(db, claims, id, input, now, ensureOk, decode, version, true).out.Saved?
  {
    var e := OwnerManager.EnsureOwner(db, claims, now, ensureOk);
    assert e.db.links == db.links;
    SaveAsOwnerSaves(e.db, claims.nameIdentifier.value, id, input, decode, version);
  }


  /**
   * Another user's link is indistinguishable from a missing one, on the form
   * and on the post alike.
   */
  lemma ForeignLinkLooksMissing(db: Db, claims: OwnerManager.Claims, id: int, missing: int, input: EditInput,
                                now: Time, ensureOk: bool, encode: RowVersion -> string,
                                decode: string -> Option<RowVersion>, version: RowVersion, saveOk: bool)
    requires Valid(db)
    requires missing !in db.links
    requires claims.nameIdentifier.Some? ==> !Owns(db, id, claims.nameIdentifier.value)
    ensures OnGet(db, claims, id, now, ensureOk, encode) == OnGet(db, claims, missing, now, ensureOk, encode)
    ensures OnPost(db, claims, id, input, now, ensureOk, decode, version, saveOk)
         == OnPost(db, claims, missing, input, now, ensureOk, decode, version, saveOk)
  {
    var e := OwnerManager.EnsureOwner(db, claims, now, ensureOk);
    assert e.db.links == db.links;
    if e.out.Returns? && InputValid(input) {
      var sub := e.out.value;
      assert !Owns(e.db, id, sub) && !Owns(e.db, missing, sub);
      assert SaveAsOwner(e.db, sub, id, input, decode, version, saveOk) == Transition(PostNotFound, e.db);
      assert SaveAsOwner(e.db, sub, missing, input, decode, version, saveOk) == Transition(PostNotFound, e.db);
    }
  }


  /**
   * A saved edit is what the form shows next: the owner's next `OnGet` shows
   * the posted fields, with the code trimmed and a blank title or note gone.
   */
  lemma SavedEditShown(db: Db, claims: OwnerManager.Claims, id: int, input: EditInput, now: Time, ensureOk: bool,
                       decode: string -> Option<RowVersion>, version: RowVersion, saveOk: bool,
                       later: Time, encode: RowVersion -> string)
    requires Valid(db)
    requires OnPost(db, claims, id, input, now, ensureOk, decode, version, saveOk).out.Saved?
    ensures var t := OnPost(db, claims, id, input, now, ensureOk, decode, version, saveOk);
      var g := OnGet(t.db, claims, id, later, ensureOk, encode);
      && g.out.Returns? && g.out.value.ShowForm?
      && g.out.value.input.code == Some(Trim(input.code.value))
      && g.out.value.input.targetUrl == input.targetUrl
      && g.out.value.input.title == BlankToNull(input.title)
      && g.out.value.input.note == BlankToNull(input.note)
      && g.out.value.input.activeFrom == input.activeFrom && g.out.value.input.activeTo == input.activeTo
      && g.out.value.input.isEnabled == input.isEnabled
      && g.out.value.input.rowVersion == Some(encode(version))
  {
    var t := OnPost(db, claims, id, input, now, ensureOk, decode, version, saveOk);
    var sub := claims.nameIdentifier.value;
    var e := OwnerManager.EnsureOwner(db, claims, now, ensureOk);
    assert e.out == Returns(sub);
    assert t.db.owners == e.db.owners;
    assert sub in t.db.owners;
    assert Owns(t.db, id, sub);
  }
}
