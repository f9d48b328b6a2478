/**
 * The administrators' quick-create form (`/Admin/Create`): a target URL and an
 * optional custom code checked by a regular expression; any exception becomes
 * a failure message.
 */
module AdminQuickCreate {
  import opened Wrappers
  import opened Text
  import opened Model
  import opened Store
  import opened Annotations
  import LinkManager

  /** The owner recorded when the caller has no NameIdentifier claim. */
  const UnknownOwner: string := "unknown"

  const MinPatternCode: nat := 3
  /** The upper repetition bound the form's pattern declares. */
  const MaxPatternCode: nat := 20

  /** `[a-zA-Z0-9_-]`. */
  predicate PatternChar(c: char) {
    IsAsciiLetter(c) || IsAsciiDigit(c) || c == '_' || c == '-'
  }

  /** The whole string matches `^[a-zA-Z0-9_-]{3,max}$`. */
  predicate MatchesPattern(s: string, max: nat) {
    MinPatternCode <= |s| <= max && forall k | 0 <= k < |s| :: PatternChar(s[k])
  }

  /** `[RegularExpression]`: null and empty pass; otherwise the match must span the whole value. */
  predicate RegexValid(s: Option<string>, max: nat) {
    s.None? || |s.value| == 0 || MatchesPattern(s.value, max)
  }

  datatype Input = Input(
    targetUrl: Option<string>,
    customCode: Option<string>,
    activeFrom: Option<Time>,
    activeTo: Option<Time>,
    isEnabled: bool)

  /** The annotations as declared: `{3,20}`, wider than the 16-character code column. */
  predicate InputValidAsWritten(i: Input) {
    Required(i.targetUrl) && UrlAttribute(i.targetUrl) && RegexValid(i.customCode, MaxPatternCode)
  }

  /** The annotations with the pattern bounded by the code column. */
  predicate InputValid(i: Input) {
    Required(i.targetUrl) && UrlAttribute(i.targetUrl) && RegexValid(i.customCode, MaxCode)
  }

  /** `new Link { ... }`: the custom code, or else a generated one; the caller's subject, or else "unknown". */
  function Entity(i: Input, nameIdentifier: Option<string>, now: Time, generated: string): Link
    requires i.targetUrl.Some?
  {
    NewLink(i.customCode.GetOr(generated), i.targetUrl.value, nameIdentifier.GetOr(UnknownOwner), now).(
      activeFrom := i.activeFrom,
      activeTo := i.activeTo,
      isEnabled := i.isEnabled)
  }

  datatype Outcome =
    | ShowErrors        // invalid form, nothing attempted
    | Failed            // the failure message, no redirect
    | Created(link: Link)

  /**
   * The body of the `try`: create, then read the code of the result. A `null`
   * result makes that read throw, so it fails like a thrown duplicate.
   */
  function Submit(db: Db, i: Input, nameIdentifier: Option<string>, now: Time,
                  generated: string, version: RowVersion, saveOk: bool): (t: Transition<Outcome>)
    requires Valid(db)
    requires LinkManager.GeneratedCode(db.links, generated)
    requires i.targetUrl.Some?
    ensures t.out != ShowErrors
    ensures !t.out.Created? ==> t.db == db
    ensures t.out.Created? ==>
      var l := t.out.link;
      && l.code == (if i.customCode.Some? && !Blank(i.customCode.value) then i.customCode.value else generated)
      && l.targetUrl == i.targetUrl.value
      && l.ownerSub == nameIdentifier.GetOr(UnknownOwner)
      && l.activeFrom == i.activeFrom && l.activeTo == i.activeTo && l.isEnabled == i.isEnabled
      && l.clicks == 0 && l.Live() && l.domain.None? && l.createdAt == now
      && FitsColumns(l)
      && l.id == db.nextLinkId && t.db == AddLink(db, l)
    ensures Valid(t.db)
  {
    var c := LinkManager.CreateAsync(db, Entity(i, nameIdentifier, now, generated), generated, version, saveOk);
    match c.out
    case Throws(_) => Transition(Failed, c.db)
    case Returns(None) => Transition(Failed, c.db)
    case Returns(Some(l)) =>
      assert c.db.links[l.id] == l;
      Transition(Created(l), c.db)
  }

  /** `OnPostAsync` as declared, with the `{3,20}` pattern. */
  function OnPostAsWritten(db: Db, i: Input, nameIdentifier: Option<string>, now: Time,
                           generated: string, version: RowVersion, saveOk: bool): (t: Transition<Outcome>)
    requires Valid(db)
    requires LinkManager.GeneratedCode(db.links, generated)
    ensures t.out == ShowErrors <==> !InputValidAsWritten(i)
    ensures !t.out.Created? ==> t.db == db
    ensures Valid(t.db)
  {
    if !InputValidAsWritten(i) then Transition(ShowErrors, db)
    else Submit(db, i, nameIdentifier, now, generated, version, saveOk)
  }

  /**
   * A custom code of 17 to 20 pattern characters passes the declared
   * validation, yet can never be stored: it is either a duplicate or it
   * overflows the code column, so the page always reports a failure. The
   * corrected form rejects it up front.
   */
  lemma LongCodePassesButNeverStored(db: Db, i: Input, nameIdentifier: Option<string>, now: Time,
                                     generated: string, version: RowVersion, saveOk: bool)
    requires Valid(db)
    requires LinkManager.GeneratedCode(db.links, generated)
    requires Required(i.targetUrl) && UrlAttribute(i.targetUrl)
    requires i.customCode.Some? && MaxCode < |i.customCode.value|
    requires MatchesPattern(i.customCode.value, MaxPatternCode)
    ensures InputValidAsWritten(i)
    ensures OnPostAsWritten(db, i, nameIdentifier, now, generated, version, saveOk).out == Failed
    ensures !InputValid(i)
    ensures OnPost(db, i, nameIdentifier, now, generated, version, saveOk).out == ShowErrors
  {
    var code := i.customCode.value;
    var e := Entity(i, nameIdentifier, now, generated);
    assert e.code == code;
    assert !Blank(code) by {
      assert PatternChar(code[0]);
    }
    if !CodeInUse(db.links, code) {
      LinkManager.CreateFailsOnlyOnSave(db, e, generated, version, saveOk);
    }
  }

  /** `OnPostAsync` with the pattern bounded by the code column. */
  function OnPost(db: Db, i: Input, nameIdentifier: Option<string>, now: Time,
                  generated: string, version: RowVersion, saveOk: bool): (t: Transition<Outcome>)
    requires Valid(db)
    requires LinkManager.GeneratedCode(db.links, generated)
    ensures t.out == ShowErrors <==> !InputValid(i)
    ensures !t.out.Created? ==> t.db == db
    ensures t.out.Created? ==>
      var l := t.out.link;
      && InputValid(i)
      && (if i.customCode.Some? && |i.customCode.value| > 0
          then l.code == i.customCode.value && MatchesPattern(l.code, MaxCode)
          else l.code == generated)
      && l.ownerSub == nameIdentifier.GetOr(UnknownOwner)
      && l.id == db.nextLinkId && t.db == AddLink(db, l)
    ensures Valid(t.db)
  {
    if !InputValid(i) then Transition(ShowErrors, db)
    else
      assert i.customCode.Some? && |i.customCode.value| > 0 ==> !Blank(i.customCode.value) by {
        if i.customCode.Some? && |i.customCode.value| > 0 {
          assert PatternChar(i.customCode.value[0]);
        }
      }
      Submit(db, i, nameIdentifier, now, generated, version, saveOk)
  }

  /**
   * With the corrected pattern every accepted custom code fits its column, so a
   * valid form with a free code is created whenever the save succeeds and the
   * target and owner fit theirs.
   */
  lemma CreatedWhenAccepted(db: Db, i: Input, nameIdentifier: Option<string>, now: Time,
                            generated: string, version: RowVersion)
    requires Valid(db)
    requires LinkManager.GeneratedCode(db.links, generated)
    requires InputValid(i)
    requires |i.targetUrl.value| <= MaxTargetUrl && |nameIdentifier.GetOr(UnknownOwner)| <= MaxOwnerSub
    requires !(i.customCode.Some? && !Blank(i.customCode.value) && CodeInUse(db.links, i.customCode.value))
    ensures OnPost(db, i, nameIdentifier, now, generated, version, true).out.Created?
  {
    var e := Entity(i, nameIdentifier, now, generated);
    LinkManager.CreateFailsOnlyOnSave(db, e, generated, version, true);
  }
}
