/**
 * Self-service creation (`/Links/Create`): its own, stricter rules. Codes are
 * lower-case `[a-z0-9]`, generated codes come from 7 random bytes taken modulo
 * 36, reserved codes are refused, collisions are checked against live links
 * only, and an empty or reversed validity window is refused. The chain either
 * adds exactly one link or adds nothing.
 */
module SelfCreate {
  import opened Wrappers
  import opened Text
  import opened Model
  import opened Store
  import opened Annotations

  const GeneratedLength: nat := 7
  const MaxCustomCode: nat := 16

  predicate IsSafeChar(c: char) {
    ('a' <= c <= 'z') || ('0' <= c <= '9')
  }

  /** `IsCodeSafe`: every character is in a–z or 0–9. */
  predicate IsCodeSafe(code: string) {
    forall i | 0 <= i < |code| :: IsSafeChar(code[i])
  }

  /** Position `k` of "abcdefghijklmnopqrstuvwxyz0123456789". */
  function SafeAlphabetChar(k: int): char
    requires 0 <= k < 36
  {
    if k < 26 then ('a' as int + k) as char else ('0' as int + (k - 26)) as char
  }

  /** The 36-symbol alphabet of generated self-service codes. */
  function SafeAlphabet(): (a: string)
    ensures |a| == 36
    ensures forall k | 0 <= k < |a| :: IsSafeChar(a[k])
  {
    seq(36, k requires 0 <= k < 36 => SafeAlphabetChar(k))
  }

  /** `GenerateCode(n)` given the `n` bytes the random number generator filled in. */
  function GenerateCode(bytes: seq<byte>): (r: string)
    ensures |r| == |bytes|
    ensures forall i | 0 <= i < |r| :: r[i] == SafeAlphabet()[bytes[i] as int % 36]
    ensures IsCodeSafe(r)
  {
    seq(|bytes|, i requires 0 <= i < |bytes| => SafeAlphabet()[bytes[i] as int % 36])
  }

  /** Where a safe character sits in the alphabet. */
  function SafeIndex(c: char): (k: int)
    requires IsSafeChar(c)
    ensures 0 <= k < 36 && SafeAlphabet()[k] == c
  {
    if 'a' <= c <= 'z' then c as int - 'a' as int else 26 + (c as int - '0' as int)
  }

  /** Conversely, every safe code of length `n` is produced by some `n` bytes: the generator reaches all of them. */
  lemma {:induction false} EverySafeCodeIsGenerated(code: string)
    requires IsCodeSafe(code)
    ensures exists bytes: seq<byte> | |bytes| == |code| :: GenerateCode(bytes) == code
  {
    var bytes := seq(|code|, i requires 0 <= i < |code| => SafeIndex(code[i]) as byte);
    assert GenerateCode(bytes) == code by {
      forall i | 0 <= i < |code| ensures GenerateCode(bytes)[i] == code[i] {
        assert bytes[i] as int % 36 == SafeIndex(code[i]);
      }
    }
  }

  /** The parts of a `System.Uri` the page reads: its scheme and its string form. */
  datatype ParsedUri = ParsedUri(scheme: string, text: string)

  /**
   * `TryNormalizeUrl`. `parse` stands for `Uri.TryCreate(…, UriKind.Absolute, …)`,
   * which is not part of this model. A null input is dereferenced by `Trim`.
   */
  function TryNormalizeUrl(input: Option<string>, parse: string -> Option<ParsedUri>): (r: Call<Option<string>>)
    ensures r.Throws? <==> input.None?
    ensures r.Throws? ==> r.error == NullReference
    ensures r.Returns? ==>
      var u := parse(Trim(input.value));
      && (r.value.Some? <==> u.Some? && (u.value.scheme == "http" || u.value.scheme == "https"))
      && (r.value.Some? ==> r.value.value == u.value.text)
  {
    match input
    case None => Throws(NullReference)
    case Some(s) =>
      match parse(Trim(s))
      case None => Returns(None)
      case Some(u) => if u.scheme == "http" || u.scheme == "https" then Returns(Some(u.text)) else Returns(None)
  }

  /** The bound form. Times are already converted to UTC. */
  datatype Form = Form(
    targetUrl: Option<string>,
    customCode: Option<string>,
    isEnabled: bool,
    title: Option<string>,
    note: Option<string>,
    activeFrom: Option<Time>,
    activeTo: Option<Time>)

  /** The page's result: the form again with an error, a Forbid, or the redirect after creation. */
  datatype Outcome =
    | InvalidForm
    | InvalidUrl
    | Forbidden
    | UnsafeCode
    | CodeReserved
    | CodeExists
    | BadWindow
    | Created(link: Link)

  /** The checks of the chain, in the order they run. */
  datatype Check = UrlCheck | SubCheck | CharsetCheck | ReservedCheck | CollisionCheck | WindowCheck

  function Rank(c: Check): nat {
    match c
    case UrlCheck => 0
    case SubCheck => 1
    case CharsetCheck => 2
    case ReservedCheck => 3
    case CollisionCheck => 4
    case WindowCheck => 5
  }

  function Rejection(c: Check): Outcome {
    match c
    case UrlCheck => InvalidUrl
    case SubCheck => Forbidden
    case CharsetCheck => UnsafeCode
    case ReservedCheck => CodeReserved
    case CollisionCheck => CodeExists
    case WindowCheck => BadWindow
  }

  /** A blank custom code is replaced by a generated one; otherwise it is trimmed and lower-cased. */
  function ChosenCode(form: Form, bytes: seq<byte>): string {
    if NullOrBlank(form.customCode) then GenerateCode(bytes) else Lower(Trim(form.customCode.value))
  }

  /** The window is refused when both bounds are present and the end is not after the start. */
  predicate WindowRejected(from: Option<Time>, to: Option<Time>) {
    from.Some? && to.Some? && to.value <= from.value
  }

  /** The condition under which check `c` refuses the request, independently of the other checks. */
  predicate Fails(c: Check, db: Db, form: Form, sub: Option<string>,
                  parse: string -> Option<ParsedUri>, bytes: seq<byte>)
  {
    match c
    case UrlCheck => TryNormalizeUrl(form.targetUrl, parse) == Returns(None)
    case SubCheck => NullOrBlank(sub)
    case CharsetCheck => !IsCodeSafe(ChosenCode(form, bytes))
    case ReservedCheck => IsReserved(db.reserved, ChosenCode(form, bytes))
    case CollisionCheck => LiveCodeInUse(db.links, ChosenCode(form, bytes))
    case WindowCheck => WindowRejected(form.activeFrom, form.activeTo)
  }

  /** The row the page adds once every check has passed. */
  function Entity(db: Db, form: Form, url: string, sub: string, code: string, now: Time, version: RowVersion): (l: Link)
    ensures l.id == db.nextLinkId && l.code == code && l.targetUrl == url && l.ownerSub == sub
    ensures l.createdAt == now && l.Live() && l.domain.None? && l.clicks == 0 && l.lastAccessAt.None?
    ensures l.isEnabled == form.isEnabled && l.title == form.title && l.note == form.note
    ensures l.activeFrom == form.activeFrom && l.activeTo == form.activeTo
    ensures l.rowVersion == Some(version)
  {
    NewLink(code, url, sub, now).(
      id := db.nextLinkId,
      isEnabled := form.isEnabled,
      title := form.title,
      note := form.note,
      activeFrom := form.activeFrom,
      activeTo := form.activeTo,
      rowVersion := Some(version))
  }

  /** Passing each of the six checks one by one is passing them all. */
  lemma NoCheckFails(db: Db, form: Form, sub: Option<string>, parse: string -> Option<ParsedUri>, bytes: seq<byte>)
    ensures (&& !Fails(UrlCheck, db, form, sub, parse, bytes) && !Fails(SubCheck, db, form, sub, parse, bytes)
             && !Fails(CharsetCheck, db, form, sub, parse, bytes) && !Fails(ReservedCheck, db, form, sub, parse, bytes)
             && !Fails(CollisionCheck, db, form, sub, parse, bytes) && !Fails(WindowCheck, db, form, sub, parse, bytes))
            ==> forall c :: !Fails(c, db, form, sub, parse, bytes)
  {
    forall c ensures Fails(c, db, form, sub, parse, bytes) ==>
      Fails(UrlCheck, db, form, sub, parse, bytes) || Fails(SubCheck, db, form, sub, parse, bytes)
      || Fails(CharsetCheck, db, form, sub, parse, bytes) || Fails(ReservedCheck, db, form, sub, parse, bytes)
      || Fails(CollisionCheck, db, form, sub, parse, bytes) || Fails(WindowCheck, db, form, sub, parse, bytes)
    {
      match c
      case UrlCheck =>
      case SubCheck =>
      case CharsetCheck =>
      case ReservedCheck =>
      case CollisionCheck =>
      case WindowCheck =>
    }
  }

  /**
   * The six checks run in order on a request whose target is not null: the
   * first one that fails, or `None` when all pass.
   */
  function FirstFailure(db: Db, form: Form, sub: Option<string>, parse: string -> Option<ParsedUri>,
                        bytes: seq<byte>): (r: Option<Check>)
    requires form.targetUrl.Some?
    ensures r.None? <==> forall c :: !Fails(c, db, form, sub, parse, bytes)
    ensures r.Some? ==> Fails(r.value, db, form, sub, parse, bytes)
    ensures r.Some? ==> forall c | Rank(c) < Rank(r.value) :: !Fails(c, db, form, sub, parse, bytes)
  {
    if Fails(UrlCheck, db, form, sub, parse, bytes) then Some(UrlCheck)
    else if Fails(SubCheck, db, form, sub, parse, bytes) then Some(SubCheck)
    else if Fails(CharsetCheck, db, form, sub, parse, bytes) then Some(CharsetCheck)
    else if Fails(ReservedCheck, db, form, sub, parse, bytes) then Some(ReservedCheck)
    else if Fails(CollisionCheck, db, form, sub, parse, bytes) then Some(CollisionCheck)
    else if Fails(WindowCheck, db, form, sub, parse, bytes) then Some(WindowCheck)
    else
      NoCheckFails(db, form, sub, parse, bytes);
      None
  }

  /** A request that passes the whole chain has a usable target and owner, and a safe, free code in a sound window. */
  lemma Passed(db: Db, form: Form, sub: Option<string>, parse: string -> Option<ParsedUri>, bytes: seq<byte>)
    requires form.targetUrl.Some?
    requires FirstFailure(db, form, sub, parse, bytes).None?
    ensures TryNormalizeUrl(form.targetUrl, parse).Returns? && TryNormalizeUrl(form.targetUrl, parse).value.Some?
    ensures sub.Some? && !Blank(sub.value)
    ensures IsCodeSafe(ChosenCode(form, bytes)) && !IsReserved(db.reserved, ChosenCode(form, bytes))
    ensures !LiveCodeInUse(db.links, ChosenCode(form, bytes))
    ensures !WindowRejected(form.activeFrom, form.activeTo)
  {
    assert !Fails(UrlCheck, db, form, sub, parse, bytes) && !Fails(SubCheck, db, form, sub, parse, bytes);
    assert !Fails(CharsetCheck, db, form, sub, parse, bytes) && !Fails(ReservedCheck, db, form, sub, parse, bytes);
    assert !Fails(CollisionCheck, db, form, sub, parse, bytes) && !Fails(WindowCheck, db, form, sub, parse, bytes);
  }

  /**
   * `OnPostAsync` as written: the bound model state is never consulted. The
   * final save is not wrapped, so a rejected insert surfaces as an exception.
   */
  function OnPostAsWritten(db: Db, form: Form, sub: Option<string>, parse: string -> Option<ParsedUri>,
                           bytes: seq<byte>, now: Time, version: RowVersion, saveOk: bool)
    : (t: Transition<Call<Outcome>>)
    requires Valid(db)
    requires |bytes| == GeneratedLength
    ensures t.out == Throws(NullReference) <==> form.targetUrl.None?
    ensures t.out.Throws? ==> t.out.error == NullReference || t.out.error == DbUpdate
    ensures t.out.Throws? && t.out.error == DbUpdate ==> FirstFailure(db, form, sub, parse, bytes).None?
    ensures t.out.Returns? ==> form.targetUrl.Some? && t.out.value != InvalidForm
    ensures t.out.Returns? && !t.out.value.Created? ==>
      var f := FirstFailure(db, form, sub, parse, bytes);
      f.Some? && t.out.value == Rejection(f.value)
    ensures !(t.out.Returns? && t.out.value.Created?) ==> t.db == db
    ensures t.out.Returns? && t.out.value.Created? ==>
      var l := t.out.value.link;
      && FirstFailure(db, form, sub, parse, bytes).None?
      && sub.Some? && l.ownerSub == sub.value
      && l.id == db.nextLinkId && l.id !in db.links
      && t.db == AddLink(db, l)
      && l.code == ChosenCode(form, bytes)
      && var u := TryNormalizeUrl(form.targetUrl, parse);
      && u.Returns? && u.value.Some? && l.targetUrl == u.value.value
    ensures t.out.Returns? && t.out.value.Created? ==>
      var l := t.out.value.link;
      && IsCodeSafe(l.code) && !IsReserved(db.reserved, l.code) && !LiveCodeInUse(db.links, l.code)
      && l.Live() && l.domain.None? && l.clicks == 0 && l.lastAccessAt.None? && l.createdAt == now
      && l.isEnabled == form.isEnabled && l.title == form.title && l.note == form.note
      && l.activeFrom == form.activeFrom && l.activeTo == form.activeTo
      && !WindowRejected(l.activeFrom, l.activeTo)
    ensures Valid(t.db)
  {
    match TryNormalizeUrl(form.targetUrl, parse)
    case Throws(e) => Transition(Throws(e), db)
    case Returns(u) =>
      match FirstFailure(db, form, sub, parse, bytes)
      case Some(c) => Transition(Returns(Rejection(c)), db)
      case None =>
        Passed(db, form, sub, parse, bytes);
        var l := Entity(db, form, u.value, sub.value, ChosenCode(form, bytes), now, version);
        SaveCreated(db, l, saveOk)
  }

  /**
   * The unwrapped `SaveChangesAsync` of a new row `l` whose code no live link
   * holds: the filtered unique index cannot object, so the row is added only
   * when the save goes through, and otherwise the `DbUpdateException` escapes
   * with nothing stored. `SaveCreatedStores` says exactly when it is added.
   */
  function SaveCreated(db: Db, l: Link, saveOk: bool): (t: Transition<Call<Outcome>>)
    requires Valid(db)
    requires l.id == db.nextLinkId && !LiveCodeInUse(db.links, l.code)
    ensures t.out.Returns? ==> saveOk
    ensures t.out.Returns? ==> t.out == Returns(Created(l)) && t.db == AddLink(db, l)
    ensures t.out.Throws? ==> t.out == Throws(DbUpdate) && t.db == db
    ensures Valid(t.db)
  {
    var db' := AddLink(db, l);
    assert l.id !in db.links;
    LiveCodeCheckKeepsLiveUnique(db.links, l);
    PutKeepsOtherConstraints(db, l);
    if saveOk && Accepts(db') then Transition(Returns(Created(l)), db')
    else Transition(Throws(DbUpdate), db)
  }

  /** The new row is stored exactly when the save goes through and its columns fit. */
  lemma SaveCreatedStores(db: Db, l: Link, saveOk: bool)
    requires Valid(db)
    requires l.id == db.nextLinkId && !LiveCodeInUse(db.links, l.code)
    ensures SaveCreated(db, l, saveOk).out.Returns? <==> saveOk && FitsColumns(l)
  {
    assert l.id !in db.links;
    LiveCodeCheckKeepsLiveUnique(db.links, l);
    PutKeepsOtherConstraints(db, l);
  }

  /**
   * Past all six checks the filtered unique index never rejects the insert:
   * the page then fails only when the save fails or a column overflows.
   */
  lemma SelfCreateFailsOnlyOnSave(db: Db, form: Form, sub: Option<string>, parse: string -> Option<ParsedUri>,
                                  bytes: seq<byte>, now: Time, version: RowVersion, saveOk: bool)
    requires Valid(db)
    requires |bytes| == GeneratedLength
    requires form.targetUrl.Some?
    requires forall c :: !Fails(c, db, form, sub, parse, bytes)
    ensures var r := TryNormalizeUrl(form.targetUrl, parse);
      && r.Returns? && r.value.Some? && sub.Some?
      && var l := Entity(db, form, r.value.value, sub.value, ChosenCode(form, bytes), now, version);
         var t := OnPostAsWritten(db, form, sub, parse, bytes, now, version, saveOk);
         && (t.out == Returns(Created(l)) <==> saveOk && FitsColumns(l))
         && (t.out != Returns(Created(l)) ==> t.out == Throws(DbUpdate))
  {
    NoCheckFails(db, form, sub, parse, bytes);
    Passed(db, form, sub, parse, bytes);
    var u := TryNormalizeUrl(form.targetUrl, parse).value.value;
    SaveCreatedStores(db, Entity(db, form, u, sub.value, ChosenCode(form, bytes), now, version), saveOk);
  }


  /** The page's data annotations: `[Url, Required, StringLength(2048)]` on the target and `[StringLength(16)]` on the code. */
  predicate FormValid(form: Form) {
    && Required(form.targetUrl)
    && LengthAtMost(form.targetUrl, MaxTargetUrl)
    && UrlAttribute(form.targetUrl)
    && LengthAtMost(form.customCode, MaxCustomCode)
  }

  /**
   * A custom code of seventeen safe characters passes every check of the
   * chain, although `[StringLength(16)]` declares it invalid, and the save then
   * throws even when everything else about the row is acceptable.
   */
  lemma LongCustomCodeThrows(db: Db, form: Form, sub: Option<string>, parse: string -> Option<ParsedUri>,
                             bytes: seq<byte>, now: Time, version: RowVersion)
    requires Valid(db)
    requires |bytes| == GeneratedLength
    requires form.customCode.Some? && |form.customCode.value| == MaxCode + 1 && IsCodeSafe(form.customCode.value)
    requires !IsReserved(db.reserved, form.customCode.value) && !LiveCodeInUse(db.links, form.customCode.value)
    requires TryNormalizeUrl(form.targetUrl, parse).Returns? && TryNormalizeUrl(form.targetUrl, parse).value.Some?
    requires sub.Some? && !Blank(sub.value)
    requires !WindowRejected(form.activeFrom, form.activeTo)
    ensures !FormValid(form)
    ensures OnPostAsWritten(db, form, sub, parse, bytes, now, version, true).out == Throws(DbUpdate)
  {
    var c := form.customCode.value;
    assert !IsWhiteSpace(c[0]) && !IsWhiteSpace(c[|c| - 1]);
    TrimOfTrimmed(c);
    LowerOfLower(c);
    assert !Blank(c);
    assert ChosenCode(form, bytes) == c;
    NoCheckFails(db, form, sub, parse, bytes);
    assert FirstFailure(db, form, sub, parse, bytes).None?;
    var l := Entity(db, form, TryNormalizeUrl(form.targetUrl, parse).value.value, sub.value, c, now, version);
    assert !FitsColumns(l);
    SaveCreatedStores(db, l, true);
  }

  /** A form posted with an empty target binds it as null, which the as-written chain dereferences. */
  lemma NullTargetThrows(db: Db, form: Form, sub: Option<string>, parse: string -> Option<ParsedUri>,
                         bytes: seq<byte>, now: Time, version: RowVersion, saveOk: bool)
    requires Valid(db)
    requires |bytes| == GeneratedLength
    requires form.targetUrl.None?
    ensures !FormValid(form)
    ensures OnPostAsWritten(db, form, sub, parse, bytes, now, version, saveOk).out == Throws(NullReference)
    ensures OnPost(db, form, sub, parse, bytes, now, version, saveOk).out == Returns(InvalidForm)
  {
  }

  /**
   * `OnPostAsync` with the evident intent: the data annotations checked first,
   * as every other page of the application does. An invalid form shows the page
   * again; a valid one runs the chain above, which then never dereferences null
   * and never stores a code longer than its column.
   */
  function OnPost(db: Db, form: Form, sub: Option<string>, parse: string -> Option<ParsedUri>,
                  bytes: seq<byte>, now: Time, version: RowVersion, saveOk: bool)
    : (t: Transition<Call<Outcome>>)
    requires Valid(db)
    requires |bytes| == GeneratedLength
    ensures t.out == Returns(InvalidForm) <==> !FormValid(form)
    ensures !FormValid(form) ==> t.db == db
    ensures FormValid(form) ==> t == OnPostAsWritten(db, form, sub, parse, bytes, now, version, saveOk)
    ensures t.out.Throws? ==> t.out.error == DbUpdate && |ChosenCode(form, bytes)| <= MaxCode
    ensures Valid(t.db)
  {
    if !FormValid(form) then Transition(Returns(InvalidForm), db)
    else
      assert |ChosenCode(form, bytes)| <= MaxCode;
      OnPostAsWritten(db, form, sub, parse, bytes, now, version, saveOk)
  }
}
