/**
 * The link service: create, update and hard-delete transitions on the store,
 * random code generation and the two-argument short-URL builder.
 */
module LinkManager {
  import opened Wrappers
  import opened Text
  import opened Model
  import opened Store

  /** The character at position `k` of "a..z", "A..Z", "0..9" concatenated. */
  function AlphabetChar(k: int): char
    requires 0 <= k < 62
  {
    if k < 26 then ('a' as int + k) as char
    else if k < 52 then ('A' as int + (k - 26)) as char
    else ('0' as int + (k - 52)) as char
  }

  /** The 62-symbol alphabet of random codes. */
  function CodeAlphabet(): (a: string)
    ensures |a| == 62
    ensures forall k | 0 <= k < |a| :: InCodeAlphabet(a[k])
  {
    seq(62, k requires 0 <= k < 62 => AlphabetChar(k))
  }


  const RandomCodeLength: nat := 6

  predicate InCodeAlphabet(c: char) {
    IsAsciiLetter(c) || IsAsciiDigit(c)
  }

  predicate IsDraw(d: seq<int>) {
    |d| == RandomCodeLength && forall i | 0 <= i < |d| :: 0 <= d[i] < |CodeAlphabet()|
  }

  /** Six results of `random.Next(62)`, one per character. */
  type Draw = d: seq<int> | IsDraw(d) witness [0, 0, 0, 0, 0, 0]

  function CodeOf(d: Draw): (c: string)
    ensures |c| == RandomCodeLength
    ensures forall i | 0 <= i < |c| :: c[i] == CodeAlphabet()[d[i]] && InCodeAlphabet(c[i])
  {
    seq(6, i requires 0 <= i < 6 => CodeAlphabet()[d[i]])
  }

  /** What the generator promises: six alphabet characters that no stored link uses. */
  predicate GeneratedCode(links: map<int, Link>, c: string) {
    && |c| == RandomCodeLength
    && (forall i | 0 <= i < |c| :: InCodeAlphabet(c[i]))
    && !CodeInUse(links, c)
  }

  /**
   * `GenerateRandomCode` on a finite prefix `draws` of the random stream: the
   * first drawn code no stored link uses, or `None` when the prefix holds none
   * (the service would keep drawing).
   */
  function GenerateRandomCode(links: map<int, Link>, draws: seq<Draw>): (r: Option<string>)
    ensures r.Some? ==> GeneratedCode(links, r.value)
    ensures r.Some? ==> exists k | 0 <= k < |draws| ::
      && r.value == CodeOf(draws[k])
      && forall j | 0 <= j < k :: CodeInUse(links, CodeOf(draws[j]))
    ensures r.None? <==> forall k | 0 <= k < |draws| :: CodeInUse(links, CodeOf(draws[k]))
  {
    if |draws| == 0 then None
    else
      var c := CodeOf(draws[0]);
      if CodeInUse(links, c) then
        var r := GenerateRandomCode(links, draws[1..]);
        assert forall k | 1 <= k < |draws| :: draws[k] == draws[1..][k - 1];
        r
      else
        Some(c)
  }

  /**
   * `GenerateUniqueCode`: draws through `GenerateRandomCode` and re-checks the
   * store; the re-check never rejects, so it yields the same code.
   */
  function GenerateUniqueCode(links: map<int, Link>, draws: seq<Draw>): (r: Option<string>)
    ensures r == GenerateRandomCode(links, draws)
    ensures r.Some? ==> GeneratedCode(links, r.value)
  {
    match GenerateRandomCode(links, draws)
    case None => None
    case Some(c) => if CodeInUse(links, c) then assert false; None else Some(c)
  }

  /**
   * `GenerateShortUrl(code, baseUrl)`: throws on a blank base, otherwise the
   * base without its trailing slashes, one slash, and the code.
   */
  function GenerateShortUrl(code: string, baseUrl: Option<string>): (r: Call<string>)
    ensures r.Throws? <==> NullOrBlank(baseUrl)
    ensures r.Throws? ==> r.error == Argument
    ensures r.Returns? ==> |code| + 1 <= |r.value|
    ensures r.Returns? ==>
      var base := r.value[..|r.value| - |code| - 1];
      && r.value[|base|..] == "/" + code
      && StripsTrailing(baseUrl.value, '/', base)
  {
    if NullOrBlank(baseUrl) then Throws(Argument)
    else
      var base := TrimEndChar(baseUrl.value, '/');
      var url := base + "/" + code;
      assert url[..|url| - |code| - 1] == base;
      Returns(url)
  }

  /** `GetByIdAsync`: a key lookup that also finds soft-deleted links. */
  function GetById(db: Db, id: int): (r: Option<Link>)
    ensures r.Some? <==> id in db.links
    ensures r.Some? ==> r.value == db.links[id]
  {
    if id in db.links then Some(db.links[id]) else None
  }

  /** The row `CreateAsync` inserts: the entity under the next identity value, with its final code and a new token. */
  function Inserted(db: Db, entity: Link, code: string, version: RowVersion): Link {
    entity.(id := db.nextLinkId, code := code, rowVersion := Some(version))
  }

  /** The code a create or update stores: a generated one when the entity's code is blank. */
  function ChosenCode(entity: Link, generated: string): string {
    if Blank(entity.code) then generated else entity.code
  }

  /**
   * `CreateAsync`. A blank code is replaced by a generated one; an explicit
   * code already used by any stored link (any domain, deleted or not) throws.
   * The insert is kept only when the save succeeds and the database accepts it;
   * a failed save returns `null` and leaves the store as it was.
   */
  function CreateAsync(db: Db, entity: Link, generated: string, version: RowVersion, saveOk: bool)
    : (t: Transition<Call<Option<Link>>>)
    requires Valid(db)
    requires Blank(entity.code) ==> GeneratedCode(db.links, generated)
    ensures t.out.Throws? <==> !Blank(entity.code) && CodeInUse(db.links, entity.code)
    ensures t.out.Throws? ==> t.out.error == Argument
    ensures !(t.out.Returns? && t.out.value.Some?) ==> t.db == db
    ensures t.out.Returns? && t.out.value.Some? ==>
      var l := t.out.value.value;
      && l.id == db.nextLinkId && l.id !in db.links
      && l.code == ChosenCode(entity, generated)
      && !CodeHeldByOther(db.links, l.code, l.id)
      && l == entity.(id := l.id, code := l.code, rowVersion := Some(version))
      && t.db == AddLink(db, l)
    ensures Valid(t.db)
  {
    if !Blank(entity.code) && CodeInUse(db.links, entity.code) then
      Transition(Throws(Argument), db)
    else
      var l := Inserted(db, entity, ChosenCode(entity, generated), version);
      var db' := AddLink(db, l);
      if saveOk && Accepts(db') then Transition(Returns(Some(l)), db')
      else Transition(Returns(None), db)
  }

  /**
   * After the pre-check the unique index never rejects the insert: a create that
   * gets past the duplicate check fails only when the save itself fails or a
   * column overflows.
   */
  lemma CreateFailsOnlyOnSave(db: Db, entity: Link, generated: string, version: RowVersion, saveOk: bool)
    requires Valid(db)
    requires Blank(entity.code) ==> GeneratedCode(db.links, generated)
    requires !(!Blank(entity.code) && CodeInUse(db.links, entity.code))
    ensures var t := CreateAsync(db, entity, generated, version, saveOk);
      t.out.Returns? && (t.out.value.Some? <==>
        saveOk && FitsColumns(Inserted(db, entity, ChosenCode(entity, generated), version)))
  {
    var l := Inserted(db, entity, ChosenCode(entity, generated), version);
    assert !CodeInUse(db.links, l.code);
    GlobalCodeCheckKeepsLiveUnique(db.links, l);
    PutKeepsOtherConstraints(db, l);
  }

  /** The row `UpdateAsync` writes: the whole entity replaces the stored one. */
  function Replacement(entity: Link, code: string, version: RowVersion): Link {
    entity.(code := code, rowVersion := Some(version))
  }

  /**
   * `UpdateAsync`. Throws when no stored link has the entity's id, or when an
   * explicit code is held by another link (any domain, deleted or not); keeping
   * its own code is allowed. A blank code is replaced by a generated one. The
   * entity replaces the stored row when the save succeeds; otherwise `null` and
   * no change.
   */
  function UpdateAsync(db: Db, entity: Link, generated: string, version: RowVersion, saveOk: bool)
    : (t: Transition<Call<Option<Link>>>)
    requires Valid(db)
    requires Blank(entity.code) ==> GeneratedCode(db.links, generated)
    ensures t.out.Throws? <==>
      entity.id !in db.links || (!Blank(entity.code) && CodeHeldByOther(db.links, entity.code, entity.id))
    ensures t.out.Throws? ==> t.out.error == Argument
    ensures !(t.out.Returns? && t.out.value.Some?) ==> t.db == db
    ensures t.out.Returns? && t.out.value.Some? ==>
      var l := t.out.value.value;
      && l.id == entity.id && l.id in db.links
      && l.code == ChosenCode(entity, generated)
      && !CodeHeldByOther(db.links, l.code, l.id)
      && l == entity.(code := l.code, rowVersion := Some(version))
      && t.db == db.(links := db.links[l.id := l])
    ensures Valid(t.db)
  {
    if entity.id !in db.links then Transition(Throws(Argument), db)
    else if !Blank(entity.code) && CodeHeldByOther(db.links, entity.code, entity.id) then
      Transition(Throws(Argument), db)
    else
      var l := Replacement(entity, ChosenCode(entity, generated), version);
      var db' := db.(links := db.links[l.id := l]);
      if saveOk && Accepts(db') then Transition(Returns(Some(l)), db')
      else Transition(Returns(None), db)
  }

  /**
   * `UpdateAsync` on a context that already tracks another instance with the
   * entity's key (`tracksOther`), as after a `FindAsync` of the same id. The
   * pre-checks run as before; then `Update`, which is outside the try, refuses
   * to track a second instance with that key and throws
   * `InvalidOperationException` before anything is saved.
   */
  function UpdateAsyncTracking(db: Db, entity: Link, tracksOther: bool, generated: string,
                               version: RowVersion, saveOk: bool): (t: Transition<Call<Option<Link>>>)
    requires Valid(db)
    requires Blank(entity.code) ==> GeneratedCode(db.links, generated)
    ensures !tracksOther ==> t == UpdateAsync(db, entity, generated, version, saveOk)
    ensures tracksOther ==> t.db == db && t.out.Throws?
    ensures tracksOther ==> (t.out.error == Argument <==> UpdateAsync(db, entity, generated, version, saveOk).out.Throws?)
    ensures tracksOther && UpdateAsync(db, entity, generated, version, saveOk).out.Returns? ==>
      t.out == Throws(InvalidOperation)
  {
    if !tracksOther then UpdateAsync(db, entity, generated, version, saveOk)
    else if entity.id !in db.links then Transition(Throws(Argument), db)
    else if !Blank(entity.code) && CodeHeldByOther(db.links, entity.code, entity.id) then
      Transition(Throws(Argument), db)
    else Transition(Throws(InvalidOperation), db)
  }

  /** As for create: past its pre-checks an update fails only on the save or a column overflow. */
  lemma UpdateFailsOnlyOnSave(db: Db, entity: Link, generated: string, version: RowVersion, saveOk: bool)
    requires Valid(db)
    requires entity.id in db.links
    requires Blank(entity.code) ==> GeneratedCode(db.links, generated)
    requires !(!Blank(entity.code) && CodeHeldByOther(db.links, entity.code, entity.id))
    ensures var t := UpdateAsync(db, entity, generated, version, saveOk);
      t.out.Returns? && (t.out.value.Some? <==>
        saveOk && FitsColumns(Replacement(entity, ChosenCode(entity, generated), version)))
  {
    var l := Replacement(entity, ChosenCode(entity, generated), version);
    GlobalCodeCheckKeepsLiveUnique(db.links, l);
    PutKeepsOtherConstraints(db, l);
  }

  /**
   * `DeleteAsync`: removes the row and, through the cascade, its hits. A failed
   * save (a row already gone included) returns false and changes nothing.
   */
  function DeleteAsync(db: Db, entity: Link, saveOk: bool): (t: Transition<bool>)
    requires Valid(db)
    ensures t.out <==> saveOk && entity.id in db.links
    ensures t.out ==> t.db.links == db.links - {entity.id}
    ensures t.out ==> forall k | 0 <= k < |t.db.hits| :: t.db.hits[k].linkId != entity.id
    ensures t.out ==> forall k | 0 <= k < |db.hits| && db.hits[k].linkId != entity.id :: db.hits[k] in t.db.hits
    ensures !t.out ==> t.db == db
    ensures Valid(t.db)
  {
    if saveOk && entity.id in db.links then
      RemoveLinksKeepsValid(db, {entity.id});
      Transition(true, RemoveLinks(db, {entity.id}))
    else
      Transition(false, db)
  }
}
