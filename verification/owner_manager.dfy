/**
 * The owner registry, keyed by the identity provider's subject: an idempotent
 * ensure on sign-in, a conditional profile refresh, and guarded create,
 * update and delete.
 */
module OwnerManager {
  import opened Wrappers
  import opened Text
  import opened Model
  import opened Store

  /** The claims of the signed-in principal the registry reads. */
  datatype Claims = Claims(nameIdentifier: Option<string>, name: Option<string>, email: Option<string>)

  const UnknownName: string := "(unknown)"

  /** `FromClaims`: the new owner's display name falls back to "(unknown)"; its e-mail stays null when absent. */
  function FromClaims(claims: Claims, sub: string, now: Time): (o: Owner)
    ensures o.sub == sub && o.updatedAt == now
    ensures o.displayName.Some?
    ensures claims.name.Some? ==> o.displayName == claims.name
    ensures claims.name.None? ==> o.displayName == Some(UnknownName)
    ensures o.email == claims.email
    ensures o.givenName.None? && o.familyName.None?
  {
    Owner(sub, Some(claims.name.GetOr(UnknownName)), claims.email, None, None, now)
  }

  /** Writes `o` under its subject; the save succeeds when it is not failed and the columns fit. */
  function PutOwner(db: Db, o: Owner, saveOk: bool): (r: Option<Db>)
    requires Valid(db)
    ensures r.Some? <==> saveOk && OwnerFitsColumns(o)
    ensures r.Some? ==> r.value == db.(owners := db.owners[o.sub := o]) && Valid(r.value)
  {
    var db' := db.(owners := db.owners[o.sub := o]);
    assert db'.owners[o.sub] == o;
    assert OwnerFitsColumns(o) ==> Accepts(db') by {
      if OwnerFitsColumns(o) {
        forall s | s in db'.owners ensures OwnerFitsColumns(db'.owners[s]) {
          if s != o.sub {
            assert db'.owners[s] == db.owners[s];
          }
        }
      }
    }
    if saveOk && Accepts(db') then Some(db') else None
  }

  /**
   * `EnsureOwnerAsync`: throws without a NameIdentifier claim; an existing
   * owner is left untouched; an absent one is inserted once, from the claims.
   * A failed insert propagates.
   */
  function EnsureOwner(db: Db, claims: Claims, now: Time, saveOk: bool): (t: Transition<Call<string>>)
    requires Valid(db)
    ensures claims.nameIdentifier.None? ==> t.out == Throws(InvalidOperation)
    ensures t.out.Returns? <==>
      && claims.nameIdentifier.Some?
      && (claims.nameIdentifier.value in db.owners || (saveOk && OwnerFitsColumns(FromClaims(claims, claims.nameIdentifier.value, now))))
    ensures t.out.Returns? ==> t.out.value == claims.nameIdentifier.value
    ensures t.out.Throws? ==> t.db == db
    ensures claims.nameIdentifier.Some? && claims.nameIdentifier.value in db.owners ==> t.db == db
    ensures t.db != db ==>
      && claims.nameIdentifier.Some? && claims.nameIdentifier.value !in db.owners
      && t.db == db.(owners := db.owners[claims.nameIdentifier.value := FromClaims(claims, claims.nameIdentifier.value, now)])
    ensures t.out.Returns? ==> t.out.value in t.db.owners
    ensures Valid(t.db)
  {
    match claims.nameIdentifier
    case None => Transition(Throws(InvalidOperation), db)
    case Some(sub) =>
      if sub in db.owners then Transition(Returns(sub), db)
      else
        match PutOwner(db, FromClaims(claims, sub, now), saveOk)
        case Some(db') => Transition(Returns(sub), db')
        case None => Transition(Throws(DbUpdate), db)
  }

  /** Ensuring twice is ensuring once: the second call finds the owner and changes nothing. */
  lemma EnsureOwnerIdempotent(db: Db, claims: Claims, now1: Time, now2: Time, save1: bool, save2: bool)
    requires Valid(db)
    requires EnsureOwner(db, claims, now1, save1).out.Returns?
    ensures var t1 := EnsureOwner(db, claims, now1, save1);
      var t2 := EnsureOwner(t1.db, claims, now2, save2);
      t2 == Transition(t1.out, t1.db)
  {
  }

  /**
   * The refreshed profile: a name or e-mail claim replaces the stored value
   * only when it is not blank and differs.
   */
  function Refreshed(o: Owner, claims: Claims): (r: Owner)
    ensures r.sub == o.sub && r.givenName == o.givenName && r.familyName == o.familyName && r.updatedAt == o.updatedAt
    ensures r.displayName == (if !NullOrBlank(claims.name) && claims.name != o.displayName then claims.name else o.displayName)
    ensures r.email == (if !NullOrBlank(claims.email) && claims.email != o.email then claims.email else o.email)
  {
    var dn := if !NullOrBlank(claims.name) && claims.name != o.displayName then claims.name else o.displayName;
    var em := if !NullOrBlank(claims.email) && claims.email != o.email then claims.email else o.email;
    o.(displayName := dn, email := em)
  }

  /** Refreshing an owner whose profile already matches the claims changes nothing, so no save is issued. */
  lemma RefreshIsIdempotent(o: Owner, claims: Claims)
    ensures Refreshed(Refreshed(o, claims), claims) == Refreshed(o, claims)
  {
  }

  /**
   * `UpsertFromClaimsAsync`. Without the NameIdentifier claim it throws. An
   * absent owner is inserted from the claims. With `refreshProfile` off an
   * existing owner is returned as stored; with it on the profile is refreshed
   * and saved only when something changed. A failed save propagates.
   */
  function UpsertFromClaims(db: Db, claims: Claims, refreshProfile: bool, now: Time, saveOk: bool)
    : (t: Transition<Call<Owner>>)
    requires Valid(db)
    ensures claims.nameIdentifier.None? ==> t.out == Throws(InvalidOperation)
    ensures t.out.Throws? ==> t.db == db
    ensures t.out.Returns? ==>
      && claims.nameIdentifier.Some? && t.out.value.sub == claims.nameIdentifier.value
      && t.db.owners == db.owners[t.out.value.sub := t.out.value]
    ensures claims.nameIdentifier.Some? && claims.nameIdentifier.value in db.owners && !refreshProfile ==>
      t == Transition(Returns(db.owners[claims.nameIdentifier.value]), db)
    ensures claims.nameIdentifier.Some? && claims.nameIdentifier.value in db.owners && refreshProfile ==>
      var stored := db.owners[claims.nameIdentifier.value];
      && (Refreshed(stored, claims) == stored ==> t == Transition(Returns(stored), db))
      && (t.out.Returns? ==> t.out.value == Refreshed(stored, claims))
    ensures claims.nameIdentifier.Some? && claims.nameIdentifier.value !in db.owners && t.out.Returns? ==>
      t.out.value == FromClaims(claims, claims.nameIdentifier.value, now)
    ensures t.db.links == db.links && t.db.hits == db.hits
    ensures Valid(t.db)
  {
    match claims.nameIdentifier
    case None => Transition(Throws(InvalidOperation), db)
    case Some(sub) =>
      if sub !in db.owners then
        var o := FromClaims(claims, sub, now);
        match PutOwner(db, o, saveOk)
        case Some(db') => Transition(Returns(o), db')
        case None => Transition(Throws(DbUpdate), db)
      else
        var stored := db.owners[sub];
        if !refreshProfile then Transition(Returns(stored), db)
        else
          var o := Refreshed(stored, claims);
          if o == stored then Transition(Returns(stored), db)
          else
            match PutOwner(db, o, saveOk)
            case Some(db') => Transition(Returns(o), db')
            case None => Transition(Throws(DbUpdate), db)
  }

  /**
   * `CreateAsync(Owner)`: a null entity, a blank subject and a duplicate
   * subject each throw with the registry unchanged; a failed save returns null.
   */
  function Create(db: Db, entity: Option<Owner>, saveOk: bool): (t: Transition<Call<Option<Owner>>>)
    requires Valid(db)
    ensures entity.None? ==> t.out == Throws(ArgumentNull)
    ensures entity.Some? && Blank(entity.value.sub) ==> t.out == Throws(Argument)
    ensures entity.Some? && !Blank(entity.value.sub) && entity.value.sub in db.owners ==> t.out == Throws(InvalidOperation)
    ensures t.out.Throws? <==> entity.None? || Blank(entity.value.sub) || entity.value.sub in db.owners
    ensures t.out.Returns? && t.out.value.Some? <==>
      entity.Some? && !Blank(entity.value.sub) && entity.value.sub !in db.owners && saveOk && OwnerFitsColumns(entity.value)
    ensures t.out.Returns? && t.out.value.Some? ==> t.out.value == entity && t.db == db.(owners := db.owners[entity.value.sub := entity.value])
    ensures !(t.out.Returns? && t.out.value.Some?) ==> t.db == db
    ensures Valid(t.db)
  {
    match entity
    case None => Transition(Throws(ArgumentNull), db)
    case Some(o) =>
      if Blank(o.sub) then Transition(Throws(Argument), db)
      else if o.sub in db.owners then Transition(Throws(InvalidOperation), db)
      else
        match PutOwner(db, o, saveOk)
        case Some(db') => Transition(Returns(Some(o)), db')
        case None => Transition(Returns(None), db)
  }

  /**
   * `UpdateAsync(Owner)`: a null entity throws `ArgumentNullException`; a blank
   * or unknown subject throws `ArgumentException`; otherwise the stored owner is
   * replaced, or null is returned when the save fails.
   */
  function Update(db: Db, entity: Option<Owner>, saveOk: bool): (t: Transition<Call<Option<Owner>>>)
    requires Valid(db)
    ensures entity.None? ==> t.out == Throws(ArgumentNull)
    ensures entity.Some? && (Blank(entity.value.sub) || entity.value.sub !in db.owners) ==> t.out == Throws(Argument)
    ensures t.out.Throws? <==> entity.None? || Blank(entity.value.sub) || entity.value.sub !in db.owners
    ensures t.out.Returns? && t.out.value.Some? <==>
      entity.Some? && !Blank(entity.value.sub) && entity.value.sub in db.owners && saveOk && OwnerFitsColumns(entity.value)
    ensures t.out.Returns? && t.out.value.Some? ==> t.out.value == entity && t.db == db.(owners := db.owners[entity.value.sub := entity.value])
    ensures !(t.out.Returns? && t.out.value.Some?) ==> t.db == db
    ensures Valid(t.db)
  {
    match entity
    case None => Transition(Throws(ArgumentNull), db)
    case Some(o) =>
      if Blank(o.sub) || o.sub !in db.owners then Transition(Throws(Argument), db)
      else
        match PutOwner(db, o, saveOk)
        case Some(db') => Transition(Returns(Some(o)), db')
        case None => Transition(Returns(None), db)
  }

  /**
   * A successful update is what a later lookup of the subject finds, it leaves
   * every other owner and every link alone, and updating back with the owner
   * it replaced restores the store.
   */
  lemma UpdateThenRestore(db: Db, o: Owner)
    requires Valid(db)
    requires Update(db, Some(o), true).out == Returns(Some(o))
    ensures var t := Update(db, Some(o), true);
      && o.sub in db.owners && t.db.owners[o.sub] == o
      && (forall s | s in db.owners && s != o.sub :: s in t.db.owners && t.db.owners[s] == db.owners[s])
      && t.db.links == db.links && t.db.hits == db.hits
      && Update(t.db, Some(db.owners[o.sub]), true) == Transition(Returns(Some(db.owners[o.sub])), db)
  {
    var t := Update(db, Some(o), true);
    var prior := db.owners[o.sub];
    assert prior.sub == o.sub;
    assert t.db.owners[o.sub := prior] == db.owners;
  }

  /** The ids of every stored link of `sub`, soft-deleted ones included. */
  function OwnedLinkIds(db: Db, sub: string): (ids: set<int>)
    ensures forall id :: id in ids <==> id in db.links && db.links[id].ownerSub == sub
  {
    set id | id in db.links && db.links[id].ownerSub == sub
  }

  /**
   * `DeleteAsync(Owner)`: a null entity throws; removing an owner that is not
   * stored affects no row, which the save reports as a failure, so false. The
   * foreign key from `Link.OwnerSub` cascades: the owner's links go with it,
   * and with them (through the hit cascade) their hits.
   */
  function Delete(db: Db, entity: Option<Owner>, saveOk: bool): (t: Transition<Call<bool>>)
    requires Valid(db)
    ensures entity.None? <==> t.out == Throws(ArgumentNull)
    ensures t.out.Throws? ==> t.out.error == ArgumentNull
    ensures t.out == Returns(true) <==> entity.Some? && entity.value.sub in db.owners && saveOk
    ensures t.out == Returns(true) ==>
      var sub := entity.value.sub;
      && t.db.owners == db.owners - {sub}
      && (forall id :: id in t.db.links <==> id in db.links && db.links[id].ownerSub != sub)
      && (forall id | id in t.db.links :: t.db.links[id] == db.links[id])
      && (forall k | 0 <= k < |t.db.hits| :: t.db.hits[k] in db.hits && t.db.hits[k].linkId in t.db.links)
      && (forall k | 0 <= k < |db.hits| && db.hits[k].linkId in t.db.links :: db.hits[k] in t.db.hits)
      && t.db.reserved == db.reserved && t.db.nextLinkId == db.nextLinkId
    ensures t.out != Returns(true) ==> t.db == db
    ensures Valid(t.db)
  {
    match entity
    case None => Transition(Throws(ArgumentNull), db)
    case Some(o) =>
      if o.sub in db.owners && saveOk then
        var owned := OwnedLinkIds(db, o.sub);
        RemoveLinksKeepsValid(db, owned);
        var db' := RemoveLinks(db, owned);
        Transition(Returns(true), db'.(owners := db'.owners - {o.sub}))
      else Transition(Returns(false), db)
  }

  /**
   * Creating an owner and deleting it again restores the store, when no link
   * refers to the new subject (the foreign key on `Link.OwnerSub` allows none
   * for an owner that was not stored): the cascade then removes nothing.
   */
  lemma CreateThenDeleteRestores(db: Db, o: Owner)
    requires Valid(db)
    requires !Blank(o.sub) && o.sub !in db.owners && OwnerFitsColumns(o)
    requires forall id | id in db.links :: db.links[id].ownerSub != o.sub
    ensures var t1 := Create(db, Some(o), true);
      t1.out == Returns(Some(o)) && Delete(t1.db, Some(o), true).db == db
  {
    var t1 := Create(db, Some(o), true);
    assert t1.db.owners - {o.sub} == db.owners;
    assert t1.db.links == db.links;
    forall id ensures id !in OwnedLinkIds(t1.db, o.sub) {
    }
    assert OwnedLinkIds(t1.db, o.sub) == {};
    assert t1.db.links - {} == db.links;
    HitsOutsideNothing(db.hits);
  }

  /** Removing no link keeps every hit. */
  lemma {:induction false} HitsOutsideNothing(hits: seq<LinkHit>)
    ensures HitsOutside(hits, {}) == hits
  {
    if |hits| != 0 {
      HitsOutsideNothing(hits[1..]);
      assert hits == [hits[0]] + hits[1..];
    }
  }
}
