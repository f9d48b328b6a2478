/**
 * The persisted state and the constraints the database itself enforces:
 * the `(Domain, Code)` unique index filtered to rows with `DeletedAt IS NULL`,
 * the cascade from a link to its hits, and the unique reserved codes.
 */
module Store {
  import opened Wrappers
  import opened Model

  /**
   * The four row sets. `nextLinkId` is the identity seed of the Links table:
   * every stored id lies below it, and it only grows.
   */
  datatype Db = Db(
    links: map<int, Link>,
    nextLinkId: int,
    hits: seq<LinkHit>,
    reserved: seq<ReservedCode>,
    owners: map<string, Owner>)

  /** What a call produced, and the persisted state after it. */
  datatype Transition<+T> = Transition(out: T, db: Db)

  /** Two links occupy the same slot of the unique index (`null == null` for the domain). */
  predicate SameSlot(a: Link, b: Link) {
    a.domain == b.domain && a.code == b.code
  }

  /** Whether `sub` owns the link stored under `id` (soft-deleted or not). */
  predicate Owns(db: Db, id: int, sub: string) {
    id in db.links && db.links[id].ownerSub == sub
  }

  /** The filtered unique index: no two live links share a `(Domain, Code)` pair. */
  predicate LiveUnique(links: map<int, Link>) {
    forall i, j | i in links && j in links && i != j && links[i].Live() && links[j].Live() ::
      !SameSlot(links[i], links[j])
  }

  /** Some stored link, whatever its domain or deletion state, has this code. */
  predicate CodeInUse(links: map<int, Link>, code: string) {
    exists id | id in links :: links[id].code == code
  }

  /** Some stored link other than `self`, whatever its domain or deletion state, has this code. */
  predicate CodeHeldByOther(links: map<int, Link>, code: string, self: int) {
    exists id | id in links && id != self :: links[id].code == code
  }

  /** Some live link, in any domain, has this code. */
  predicate LiveCodeInUse(links: map<int, Link>, code: string) {
    exists id | id in links :: links[id].Live() && links[id].code == code
  }

  /** Some live link other than `self` occupies the slot of `l`. */
  predicate LiveSlotTaken(links: map<int, Link>, l: Link, self: int) {
    exists id | id in links && id != self :: links[id].Live() && SameSlot(links[id], l)
  }

  /** The unique index on `ReservedCode.Code`. */
  predicate ReservedUnique(reserved: seq<ReservedCode>) {
    forall i, j | 0 <= i < j < |reserved| :: reserved[i].code != reserved[j].code
  }

  /** Exact-match membership in the reserved list. */
  predicate IsReserved(reserved: seq<ReservedCode>, code: string) {
    exists i | 0 <= i < |reserved| :: reserved[i].code == code
  }

  /** The foreign key from `LinkHit.LinkId` to `Link.Id`. */
  predicate HitsReferenceLinks(hits: seq<LinkHit>, links: map<int, Link>) {
    forall k | 0 <= k < |hits| :: hits[k].linkId in links
  }

  predicate AllLinksFit(links: map<int, Link>) {
    forall id | id in links :: FitsColumns(links[id])
  }

  /** The constraints a save is checked against by the database. */
  predicate Accepts(db: Db) {
    && LiveUnique(db.links)
    && AllLinksFit(db.links)
    && HitsReferenceLinks(db.hits, db.links)
    && (forall k | 0 <= k < |db.hits| :: HitFitsColumns(db.hits[k]))
    && ReservedUnique(db.reserved)
    && (forall i | 0 <= i < |db.reserved| :: ReservedFitsColumns(db.reserved[i]))
    && (forall s | s in db.owners :: OwnerFitsColumns(db.owners[s]))
  }

  /** A reachable persisted state: the database constraints plus consistent keys. */
  predicate Valid(db: Db) {
    && Accepts(db)
    && (forall id | id in db.links :: db.links[id].id == id && id < db.nextLinkId)
    && (forall s | s in db.owners :: db.owners[s].sub == s)
  }

  /** Storing `l` under its id keeps the index unique when no other live link holds its slot. */
  lemma PutKeepsLiveUnique(links: map<int, Link>, l: Link)
    requires LiveUnique(links)
    requires l.Live() ==> !LiveSlotTaken(links, l, l.id)
    ensures LiveUnique(links[l.id := l])
  {
    var m := links[l.id := l];
    forall i, j | i in m && j in m && i != j && m[i].Live() && m[j].Live()
      ensures !SameSlot(m[i], m[j])
    {
      if i == l.id {
        assert j in links && j != l.id && links[j].Live();
      } else if j == l.id {
        assert i in links && i != l.id && links[i].Live();
      }
    }
  }

  /**
   * The global pre-check of the link manager (no OTHER row, in any domain,
   * deleted or not, has the code) is stricter than the index, so it preserves it.
   */
  lemma GlobalCodeCheckKeepsLiveUnique(links: map<int, Link>, l: Link)
    requires LiveUnique(links)
    requires !CodeHeldByOther(links, l.code, l.id)
    ensures LiveUnique(links[l.id := l])
  {
    PutKeepsLiveUnique(links, l);
  }

  /** The live-only check of self-service creation also preserves the index. */
  lemma LiveCodeCheckKeepsLiveUnique(links: map<int, Link>, l: Link)
    requires LiveUnique(links)
    requires l.id !in links
    requires !LiveCodeInUse(links, l.code)
    ensures LiveUnique(links[l.id := l])
  {
    PutKeepsLiveUnique(links, l);
  }

  /** Soft-deleted rows are outside the index: one may share its slot with a live row. */
  lemma SoftDeletedAreExempt(a: Link, b: Link)
    requires a.id != b.id && SameSlot(a, b) && !b.Live()
    ensures LiveUnique(map[a.id := a, b.id := b])
  {
  }

  /** Two live rows in one slot are rejected, also when both domains are null. */
  lemma TwoLiveInOneSlotRejected(a: Link, b: Link)
    requires a.id != b.id && SameSlot(a, b) && a.Live() && b.Live()
    ensures !LiveUnique(map[a.id := a, b.id := b])
  {
    var m := map[a.id := a, b.id := b];
    assert a.id in m && b.id in m && m[a.id] == a && m[b.id] == b;
  }

  /** The hits whose link is not among `ids`, in their original order. */
  function HitsOutside(hits: seq<LinkHit>, ids: set<int>): (r: seq<LinkHit>)
    ensures |r| <= |hits|
    ensures forall k | 0 <= k < |r| :: r[k].linkId !in ids && r[k] in hits
    ensures forall k | 0 <= k < |hits| && hits[k].linkId !in ids :: hits[k] in r
  {
    if |hits| == 0 then []
    else
      var rest := HitsOutside(hits[1..], ids);
      assert forall k | 1 <= k < |hits| :: hits[k] == hits[1..][k - 1];
      if hits[0].linkId in ids then rest else [hits[0]] + rest
  }

  /** Hard-deletes the links with the given ids; the foreign key cascades to their hits. */
  function RemoveLinks(db: Db, ids: set<int>): (r: Db)
    ensures r.links == db.links - ids
    ensures r.hits == HitsOutside(db.hits, ids)
    ensures r.nextLinkId == db.nextLinkId && r.reserved == db.reserved && r.owners == db.owners
  {
    db.(links := db.links - ids, hits := HitsOutside(db.hits, ids))
  }

  /** Deleting links (with the cascade) leaves a valid state valid, and no hit points at a removed link. */
  lemma RemoveLinksKeepsValid(db: Db, ids: set<int>)
    requires Valid(db)
    ensures Valid(RemoveLinks(db, ids))
    ensures forall k | 0 <= k < |RemoveLinks(db, ids).hits| :: RemoveLinks(db, ids).hits[k].linkId !in ids
  {
    var r := RemoveLinks(db, ids);
    forall k | 0 <= k < |r.hits|
      ensures r.hits[k].linkId in r.links && HitFitsColumns(r.hits[k])
    {
      var h := r.hits[k];
      var k' :| 0 <= k' < |db.hits| && db.hits[k'] == h;
    }
  }

  /** Inserts `l` under the next identity value. */
  function AddLink(db: Db, l: Link): (r: Db)
    requires l.id == db.nextLinkId
    ensures r.links == db.links[l.id := l] && r.nextLinkId == db.nextLinkId + 1
    ensures r.hits == db.hits && r.reserved == db.reserved && r.owners == db.owners
  {
    db.(links := db.links[l.id := l], nextLinkId := db.nextLinkId + 1)
  }

  /**
   * Once the unique index is kept, writing one row `l` is accepted exactly when
   * `l` fits its columns: the other constraints do not depend on the row.
   */
  lemma PutKeepsOtherConstraints(db: Db, l: Link)
    requires Valid(db)
    requires LiveUnique(db.links[l.id := l])
    ensures Accepts(db.(links := db.links[l.id := l])) <==> FitsColumns(l)
    ensures l.id == db.nextLinkId ==> (Accepts(AddLink(db, l)) <==> FitsColumns(l))
  {
    var m := db.links[l.id := l];
    assert m[l.id] == l;
    if FitsColumns(l) {
      forall id | id in m ensures FitsColumns(m[id]) {
        if id != l.id {
          assert m[id] == db.links[id];
        }
      }
    }
    forall k | 0 <= k < |db.hits| ensures db.hits[k].linkId in m {
      assert db.hits[k].linkId in db.links;
    }
  }
}
