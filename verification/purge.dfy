/**
 * The retention purge of the periodic background task: on every tick, links
 * soft-deleted more than `DaysBeforeDeletion` days ago are deleted for good
 * (their hits go with them through the cascade). A failing tick is logged and
 * the next one tries again.
 */
module Purge {
  import opened Wrappers
  import opened Model
  import opened Store

  /** `PeriodicTasksOptions`: the timer period and the retention in days. */
  datatype Options = Options(seconds: int, daysBeforeDeletion: int)

  /** The defaults: one tick an hour, thirty days of retention. */
  function Defaults(): (o: Options)
    ensures o.seconds == 60 * 60
    ensures forall now: Time :: Cutoff(now, o) == now - 30 * 24 * 60 * 60
  {
    Options(3600, 30)
  }

  /** `DateTime.UtcNow.AddDays(-DaysBeforeDeletion)`. */
  function Cutoff(now: Time, o: Options): Time {
    now - o.daysBeforeDeletion * SecondsPerDay
  }

  /** The purge filter: soft-deleted strictly before the cutoff. */
  predicate Expired(l: Link, cutoff: Time) {
    l.deletedAt.Some? && l.deletedAt.value < cutoff
  }

  function ExpiredIds(links: map<int, Link>, cutoff: Time): (ids: set<int>)
    ensures forall id | id in ids :: id in links && Expired(links[id], cutoff)
    ensures forall id | id in links && Expired(links[id], cutoff) :: id in ids
  {
    set id | id in links && Expired(links[id], cutoff)
  }

  /**
   * One timer tick at time `now`. `ok` is whether the bulk delete went
   * through; when it throws, the exception is logged and nothing changes.
   * The result is the number of rows deleted, `None` for a failed tick.
   */
  function Tick(db: Db, now: Time, o: Options, ok: bool): (t: Transition<Option<nat>>)
    requires Valid(db)
    ensures t.out.None? <==> !ok
    ensures !ok ==> t.db == db
    ensures forall id | id in db.links ::
      (id in t.db.links <==> !(ok && Expired(db.links[id], Cutoff(now, o))))
    ensures forall id | id in t.db.links :: id in db.links && t.db.links[id] == db.links[id]
    ensures forall id | id in db.links && db.links[id].Live() :: id in t.db.links
    ensures ok ==> t.out.value == |ExpiredIds(db.links, Cutoff(now, o))|
    ensures Valid(t.db)
  {
    if !ok then Transition(None, db)
    else
      var ids := ExpiredIds(db.links, Cutoff(now, o));
      RemoveLinksKeepsValid(db, ids);
      Transition(Some(|ids|), RemoveLinks(db, ids))
  }

  /** A link soft-deleted exactly at the cutoff survives the tick: the comparison is strict. */
  lemma DeletedAtCutoffSurvives(db: Db, now: Time, o: Options, id: int)
    requires Valid(db) && id in db.links
    requires db.links[id].deletedAt == Some(Cutoff(now, o))
    ensures id in Tick(db, now, o, true).db.links
    ensures !Expired(db.links[id], Cutoff(now, o))
  {
  }

  /** Keeping the hits of no removed link keeps them all. */
  lemma {:induction false} HitsOutsideNothing(hits: seq<LinkHit>)
    ensures HitsOutside(hits, {}) == hits
  {
    if |hits| > 0 {
      HitsOutsideNothing(hits[1..]);
      assert hits == [hits[0]] + hits[1..];
    }
  }

  /**
   * A second tick at the same moment finds nothing left to delete and changes
   * nothing, and a failed tick followed by a successful one ends where a single
   * successful one does: the purge is idempotent and a retry loses nothing.
   */
  lemma TickIsIdempotent(db: Db, now: Time, o: Options)
    requires Valid(db)
    ensures var once := Tick(db, now, o, true);
      && Tick(once.db, now, o, true).out == Some(0)
      && Tick(once.db, now, o, true).db == once.db
    ensures Tick(Tick(db, now, o, false).db, now, o, true) == Tick(db, now, o, true)
  {
    var once := Tick(db, now, o, true);
    var cutoff := Cutoff(now, o);
    assert ExpiredIds(once.db.links, cutoff) == {} by {
      forall id | id in once.db.links ensures !Expired(once.db.links[id], cutoff) {
        assert id in db.links && once.db.links[id] == db.links[id];
      }
    }
    HitsOutsideNothing(once.db.hits);
    assert once.db.links - {} == once.db.links;
  }
}
