/**
 * What the list pages share: the page-size and page-number clamps, skip/take
 * paging, the case-insensitive substring filters, the day-granular creation
 * window, the `OrderBy` switch with its fallback, and the blank-name labels.
 */
module Listing {
  import opened Wrappers
  import opened Text
  import opened Model
  import opened Numbers

  /** `ListingOptions`: the allowed page sizes and the size used otherwise. */
  datatype Options = Options(defaultPageSize: int, pageSizes: seq<int>)

  /** The requested size when it is one of the allowed sizes, else the fallback. */
  function PageSizeOf(requested: Option<int>, allowed: seq<int>, fallback: int): (r: int)
    ensures r in allowed || r == fallback
    ensures requested.Some? && requested.value in allowed ==> r == requested.value
    ensures !(requested.Some? && requested.value in allowed) ==> r == fallback
  {
    if requested.Some? && requested.value in allowed then requested.value else fallback
  }

  /** `Math.Max(1, PageNo ?? 1)`. */
  function PageNumberOf(requested: Option<int>): (r: int)
    ensures 1 <= r
    ensures requested.Some? && 1 <= requested.value ==> r == requested.value
  {
    Max(1, requested.GetOr(1))
  }

  /** `Skip(skip).Take(take)` on a sequence (LINQ semantics: non-positive counts skip or take nothing). */
  function Window<T>(rows: seq<T>, skip: int, take: int): (r: seq<T>)
    ensures |r| == Max(0, Min(take, |rows| - Max(0, skip)))
    ensures forall k | 0 <= k < |r| :: r[k] == rows[Max(0, skip) + k]
    ensures skip <= 0 ==> r == rows[..Min(Max(0, take), |rows|)]
  {
    var s := Min(Max(0, skip), |rows|);
    var e := Min(s + Max(0, take), |rows|);
    rows[s..e]
  }

  /** Page `pageNumber` of `pageSize` rows, the skip computed without overflow. */
  function PageRows<T>(rows: seq<T>, pageNumber: int, pageSize: int): (r: seq<T>)
    requires 1 <= pageNumber
    ensures |r| == Max(0, Min(pageSize, |rows| - Max(0, (pageNumber - 1) * pageSize)))
    ensures |r| <= Max(0, pageSize) && |r| <= |rows|
    ensures forall k | 0 <= k < |r| :: r[k] == rows[Max(0, (pageNumber - 1) * pageSize) + k]
    ensures forall k | 0 <= k < |r| :: r[k] in rows
    ensures pageNumber == 1 ==> r == rows[..Min(Max(0, pageSize), |rows|)]
  {
    Window(rows, (pageNumber - 1) * pageSize, pageSize)
  }

  /** With a positive size every row appears on exactly the page its index says, at the position its index says. */
  lemma PagesCoverRows<T>(rows: seq<T>, pageSize: int, i: int)
    requires 1 <= pageSize && 0 <= i < |rows|
    ensures 0 <= i / pageSize
    ensures var page := PageRows(rows, i / pageSize + 1, pageSize);
      i % pageSize < |page| && page[i % pageSize] == rows[i]
  {
    var p := i / pageSize;
    assert p * pageSize + i % pageSize == i;
    assert 0 <= p * pageSize by {
      assert 0 <= p;
    }
    var page := PageRows(rows, p + 1, pageSize);
    assert (p + 1 - 1) * pageSize == p * pageSize;
    assert i % pageSize < |page|;
  }

  /** With a positive size every row of the result is on some page: paging loses nothing. */
  lemma EveryRowOnSomePage<T>(rows: seq<T>, x: T, pageSize: int) returns (p: int)
    requires 1 <= pageSize && x in rows
    ensures 1 <= p && PageNumberOf(Some(p)) == p && x in PageRows(rows, p, pageSize)
  {
    var i :| 0 <= i < |rows| && rows[i] == x;
    PagesCoverRows(rows, pageSize, i);
    var q, m := i / pageSize, i % pageSize;
    var page := PageRows(rows, q + 1, pageSize);
    assert m < |page| && page[m] == x;
    p := q + 1;
  }

  /** The skip as the pages compute it: `(pageNumber - 1) * pageSize` in 32-bit `int`. */
  function SkipAsWritten(pageNumber: int, pageSize: int): (s: int)
    ensures -TwoTo31 <= (pageNumber - 1) * pageSize < TwoTo31 ==> s == (pageNumber - 1) * pageSize
  {
    Int32((pageNumber - 1) * pageSize)
  }

  /** The query as written: a negative (wrapped) skip becomes a negative OFFSET, which the server refuses. */
  function PageRowsAsWritten<T>(rows: seq<T>, pageNumber: int, pageSize: int): (r: Call<seq<T>>)
    requires 1 <= pageNumber
    ensures r.Throws? <==> SkipAsWritten(pageNumber, pageSize) < 0
    ensures r.Throws? ==> r.error == Sql
    ensures 0 <= pageSize && (pageNumber - 1) * pageSize < TwoTo31 ==> r == Returns(PageRows(rows, pageNumber, pageSize))
  {
    var skip := SkipAsWritten(pageNumber, pageSize);
    if skip < 0 then Throws(Sql)
    else
      assert 0 <= pageSize && (pageNumber - 1) * pageSize < TwoTo31 ==> skip == (pageNumber - 1) * pageSize by {
        if 0 <= pageSize {
          assert 0 <= (pageNumber - 1) * pageSize;
        }
      }
      Returns(Window(rows, skip, pageSize))
  }

  /**
   * A page number far beyond the data wraps the skip negative: for page
   * 107374184 of 20 rows the query fails, where the evidently intended answer
   * is an empty page.
   */
  lemma HugePageNumberFails<T>(rows: seq<T>)
    requires |rows| < TwoTo31
    ensures PageRowsAsWritten(rows, 107374184, 20).Throws?
    ensures PageRows(rows, 107374184, 20) == []
  {
    assert (107374184 - 1) * 20 == 2147483660;
    assert SkipAsWritten(107374184, 20) == 2147483660 - TwoTo32;
  }

  /** The trimmed, lower-cased search text (`Trim().ToLowerInvariant()`). */
  function Needle(q: string): string {
    Lower(Trim(q))
  }

  /** `hay.ToLower().Contains(needle)`. */
  predicate HasText(hay: string, needle: string) {
    Contains(Lower(hay), needle)
  }

  /** The same on a nullable column: a null value never matches. */
  predicate OptHasText(hay: Option<string>, needle: string) {
    hay.Some? && HasText(hay.value, needle)
  }

  /** `DateTime.Date` on seconds: the start of the day `t` falls in. */
  function DayStart(t: Time): (r: Time)
    ensures r <= t < r + SecondsPerDay
    ensures r % SecondsPerDay == 0
  {
    t - t % SecondsPerDay
  }

  /** Two instants share a day exactly when they have the same day start. */
  lemma DayStartUnique(t: Time, d: Time)
    requires d % SecondsPerDay == 0 && d <= t < d + SecondsPerDay
    ensures DayStart(t) == d
  {
    var r := DayStart(t);
    var a := r / SecondsPerDay;
    var b := d / SecondsPerDay;
    assert r == SecondsPerDay * a && d == SecondsPerDay * b;
  }

  /** The `CreatedFrom` / `CreatedTo` filters: from the start of the first day to the end of the last. */
  predicate CreatedWithin(createdAt: Time, from: Option<Time>, to: Option<Time>) {
    && (from.None? || createdAt >= DayStart(from.value))
    && (to.None? || createdAt < DayStart(to.value) + SecondsPerDay)
  }

  /** The window is whole days: a creation time passes exactly when its day lies between the two named days. */
  lemma WholeDaysIncluded(createdAt: Time, from: Time, to: Time)
    ensures CreatedWithin(createdAt, Some(from), Some(to)) <==>
      DayStart(from) <= DayStart(createdAt) <= DayStart(to)
  {
    var c := DayStart(createdAt);
    var f := DayStart(from);
    var t := DayStart(to);
    if createdAt >= f {
      DayMonotone(f, createdAt);
    }
    if createdAt < t + SecondsPerDay {
      DayMonotone(createdAt, t + SecondsPerDay - 1);
      DayStartUnique(t + SecondsPerDay - 1, t);
    }
  }

  /** `DayStart` is monotone, and fixes day starts. */
  lemma DayMonotone(a: Time, b: Time)
    requires a <= b
    ensures DayStart(a) <= DayStart(b)
    ensures a % SecondsPerDay == 0 ==> DayStart(a) == a
  {
    if a % SecondsPerDay == 0 {
      DayStartUnique(a, a);
    }
    var x := DayStart(a) / SecondsPerDay;
    var y := DayStart(b) / SecondsPerDay;
    assert DayStart(a) == SecondsPerDay * x && DayStart(b) == SecondsPerDay * y;
  }

  /** The rows of `xs` that satisfy `p`, in their order. */
  function Filter<T>(xs: seq<T>, p: T -> bool): (r: seq<T>)
    ensures FilterFacts(xs, p, r)
    ensures |r| <= |xs|
    ensures forall k | 0 <= k < |r| :: p(r[k]) && r[k] in xs
    ensures forall k | 0 <= k < |xs| && p(xs[k]) :: xs[k] in r
    ensures multiset(r) <= multiset(xs)
  {
    if |xs| == 0 then []
    else
      var rest := Filter(xs[1..], p);
      var r := if p(xs[0]) then [xs[0]] + rest else rest;
      FilterStep(xs, p, rest, r);
      r
  }

  /** What `Filter` promises of its result `r`: bounded, drawn from `xs`, missing no row that satisfies `p`. */
  predicate FilterFacts<T(==)>(xs: seq<T>, p: T -> bool, r: seq<T>) {
    && |r| <= |xs|
    && (forall k | 0 <= k < |r| :: p(r[k]) && r[k] in xs)
    && (forall k | 0 <= k < |xs| && p(xs[k]) :: xs[k] in r)
    && multiset(r) <= multiset(xs)
  }

  /** One step of `Filter`: the facts about the tail's result carry over to the whole. */
  lemma FilterStep<T>(xs: seq<T>, p: T -> bool, rest: seq<T>, r: seq<T>)
    requires |xs| > 0 && FilterFacts(xs[1..], p, rest)
    requires r == if p(xs[0]) then [xs[0]] + rest else rest
    ensures FilterFacts(xs, p, r)
  {
    var tail := xs[1..];
    assert xs == [xs[0]] + tail;
    assert multiset(xs) == multiset{xs[0]} + multiset(tail);
    forall k | 0 <= k < |r| ensures p(r[k]) && r[k] in xs {
      if p(xs[0]) && k == 0 {
        assert r[k] == xs[0];
      } else {
        var j := if p(xs[0]) then k - 1 else k;
        assert r[k] == rest[j];
        assert rest[j] in tail;
      }
    }
    forall k | 0 <= k < |xs| && p(xs[k]) ensures xs[k] in r {
      if k > 0 {
        assert xs[k] == tail[k - 1];
      }
    }
  }

  /**
   * Filtering keeps the input's order: it distributes over concatenation, and
   * a single row is kept exactly when it satisfies `p`.
   */
  lemma {:induction false} FilterConcat<T>(a: seq<T>, b: seq<T>, p: T -> bool)
    decreases |a|
    ensures Filter(a + b, p) == Filter(a, p) + Filter(b, p)
    ensures |a| == 1 ==> Filter(a, p) == if p(a[0]) then a else []
  {
    if |a| == 0 {
      assert a + b == b;
    } else {
      var ab := a + b;
      var head: seq<T> := if p(a[0]) then [a[0]] else [];
      assert ab[0] == a[0] && ab[1..] == a[1..] + b;
      FilterConcat(a[1..], b, p);
      assert Filter(ab, p) == head + Filter(ab[1..], p);
      assert Filter(a, p) == head + Filter(a[1..], p);
    }
  }

  /** A name, or the label shown when it is blank. */
  function NameOr(name: Option<string>, shown: string): (r: string)
    ensures NullOrBlank(name) ==> r == shown
    ensures !NullOrBlank(name) ==> r == name.value
  {
    BlankToNull(name).GetOr(shown)
  }

  /** No element occurs twice. */
  predicate Distinct<T(==)>(xs: seq<T>) {
    forall i, j | 0 <= i < j < |xs| :: xs[i] != xs[j]
  }

  /** `xs` lists each element of `s` once and nothing else: a query result in some order. */
  predicate Enumerates<T(==)>(xs: seq<T>, s: set<T>) {
    Distinct(xs) && (forall x | x in xs :: x in s) && (forall x | x in s :: x in xs)
  }

  /** `CountAsync` of a query equals the number of rows it enumerates. */
  lemma {:induction false} EnumerationCount<T>(xs: seq<T>, s: set<T>)
    requires Enumerates(xs, s)
    ensures |xs| == |s|
  {
    if |xs| != 0 {
      var rest := xs[1..];
      var s' := s - {xs[0]};
      forall x ensures x in rest <==> x in s' {
        if x in rest {
          var k :| 0 <= k < |rest| && rest[k] == x;
          assert xs[k + 1] == x;
        }
        if x in s' {
          assert x in xs;
          var k :| 0 <= k < |xs| && xs[k] == x;
          assert k != 0;
          assert rest[k - 1] == x;
        }
      }
      assert Distinct(rest) by {
        forall i, j | 0 <= i < j < |rest| ensures rest[i] != rest[j] {
          assert rest[i] == xs[i + 1] && rest[j] == xs[j + 1];
        }
      }
      EnumerationCount(rest, s');
    }
  }

  /** A subset of the matched rows is no larger than they are. */
  lemma SubsetCard<T>(a: set<T>, b: set<T>)
    requires a <= b
    ensures |a| <= |b|
  {
    assert b == a + (b - a);
  }

  /** One rendered page of a list: the count before paging, the clamped paging, the rows. */
  datatype Listing<T> = Listing(totalCount: int, pageNo: int, pageSize: int, rows: seq<T>)

  /**
   * Counting and paging a query result `ordered` (the rows the database
   * returns for the query, in its ordering), with the page clamps of the list
   * pages. The count is taken before paging; the rows are one page of it.
   */
  function Present<T>(ordered: seq<T>, pageNo: Option<int>, pageSize: Option<int>,
                      allowed: seq<int>, fallback: int): (l: Listing<T>)
    ensures l.totalCount == |ordered|
    ensures l.pageNo == PageNumberOf(pageNo) && l.pageSize == PageSizeOf(pageSize, allowed, fallback)
    ensures l.rows == PageRows(ordered, l.pageNo, l.pageSize)
  {
    var no := PageNumberOf(pageNo);
    var size := PageSizeOf(pageSize, allowed, fallback);
    Listing(|ordered|, no, size, PageRows(ordered, no, size))
  }

  /** The scheme and host of the current request. */
  datatype Request = Request(scheme: string, host: string)

  /** `{Scheme}://{Host}`. */
  function BaseUrl(req: Request): string {
    req.scheme + "://" + req.host
  }

  /**
   * The short-URL preview of the detail pages: the generator's answer, or the
   * request's base and the code when the generator throws.
   */
  function Preview(generated: Call<string>, code: string, req: Request): (r: string)
    ensures generated.Returns? ==> r == generated.value
    ensures generated.Throws? ==> r == BaseUrl(req) + "/" + code
  {
    match generated
    case Returns(url) => url
    case Throws(_) => BaseUrl(req) + "/" + code
  }

  /** A status message left for the next page (`SuccessMessage` / `FailureMessage`). */
  datatype Notice = Success(text: string) | Failure(text: string)

  /** The two state changes the list and detail pages offer on a link. */
  datatype Action = SoftDelete | Restore

  const LinkNotFound: string := "Odkaz nenalezen."

  /** The message after the action succeeded. */
  function Done(a: Action): string {
    match a
    case SoftDelete => "Odkaz byl označen jako smazaný."
    case Restore => "Odkaz byl obnoven."
  }

  /** The message after the action failed. */
  function NotDone(a: Action): string {
    match a
    case SoftDelete => "Soft mazání se nepodařilo."
    case Restore => "Obnovení se nepodařilo."
  }

  /** `Math.Clamp(HitsPageSize ?? 20, 5, 200)`. */
  function HitsPageSizeOf(requested: Option<int>): (r: int)
    ensures 5 <= r <= 200
    ensures requested.Some? && 5 <= requested.value <= 200 ==> r == requested.value
    ensures requested.None? ==> r == 20
  {
    Clamp(requested.GetOr(20), 5, 200)
  }

  /** The hits recorded for one link, in stored order. */
  function HitsOf(hits: seq<LinkHit>, linkId: int): (r: seq<LinkHit>)
    ensures forall k | 0 <= k < |r| :: r[k].linkId == linkId && r[k] in hits
    ensures forall k | 0 <= k < |hits| && hits[k].linkId == linkId :: hits[k] in r
  {
    Filter(hits, (h: LinkHit) => h.linkId == linkId)
  }

  /** `OrderByDescending(h => h.AtUtc)`: newest first. */
  predicate NewestFirst(hits: seq<LinkHit>) {
    forall i, j | 0 <= i < j < |hits| :: hits[i].atUtc >= hits[j].atUtc
  }

  /** A page cut out of a newest-first list is newest-first too. */
  lemma PageOfNewestFirst(hits: seq<LinkHit>, pageNumber: int, pageSize: int)
    requires 1 <= pageNumber && NewestFirst(hits)
    ensures NewestFirst(PageRows(hits, pageNumber, pageSize))
  {
    var r := PageRows(hits, pageNumber, pageSize);
    var base := Max(0, (pageNumber - 1) * pageSize);
    forall i, j | 0 <= i < j < |r| ensures r[i].atUtc >= r[j].atUtc {
      assert r[i] == hits[base + i] && r[j] == hits[base + j];
    }
  }

  /** One page of a link's hits, newest first, with the count of all its hits. */
  datatype HitsView = HitsView(page: int, pageSize: int, total: int, hits: seq<LinkHit>)

  /**
   * The hits section of both detail pages. `ordered` is the database's
   * newest-first ordering of the link's hits.
   */
  function HitsSection(allHits: seq<LinkHit>, linkId: int, ordered: seq<LinkHit>,
                       hitsPage: Option<int>, hitsPageSize: Option<int>): (v: HitsView)
    requires multiset(ordered) == multiset(HitsOf(allHits, linkId)) && NewestFirst(ordered)
    ensures v.page == PageNumberOf(hitsPage) && v.pageSize == HitsPageSizeOf(hitsPageSize)
    ensures v.total == |HitsOf(allHits, linkId)|
    ensures |v.hits| <= v.pageSize
    ensures forall k | 0 <= k < |v.hits| :: v.hits[k].linkId == linkId && v.hits[k] in allHits
    ensures NewestFirst(v.hits)
    ensures v.hits == PageRows(ordered, v.page, v.pageSize)
    ensures v.page == 1 ==> v.hits == ordered[..Min(v.pageSize, |ordered|)]
  {
    var page := PageNumberOf(hitsPage);
    var size := HitsPageSizeOf(hitsPageSize);
    var hits := PageRows(ordered, page, size);
    assert |ordered| == |HitsOf(allHits, linkId)| by {
      assert |multiset(ordered)| == |multiset(HitsOf(allHits, linkId))|;
    }
    forall k | 0 <= k < |hits| ensures hits[k].linkId == linkId && hits[k] in allHits {
      assert hits[k] in multiset(HitsOf(allHits, linkId));
    }
    PageOfNewestFirst(ordered, page, size);
    assert page == 1 ==> hits == ordered[..Min(size, |ordered|)];
    HitsView(page, size, |ordered|, hits)
  }

  /** Every recorded hit of the link is shown on some page of the hits section. */
  lemma EveryHitOnSomePage(allHits: seq<LinkHit>, linkId: int, ordered: seq<LinkHit>,
                           hitsPageSize: Option<int>, h: LinkHit) returns (p: int)
    requires multiset(ordered) == multiset(HitsOf(allHits, linkId)) && NewestFirst(ordered)
    requires h in allHits && h.linkId == linkId
    ensures 1 <= p && h in HitsSection(allHits, linkId, ordered, Some(p), hitsPageSize).hits
  {
    var k :| 0 <= k < |allHits| && allHits[k] == h;
    assert h in HitsOf(allHits, linkId);
    assert h in multiset(ordered);
    p := EveryRowOnSomePage(ordered, h, HitsPageSizeOf(hitsPageSize));
  }
}
