/**
 * The pagination widget: the page count, the list of items it renders
 * (previous, an optional first page and ellipsis, a window of numbered pages,
 * an optional ellipsis and last page, next), and the route values every link
 * carries.
 */
module Pagination {
  import opened Wrappers
  import opened Text
  import opened Numbers

  /**
   * `(int)Math.Ceiling((double)TotalCount / Math.Max(1, PageSize))`: for
   * operands of `int` width the quotient's fraction is never lost, so this is
   * the exact ceiling.
   */
  function TotalPages(totalCount: int, pageSize: int): (r: int)
    ensures Max(1, pageSize) * (r - 1) < totalCount <= Max(1, pageSize) * r
  {
    var d := Max(1, pageSize);
    var q := (-totalCount) / d;
    assert d * q <= -totalCount < d * q + d;
    -q
  }

  datatype Label = Previous | Next | Number(n: int)

  datatype Item =
    | PageLink(caption: Label, target: int, active: bool, disabled: bool)
    | Ellipsis

  /** The numbered items `lo..hi`; only the current page is active. */
  function WindowItems(lo: int, hi: int, pageNo: int): (r: seq<Item>)
    decreases hi - lo
    ensures |r| == Max(0, hi - lo + 1)
    ensures forall k | 0 <= k < |r| ::
      r[k] == PageLink(Number(lo + k), lo + k, lo + k == pageNo, false)
  {
    if lo > hi then [] else [PageLink(Number(lo), lo, lo == pageNo, false)] + WindowItems(lo + 1, hi, pageNo)
  }

  /** What `Process` renders, in its parts; `Items` flattens it in rendering order. */
  datatype Bar = Bar(previous: Item, first: seq<Item>, window: seq<Item>, last: seq<Item>, next: Item)
  {
    function Items(): seq<Item> {
      [previous] + first + window + last + [next]
    }
  }

  /**
   * The bar for the current page, given the two bounds the widget compares
   * against: `low` stands for `PageNo - Window` and `high` for `PageNo + Window`.
   */
  function BarOf(pageNo: int, total: int, low: int, high: int): Bar {
    Bar(
      PageLink(Previous, if pageNo > 1 then pageNo - 1 else 1, false, pageNo == 1),
      if low > 1 then [PageLink(Number(1), 1, false, false), Ellipsis] else [],
      WindowItems(Max(1, low), Min(total, high), pageNo),
      if high < total then [Ellipsis, PageLink(Number(total), total, false, false)] else [],
      PageLink(Next, if pageNo < total then pageNo + 1 else total, false, pageNo == total))
  }

  /**
   * `Process` with the window bounds taken as true sums: nothing when there is
   * at most one page, the bar otherwise.
   */
  function Process(pageNo: int, pageSize: int, totalCount: int, window: int): (r: Option<Bar>)
    ensures r.None? <==> TotalPages(totalCount, pageSize) <= 1
    ensures r.Some? ==>
      var total := TotalPages(totalCount, pageSize);
      && r.value.previous == PageLink(Previous, if pageNo > 1 then pageNo - 1 else 1, false, pageNo == 1)
      && r.value.next == PageLink(Next, if pageNo < total then pageNo + 1 else total, false, pageNo == total)
      && (r.value.first != [] <==> pageNo - window > 1)
      && (r.value.first != [] ==> r.value.first == [PageLink(Number(1), 1, false, false), Ellipsis])
      && (r.value.last != [] <==> pageNo + window < total)
      && (r.value.last != [] ==> r.value.last == [Ellipsis, PageLink(Number(total), total, false, false)])
      && |r.value.window| == Max(0, Min(total, pageNo + window) - Max(1, pageNo - window) + 1)
      && forall k | 0 <= k < |r.value.window| ::
           var n := Max(1, pageNo - window) + k;
           r.value.window[k] == PageLink(Number(n), n, n == pageNo, false)
  {
    var total := TotalPages(totalCount, pageSize);
    if total <= 1 then None else Some(BarOf(pageNo, total, pageNo - window, pageNo + window))
  }

  /**
   * `Process` as the tag helper computes it: `PageNo - Window` and
   * `PageNo + Window` are unchecked `int` sums. While both sums fit in an `int`
   * it is `Process`; past `int.MaxValue` the upper bound wraps negative, the
   * window is empty and the trailing ellipsis and last page appear.
   */
  function ProcessAsWritten(pageNo: int, pageSize: int, totalCount: int, window: int): (r: Option<Bar>)
    ensures r.None? <==> TotalPages(totalCount, pageSize) <= 1
    ensures -TwoTo31 <= pageNo - window < TwoTo31 && -TwoTo31 <= pageNo + window < TwoTo31 ==>
      r == Process(pageNo, pageSize, totalCount, window)
    ensures r.Some? ==>
      var total := TotalPages(totalCount, pageSize);
      && (r.value.first != [] <==> Int32(pageNo - window) > 1)
      && (r.value.last != [] <==> Int32(pageNo + window) < total)
      && (Int32(pageNo + window) < 1 ==> r.value.window == [])
  {
    var total := TotalPages(totalCount, pageSize);
    if total <= 1 then None else Some(BarOf(pageNo, total, Int32(pageNo - window), Int32(pageNo + window)))
  }

  /**
   * On the last `int` page with the default window of 2 and five pages in all,
   * the wrapped sum puts "…" and page 5 after an empty window, where the true
   * sum shows neither.
   */
  lemma WrappedSumShowsLastPage()
    ensures ProcessAsWritten(2147483647, 20, 100, 2).Some?
    ensures ProcessAsWritten(2147483647, 20, 100, 2).value.window == []
    ensures ProcessAsWritten(2147483647, 20, 100, 2).value.last == [Ellipsis, PageLink(Number(5), 5, false, false)]
    ensures Process(2147483647, 20, 100, 2).value.last == []
  {
    assert TotalPages(100, 20) == 5;
    assert Int32(2147483647 + 2) == -2147483647;
  }

  /**
   * For a current page inside `1..total`, every link targets a page inside
   * `1..total`, and exactly one item is active: the current page, in the window.
   */
  lemma LinksStayInRange(pageNo: int, pageSize: int, totalCount: int, window: int)
    requires Process(pageNo, pageSize, totalCount, window).Some?
    requires 1 <= pageNo <= TotalPages(totalCount, pageSize)
    ensures var items := Process(pageNo, pageSize, totalCount, window).value.Items();
      && (forall k | 0 <= k < |items| && items[k].PageLink? ::
            1 <= items[k].target <= TotalPages(totalCount, pageSize))
      && (forall j, k | 0 <= j < |items| && 0 <= k < |items| && items[j].PageLink? && items[k].PageLink?
            && items[j].active && items[k].active :: j == k)
      && (0 <= window ==>
            exists k | 0 <= k < |items| :: items[k].PageLink? && items[k].active && items[k].target == pageNo)
  {
    var bar := Process(pageNo, pageSize, totalCount, window).value;
    var items := bar.Items();
    var total := TotalPages(totalCount, pageSize);
    var lo := Max(1, pageNo - window);
    var f := |bar.first|;
    var w := |bar.window|;
    assert |items| == 1 + f + w + |bar.last| + 1;
    forall k | 0 <= k < |items|
      ensures items[k].PageLink? ==> 1 <= items[k].target <= total
      ensures items[k].PageLink? && items[k].active ==> 1 + f <= k < 1 + f + w && items[k].target == lo + (k - 1 - f)
    {
      if k == 0 {
        assert items[k] == bar.previous;
      } else if k < 1 + f {
        assert items[k] == bar.first[k - 1];
      } else if k < 1 + f + w {
        assert items[k] == bar.window[k - 1 - f];
      } else if k < 1 + f + w + |bar.last| {
        assert items[k] == bar.last[k - 1 - f - w];
      } else {
        assert items[k] == bar.next;
      }
    }
    if 0 <= window {
      var k := 1 + f + (pageNo - lo);
      assert items[k] == bar.window[pageNo - lo];
    }
  }

  /** A route value: the caller's text, or a page number or size set by the widget. */
  datatype RouteValue = Text(text: Option<string>) | Int(n: int)

  type Route = seq<(string, RouteValue)>

  /** No two keys of the route are equal ignoring case. */
  predicate DistinctKeys(r: Route) {
    forall i, j | 0 <= i < j < |r| :: !EqualsIgnoreCase(r[i].0, r[j].0)
  }

  /** The value stored under `key` (compared ignoring case), if any. */
  function Lookup(r: Route, key: string): Option<RouteValue> {
    if |r| == 0 then None
    else if EqualsIgnoreCase(r[0].0, key) then Some(r[0].1)
    else Lookup(r[1..], key)
  }

  /** The first value the caller gave for `key` under a non-blank key, if any. */
  function FirstValue(values: seq<(string, Option<string>)>, key: string): Option<Option<string>> {
    if |values| == 0 then None
    else if !Blank(values[0].0) && EqualsIgnoreCase(values[0].0, key) then Some(values[0].1)
    else FirstValue(values[1..], key)
  }

  lemma {:induction false} LookupIn(r: Route, key: string)
    ensures Lookup(r, key).None? <==> forall i | 0 <= i < |r| :: !EqualsIgnoreCase(r[i].0, key)
  {
    if |r| > 0 {
      LookupIn(r[1..], key);
      assert forall i | 1 <= i < |r| :: r[i] == r[1..][i - 1];
    }
  }

  /** Appending an entry whose key is new leaves every other lookup alone. */
  lemma {:induction false} LookupAppend(r: Route, e: (string, RouteValue), key: string)
    ensures Lookup(r + [e], key) == if Lookup(r, key).Some? then Lookup(r, key)
                                    else if EqualsIgnoreCase(e.0, key) then Some(e.1) else None
  {
    if |r| > 0 {
      assert (r + [e])[1..] == r[1..] + [e];
      LookupAppend(r[1..], e, key);
    }
  }

  /**
   * The dictionary indexer `route[key] = value` on a case-insensitive
   * dictionary: an existing key keeps its spelling and takes the new value,
   * a new key is appended.
   */
  function Set(r: Route, key: string, value: RouteValue): (s: Route)
    requires DistinctKeys(r)
    ensures DistinctKeys(s)
    ensures Lookup(s, key) == Some(value)
    ensures forall k :: !EqualsIgnoreCase(k, key) ==> Lookup(s, k) == Lookup(r, k)
  {
    if |r| == 0 then [(key, value)]
    else if EqualsIgnoreCase(r[0].0, key) then
      var s := [(r[0].0, value)] + r[1..];
      assert forall k :: !EqualsIgnoreCase(k, key) ==> Lookup(s, k) == Lookup(r, k) by {
        forall k | !EqualsIgnoreCase(k, key) ensures Lookup(s, k) == Lookup(r, k) {
          assert s[1..] == r[1..];
        }
      }
      assert forall i | 1 <= i < |s| :: s[i] == r[i];
      s
    else
      assert forall i, j | 1 <= i < j < |r| :: r[1..][i - 1] == r[i] && r[1..][j - 1] == r[j];
      var t := Set(r[1..], key, value);
      var s := [r[0]] + t;
      assert s[1..] == t;
      forall j | 0 < j < |s| ensures !EqualsIgnoreCase(s[0].0, s[j].0) {
        var k := s[j].0;
        LookupIn(t, k);
        assert Lookup(t, k).Some?;
        if EqualsIgnoreCase(k, key) {
          assert !EqualsIgnoreCase(r[0].0, k);
        } else {
          assert Lookup(r[1..], k).Some?;
          LookupIn(r[1..], k);
          var i :| 0 <= i < |r[1..]| && EqualsIgnoreCase(r[1..][i].0, k);
          assert r[1..][i] == r[i + 1];
        }
      }
      s
  }

  function AsText(v: Option<Option<string>>): Option<RouteValue> {
    match v
    case None => None
    case Some(t) => Some(Text(t))
  }

  /** What `k` finds after copying `values` behind `acc`: the entry already in `acc`, else the caller's first. */
  function Merged(acc: Route, values: seq<(string, Option<string>)>, k: string): Option<RouteValue> {
    if Lookup(acc, k).Some? then Lookup(acc, k) else AsText(FirstValue(values, k))
  }

  /** The copy loop: a blank key is dropped, and a key already present (ignoring case) keeps its first value. */
  function Collect(values: seq<(string, Option<string>)>, acc: Route): (r: Route)
    requires DistinctKeys(acc)
    ensures DistinctKeys(r)
    ensures forall k :: Lookup(r, k) == Merged(acc, values, k)
  {
    if |values| == 0 then acc
    else
      var (key, v) := values[0];
      if Blank(key) || Lookup(acc, key).Some? then
        var r := Collect(values[1..], acc);
        assert forall k :: Lookup(r, k) == Merged(acc, values, k) by {
          forall k ensures Lookup(r, k) == Merged(acc, values, k) {
            if !Blank(key) && EqualsIgnoreCase(key, k) {
              EqualsIgnoreCaseLookup(acc, key, k);
            }
          }
        }
        r
      else
        var acc' := acc + [(key, Text(v))];
        LookupIn(acc, key);
        assert DistinctKeys(acc') by {
          forall i, j | 0 <= i < j < |acc'| ensures !EqualsIgnoreCase(acc'[i].0, acc'[j].0) {
            if j == |acc| {
              assert acc'[i] == acc[i];
            }
          }
        }
        var r := Collect(values[1..], acc');
        forall k ensures Lookup(r, k) == Merged(acc, values, k) {
          LookupAppend(acc, (key, Text(v)), k);
        }
        r
  }

  /** Keys equal ignoring case find the same entry. */
  lemma {:induction false} EqualsIgnoreCaseLookup(r: Route, a: string, b: string)
    requires EqualsIgnoreCase(a, b)
    ensures Lookup(r, a) == Lookup(r, b)
  {
    if |r| > 0 {
      EqualsIgnoreCaseLookup(r[1..], a, b);
    }
  }

  const PageNoKey: string := "PageNo"
  const PageSizeKey: string := "PageSize"

  /**
   * The route of one page link: the caller's values (first non-blank spelling
   * of each key wins), then `PageNo` and `PageSize` always set by the widget.
   */
  function LinkRoute(values: seq<(string, Option<string>)>, pageNo: int, pageSize: int): (r: Route)
    ensures DistinctKeys(r)
    ensures Lookup(r, PageNoKey) == Some(Int(pageNo))
    ensures Lookup(r, PageSizeKey) == Some(Int(pageSize))
    ensures forall k :: !EqualsIgnoreCase(k, PageNoKey) && !EqualsIgnoreCase(k, PageSizeKey) ==>
      Lookup(r, k) == AsText(FirstValue(values, k))
  {
    var c := Collect(values, []);
    Set(Set(c, PageNoKey, Int(pageNo)), PageSizeKey, Int(pageSize))
  }
}
