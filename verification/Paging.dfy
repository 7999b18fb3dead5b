/** Pages of an ordered listing: slices by limit and offset, and the page counts beside them. */
module Paging {
  import opened Results
  import opened Machine

  // ----- slices and counts -----

  /** `LIMIT limit OFFSET offset`. */
  function Slice<T>(rows: seq<T>, limit: nat, offset: nat): seq<T> {
    if offset >= |rows| then [] else if offset + limit >= |rows| then rows[offset..] else rows[offset..offset + limit]
  }

  /** Both listings round the division up; the platform listing counts at least one page. */
  function PageCount(total: nat, limit: nat): nat
    requires limit > 0
  {
    (total + limit - 1) / limit
  }

  function PlatformPageCount(total: nat, limit: nat): nat
    requires limit > 0
  {
    if PageCount(total, limit) == 0 then 1 else PageCount(total, limit)
  }

  function PlatformPageNumber(offset: nat, limit: nat): nat
    requires limit > 0
  {
    offset / limit + 1
  }

  /** Where page `k` starts, pages counted from 0. */
  function Offset(k: nat, limit: nat): nat {
    if k == 0 then 0 else Offset(k - 1, limit) + limit
  }

  lemma {:induction false} OffsetIsProduct(k: nat, limit: nat)
    ensures Offset(k, limit) == k * limit
  {
    if k > 0 {
      OffsetIsProduct(k - 1, limit);
      assert k * limit == (k - 1) * limit + limit;
    }
  }

  /** The first `n` pages, one after another. */
  ghost function Concat<T>(page: nat -> seq<T>, n: nat): seq<T> {
    if n == 0 then [] else Concat(page, n - 1) + page(n - 1)
  }

  function SlicesOf<T>(rows: seq<T>, limit: nat): nat -> seq<T> {
    (k: nat) => Slice(rows, limit, Offset(k, limit))
  }

  /** The pages numbered from 1 to `n` of a listing. */
  ghost function Pages<T>(rows: seq<T>, limit: nat, n: nat): seq<T> {
    Concat(SlicesOf(rows, limit), n)
  }

  lemma SliceExtends<T>(rows: seq<T>, limit: nat, m: nat)
    ensures (if m <= |rows| then rows[..m] else rows) + Slice(rows, limit, m)
         == if m + limit <= |rows| then rows[..m + limit] else rows
  {
  }

  lemma {:induction false} SlicesArePrefix<T>(rows: seq<T>, limit: nat, page: nat -> seq<T>, n: nat)
    requires forall k: nat {:trigger page(k)} | k < n :: page(k) == Slice(rows, limit, Offset(k, limit))
    ensures Concat(page, n) == if Offset(n, limit) <= |rows| then rows[..Offset(n, limit)] else rows
  {
    if n > 0 {
      SlicesArePrefix(rows, limit, page, n - 1);
      SliceExtends(rows, limit, Offset(n - 1, limit));
      assert page(n - 1) == Slice(rows, limit, Offset(n - 1, limit));
    }
  }

  lemma PagesArePrefix<T>(rows: seq<T>, limit: nat, n: nat)
    ensures Pages(rows, limit, n) == if Offset(n, limit) <= |rows| then rows[..Offset(n, limit)] else rows
  {
    SlicesArePrefix(rows, limit, SlicesOf(rows, limit), n);
  }

  lemma Scaled(a: nat, b: nat, limit: nat)
    requires a <= b
    ensures a * limit <= b * limit
  {
  }

  lemma PageCountRoundsUp(total: nat, limit: nat)
    requires limit > 0
    ensures PageCount(total, limit) * limit >= total
    ensures PageCount(total, limit) > 0 ==> (PageCount(total, limit) - 1) * limit < total
  {
    var n := PageCount(total, limit);
    assert n * limit <= total + limit - 1 < n * limit + limit;
  }

  /** Page `n` starts past the end exactly when `n` pages have been counted. */
  lemma CountCovers(total: nat, limit: nat, n: nat)
    requires limit > 0
    ensures Offset(n, limit) >= total <==> n >= PageCount(total, limit)
  {
    var count := PageCount(total, limit);
    PageCountRoundsUp(total, limit);
    OffsetIsProduct(n, limit);
    if n >= count { Scaled(count, n, limit); } else { Scaled(n, count - 1, limit); }
  }

  /** The counted pages are the whole listing, in order, and no fewer pages are. */
  lemma CountedPagesAreTheListing<T>(rows: seq<T>, limit: nat, n: nat)
    requires limit > 0
    ensures Pages(rows, limit, n) == rows <==> n >= PageCount(|rows|, limit)
  {
    CountCovers(|rows|, limit, n);
    PagesArePrefix(rows, limit, n);
  }

  lemma Divides(k: nat, limit: nat)
    requires limit > 0
    ensures k * limit / limit == k
  {
    var q := k * limit / limit;
    var rest := k * limit - q * limit;
    assert 0 <= rest < limit;
    if q < k {
      Scaled(q + 1, k, limit);
    } else if q > k {
      Scaled(k + 1, q, limit);
    }
  }

  /** Page `k` of the platform listing reports its own number, within its count if it has rows. */
  lemma PageNumberIsItsPlace<T>(rows: seq<T>, limit: nat, k: nat)
    requires limit > 0
    ensures PlatformPageNumber(Offset(k, limit), limit) == k + 1
    ensures Slice(rows, limit, Offset(k, limit)) != [] <==> k + 1 <= PageCount(|rows|, limit)
  {
    OffsetIsProduct(k, limit);
    Divides(k, limit);
    CountCovers(|rows|, limit, k);
  }

  // ----- the limits clients may ask for -----

  /** `normalizePage`: zero means the default; anything else out of bounds is refused. */
  function NormalizePage(number: Int64, size: Int64): (r: Option<(Int64, Int64)>)
    ensures r.None? <==> number < 0 || size < 0 || size > 100
    ensures r.Some? ==>
              && r.value.0 == (if number == 0 then 1 else number)
              && r.value.1 == (if size == 0 then 20 else size)
              && r.value.0 >= 1 && 1 <= r.value.1 <= 100
  {
    var n, s: Int64 := if number == 0 then 1 else number, if size == 0 then 20 else size;
    if n < 1 || s < 1 || s > 100 then None else Some((n, s))
  }

  /** The offset of the call listing; numbers have an upper bound no check enforces. */
  function CallsOffset(number: Int64, size: Int64): Int64 {
    Wrap((number - 1) * size)
  }

  /** The offset of an accepted page is the right one exactly when its product does not overflow. */
  lemma OffsetIsRightExactly(number: Int64, size: Int64)
    requires NormalizePage(number, size).Some?
    ensures var (n, s) := NormalizePage(number, size).value;
            && (CallsOffset(n, s) == (n - 1) * s <==> (n - 1) * s <= MAX)
            && (n <= MAX / 100 ==> CallsOffset(n, s) == (n - 1) * s)
  {
    var (n, s) := NormalizePage(number, size).value;
    Scaled(0, n - 1, s);
    if n <= MAX / 100 {
      Scaled(s, 100, n - 1);
      assert (n - 1) * s <= (n - 1) * 100;
    }
  }

  /** The platform service clamps instead of refusing. */
  function ClampedLimit(limit: int): (r: int)
    ensures 1 <= r <= 100 && (1 <= limit <= 100 ==> r == limit)
  {
    if limit <= 0 then 50 else if limit > 100 then 100 else limit
  }

  /**
   Whatever limit a client of the platform asks for, the pages it announces are the
   listing, and only an empty listing has an empty page.
   */
  lemma PlatformPagesAreTheListing<T>(rows: seq<T>, asked: int, k: nat)
    requires k < PlatformPageCount(|rows|, ClampedLimit(asked))
    ensures var limit := ClampedLimit(asked);
            && Pages(rows, limit, PlatformPageCount(|rows|, limit)) == rows
            && (Slice(rows, limit, Offset(k, limit)) == [] <==> rows == [])
  {
    var limit := ClampedLimit(asked);
    CountedPagesAreTheListing(rows, limit, PlatformPageCount(|rows|, limit));
    CountCovers(|rows|, limit, k);
  }

  // ----- which listings are stable -----

  datatype Item = Item(created: nat, id: nat)

  /** Newest first; the platform listing breaks ties by ID. */
  predicate PlatformBefore(a: Item, b: Item) {
    a.created > b.created || (a.created == b.created && a.id <= b.id)
  }

  /** A workspace's call listing has no tie breaker. */
  predicate CallsBefore(a: Item, b: Item) {
    a.created >= b.created
  }

  ghost predicate Ordered<T(!new)>(rows: seq<T>, before: (T, T) -> bool) {
    forall i, j | 0 <= i < j < |rows| :: before(rows[i], rows[j])
  }

  ghost predicate Decisive<T(!new)>(rows: seq<T>, before: (T, T) -> bool) {
    forall x, y | x in rows && y in rows :: before(x, y) && before(y, x) ==> x == y
  }

  lemma FirstAgrees<T(!new)>(a: seq<T>, b: seq<T>, before: (T, T) -> bool)
    requires Ordered(a, before) && Ordered(b, before) && a != [] && b != [] && multiset(a) == multiset(b)
    requires Decisive(a, before)
    ensures a[0] == b[0]
  {
    assert a[0] in multiset(b) && b[0] in multiset(a);
    var j :| 0 <= j < |b| && b[j] == a[0];
    var i :| 0 <= i < |a| && a[i] == b[0];
  }

  lemma RestAgrees<T>(a: seq<T>, b: seq<T>)
    requires multiset(a) == multiset(b) && a != [] && b != [] && a[0] == b[0]
    ensures multiset(a[1..]) == multiset(b[1..])
  {
    assert a == [a[0]] + a[1..] && b == [a[0]] + b[1..];
    assert multiset(a[1..]) == multiset(a) - multiset{a[0]} == multiset(b[1..]);
  }

  /** Rows have one listing when no two different rows may stand in either order. */
  lemma {:induction false} OrderDecides<T(!new)>(a: seq<T>, b: seq<T>, before: (T, T) -> bool)
    requires Ordered(a, before) && Ordered(b, before) && multiset(a) == multiset(b)
    requires Decisive(a, before)
    ensures a == b
  {
    assert |a| == |multiset(a)| == |b|;
    if a != [] {
      FirstAgrees(a, b, before);
      RestAgrees(a, b);
      OrderDecides(a[1..], b[1..], before);
      assert a == [a[0]] + a[1..] && b == [b[0]] + b[1..];
    }
  }

  /** Every query of the platform listing sees the same order, so its pages fit together. */
  lemma PlatformPagesFit(a: seq<Item>, b: seq<Item>)
    requires Ordered(a, PlatformBefore) && Ordered(b, PlatformBefore) && multiset(a) == multiset(b)
    ensures a == b
  {
    OrderDecides(a, b, PlatformBefore);
  }

  // ----- exactly when the call listing's pages fit together -----

  /** An order the call listing may come in. */
  ghost predicate IsListing(order: seq<Item>, rows: seq<Item>) {
    multiset(order) == multiset(rows) && Ordered(order, CallsBefore)
  }

  /** Page after page, each taken from the order its own query happened to see. */
  function SlicesFrom(orders: nat -> seq<Item>, limit: nat): nat -> seq<Item> {
    (k: nat) => Slice(orders(k), limit, Offset(k, limit))
  }

  /** Between the rows before `m` and the rows from `m` on, the creation time drops. */
  ghost predicate DropsAt(rows: seq<Item>, m: nat) {
    0 < m < |rows| ==> rows[m - 1].created > rows[m].created
  }

  ghost predicate DropsAtBoundaries(rows: seq<Item>, limit: nat) {
    forall k: nat {:trigger DropsAt(rows, Offset(k, limit))} :: DropsAt(rows, Offset(k, limit))
  }

  /** Whatever orders the queries see, the pages together show every call exactly once. */
  ghost predicate PagesAlwaysFit(rows: seq<Item>, limit: nat)
    requires limit > 0
  {
    forall orders: nat -> seq<Item> | AllListings(orders, rows) ::
      multiset(Concat(SlicesFrom(orders, limit), PageCount(|rows|, limit))) == multiset(rows)
  }

  ghost predicate AllListings(orders: nat -> seq<Item>, rows: seq<Item>) {
    forall k: nat :: IsListing(orders(k), rows)
  }

  function Times(rows: seq<Item>): seq<nat> {
    seq(|rows|, i requires 0 <= i < |rows| => rows[i].created)
  }

  lemma {:induction false} TimesCount(a: seq<Item>, b: seq<Item>)
    requires multiset(a) == multiset(b)
    ensures multiset(Times(a)) == multiset(Times(b))
    decreases |a|
  {
    assert |a| == |multiset(a)| == |b|;
    if a != [] {
      assert a[0] in multiset(b);
      var j :| 0 <= j < |b| && b[j] == a[0];
      WithoutOne(a, 0);
      WithoutOne(b, j);
      assert a[..0] + a[1..] == a[1..];
      TimesCount(a[1..], b[..j] + b[j + 1..]);
    }
  }

  lemma WithoutOne(rows: seq<Item>, j: nat)
    requires j < |rows|
    ensures var rest := rows[..j] + rows[j + 1..];
            && multiset(rest) == multiset(rows) - multiset{rows[j]}
            && multiset(Times(rows)) == multiset(Times(rest)) + multiset{rows[j].created}
  {
    var rest := rows[..j] + rows[j + 1..];
    assert rows == rows[..j] + [rows[j]] + rows[j + 1..];
    assert Times(rows) == Times(rows[..j]) + [rows[j].created] + Times(rows[j + 1..]);
    assert Times(rest) == Times(rows[..j]) + Times(rows[j + 1..]);
  }

  /** All orders of one listing agree on the creation time at every place. */
  lemma SameTimes(order: seq<Item>, rows: seq<Item>)
    requires IsListing(order, rows) && IsListing(rows, rows)
    ensures |order| == |rows| && forall i | 0 <= i < |rows| :: order[i].created == rows[i].created
  {
    TimesCount(order, rows);
    var later := (a: nat, b: nat) => a >= b;
    assert Ordered(Times(order), later) && Ordered(Times(rows), later);
    OrderDecides(Times(order), Times(rows), later);
    forall i | 0 <= i < |rows| ensures order[i].created == rows[i].created {
      assert Times(order)[i] == Times(rows)[i];
    }
  }

  /** Up to a place where the time drops, all orders hold the same calls. */
  lemma SamePrefix(order: seq<Item>, rows: seq<Item>, m: nat)
    requires IsListing(order, rows) && IsListing(rows, rows) && m <= |rows| && DropsAt(rows, m)
    ensures |order| == |rows| && multiset(order[..m]) == multiset(rows[..m])
  {
    SameTimes(order, rows);
    if m == |rows| {
      assert order[..m] == order && rows[..m] == rows;
    } else if 0 < m {
      forall x: Item ensures multiset(order[..m])[x] == multiset(rows[..m])[x] {
        CountUpTo(order, m, x);
        CountUpTo(rows, m, x);
      }
    }
  }

  lemma CountUpTo(rows: seq<Item>, m: nat, x: Item)
    requires 0 < m < |rows| && Ordered(rows, CallsBefore) && rows[m - 1].created > rows[m].created
    ensures multiset(rows[..m])[x] == if x.created >= rows[m - 1].created then multiset(rows)[x] else 0
  {
    assert rows == rows[..m] + rows[m..];
    assert forall j | m < j < |rows| :: CallsBefore(rows[m], rows[j]);
    assert forall j | 0 <= j < m - 1 :: CallsBefore(rows[j], rows[m - 1]);
    if x.created >= rows[m - 1].created {
      assert x !in rows[m..];
    } else {
      assert x !in rows[..m];
    }
  }

  lemma {:induction false} PagesAddUp<T>(page: nat -> seq<T>, other: nat -> seq<T>, n: nat)
    requires forall k: nat | k < n :: multiset(page(k)) == multiset(other(k))
    ensures multiset(Concat(page, n)) == multiset(Concat(other, n))
  {
    if n > 0 {
      PagesAddUp(page, other, n - 1);
      assert multiset(page(n - 1)) == multiset(other(n - 1));
    }
  }

  lemma {:induction false} PagesFollow<T>(page: nat -> seq<T>, n: nat, all: nat, x: T)
    requires n <= all
    ensures multiset(Concat(page, all))[x] >= multiset(Concat(page, n))[x]
  {
    if n < all {
      PagesFollow(page, n, all - 1, x);
    }
  }

  /** With drops at the boundaries, every page holds the same calls in all orders. */
  lemma SamePage(order: seq<Item>, rows: seq<Item>, limit: nat, k: nat)
    requires IsListing(order, rows) && IsListing(rows, rows) && DropsAtBoundaries(rows, limit)
    ensures multiset(Slice(order, limit, Offset(k, limit))) == multiset(Slice(rows, limit, Offset(k, limit)))
  {
    var from, to := Offset(k, limit), Offset(k + 1, limit);
    assert DropsAt(rows, from) && DropsAt(rows, to) && to == from + limit;
    if to >= |rows| { to := |rows|; }
    SameTimes(order, rows);
    if from < |rows| {
      SameBetween(order, rows, from, to);
      assert Slice(order, limit, from) == order[from..to] && Slice(rows, limit, from) == rows[from..to];
    }
  }

  lemma SameBetween(order: seq<Item>, rows: seq<Item>, from: nat, to: nat)
    requires IsListing(order, rows) && IsListing(rows, rows) && from <= to <= |rows| == |order|
    requires DropsAt(rows, from) && DropsAt(rows, to)
    ensures multiset(order[from..to]) == multiset(rows[from..to])
  {
    SamePrefix(order, rows, from);
    SamePrefix(order, rows, to);
    SplitCounts(order, from, to);
    SplitCounts(rows, from, to);
  }

  lemma SplitCounts(rows: seq<Item>, from: nat, to: nat)
    requires from <= to <= |rows|
    ensures multiset(rows[from..to]) == multiset(rows[..to]) - multiset(rows[..from])
  {
    assert rows[..to] == rows[..from] + rows[from..to];
  }

  function Swapped(rows: seq<Item>, m: nat): seq<Item>
    requires 0 < m < |rows|
  {
    rows[..m - 1] + [rows[m], rows[m - 1]] + rows[m + 1..]
  }

  lemma SwappedIsListing(rows: seq<Item>, m: nat)
    requires IsListing(rows, rows) && 0 < m < |rows| && !DropsAt(rows, m)
    ensures IsListing(Swapped(rows, m), rows)
  {
    assert rows == rows[..m - 1] + [rows[m - 1], rows[m]] + rows[m + 1..];
    assert CallsBefore(rows[m - 1], rows[m]);
    SwappedKeepsTimes(rows, m);
  }

  lemma SwappedKeepsTimes(rows: seq<Item>, m: nat)
    requires 0 < m < |rows| && rows[m - 1].created == rows[m].created && Ordered(rows, CallsBefore)
    ensures Ordered(Swapped(rows, m), CallsBefore)
  {
    var swapped := Swapped(rows, m);
    assert forall i | 0 <= i < |rows| :: swapped[i].created == rows[i].created;
    forall i, j | 0 <= i < j < |swapped| ensures CallsBefore(swapped[i], swapped[j]) {
      assert CallsBefore(rows[i], rows[j]);
    }
  }

  /** The orders in which one page is taken from another listing than the rest. */
  function OneOdd(rows: seq<Item>, odd: seq<Item>, k: nat): nat -> seq<Item> {
    (i: nat) => if i == k then odd else rows
  }

  lemma OddPages(rows: seq<Item>, odd: seq<Item>, k: nat, limit: nat)
    ensures var page := SlicesFrom(OneOdd(rows, odd, k), limit);
            && (forall j: nat {:trigger page(j)} | j < k :: page(j) == Slice(rows, limit, Offset(j, limit)))
            && page(k) == Slice(odd, limit, Offset(k, limit))
  {
  }

  /** If a call before the boundary stands behind it in the next order, it is shown twice. */
  lemma ShownTwice(before: seq<Item>, page: seq<Item>, x: Item)
    requires x in before && x in page
    ensures multiset(before + page)[x] >= 2
  {
  }

  lemma TieShowsTwice(page: nat -> seq<Item>, k: nat, n: nat, x: Item)
    requires k < n && x in Concat(page, k) && x in page(k)
    ensures multiset(Concat(page, n))[x] >= 2
  {
    ShownTwice(Concat(page, k), page(k), x);
    PagesFollow(page, k + 1, n, x);
  }

  lemma LastBeforeComesAgain(rows: seq<Item>, m: nat, limit: nat)
    requires 0 < m < |rows| && limit > 0
    ensures rows[m - 1] in rows[..m] && rows[m - 1] in Slice(Swapped(rows, m), limit, m)
  {
    assert rows[..m][m - 1] == rows[m - 1];
    assert Swapped(rows, m)[m] == rows[m - 1];
    assert Slice(Swapped(rows, m), limit, m)[0] == rows[m - 1];
  }

  lemma DropsMakePagesFit(rows: seq<Item>, limit: nat)
    requires limit > 0 && IsListing(rows, rows) && DropsAtBoundaries(rows, limit)
    ensures PagesAlwaysFit(rows, limit)
  {
    var n := PageCount(|rows|, limit);
    CountedPagesAreTheListing(rows, limit, n);
    forall orders: nat -> seq<Item> | AllListings(orders, rows)
      ensures multiset(Concat(SlicesFrom(orders, limit), n)) == multiset(rows)
    {
      forall k: nat | k < n ensures multiset(SlicesFrom(orders, limit)(k)) == multiset(SlicesOf(rows, limit)(k)) {
        assert IsListing(orders(k), rows);
        SamePage(orders(k), rows, limit, k);
      }
      PagesAddUp(SlicesFrom(orders, limit), SlicesOf(rows, limit), n);
    }
  }

  lemma TieSpoilsPages(rows: seq<Item>, limit: nat, k: nat)
    requires limit > 0 && IsListing(rows, rows) && !DropsAt(rows, Offset(k, limit))
    requires forall x | x in rows :: multiset(rows)[x] == 1
    ensures !PagesAlwaysFit(rows, limit)
  {
    var m, n := Offset(k, limit), PageCount(|rows|, limit);
    var odd := Swapped(rows, m);
    var orders := OneOdd(rows, odd, k);
    CountCovers(|rows|, limit, k);
    OddPages(rows, odd, k, limit);
    SlicesArePrefix(rows, limit, SlicesFrom(orders, limit), k);
    LastBeforeComesAgain(rows, m, limit);
    TieShowsTwice(SlicesFrom(orders, limit), k, n, rows[m - 1]);
    SwappedIsListing(rows, m);
    assert AllListings(orders, rows);
    assert rows[m - 1] in rows;
  }

  /**
   The pages of the call listing fit together, whatever orders their queries see, exactly
   when the creation time drops at every page boundary: ties inside a page are harmless,
   and a tie across a boundary can show one call twice and hide another.
   */
  lemma CallPagesFitExactly(rows: seq<Item>, limit: nat)
    requires limit > 0 && IsListing(rows, rows)
    requires forall x | x in rows :: multiset(rows)[x] == 1
    ensures PagesAlwaysFit(rows, limit) <==> DropsAtBoundaries(rows, limit)
  {
    if DropsAtBoundaries(rows, limit) {
      DropsMakePagesFit(rows, limit);
    } else {
      var k: nat :| !DropsAt(rows, Offset(k, limit));
      TieSpoilsPages(rows, limit, k);
    }
  }

  /** In particular they fit whenever no two calls share a creation time. */
  lemma CallPagesFitWithoutTies(rows: seq<Item>, limit: nat)
    requires limit > 0 && IsListing(rows, rows)
    requires forall i, j | 0 <= i < j < |rows| :: rows[i].created != rows[j].created
    ensures PagesAlwaysFit(rows, limit)
  {
    forall x | x in rows ensures multiset(rows)[x] == 1 {
      OnlyOnce(rows, x);
    }
    forall k: nat ensures DropsAt(rows, Offset(k, limit)) {
      var m := Offset(k, limit);
      assert 0 < m < |rows| ==> CallsBefore(rows[m - 1], rows[m]);
    }
    CallPagesFitExactly(rows, limit);
  }

  lemma OnlyOnce(rows: seq<Item>, x: Item)
    requires x in rows && forall i, j | 0 <= i < j < |rows| :: rows[i].created != rows[j].created
    ensures multiset(rows)[x] == 1
  {
    var i :| 0 <= i < |rows| && rows[i] == x;
    assert rows == rows[..i] + [x] + rows[i + 1..];
    assert x !in rows[..i] && x !in rows[i + 1..];
  }

  /** The smallest failure: two tied calls, one to a page, and the same call on both. */
  lemma ATieCanHideACall(x: Item, y: Item)
    requires x != y && x.created == y.created
    ensures IsListing([x, y], [x, y]) && IsListing([y, x], [x, y])
    ensures Slice([x, y], 1, 0) + Slice([y, x], 1, 1) == [x, x]
    ensures !PagesAlwaysFit([x, y], 1)
  {
    assert multiset([x, y]) == multiset([y, x]);
    assert Offset(1, 1) == 1 && !DropsAt([x, y], Offset(1, 1));
    assert IsListing([x, y], [x, y]);
    TieSpoilsPages([x, y], 1, 1);
  }
}
