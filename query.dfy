/** The document-store query operators the controllers chain together:
  * `find(filter)`, `countDocuments(filter)`, `sort({key: -1})`, `skip`, `limit`,
  * and the page count `Math.ceil(total / limit)` they report beside the page. */
module Query {
  import opened Base

  /** `find(filter)`: the elements that satisfy `keep`, in store order. */
  function Filter<T>(s: seq<T>, keep: T -> bool): (r: seq<T>)
    ensures |r| <= |s|
    ensures forall x :: x in r ==> x in s && keep(x)
    ensures forall x :: x in s && keep(x) ==> x in r
  {
    if s == [] then []
    else
      assert s == [s[0]] + s[1..];
      (if keep(s[0]) then [s[0]] else []) + Filter(s[1..], keep)
  }

  /** Filtering distributes over concatenation, so it keeps the store order. */
  lemma {:induction false} FilterAppend<T>(a: seq<T>, b: seq<T>, keep: T -> bool)
    ensures Filter(a + b, keep) == Filter(a, keep) + Filter(b, keep)
  {
    if a == [] {
      assert a + b == b;
    } else {
      assert (a + b)[0] == a[0];
      assert (a + b)[1..] == a[1..] + b;
      FilterAppend(a[1..], b, keep);
      var head := if keep(a[0]) then [a[0]] else [];
      calc {
        Filter(a + b, keep);
        head + Filter(a[1..] + b, keep);
        head + (Filter(a[1..], keep) + Filter(b, keep));
        (head + Filter(a[1..], keep)) + Filter(b, keep);
        Filter(a, keep) + Filter(b, keep);
      }
    }
  }

  /** A filter and its negation split the collection: their counts add up to its size. */
  lemma {:induction false} FilterSplit<T>(s: seq<T>, keep: T -> bool, drop: T -> bool)
    requires forall x :: x in s ==> (drop(x) <==> !keep(x))
    ensures |Filter(s, keep)| + |Filter(s, drop)| == |s|
  {
    if s != [] {
      FilterSplit(s[1..], keep, drop);
    }
  }

  /** Keys never increase from left to right. */
  predicate SortedDesc<T>(s: seq<T>, key: T -> int) {
    forall i, j :: 0 <= i < j < |s| ==> key(s[i]) >= key(s[j])
  }

  /** In a sequence sorted by descending key, the head has the largest key. */
  lemma SortedHeadMax<T>(s: seq<T>, key: T -> int)
    requires SortedDesc(s, key) && s != []
    ensures forall z :: z in s ==> key(z) <= key(s[0])
  {
    forall z | z in s ensures key(z) <= key(s[0]) {
      var j :| 0 <= j < |s| && s[j] == z;
      if j > 0 { assert key(s[0]) >= key(s[j]); }
    }
  }

  /** An element whose key bounds a sorted sequence can go in front of it. */
  lemma PrependSorted<T>(y: T, t: seq<T>, key: T -> int)
    requires SortedDesc(t, key)
    requires forall z :: z in t ==> key(z) <= key(y)
    ensures SortedDesc([y] + t, key)
  {
    var r := [y] + t;
    forall i, j | 0 <= i < j < |r| ensures key(r[i]) >= key(r[j]) {
      assert r[j] == t[j - 1];
      if i == 0 {
        assert r[j] in t;
      } else {
        assert r[i] == t[i - 1];
      }
    }
  }

  /** Inserts `x` into a sequence sorted by descending key. */
  function InsertDesc<T>(x: T, s: seq<T>, key: T -> int): (r: seq<T>)
    requires SortedDesc(s, key)
    ensures SortedDesc(r, key)
    ensures multiset(r) == multiset(s) + multiset{x}
  {
    if s == [] then
      [x]
    else if key(x) >= key(s[0]) then
      SortedHeadMax(s, key);
      PrependSorted(x, s, key);
      [x] + s
    else
      var t := InsertDesc(x, s[1..], key);
      assert s == [s[0]] + s[1..];
      SortedHeadMax(s, key);
      assert forall y :: y in t ==> key(y) <= key(s[0]) by {
        forall y | y in t ensures key(y) <= key(s[0]) {
          assert y in multiset(t);
          assert y == x || y in s[1..];
        }
      }
      PrependSorted(s[0], t, key);
      [s[0]] + t
  }

  /** `sort({key: -1})`: the same elements, newest (largest key) first. The order of elements
    * with equal keys is left to the store and is not promised. */
  function SortDesc<T>(s: seq<T>, key: T -> int): (r: seq<T>)
    ensures SortedDesc(r, key)
    ensures multiset(r) == multiset(s)
    ensures |r| == |s|
  {
    if s == [] then []
    else
      assert s == [s[0]] + s[1..];
      InsertDesc(s[0], SortDesc(s[1..], key), key)
  }

  /** `Math.ceil(total / limit)` for a positive limit. */
  function CeilDiv(total: nat, limit: nat): (pages: nat)
    requires limit > 0
    ensures pages * limit >= total
    ensures pages == 0 || (pages - 1) * limit < total
  {
    (total + limit - 1) / limit
  }

  /** A page of results together with the pagination block the controllers return. */
  datatype Page<T> = Page(items: seq<T>, page: int, limit: int, total: nat, pages: nat)

  datatype PageError =
    | NegativeSkip        // the store refuses `skip` below zero; the controller passes the error on
    | LimitNotModelled    // a limit of zero or less (see the README's Left out)

  /** `skip((page - 1) * limit).limit(limit)` and the pagination block. */
  function Paginate<T>(s: seq<T>, page: int, limit: int): (r: Result<Page<T>, PageError>)
    ensures r.Err? <==> limit <= 0 || page < 1
    ensures r.Ok? ==> r.value.total == |s| && r.value.page == page && r.value.limit == limit
    ensures r.Ok? ==> r.value.pages == CeilDiv(|s|, limit)
    ensures r.Ok? ==> |r.value.items| <= limit
    ensures r.Ok? ==> var skip := (page - 1) * limit;
      && (skip < |s| ==> |r.value.items| == if |s| - skip < limit then |s| - skip else limit)
      && (skip >= |s| ==> r.value.items == [])
      && forall j :: 0 <= j < |r.value.items| ==> skip + j < |s| && r.value.items[j] == s[skip + j]
  {
    if limit <= 0 then Err(LimitNotModelled)
    else if page < 1 then
      assert (page - 1) * limit < 0 by { MulNegPos(page - 1, limit); }
      Err(NegativeSkip)
    else
      var skip := (page - 1) * limit;
      assert skip >= 0 by { MulNonNeg(page - 1, limit); }
      var rest := if skip <= |s| then s[skip..] else [];
      var items := if |rest| <= limit then rest else rest[..limit];
      Ok(Page(items, page, limit, |s|, CeilDiv(|s|, limit)))
  }

  lemma MulNegPos(a: int, b: int)
    requires a < 0 && b > 0
    ensures a * b < 0
  {}

  lemma MulNonNeg(a: int, b: int)
    requires a >= 0 && b >= 0
    ensures a * b >= 0
  {}

  lemma MulMonotone(a: int, b: int, c: int)
    requires a <= b && c >= 0
    ensures a * c <= b * c
  {}

  /** How many elements are left for a page after skipping `skip` of `total`, capped at `limit`. */
  function PageLength(total: nat, skip: int, limit: int): int {
    if skip >= total then 0 else if total - skip < limit then total - skip else limit
  }

  /** The number of elements before page `page`: `(page - 1) * limit`. */
  function PageStart(page: int, limit: int): int {
    (page - 1) * limit
  }

  /** `items` is page `page` of `s`: the elements after the first `PageStart(page, limit)`, in
    * order, and no more than `limit` of them. */
  ghost predicate IsPage<T>(items: seq<T>, s: seq<T>, page: int, limit: int) {
    var skip := PageStart(page, limit);
    && 0 <= skip
    && |items| == PageLength(|s|, skip, limit)
    && forall j :: 0 <= j < |items| ==> items[j] == s[skip + j]
  }

  /** Paginating yields exactly that page. */
  lemma PaginateIsPage<T>(s: seq<T>, page: int, limit: int)
    requires Paginate(s, page, limit).Ok?
    ensures IsPage(Paginate(s, page, limit).value.items, s, page, limit)
  {
    MulNonNeg(page - 1, limit);
  }

  /** A page maps to the page of the mapped sequence. */
  lemma PageOfMapped<T, U>(items: seq<T>, s: seq<T>, page: int, limit: int, f: T -> U, fitems: seq<U>, fs: seq<U>)
    requires IsPage(items, s, page, limit)
    requires |fitems| == |items| && forall j :: 0 <= j < |items| ==> fitems[j] == f(items[j])
    requires |fs| == |s| && forall j :: 0 <= j < |s| ==> fs[j] == f(s[j])
    ensures IsPage(fitems, fs, page, limit)
  {
    var skip := PageStart(page, limit);
    forall j | 0 <= j < |fitems| ensures fitems[j] == fs[skip + j] {
      var x := items[j];
      assert x == s[skip + j];
      assert fitems[j] == f(x);
      assert fs[skip + j] == f(s[skip + j]);
    }
  }

  /** Page `page` holds something exactly when `page` is between 1 and the reported page count. */
  lemma NonEmptyPageIffWithinPages<T>(s: seq<T>, page: int, limit: int)
    requires limit > 0 && page >= 1
    ensures Paginate(s, page, limit).Ok?
    ensures Paginate(s, page, limit).value.items != [] <==> page <= CeilDiv(|s|, limit)
  {
    var q := CeilDiv(|s|, limit);
    var skip := (page - 1) * limit;
    if page <= q {
      MulMonotone(page - 1, q - 1, limit);
      assert skip < |s|;
    } else {
      MulMonotone(q, page - 1, limit);
      assert skip >= |s|;
    }
  }

  /** Every element lands on exactly one page: element `j` is item `j % limit` of page
    * `j / limit + 1`, so walking the pages in order lists the whole result once. */
  lemma PageOfElement<T>(s: seq<T>, limit: int, j: nat)
    requires limit > 0 && j < |s|
    ensures var r := Paginate(s, j / limit + 1, limit);
      r.Ok? && j % limit < |r.value.items| && r.value.items[j % limit] == s[j]
  {
    var page := j / limit + 1;
    var skip := (page - 1) * limit;
    assert skip + j % limit == j;
    assert skip < |s|;
  }

  /** A page holds only elements of the paged sequence. */
  lemma PageItemsInSource<T>(s: seq<T>, page: int, limit: int)
    requires Paginate(s, page, limit).Ok?
    ensures forall x :: x in Paginate(s, page, limit).value.items ==> x in s
  {
    PaginateIsPage(s, page, limit);
    var items := Paginate(s, page, limit).value.items;
    var skip := PageStart(page, limit);
    forall x | x in items ensures x in s {
      var j :| 0 <= j < |items| && items[j] == x;
      assert s[skip + j] == x;
    }
  }

  /** A page cut from a sequence sorted by descending key is itself sorted that way. */
  lemma PageOfSortedIsSorted<T>(s: seq<T>, key: T -> int, page: int, limit: int)
    requires SortedDesc(s, key) && Paginate(s, page, limit).Ok?
    ensures SortedDesc(Paginate(s, page, limit).value.items, key)
  {
    PaginateIsPage(s, page, limit);
    var items := Paginate(s, page, limit).value.items;
    var skip := PageStart(page, limit);
    forall i, j | 0 <= i < j < |items| ensures key(items[i]) >= key(items[j]) {
      var a, b := skip + i, skip + j;
      assert items[i] == s[a] && items[j] == s[b];
      assert 0 <= a < b < |s|;
    }
  }

  /** A sequence sorted by descending key, cut to the requested page: the items are those of
    * page `page` of the sorted sequence. */
  function SortedPage<T>(s: seq<T>, key: T -> int, page: int, limit: int): (r: Result<Page<T>, PageError>)
    ensures r.Err? <==> limit <= 0 || page < 1
    ensures r.Ok? ==> IsPage(r.value.items, SortDesc(s, key), page, limit)
    ensures r.Ok? ==> r.value.total == |s| && r.value.pages == CeilDiv(|s|, limit)
    ensures r.Ok? ==> r.value.page == page && r.value.limit == limit && |r.value.items| <= limit
    ensures r.Ok? ==> forall x :: x in r.value.items ==> x in s
    ensures r.Ok? ==> SortedDesc(r.value.items, key)
  {
    var sorted := SortDesc(s, key);
    var r := Paginate(sorted, page, limit);
    if r.Ok? then
      PaginateIsPage(sorted, page, limit);
      PageItemsInSource(sorted, page, limit);
      assert forall x :: x in sorted ==> x in multiset(sorted);
      PageOfSortedIsSorted(sorted, key, page, limit);
      r
    else r
  }

  /** Nothing passes a filter that no element satisfies. */
  lemma FilterNone<T>(s: seq<T>, keep: T -> bool)
    requires forall x :: x in s ==> !keep(x)
    ensures Filter(s, keep) == []
  {
    if Filter(s, keep) != [] {
      assert Filter(s, keep)[0] in Filter(s, keep);
    }
  }
}
