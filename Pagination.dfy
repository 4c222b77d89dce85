/**
  Offset/limit pagination of an ordered list, as the therapist directory
  handler computes it: validate `page` and `perPage`, take the slice
  `[(page - 1) * perPage, page * perPage)` of the list with Python's clamping
  slice semantics, and report the total and the number of pages.

  The list is a parameter here, so every property below holds for any
  directory; the module Directory applies it to the service's fixed list.
 */
module Pagination {

  const POSITIVE_ERROR := "Page and per_page must be positive integers"
  const BAD_REQUEST := 400

  /** The handler's reply: one page with its metadata, or an error message with an HTTP status. */
  datatype Response<T> =
    | Page(therapists: seq<T>, page: int, perPage: int, total: int, totalPages: int)
    | Error(message: string, status: int)

  function Min(a: int, b: int): int { if a <= b then a else b }
  function Max(a: int, b: int): int { if a <= b then b else a }

  /** A slice bound as Python normalises it for a list of length n: a negative
      bound counts from the end, and the result is clamped to [0, n]. */
  function Clamp(i: int, n: nat): (c: nat)
    ensures c <= n
    ensures 0 <= i ==> c == Min(i, n)
    ensures i < 0 ==> c == Max(i + n, 0)
  {
    if i < 0 then (if i + n < 0 then 0 else i + n)
    else if i < n then i else n
  }

  /** Python's `s[a:b]` (step 1): never fails, and is empty when the
      normalised lower bound is not below the normalised upper bound. */
  function Slice<T>(s: seq<T>, a: int, b: int): (r: seq<T>)
    ensures |r| == Max(0, Clamp(b, |s|) - Clamp(a, |s|))
    ensures forall k :: 0 <= k < |r| ==> r[k] == s[Clamp(a, |s|) + k]
  {
    var lo, hi := Clamp(a, |s|), Clamp(b, |s|);
    if lo < hi then s[lo..hi] else []
  }

  /** `(total + perPage - 1) // perPage`. Python's `//` floors; for the
      positive divisor used here Dafny's Euclidean `/` is the same operation. */
  function CeilDiv(total: nat, perPage: int): int
    requires perPage >= 1
  {
    (total + perPage - 1) / perPage
  }

  /** The page count is the ceiling of total / perPage: the smallest number
      of pages of perPage records that holds all records. */
  lemma CeilDivIsCeiling(total: nat, perPage: int)
    requires perPage >= 1
    ensures CeilDiv(total, perPage) >= 0
    ensures total == 0 ==> CeilDiv(total, perPage) == 0
    ensures total > 0 ==> (CeilDiv(total, perPage) - 1) * perPage < total <= CeilDiv(total, perPage) * perPage
  {
    var n := total + perPage - 1;
    var q, m := n / perPage, n % perPage;
    assert n == q * perPage + m && 0 <= m < perPage;
    assert q * perPage == n - m;
    assert (q - 1) * perPage == n - m - perPage;
  }

  /** The directory handler after its arguments have been parsed. */
  function Paginate<T>(items: seq<T>, page: int, perPage: int): (r: Response<T>)
    // validation: both arguments must be positive, and that is the only error
    ensures r.Error? <==> page < 1 || perPage < 1
    ensures r.Error? ==> r.message == POSITIVE_ERROR && r.status == BAD_REQUEST
    // metadata: the arguments are echoed and the total is the list length
    ensures r.Page? ==> r.page == page && r.perPage == perPage && r.total == |items|
    // the records are the page's slice of the list
    ensures r.Page? ==> r.therapists == PageSlice(items, page, perPage)
  {
    if page < 1 || perPage < 1 then
      Error(POSITIVE_ERROR, BAD_REQUEST)
    else
      Page(PageSlice(items, page, perPage), page, perPage, |items|, CeilDiv(|items|, perPage))
  }

  /** `items[start:end]` with `start = (page - 1) * perPage` and `end = start + perPage`. */
  function PageSlice<T>(items: seq<T>, page: int, perPage: int): seq<T>
  {
    var start := (page - 1) * perPage;
    var end := start + perPage;
    Slice(items, start, end)
  }

  /** totalPages is the ceiling of total / perPage. */
  lemma TotalPagesIsCeiling<T>(items: seq<T>, page: int, perPage: int)
    requires page >= 1 && perPage >= 1
    ensures var r := Paginate(items, page, perPage);
      && (|items| == 0 ==> r.totalPages == 0)
      && (|items| > 0 ==> (r.totalPages - 1) * perPage < |items| <= r.totalPages * perPage)
  {
    CeilDivIsCeiling(|items|, perPage);
  }

  /** A valid page holds at most perPage records: exactly those of the list
      from index (page - 1) * perPage on, in the list's order. */
  lemma PageContents<T>(items: seq<T>, page: int, perPage: int)
    requires page >= 1 && perPage >= 1
    ensures var r := Paginate(items, page, perPage).therapists;
      && |r| == Min(perPage, Max(0, |items| - (page - 1) * perPage))
      && forall k :: 0 <= k < |r| ==> r[k] == items[(page - 1) * perPage + k]
  {
    var start := (page - 1) * perPage;
    MulMonotone(0, page - 1, perPage);
    var r := Paginate(items, page, perPage).therapists;
    assert r == PageSlice(items, page, perPage);
    SliceFrom(items, start, perPage, r);
  }

  /** A slice of width n from a non-negative start: whatever of those n
      positions the list has, in order. */
  lemma SliceFrom<T>(items: seq<T>, start: int, n: int, s: seq<T>)
    requires start >= 0 && n >= 1 && s == Slice(items, start, start + n)
    ensures |s| == Min(n, Max(0, |items| - start))
    ensures forall k :: 0 <= k < |s| ==> s[k] == items[start + k]
  {
  }

  /** A valid page never holds more than perPage records. */
  lemma PageBounded<T>(items: seq<T>, page: int, perPage: int)
    requires page >= 1 && perPage >= 1
    ensures Paginate(items, page, perPage).Page?
    ensures |Paginate(items, page, perPage).therapists| <= perPage
  {
    PageContents(items, page, perPage);
  }

  /** A valid page is the contiguous run of the list between its start index
      and its end index clamped to the list's length. */
  lemma PageIsContiguous<T>(items: seq<T>, page: int, perPage: int)
    requires page >= 1 && perPage >= 1 && (page - 1) * perPage <= |items|
    ensures Paginate(items, page, perPage).therapists
      == items[(page - 1) * perPage .. Min(page * perPage, |items|)]
  {
    var start := (page - 1) * perPage;
    MulSucc(page - 1, perPage);
    var r := Paginate(items, page, perPage).therapists;
    var s := items[start .. Min(start + perPage, |items|)];
    PageContents(items, page, perPage);
    assert |r| == |s|;
    forall k | 0 <= k < |r| ensures r[k] == s[k] {
    }
  }

  /** A page that starts at or past the end of the list is empty, and still a success. */
  lemma PagePastEndIsEmpty<T>(items: seq<T>, page: int, perPage: int)
    requires page >= 1 && perPage >= 1 && (page - 1) * perPage >= |items|
    ensures Paginate(items, page, perPage).Page?
    ensures Paginate(items, page, perPage).therapists == []
  {
    PageContents(items, page, perPage);
  }

  /** A valid page is non-empty exactly when its number is at most totalPages. */
  lemma PageNonEmptyIffInRange<T>(items: seq<T>, page: int, perPage: int)
    requires page >= 1 && perPage >= 1
    ensures var r := Paginate(items, page, perPage);
      r.therapists != [] <==> page <= r.totalPages
  {
    var r := Paginate(items, page, perPage);
    var tp := r.totalPages;
    TotalPagesIsCeiling(items, page, perPage);
    PageContents(items, page, perPage);
    if page <= tp {
      MulMonotone(page - 1, tp - 1, perPage);
      assert (page - 1) * perPage < |items|;
    } else {
      MulMonotone(tp, page - 1, perPage);
      assert (page - 1) * perPage >= |items|;
    }
  }

  lemma MulMonotone(a: int, b: int, c: int)
    requires a <= b && c >= 0
    ensures a * c <= b * c
  {
    assert b * c - a * c == (b - a) * c;
  }

  lemma MulSucc(a: int, c: int)
    ensures (a + 1) * c == a * c + c
  {
  }

  /** The records the handler returns for pages 1 .. n, one page after the other. */
  function Pages<T>(items: seq<T>, perPage: int, n: nat): seq<T>
    requires perPage >= 1
  {
    if n == 0 then [] else Pages(items, perPage, n - 1) + Paginate(items, n, perPage).therapists
  }

  /** Every page, inside the list or past its end, is the run of the list
      between its start and end indices, both clamped to the list. */
  lemma PageIsSegment<T>(items: seq<T>, page: int, perPage: int)
    requires page >= 1 && perPage >= 1
    ensures PageSlice(items, page, perPage)
      == items[Min((page - 1) * perPage, |items|) .. Min(page * perPage, |items|)]
  {
    var start := (page - 1) * perPage;
    MulSucc(page - 1, perPage);
    MulMonotone(0, page - 1, perPage);
    var r := PageSlice(items, page, perPage);
    var s := items[Min(start, |items|) .. Min(start + perPage, |items|)];
    SliceFrom(items, start, perPage, r);
    assert |r| == |s|;
    forall k | 0 <= k < |r| ensures r[k] == s[k] {
    }
  }

  /** Pages 1 .. n together are the first n * perPage records (or all of them). */
  lemma {:induction false} PagesArePrefix<T>(items: seq<T>, perPage: int, n: nat)
    requires perPage >= 1
    ensures Pages(items, perPage, n) == items[..Min(n * perPage, |items|)]
  {
    if n > 0 {
      var before := Pages(items, perPage, n - 1);
      var page := Paginate(items, n, perPage).therapists;
      assert Pages(items, perPage, n) == before + page;
      assert page == PageSlice(items, n, perPage);
      PagesArePrefix(items, perPage, n - 1);
      PageIsSegment(items, n, perPage);
      var a, b := (n - 1) * perPage, n * perPage;
      MulSucc(n - 1, perPage);
      MulMonotone(0, n - 1, perPage);
      assert 0 <= a <= b;
      assert before == items[..Min(a, |items|)];
      assert page == items[Min(a, |items|) .. Min(b, |items|)];
      PrefixThenSegment(items, before, page, Min(a, |items|), Min(b, |items|));
    }
  }

  lemma PrefixThenSegment<T>(items: seq<T>, before: seq<T>, page: seq<T>, lo: int, hi: int)
    requires 0 <= lo <= hi <= |items|
    requires before == items[..lo] && page == items[lo..hi]
    ensures before + page == items[..hi]
  {
  }

  /** Concatenating pages 1 .. totalPages gives back the whole list. */
  lemma PagesCoverList<T>(items: seq<T>, perPage: int)
    requires perPage >= 1
    ensures Pages(items, perPage, Paginate(items, 1, perPage).totalPages) == items
  {
    var tp := Paginate(items, 1, perPage).totalPages;
    TotalPagesIsCeiling(items, 1, perPage);
    PagesArePrefix(items, perPage, tp);
    assert Min(tp * perPage, |items|) == |items|;
  }

  /** Two different pages never take a record from the same position: the
      k-th record of page p is at list index (p - 1) * perPage + k, and that
      index determines both p and k. */
  lemma PagePositionsDisjoint(p: int, q: int, perPage: int, i: int, j: int)
    requires p >= 1 && q >= 1 && perPage >= 1
    requires 0 <= i < perPage && 0 <= j < perPage
    ensures (p - 1) * perPage + i == (q - 1) * perPage + j ==> p == q && i == j
  {
    if p < q {
      MulSucc(p - 1, perPage);
      MulMonotone(p, q - 1, perPage);
    } else if q < p {
      MulSucc(q - 1, perPage);
      MulMonotone(q, p - 1, perPage);
    }
  }

  /** In a list without repeated records, two different pages share no record. */
  lemma PagesDisjoint<T>(items: seq<T>, perPage: int, p: int, q: int)
    requires perPage >= 1 && p >= 1 && q >= 1 && p != q
    requires forall a, b :: 0 <= a < b < |items| ==> items[a] != items[b]
    ensures forall x :: x in Paginate(items, p, perPage).therapists ==>
      x !in Paginate(items, q, perPage).therapists
  {
    var rp := Paginate(items, p, perPage).therapists;
    var rq := Paginate(items, q, perPage).therapists;
    forall i, j | 0 <= i < |rp| && 0 <= j < |rq| ensures rp[i] != rq[j] {
      EntriesOfDifferentPagesDiffer(items, perPage, p, q, i, j);
    }
  }

  /** In a list without repeated records, no record of page p equals a record of another page q. */
  lemma EntriesOfDifferentPagesDiffer<T>(items: seq<T>, perPage: int, p: int, q: int, i: nat, j: nat)
    requires perPage >= 1 && p >= 1 && q >= 1 && p != q
    requires forall a, b :: 0 <= a < b < |items| ==> items[a] != items[b]
    requires i < |Paginate(items, p, perPage).therapists|
    requires j < |Paginate(items, q, perPage).therapists|
    ensures Paginate(items, p, perPage).therapists[i] != Paginate(items, q, perPage).therapists[j]
  {
    PageContents(items, p, perPage);
    PageContents(items, q, perPage);
    MulMonotone(0, p - 1, perPage);
    MulMonotone(0, q - 1, perPage);
    PagePositionsDisjoint(p, q, perPage, i, j);
    DistinctAt(items, (p - 1) * perPage + i, (q - 1) * perPage + j);
  }

  lemma DistinctAt<T>(items: seq<T>, a: int, b: int)
    requires forall x, y :: 0 <= x < y < |items| ==> items[x] != items[y]
    requires 0 <= a < |items| && 0 <= b < |items| && a != b
    ensures items[a] != items[b]
  {
    if b < a {
      assert items[b] != items[a];
    }
  }
}
