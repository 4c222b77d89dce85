/**
  The therapist directory endpoint (`GET /therapists`): a fixed, ordered list
  of 31 therapist records served a page at a time.

  Only the records' identifiers are kept; the other fields (name,
  specialization, fee, location, rating, review count) play no part in
  pagination. The identifiers run 1 to 32 with 11 absent, as the service's
  directory lists them.
 */
module Directory {
  import opened Pagination

  /** A record, by its identifier. The service writes identifiers as decimal
      strings; here they are the numbers those strings spell. */
  datatype Therapist = Therapist(id: nat)

  const THERAPISTS: seq<Therapist> := [
    Therapist(1), Therapist(2), Therapist(3), Therapist(4), Therapist(5),
    Therapist(6), Therapist(7), Therapist(8), Therapist(9), Therapist(10),
    Therapist(12), Therapist(13), Therapist(14), Therapist(15), Therapist(16),
    Therapist(17), Therapist(18), Therapist(19), Therapist(20), Therapist(21),
    Therapist(22), Therapist(23), Therapist(24), Therapist(25), Therapist(26),
    Therapist(27), Therapist(28), Therapist(29), Therapist(30), Therapist(31),
    Therapist(32)
  ]

  const DEFAULT_PAGE := 1
  const DEFAULT_PER_PAGE := 10
  const INVALID_PARAMS_ERROR := "Invalid query parameters"

  /** A query parameter as `int(request.args.get(name, default))` sees it:
      not given, given as an integer, or given as text `int` refuses. */
  datatype Arg = Absent | Given(value: int) | Malformed

  function ArgValue(a: Arg, default: int): int
    requires !a.Malformed?
  {
    match a
    case Absent => default
    case Given(v) => v
  }

  /** The handler: parse both parameters, then validate and paginate. Both
      parameters are parsed before either is range-checked, so an unreadable
      parameter is reported even when the other one is non-positive. */
  function GetTherapists(page: Arg, perPage: Arg): (r: Response<Therapist>)
    ensures page.Malformed? || perPage.Malformed? ==>
      r == Error(INVALID_PARAMS_ERROR, BAD_REQUEST)
    ensures !page.Malformed? && !perPage.Malformed? ==>
      r == Paginate(THERAPISTS, ArgValue(page, DEFAULT_PAGE), ArgValue(perPage, DEFAULT_PER_PAGE))
    ensures r.Error? ==> r.status == BAD_REQUEST
    ensures r.Page? ==> r.total == 31
  {
    if page.Malformed? || perPage.Malformed? then
      Error(INVALID_PARAMS_ERROR, BAD_REQUEST)
    else
      Paginate(THERAPISTS, ArgValue(page, DEFAULT_PAGE), ArgValue(perPage, DEFAULT_PER_PAGE))
  }

  /** The directory lists its records in increasing order of identifier. */
  lemma IdsIncreasing()
    ensures forall a :: 0 <= a < |THERAPISTS| - 1 ==> THERAPISTS[a].id < THERAPISTS[a + 1].id
  {
  }

  /** No two records of the directory share an identifier. */
  lemma IdsDistinct()
    ensures forall a, b :: 0 <= a < b < |THERAPISTS| ==> THERAPISTS[a].id < THERAPISTS[b].id
  {
    IdsIncreasing();
    forall a, b | 0 <= a < b < |THERAPISTS| ensures THERAPISTS[a].id < THERAPISTS[b].id {
      IncreasingUpTo(a, b);
    }
  }

  lemma {:induction false} IncreasingUpTo(a: int, b: int)
    requires 0 <= a < b < |THERAPISTS|
    requires forall i :: 0 <= i < |THERAPISTS| - 1 ==> THERAPISTS[i].id < THERAPISTS[i + 1].id
    ensures THERAPISTS[a].id < THERAPISTS[b].id
    decreases b - a
  {
    if a + 1 < b {
      IncreasingUpTo(a + 1, b);
    }
  }

  /** With no parameters: the first ten records, out of 31, on four pages. */
  lemma DefaultRequest()
    ensures GetTherapists(Absent, Absent) == Page(THERAPISTS[..10], 1, 10, 31, 4)
  {
    PageIsContiguous(THERAPISTS, 1, 10);
  }

  /** The fourth page of ten holds the one remaining record. */
  lemma LastPage()
    ensures GetTherapists(Given(4), Given(10)) == Page([THERAPISTS[30]], 4, 10, 31, 4)
  {
    PageIsContiguous(THERAPISTS, 4, 10);
  }

  /** A page far past the end is an empty success, not an error. */
  lemma PageBeyondRange()
    ensures GetTherapists(Given(100), Given(10)) == Page([], 100, 10, 31, 4)
  {
    PagePastEndIsEmpty(THERAPISTS, 100, 10);
  }

  /** Zero for either parameter is rejected with status 400. */
  lemma ZeroRejected()
    ensures GetTherapists(Given(0), Absent) == Error(POSITIVE_ERROR, BAD_REQUEST)
    ensures GetTherapists(Absent, Given(0)) == Error(POSITIVE_ERROR, BAD_REQUEST)
  {
  }

  /** Two different pages of the directory never list the same therapist. */
  lemma DirectoryPagesDisjoint(perPage: int, p: int, q: int)
    requires perPage >= 1 && p >= 1 && q >= 1 && p != q
    ensures forall t :: t in GetTherapists(Given(p), Given(perPage)).therapists ==>
      t !in GetTherapists(Given(q), Given(perPage)).therapists
  {
    IdsDistinct();
    PagesDisjoint(THERAPISTS, perPage, p, q);
  }

  /** Paging through the whole directory, for any page size, lists every
      therapist once, in the directory's order. */
  lemma DirectoryPagesCover(perPage: int)
    requires perPage >= 1
    ensures Pages(THERAPISTS, perPage, GetTherapists(Given(1), Given(perPage)).totalPages) == THERAPISTS
  {
    PagesCoverList(THERAPISTS, perPage);
  }
}
