# Mental-health text classifier and therapist directory: the deterministic core

The service has two HTTP handlers over immutable, process-wide data:

- `GET /therapists` serves a fixed, ordered list of 31 therapist records a
  page at a time. It validates `page` and `per_page` (defaults 1 and 10, both
  must be at least 1), takes the slice `[(page - 1) * per_page, page * per_page)`
  with Python's clamping slice semantics, and reports `total` and
  `total_pages = (total + per_page - 1) // per_page`.
- `POST /predict` runs an opaque vectorizer and classifier on the request's
  `text`, looks the resulting class index up in a fixed seven-entry table of
  category names, and replies with the one-entry map `{name: index}`. A
  missing field or an index outside the table gives a 400 error.

The model is three modules of pure functions and lemmas:

- `Pagination` holds the arithmetic and slicing of the directory handler,
  generic in the record type and the list. It proves the page bounds, that
  pages are contiguous and in order, and that a page past the end is an
  empty success. It proves the page count is a ceiling, and that pages
  `1 .. total_pages` are disjoint (as positions; as records in a list
  without repeats) and together give back the whole list.
- `Directory` holds the 31-record list (identifiers only), the handler with
  its query-argument parsing, and the concrete cases: the default request,
  the last page, a page far past the end, and zero arguments.
- `Prediction` holds the label table, `predict_new_text` with the classifier's
  index as an input, and the `/predict` handler with the classifier as a
  function parameter.

Python's `//` floors. The divisor here is always positive, and for a positive
divisor Dafny's Euclidean `/` is the same operation. Python integers are
unbounded, like Dafny's `int`, so no wrap-around is modelled.

## Model

| member | source | states |
|---|---|---|
| `Pagination.Clamp` | app.py:105 | a slice bound is normalised as Python does: non-negative bounds are capped at the length, negative ones count from the end and are floored at 0 |
| `Pagination.Slice` | app.py:105 | `s[a:b]` never fails; its length is the distance between the normalised bounds (0 if they cross), and its k-th element is the element at the normalised lower bound plus k |
| `Pagination.CeilDivIsCeiling` | app.py:113 | `(total + per_page - 1) // per_page` is the ceiling of total / per_page: 0 for an empty list, and otherwise `(tp - 1) * per_page < total <= tp * per_page` |
| `Pagination.Paginate` | app.py:96-114 | error with "Page and per_page must be positive integers" and status 400 exactly when page < 1 or per_page < 1; otherwise page and per_page are echoed, total is the list length, and the records are the slice `items[start:end]` |
| `Pagination.TotalPagesIsCeiling` | app.py:113 | on a valid request total_pages is the ceiling of total / per_page: 0 for an empty list, otherwise `(total_pages - 1) * per_page < total <= total_pages * per_page` |
| `Pagination.PageContents` | app.py:101-105 | a valid page has `min(per_page, max(0, total - start))` records and its k-th record is the list's record at `start + k`, with `start = (page - 1) * per_page` |
| `Pagination.PageBounded` | app.py:101-105 | a valid request succeeds and never returns more than per_page records |
| `Pagination.PageIsContiguous` | app.py:101-105 | when start is within the list, the page is exactly the list's records from start up to `min(end, total)`, in order |
| `Pagination.PagePastEndIsEmpty` | app.py:105 | a page starting at or past the end of the list is an empty success, not an error |
| `Pagination.PageNonEmptyIffInRange` | app.py:101-113 | a valid page is non-empty if and only if its number is at most total_pages |
| `Pagination.PageIsSegment` | app.py:101-105 | every page, inside the list or past its end, is the list's run from `min(start, total)` to `min(end, total)` |
| `Pagination.PagesArePrefix` | app.py:101-105 | pages 1 .. n concatenated are the first `min(n * per_page, total)` records |
| `Pagination.PagesCoverList` | app.py:101-113 | pages 1 .. total_pages concatenated are the whole list |
| `Pagination.PagePositionsDisjoint` | app.py:101-102 | the list position `(p - 1) * per_page + k` with `k < per_page` determines both the page p and the offset k |
| `Pagination.EntriesOfDifferentPagesDiffer` | app.py:101-105 | in a list without repeats, any record of page p differs from any record of a different page q |
| `Pagination.PagesDisjoint` | app.py:101-105 | in a list without repeats, two different pages have no record in common |
| `Directory.GetTherapists` | app.py:90-116 | an unparsable `page` or `per_page` gives "Invalid query parameters" with status 400, even when the other argument is non-positive; otherwise absent arguments default to 1 and 10 and the result is the pagination of the 31-record list; every error has status 400 and every page reports total 31 |
| `Directory.IdsIncreasing` | app.py:55-87 | the directory lists its records in increasing order of identifier |
| `Directory.IdsDistinct` | app.py:55-87 | no two records of the directory share an identifier |
| `Directory.DefaultRequest` | app.py:93-94 | with no arguments: the first 10 records, page 1, per_page 10, total 31, total_pages 4 |
| `Directory.LastPage` | app.py:101-114 | page 4 of 10 holds only the 31st record |
| `Directory.PageBeyondRange` | app.py:105-114 | page 100 of 10 is an empty success with total 31 and total_pages 4 |
| `Directory.ZeroRejected` | app.py:97-98 | page 0 or per_page 0 is the positive-integers error with status 400 |
| `Directory.DirectoryPagesDisjoint` | app.py:55-105 | for any page size, two different pages of the directory list no therapist twice |
| `Directory.DirectoryPagesCover` | app.py:55-113 | for any page size, paging from 1 to total_pages lists every therapist of the directory, in order |
| `Prediction.LabelMappingDomain` | app.py:14-22 | the label table is defined on exactly the indices 0..6 |
| `Prediction.LabelMappingInjective` | app.py:14-22 | the table gives different indices different names |
| `Prediction.LabelMappingOnto` | app.py:14-22 | the table's names are exactly the seven categories Anxiety, Normal, Depression, Suicidal, Stress, Bipolar and Personality disorder |
| `Prediction.CategoriesCount` | app.py:14-22 | the seven category names are seven different strings |
| `Prediction.PredictNewText` | app.py:24-37 | succeeds exactly for indices 0..6, otherwise fails with an unknown-index error for that index; on success the reply has one entry, its value is the index, its key is one of the seven categories, and the table maps the value back to the key |
| `Prediction.PredictionLabelDeterminesIndex` | app.py:35-37 | two successful predictions with the same category name come from the same index |
| `Prediction.Predict` | app.py:39-52 | a missing `text` gives a 400 missing-text error; otherwise the reply succeeds exactly when the classifier's index is in 0..6, and is then `{label_mapping[i]: i}`; an index outside the table gives a 400 unknown-index error |

## Left out

- HTTP plumbing (routing, `request.json`, `request.args`, `jsonify`, `app.run`): each handler is a function from its extracted inputs to a response datatype; a successful directory page stands for status 200.
- `joblib.load`, `vectorizer.transform` and `model.predict`: loaded from pickled files and opaque, so the classifier is a function parameter from text to index.
- Python's `int()` parsing of query strings: an argument is absent, an integer, or malformed, without the grammar `int()` accepts.
- The generic `except Exception` paths (500 on the directory, 400 on prediction) other than the unknown-index `KeyError`, and a request body that is not a JSON object.
- Prediction.Predict: error messages are modelled as error kinds (missing text, unknown index), not as the text `str(e)` Python would produce.
- Whether `jsonify` accepts the numeric type the classifier returns for the index: it depends on the opaque classifier.
- `CORS(app)` runs before `app` is defined, so importing the module raises `NameError`; this is start-up wiring with no logic to model.
- Therapist record fields other than the identifier (name, specialization, experience, fee, location, rating, review count): pagination depends only on the list's length and order.
- Directory.Therapist: identifiers are the numbers their decimal strings spell, not the strings themselves; they serve only to tell records apart.
