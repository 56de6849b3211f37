# PDDIKTI API service: response normalisation, id repair and endpoint rules

This project models the logic of `pddikti_service.py`. The service is a small
FastAPI facade over the `pddiktipy` scraping client, which looks up students
(*mahasiswa*), lecturers (*dosen*) and universities (*perguruan tinggi*, "PT"). All
data comes from the client, so the model takes every client answer as an input. An
answer is either the value the client returned or the exception it raised.

- `json.dfy` (module `Json`): a JSON-like value (`Null` for Python's `None`, a bool,
  a number, a string, a list, a dict) with Python truthiness. Also the exceptions
  involved, and `Outcome` (returned or raised).
- `text.dfy` (module `Text`): Python's substring test `sub in s`, and
  `s.split(sep)[-1]`, the last piece that `split` produces.
- `normalize.dfy` (module `Normalize`): `normalize_response` (`NormalizeOne`) and
  `normalize_list_response` (`NormalizeList`). Each accepts a list, a dict that
  wraps a list under `"data"`, or a single object.
- `id_repair.dfy` (module `IdRepair`): the loop in `cached_search_pt`. For each
  record whose `"website_link"` contains `/data_pt/`, it overwrites `"id"` with
  the text after `/data_pt/`. The loop is a method over an array of records, which
  it changes in place. The loop body can raise. On a record that is
  not a dict, `in` raises TypeError for None, a bool or a number, and
  `item['website_link']` raises TypeError for a string or list holding
  "website_link". On a link that is not a string, `in` raises TypeError for None, a
  bool or a number, and `.split` raises AttributeError for a list or dict holding
  "/data_pt/". The model covers those cases too.
- `endpoints.dfy` (module `Endpoints`): the `{data, count}` envelope of the three
  search endpoints. The 404 of the student detail, the `{}` default of the lecturer
  and university details, and the 500 for an exception. Also the fallback record
  that `cached_get_detail_pt` builds when the client has no detail for a university.
  That function catches only what is raised inside its `try`. An exception of the
  `with api()` statement, which lies outside the `try`, is an input of its own; it
  propagates, and the university endpoint answers 500.

`split` cuts the string at each occurrence of the separator it finds scanning left
to right, and resumes after the cut. So when two occurrences of `/data_pt/`
overlap, the new id is not the text after the *last* occurrence. For
`/data_pt/data_pt/` the id is `data_pt/`, though an occurrence also starts at
index 8 (`IdRepair.OverlappingSeparators`). The model follows the code. What always
holds is that the new id contains no `/data_pt/`, and that the link is a prefix,
then `/data_pt/`, then the new id.

## Model

| member | source | states |
|---|---|---|
| `Json.Truthy` | pddikti_service.py:31 | definition of Python's `bool(v)`, used by `not response` (:31, :50), `if results` (:111), `if detail` (:133), `if not result` (:185) and `x if x else {}` (:208, :227): None, False, 0, "", [] and {} are falsy |
| `Json.DictTruthiness` | pddikti_service.py:31 | `{}` is falsy, and a dict with at least one key is truthy |
| `Text.FindFrom` | pddikti_service.py:119 | definition of the substring search behind `'/data_pt/' in link`: the first index at or after `k` where the substring occurs, or -1; its contract bounds the result within the string |
| `Text.Contains` | pddikti_service.py:119 | definition of `sub in s` on two strings (the search from 0 succeeds); characterised by `Text.ContainsIff` |
| `Text.FindFromSpec` | pddikti_service.py:119 | the substring search from index `k` finds an occurrence at or after `k` with none between `k` and it, and gives -1 exactly when none occurs from `k` on |
| `Text.ContainsIff` | pddikti_service.py:119 | `sub in s` holds exactly when `sub` occurs at some index of `s`, and then the search finds the leftmost occurrence |
| `Text.LastCut` | pddikti_service.py:120 | definition of the scan of `split`: find the next separator from `start`, cut after it, repeat; its contract keeps the cut between `start` and the end |
| `Text.LastPiece` | pddikti_service.py:120 | definition of `s.split(sep)[-1]`: the text after the last cut; characterised by the `LastPiece…` lemmas below |
| `Text.LastCutSpec` | pddikti_service.py:120 | the cut where the last piece of `split` begins has no separator at or after it; it stays at the start exactly when no separator follows, and otherwise follows an occurrence of the separator |
| `Text.LastPieceWhole` | pddikti_service.py:120 | the last piece of `split` is the whole link exactly when the separator does not occur |
| `Text.LastPieceHasNoSeparator` | pddikti_service.py:120 | the last piece of `split` never contains the separator |
| `Text.LastPieceFollowsSeparator` | pddikti_service.py:120 | when the separator occurs, the link is some prefix, then the separator, then the last piece |
| `Text.CutAfterLeadingSeparator` | pddikti_service.py:120 | a link that starts with the separator and holds no other separator after it is cut right after that first separator |
| `Text.LastPieceAfterSeparator` | pddikti_service.py:108-120 | the link `sep + id`, where `id` has no `sep`, splits back to `id` (a round trip) |
| `Normalize.WrappedList` | pddikti_service.py:56-57 | definition of the test `'data' in response and isinstance(response['data'], list)` on a dict (also at :41 and :115), giving the wrapped list |
| `Normalize.NormalizeOne` | pddikti_service.py:30-47 | definition of `normalize_response`, branch for branch; characterised by the lemmas below |
| `Normalize.NormalizeList` | pddikti_service.py:49-61 | definition of `normalize_list_response`, branch for branch; characterised by the lemmas below |
| `Normalize.FalsyNormalizesToNothing` | pddikti_service.py:30-51 | every falsy response (None, False, 0, "", [], {}) gives None and [] |
| `Normalize.ListResponse` | pddikti_service.py:34-54 | a non-empty list gives exactly its first element, and itself as the list |
| `Normalize.DictResponse` | pddikti_service.py:39-59 | a dict wrapping a list under "data" gives that list's first element (None if the list is empty) and that list; any other non-empty dict gives itself and [] |
| `Normalize.ScalarResponse` | pddikti_service.py:47-61 | a value that is neither a list nor a dict gives None and [] |
| `Normalize.NormalizeListIdempotent` | pddikti_service.py:49-61 | normalising the list that `normalize_list_response` returned gives the same list |
| `Normalize.NormalizersAgree` | pddikti_service.py:30-61 | the single record is the first of the records when there are any; otherwise it is None, except that a non-empty dict wrapping no list is passed through |
| `IdRepair.LinkStep` | pddikti_service.py:119-120 | definition of `'/data_pt/' in link` and the `split` on the link: a new id for a string containing "/data_pt/", nothing for any other string, AttributeError for a list or dict holding "/data_pt/" (no `split`), TypeError for None, a bool or a number (`in` unsupported) |
| `IdRepair.ItemStep` | pddikti_service.py:119-121 | definition of the loop body's decision for one record: a dict without "website_link" is kept, one with it goes on to the link; a string or list holding "website_link" raises TypeError on `item['website_link']`; None, a bool or a number raises TypeError on `in` |
| `IdRepair.Rewrite` | pddikti_service.py:121 | definition of `item['id'] = real_id` on a record that gets a new id; characterised by `IdRepair.SetIdIff` and `IdRepair.RewriteChangesOnlyId` |
| `IdRepair.RewriteEach` | pddikti_service.py:118-121 | reference definition: every record rewritten, in order (no claim of its own; the loop is compared to it by `IdRepair.FirstFailureSpec` and `IdRepair.RepairRewritesRecords`) |
| `IdRepair.FirstFailure` | pddikti_service.py:118-121 | definition of which exception, if any, the loop raises: that of the first record whose body raises; characterised by `IdRepair.FirstFailureSpec` |
| `IdRepair.RewriteUntilFailure` | pddikti_service.py:118-121 | definition of the list as the loop leaves it: records rewritten up to the first that raises, that one and the rest untouched; `IdRepair.RewriteIds` is proved against it |
| `IdRepair.PassedStart` | pddikti_service.py:118 | before the loop, no record is processed and the list is untouched |
| `IdRepair.PassedStep` | pddikti_service.py:118-121 | a record that does not raise is replaced by its rewrite; whether and how the loop raises and what becomes of the rest still depend only on the records after it |
| `IdRepair.PassedFails` | pddikti_service.py:118-121 | a record that raises ends the loop with its exception, and the list is then exactly as the loop leaves it |
| `IdRepair.PassedAll` | pddikti_service.py:118-121 | after the last record, the loop has not raised and the list is exactly as the loop leaves it |
| `IdRepair.FirstFailureSpec` | pddikti_service.py:118-121 | the loop raises exactly when some record raises, and with the exception of the first such record; otherwise every record is rewritten |
| `IdRepair.SetIdIff` | pddikti_service.py:119-121 | a record gets a new "id" exactly when it is a dict whose "website_link" is a string containing "/data_pt/"; every other record is left unchanged |
| `IdRepair.RewriteChangesOnlyId` | pddikti_service.py:121 | the rewrite changes only the "id" key: every other key keeps its value, and no key other than "id" is added |
| `IdRepair.NewIdFromLink` | pddikti_service.py:119-121 | the new "id" is the last piece of the link split at "/data_pt/"; it contains no "/data_pt/", and the link is a prefix, then "/data_pt/", then the id |
| `IdRepair.RealIdFromLink` | pddikti_service.py:108-121 | a record whose link is "/data_pt/REAL_ID" gets "id" set to REAL_ID, whatever "id" held before |
| `IdRepair.OverlappingSeparators` | pddikti_service.py:120 | for "/data_pt/data_pt/" the new id is "data_pt/", although "/data_pt/" also occurs at index 8 |
| `IdRepair.WellFormedRecordsNeverRaise` | pddikti_service.py:118-121 | when every record is a dict whose "website_link", if present, is a string, the loop never raises |
| `IdRepair.RewriteIds` | pddikti_service.py:118-121 | the in-place loop leaves each record rewritten up to the first record that raises, leaves that record and the rest untouched, and reports that record's exception |
| `IdRepair.RepairIds` | pddikti_service.py:111-123 | definition of the repair as a value: the exception of the first record that raises, otherwise the results with the records of `data_list` rewritten; `IdRepair.RepairIdsInPlace` is proved equal to it |
| `IdRepair.RepairIdsInPlace` | pddikti_service.py:111-123 | picking `data_list`, running the loop on it in place and returning `results` gives `RepairIds(results)` |
| `IdRepair.RepairLeavesOtherShapes` | pddikti_service.py:111-123 | falsy results, and results that are neither a list nor a dict wrapping a list, come back untouched |
| `IdRepair.RepairRaisesIff` | pddikti_service.py:111-123 | the repair raises exactly when some record of `data_list` raises, and with the first such record's exception |
| `IdRepair.RepairRewritesRecords` | pddikti_service.py:111-123 | after a repair that does not raise, the records keep their length and order and each is rewritten; the results keep their shape, and a wrapping dict keeps its keys and every value except "data" |
| `Endpoints.SearchEnvelope` | pddikti_service.py:175-176 | definition of `{"data": normalized, "count": len(normalized)}` |
| `Endpoints.SearchEndpoint` | pddikti_service.py:171-179 | definition of `search_mahasiswa` (and of `search_dosen` at :194-202 and `search_university` at :213-221): the envelope, or 500 when the cached call raised |
| `Endpoints.CachedSearchPt` | pddikti_service.py:103-123 | definition of `cached_search_pt`: the client's results repaired, an exception of the client or of the repair propagating |
| `Endpoints.DetailMahasiswa` | pddikti_service.py:181-192 | definition of `get_detail_mahasiswa`: the record, 404 when falsy, 500 when the call raised |
| `Endpoints.DetailOrEmpty` | pddikti_service.py:204-211 | definition of `get_detail_dosen` (and of `get_detail_university` at :223-230): the record, `{}` when falsy, 500 when the call raised |
| `Endpoints.Fallback` | pddikti_service.py:146-157 | definition of the fallback dict literal; characterised by `Endpoints.FallbackKeys`, `Endpoints.FallbackFields` and `Endpoints.FallbackIsTruthy` |
| `Endpoints.CachedDetailPt` | pddikti_service.py:125-162 | definition of `cached_get_detail_pt`: an exception of the `with api()` statement propagates; inside the `try`, a truthy detail is returned, otherwise the fallback is built, and every exception gives None |
| `Endpoints.SearchEnvelopeCount` | pddikti_service.py:171-221 | every search envelope has exactly the keys "data" and "count"; "data" is the normalised list and "count" is its length; an exception gives status 500 |
| `Endpoints.UniversitySearchCount` | pddikti_service.py:213-221 | the university search counts exactly the records the client returned, each with its id repaired; an exception from the client or from the repair gives status 500 |
| `Endpoints.StudentDetailNotFound` | pddikti_service.py:181-192 | the student detail is 404 "Student not found" exactly when the record is falsy, the record itself exactly when it is truthy, and 500 exactly when the call raised |
| `Endpoints.DetailDefaultsToEmpty` | pddikti_service.py:204-230 | the lecturer and university details answer `{}` for a falsy record and the record itself otherwise; they never answer 404 |
| `Endpoints.FallbackKeys` | pddikti_service.py:146-157 | the fallback record has exactly the ten keys the source writes |
| `Endpoints.FallbackFields` | pddikti_service.py:146-157 | in the fallback, "id" is the requested id, "fallback_mode" is True, the logo is as given, and "kode_pt" and "jumlah_mahasiswa" come from the statistics, defaulting to "-" and 0 |
| `Endpoints.FallbackIsTruthy` | pddikti_service.py:146-158 | the fallback record is truthy, so the endpoint serves it rather than `{}` |
| `Endpoints.TruthyDetailWins` | pddikti_service.py:132-134 | a truthy detail is returned unchanged, whatever the statistics and the logo, and the endpoint serves it |
| `Endpoints.FallbackServed` | pddikti_service.py:136-158 | when the detail is falsy, the fallback is built, with falsy statistics read as `{}`, and the endpoint serves it; statistics that are truthy but not a dict give `{}` |
| `Endpoints.DetailExceptionsGiveEmpty` | pddikti_service.py:130-162 | every exception raised inside the `try` of `cached_get_detail_pt` (by `get_detail_pt`, `get_mahasiswa_pt` or `get_logo_pt`) is caught and gives None, and the endpoint then answers `{}` |
| `Endpoints.DetailRaisesOnlyFromSession` | pddikti_service.py:129-162 | `cached_get_detail_pt` raises exactly when the `with api()` statement outside the `try` raises, with that exception, and `get_detail_university` then answers 500 (:228-230); otherwise it answers a body |

## Left out

- The FastAPI app, CORS middleware, routing, the root message and the uvicorn
  start-up (pddikti_service.py:14-27, 167-169, 232-233): web-framework plumbing.
  Each endpoint is modelled as a function from the outcome of its cached call to a
  response.
- The `pddiktipy` client calls (`search_mahasiswa`, `get_detail_mhs`,
  `search_dosen`, `get_dosen_profile`, `search_pt`, `get_detail_pt`,
  `get_mahasiswa_pt`, `get_logo_pt`): network scraping by a foreign library. Their
  results, or the exceptions they raise, are inputs.
- The `tenacity` retry (pddikti_service.py:65-71): it waits on the wall clock and
  calls again after an exception. The outcome given to a model function stands for
  the outcome of the last attempt.
- `lru_cache` (pddikti_service.py:73-127): eviction and thread safety are not
  modelled. Each cached function is a function of its key.
- Logging, and the text of `str(e)` for Python's own exceptions. An error detail
  records which exception was raised, not its message.
- Key order in dicts: a dict is a `map`, so its insertion order is not modelled.
- Aliasing between records: the records are values. The model does not capture the
  Python list and the wrapping dict sharing one list object, nor a record appearing
  twice in the list. In either case the values after the loop are the same.
- `IdRepair.RewriteIds`: when a record raises, Python has already changed the
  earlier records of the client's own list. The model states this state exactly, but
  the results are thrown away once the exception propagates.
- Numbers are reals. The difference between Python's `int` and `float` is not
  modelled; it does not affect truthiness or any rule here.
- The scripts `test_scraper.py`, `check_student.py`, `test_api.py`,
  `test_caching.py`, `test_service.py` and `verify_deploy.py` are live-network and
  timing clients of the running service. They are not part of this model.
