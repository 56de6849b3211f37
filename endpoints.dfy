/** The HTTP endpoints of pddikti_service.py and the university-detail fallback.
    Every cached function is a function of its key, so each endpoint takes the outcome
    of its cached call (the value returned, or the exception raised) as an input. */
module Endpoints {
  import opened Json
  import opened Normalize
  import opened IdRepair

  /** The "detail" of an HTTP error: a fixed message, or `str(e)` of an exception. */
  datatype Detail = Message(text: string) | FromException(error: Exception)

  /** What an endpoint answers: a JSON body with status 200, or an `HTTPException`. */
  datatype Response = Body(body: Json) | HttpError(status: int, detail: Detail)

  /** `{"data": normalized, "count": len(normalized)}` */
  function SearchEnvelope(results: Json): Json {
    var data := NormalizeList(results);
    Dict(map["data" := List(data), "count" := Num(|data| as real)])
  }

  /** `search_mahasiswa`, `search_dosen` and `search_university`: the envelope of the
      normalised results, or status 500 when the cached call raised. */
  function SearchEndpoint(cached: Outcome<Json>): Response {
    match cached
    case Returned(results) => Body(SearchEnvelope(results))
    case Raised(e) => HttpError(500, FromException(e))
  }

  /** `cached_search_pt`: the client's results with their ids repaired; an exception
      of the client or of the repair propagates. */
  function CachedSearchPt(client: Outcome<Json>): Outcome<Json> {
    match client
    case Returned(results) => RepairIds(results)
    case Raised(e) => Raised(e)
  }

  /** `get_detail_mahasiswa`: the record, 404 "Student not found" when it is falsy,
      500 when the cached call raised. */
  function DetailMahasiswa(cached: Outcome<Json>): Response {
    match cached
    case Raised(e) => HttpError(500, FromException(e))
    case Returned(result) =>
      if !Truthy(result) then HttpError(404, Message("Student not found"))
      else Body(result)
  }

  /** `get_detail_dosen` and `get_detail_university`: the record, `{}` when it is
      falsy, 500 when the cached call raised. */
  function DetailOrEmpty(cached: Outcome<Json>): Response {
    match cached
    case Raised(e) => HttpError(500, FromException(e))
    case Returned(result) => Body(if Truthy(result) then result else EmptyDict)
  }

  /** The "partial" university record built when the detail endpoint of the client
      gives nothing, from the student statistics and the logo. */
  function Fallback(id: string, stats: map<string, Json>, logo: Json): Json {
    Dict(map[
      "id" := Str(id),
      "nama_pt" := Str("Data Universitas (Limited)"),
      "kode_pt" := (if "kode_pt" in stats then stats["kode_pt"] else Str("-")),
      "status_pt" := Str("Aktif"),
      "alamat" := Str("Alamat tidak tersedia (Endpoint utama bermasalah)"),
      "website" := Str("-"),
      "email" := Str("-"),
      "jumlah_mahasiswa" := (if "mean_jumlah_baru" in stats then stats["mean_jumlah_baru"] else Num(0.0)),
      "logo_base64" := logo,
      "fallback_mode" := Bool(true)
    ])
  }

  /** `cached_get_detail_pt`: the client's detail when it is truthy, otherwise the
      fallback record.  `session` is the exception, if any, of the `with api()`
      statement itself (creating, entering or leaving the client): it lies outside
      the `try` and propagates.  Every exception raised inside the `try` is caught
      and gives None: one raised by `get_detail_pt`, `get_mahasiswa_pt` or
      `get_logo_pt`, and the AttributeError of `stats.get` when the statistics are a
      truthy value that is not a dict.  The statistics and the logo are only asked
      for when the detail is falsy. */
  function CachedDetailPt(id: string, session: Option<Exception>, detail: Outcome<Json>,
                          stats: Outcome<Json>, logo: Outcome<Json>): Outcome<Json> {
    if session.Some? then Raised(session.value)
    else
      match detail
      case Raised(_) => Returned(Null)
      case Returned(d) =>
        if Truthy(d) then Returned(d)
        else
          match stats
          case Raised(_) => Returned(Null)
          case Returned(s) =>
            var st := if Truthy(s) then s else EmptyDict;
            match logo
            case Raised(_) => Returned(Null)
            case Returned(l) => Returned(if st.Dict? then Fallback(id, st.fields, l) else Null)
  }

  /** Every search envelope holds exactly the keys "data" and "count", "data" is the
      normalised list and "count" its length; a raising call gives status 500. */
  lemma SearchEnvelopeCount(cached: Outcome<Json>)
    ensures cached.Raised? ==> SearchEndpoint(cached) == HttpError(500, FromException(cached.error))
    ensures cached.Returned? ==>
      var body := SearchEndpoint(cached).body;
      var data := NormalizeList(cached.value);
      && SearchEndpoint(cached).Body?
      && body.Dict? && body.fields.Keys == {"data", "count"}
      && body.fields["data"] == List(data)
      && body.fields["count"] == Num(|data| as real)
  {
  }

  /** The university search counts exactly the records the client returned, each with
      its id repaired; an exception of the client or of the repair gives status 500. */
  lemma UniversitySearchCount(client: Outcome<Json>)
    ensures CachedSearchPt(client).Raised? ==>
      SearchEndpoint(CachedSearchPt(client)) == HttpError(500, FromException(CachedSearchPt(client).error))
    ensures CachedSearchPt(client).Returned? ==>
      var records := NormalizeList(client.value);
      var body := SearchEndpoint(CachedSearchPt(client)).body;
      && body.fields["count"] == Num(|records| as real)
      && body.fields["data"] == List(RewriteEach(records))
  {
    if CachedSearchPt(client).Returned? {
      var after := CachedSearchPt(client).value;
      RepairRewritesRecords(client.value);
      assert NormalizeList(after) == RewriteEach(NormalizeList(client.value));
    }
  }

  /** The student detail is 404 exactly when the record is falsy, the record itself
      exactly when it is truthy, and 500 exactly when the call raised. */
  lemma StudentDetailNotFound(cached: Outcome<Json>)
    ensures DetailMahasiswa(cached) == HttpError(404, Message("Student not found")) <==>
      cached.Returned? && !Truthy(cached.value)
    ensures DetailMahasiswa(cached).Body? <==> cached.Returned? && Truthy(cached.value)
    ensures DetailMahasiswa(cached).Body? ==> DetailMahasiswa(cached).body == cached.value
    ensures DetailMahasiswa(cached).HttpError? && DetailMahasiswa(cached).status == 500 <==> cached.Raised?
  {
  }

  /** The lecturer and university details answer `{}` for every falsy record and the
      record itself otherwise; they never answer 404. */
  lemma DetailDefaultsToEmpty(cached: Outcome<Json>)
    ensures cached.Returned? ==> DetailOrEmpty(cached).Body?
    ensures cached.Returned? && !Truthy(cached.value) ==> DetailOrEmpty(cached) == Body(EmptyDict)
    ensures cached.Returned? && Truthy(cached.value) ==> DetailOrEmpty(cached) == Body(cached.value)
    ensures DetailOrEmpty(cached).HttpError? ==> DetailOrEmpty(cached).status == 500
  {
  }

  /** The fallback record has exactly ten keys. */
  lemma FallbackKeys(id: string, stats: map<string, Json>, logo: Json)
    ensures Fallback(id, stats, logo).fields.Keys ==
      {"id", "nama_pt", "kode_pt", "status_pt", "alamat", "website", "email",
       "jumlah_mahasiswa", "logo_base64", "fallback_mode"}
  {
  }

  /** The fallback record: the requested id, `fallback_mode` True, the logo as given,
      and "kode_pt" and "jumlah_mahasiswa" from the statistics with "-" and 0 as
      defaults. */
  lemma FallbackFields(id: string, stats: map<string, Json>, logo: Json)
    ensures var f := Fallback(id, stats, logo).fields;
      && f["id"] == Str(id)
      && f["fallback_mode"] == Bool(true)
      && f["logo_base64"] == logo
      && f["kode_pt"] == (if "kode_pt" in stats then stats["kode_pt"] else Str("-"))
      && f["jumlah_mahasiswa"] == (if "mean_jumlah_baru" in stats then stats["mean_jumlah_baru"] else Num(0.0))
  {
  }

  /** The fallback record is truthy, so an endpoint serves it rather than `{}`. */
  lemma FallbackIsTruthy(id: string, stats: map<string, Json>, logo: Json)
    ensures Truthy(Fallback(id, stats, logo))
  {
    DictTruthiness(Fallback(id, stats, logo).fields, "id");
  }

  /** A truthy detail is returned unchanged, whatever the statistics and the logo. */
  lemma TruthyDetailWins(id: string, d: Json, stats: Outcome<Json>, logo: Outcome<Json>)
    requires Truthy(d)
    ensures CachedDetailPt(id, None, Returned(d), stats, logo) == Returned(d)
    ensures DetailOrEmpty(CachedDetailPt(id, None, Returned(d), stats, logo)) == Body(d)
  {
  }

  /** When the detail is falsy and the statistics and logo arrive, the university
      endpoint serves the fallback record, with falsy statistics read as `{}`.  A
      truthy statistics value that is not a dict makes `stats.get` raise, which gives
      None and so `{}`. */
  lemma FallbackServed(id: string, d: Json, s: Json, l: Json)
    requires !Truthy(d)
    ensures !Truthy(s) ==>
      DetailOrEmpty(CachedDetailPt(id, None, Returned(d), Returned(s), Returned(l))) == Body(Fallback(id, map[], l))
    ensures Truthy(s) && s.Dict? ==>
      DetailOrEmpty(CachedDetailPt(id, None, Returned(d), Returned(s), Returned(l))) == Body(Fallback(id, s.fields, l))
    ensures Truthy(s) && !s.Dict? ==>
      DetailOrEmpty(CachedDetailPt(id, None, Returned(d), Returned(s), Returned(l))) == Body(EmptyDict)
  {
    if !Truthy(s) {
      FallbackIsTruthy(id, map[], l);
    } else if s.Dict? {
      FallbackIsTruthy(id, s.fields, l);
    }
  }

  /** Any exception raised inside the `try` of `cached_get_detail_pt` ends in `{}` at
      the endpoint. */
  lemma DetailExceptionsGiveEmpty(id: string, detail: Outcome<Json>, stats: Outcome<Json>, logo: Outcome<Json>)
    requires detail.Raised? || (!Truthy(detail.value) && (stats.Raised? || logo.Raised?))
    ensures CachedDetailPt(id, None, detail, stats, logo) == Returned(Null)
    ensures DetailOrEmpty(CachedDetailPt(id, None, detail, stats, logo)) == Body(EmptyDict)
  {
  }

  /** `cached_get_detail_pt` raises exactly when the `with api()` statement does, with
      its exception, and the university endpoint then answers 500. */
  lemma DetailRaisesOnlyFromSession(id: string, session: Option<Exception>, detail: Outcome<Json>,
                                    stats: Outcome<Json>, logo: Outcome<Json>)
    ensures CachedDetailPt(id, session, detail, stats, logo).Raised? <==> session.Some?
    ensures session.Some? ==>
      DetailOrEmpty(CachedDetailPt(id, session, detail, stats, logo)) == HttpError(500, FromException(session.value))
    ensures session.None? ==> DetailOrEmpty(CachedDetailPt(id, session, detail, stats, logo)).Body?
  {
  }
}
