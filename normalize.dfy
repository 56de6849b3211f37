/** The two response-shape normalisers of pddikti_service.py: the scraping client
    answers with a list, a dict wrapping a list under "data", or a single object. */
module Normalize {
  import opened Json

  /** The list `v["data"]` when `v` is a dict whose "data" entry is a list
      (`'data' in v and isinstance(v['data'], list)`). */
  function WrappedList(v: Json): Option<seq<Json>> {
    if v.Dict? && "data" in v.fields && v.fields["data"].List? then Some(v.fields["data"].items)
    else None
  }

  /** `normalize_response`: one record out of any shape; `Null` stands for `None`. */
  function NormalizeOne(response: Json): Json {
    if !Truthy(response) then Null
    else if response.List? then
      if |response.items| > 0 then response.items[0] else Null
    else if response.Dict? then
      match WrappedList(response)
      case Some(xs) => if |xs| > 0 then xs[0] else Null
      case None => response
    else Null
  }

  /** `normalize_list_response`: a list of records out of any shape. */
  function NormalizeList(response: Json): seq<Json> {
    if !Truthy(response) then []
    else if response.List? then response.items
    else if response.Dict? then
      match WrappedList(response)
      case Some(xs) => xs
      case None => []
    else []
  }

  /** Every falsy response (None, False, 0, "", [], {}) normalises to None and to []. */
  lemma FalsyNormalizesToNothing(response: Json)
    requires !Truthy(response)
    ensures NormalizeOne(response) == Null
    ensures NormalizeList(response) == []
  {
  }

  /** A non-empty list gives its first element, and is itself the list of records. */
  lemma ListResponse(xs: seq<Json>)
    requires xs != []
    ensures NormalizeOne(List(xs)) == xs[0]
    ensures NormalizeList(List(xs)) == xs
  {
  }

  /** A dict wrapping a list under "data" gives that list's first element (None when
      the list is empty) and that list; any other non-empty dict is itself the one
      record and gives no list. */
  lemma DictResponse(m: map<string, Json>)
    requires m != map[]
    ensures WrappedList(Dict(m)).Some? ==>
      var xs := m["data"].items;
      && NormalizeOne(Dict(m)) == (if xs != [] then xs[0] else Null)
      && NormalizeList(Dict(m)) == xs
    ensures WrappedList(Dict(m)).None? ==>
      NormalizeOne(Dict(m)) == Dict(m) && NormalizeList(Dict(m)) == []
  {
  }

  /** Truthy values that are neither lists nor dicts (True, a non-zero number, a
      non-empty string) normalise to None and to []. */
  lemma ScalarResponse(response: Json)
    requires !response.List? && !response.Dict?
    ensures NormalizeOne(response) == Null
    ensures NormalizeList(response) == []
  {
  }

  /** Normalising the list that `normalize_list_response` returned gives it back. */
  lemma NormalizeListIdempotent(response: Json)
    ensures NormalizeList(List(NormalizeList(response))) == NormalizeList(response)
  {
  }

  /** The two normalisers agree: the single record is the first of the records
      whenever there are any; when there are none, the single record is None unless
      the response is a non-empty dict that wraps no list, which is passed through. */
  lemma NormalizersAgree(response: Json)
    ensures var xs := NormalizeList(response);
      NormalizeOne(response) ==
        if xs != [] then xs[0]
        else if Truthy(response) && response.Dict? && WrappedList(response).None? then response
        else Null
  {
  }
}
