/** The id repair that `cached_search_pt` applies to university search results: the
    client puts the university's name in "id", and the real id is the text after
    "/data_pt/" in the record's "website_link".  The Python loop overwrites "id" in
    place in each record of the result list; here the list is an array of records. */
module IdRepair {
  import opened Json
  import opened Text
  import opened Normalize

  const DataPt: string := "/data_pt/"
  const WebsiteLink: string := "website_link"
  const IdKey: string := "id"

  /** What the loop body does with one item: nothing, overwrite "id", or raise. */
  datatype Step = Keep | SetId(id: string) | Fail(error: Exception)

  /** `'/data_pt/' in link` followed, when true, by `link.split('/data_pt/')[-1]`. */
  function LinkStep(link: Json): Step {
    match link
    case Str(s) => if Contains(s, DataPt) then SetId(LastPiece(s, DataPt)) else Keep
    // `in` on a list tests membership, and a list has no `split`
    case List(xs) => if Str(DataPt) in xs then Fail(AttributeError) else Keep
    // `in` on a dict tests its keys, and a dict has no `split`
    case Dict(m) => if DataPt in m then Fail(AttributeError) else Keep
    // `in` on None, a bool or a number is a TypeError
    case _ => Fail(TypeError)
  }

  /** `if 'website_link' in item and '/data_pt/' in item['website_link']: ...` */
  function ItemStep(item: Json): Step {
    match item
    case Dict(m) => if WebsiteLink in m then LinkStep(m[WebsiteLink]) else Keep
    // a string item: substring test, then indexing a string by a string fails
    case Str(s) => if Contains(s, WebsiteLink) then Fail(TypeError) else Keep
    // a list item: membership test, then indexing a list by a string fails
    case List(xs) => if Str(WebsiteLink) in xs then Fail(TypeError) else Keep
    case _ => Fail(TypeError)
  }

  /** One item after the loop body has run on it without raising. */
  function Rewrite(item: Json): Json {
    match item
    case Dict(m) =>
      (match ItemStep(item)
       case SetId(id) => Dict(m[IdKey := Str(id)])
       case _ => item)
    case _ => item
  }

  /** Every item rewritten, in order. */
  function RewriteEach(items: seq<Json>): (r: seq<Json>)
    ensures |r| == |items|
    ensures forall j :: 0 <= j < |items| ==> r[j] == Rewrite(items[j])
  {
    seq(|items|, j requires 0 <= j < |items| => Rewrite(items[j]))
  }

  /** The exception of the first item whose loop body raises, if any. */
  function FirstFailure(items: seq<Json>): Option<Exception> {
    if items == [] then None
    else if ItemStep(items[0]).Fail? then Some(ItemStep(items[0]).error)
    else FirstFailure(items[1..])
  }

  /** The list as the loop leaves it: items rewritten up to the first one that raises,
      that one and the rest untouched. */
  function RewriteUntilFailure(items: seq<Json>): seq<Json> {
    if items == [] then []
    else if ItemStep(items[0]).Fail? then items
    else [Rewrite(items[0])] + RewriteUntilFailure(items[1..])
  }

  /** Rewriting a list with a first item rewrites that item, then the rest. */
  lemma RewriteEachCons(items: seq<Json>)
    requires items != []
    ensures RewriteEach(items) == [Rewrite(items[0])] + RewriteEach(items[1..])
  {
    var lhs := RewriteEach(items);
    var rhs := [Rewrite(items[0])] + RewriteEach(items[1..]);
    assert |lhs| == |rhs|;
    forall j | 0 <= j < |lhs| ensures lhs[j] == rhs[j] {
      if j > 0 {
        assert items[1..][j - 1] == items[j];
      }
    }
  }

  /** The state of the loop over `items` after `i` items, the list being `cur`: the
      items from `i` on are untouched, and the first `i` items decided neither
      whether the loop raises nor how the rest is treated. */
  predicate Passed(items: seq<Json>, i: nat, cur: seq<Json>) {
    && i <= |items| == |cur|
    && cur[i..] == items[i..]
    && FirstFailure(items) == FirstFailure(items[i..])
    && RewriteUntilFailure(items) == cur[..i] + RewriteUntilFailure(items[i..])
  }

  /** No item passed yet. */
  lemma PassedStart(items: seq<Json>)
    ensures Passed(items, 0, items)
  {
    assert items[0..] == items;
  }

  /** An item that does not raise is rewritten in place, and the loop passes it. */
  lemma PassedStep(items: seq<Json>, i: nat, cur: seq<Json>)
    requires Passed(items, i, cur) && i < |items|
    requires !ItemStep(items[i]).Fail?
    ensures Passed(items, i + 1, cur[i := Rewrite(items[i])])
  {
    var next := cur[i := Rewrite(items[i])];
    assert items[i..][0] == items[i];
    assert items[i..][1..] == items[i + 1..];
    var rest := RewriteUntilFailure(items[i + 1..]);
    assert RewriteUntilFailure(items[i..]) == [Rewrite(items[i])] + rest;
    assert next[..i + 1] == cur[..i] + [Rewrite(items[i])];
    assert cur[..i] + ([Rewrite(items[i])] + rest) == (cur[..i] + [Rewrite(items[i])]) + rest;
    assert next[i + 1..] == cur[i + 1..];
  }

  /** An item that raises stops the loop with its exception, leaving it and the rest
      untouched. */
  lemma PassedFails(items: seq<Json>, i: nat, cur: seq<Json>)
    requires Passed(items, i, cur) && i < |items|
    requires ItemStep(items[i]).Fail?
    ensures FirstFailure(items) == Some(ItemStep(items[i]).error)
    ensures cur == RewriteUntilFailure(items)
  {
    assert items[i..][0] == items[i];
    assert cur == cur[..i] + cur[i..];
  }

  /** Once every item is passed, none raised and the list is as the loop leaves it. */
  lemma PassedAll(items: seq<Json>, cur: seq<Json>)
    requires Passed(items, |items|, cur)
    ensures FirstFailure(items) == None
    ensures cur == RewriteUntilFailure(items)
  {
    var rest := items[|items|..];
    assert rest == [];
    assert FirstFailure(rest) == None && RewriteUntilFailure(rest) == [];
    assert cur[..|items|] == cur;
  }

  /** The loop raises exactly when some item raises, and then with the exception of
      the first such item; otherwise every item is rewritten. */
  lemma {:induction false} FirstFailureSpec(items: seq<Json>)
    ensures FirstFailure(items).None? <==> forall j :: 0 <= j < |items| ==> !ItemStep(items[j]).Fail?
    ensures FirstFailure(items).Some? ==>
      exists k :: 0 <= k < |items| && ItemStep(items[k]) == Fail(FirstFailure(items).value)
                  && forall j :: 0 <= j < k ==> !ItemStep(items[j]).Fail?
    ensures FirstFailure(items).None? ==> RewriteUntilFailure(items) == RewriteEach(items)
  {
    if items != [] {
      var tail := items[1..];
      FirstFailureSpec(tail);
      if !ItemStep(items[0]).Fail? {
        assert forall j :: 1 <= j < |items| ==> items[j] == tail[j - 1];
        if FirstFailure(items).Some? {
          var k :| 0 <= k < |tail| && ItemStep(tail[k]) == Fail(FirstFailure(tail).value)
                   && forall j :: 0 <= j < k ==> !ItemStep(tail[j]).Fail?;
          assert ItemStep(items[k + 1]) == Fail(FirstFailure(items).value);
        } else {
          RewriteEachCons(items);
        }
      } else {
        assert ItemStep(items[0]) == Fail(FirstFailure(items).value);
      }
    }
  }

  /** An item gets a new "id" exactly when it is a dict whose "website_link" is a
      string containing "/data_pt/"; every other item that does not raise is left as
      it was. */
  lemma SetIdIff(item: Json)
    ensures ItemStep(item).SetId? <==>
      item.Dict? && WebsiteLink in item.fields && item.fields[WebsiteLink].Str?
      && Contains(item.fields[WebsiteLink].s, DataPt)
    ensures !ItemStep(item).SetId? ==> Rewrite(item) == item
  {
  }

  /** The rewrite changes the "id" key and nothing else: every other key keeps its
      value, and "id" is the only key that can appear. */
  lemma RewriteChangesOnlyId(item: Json)
    requires item.Dict?
    ensures Rewrite(item).Dict?
    ensures Rewrite(item).fields.Keys <= item.fields.Keys + {IdKey}
    ensures item.fields.Keys <= Rewrite(item).fields.Keys
    ensures forall k :: k in item.fields && k != IdKey ==> Rewrite(item).fields[k] == item.fields[k]
  {
  }

  /** The new "id" is the last piece of the link split at "/data_pt/": it holds no
      "/data_pt/", and the link is some prefix, then "/data_pt/", then the new id. */
  lemma NewIdFromLink(item: Json)
    requires ItemStep(item).SetId?
    ensures item.Dict? && WebsiteLink in item.fields && item.fields[WebsiteLink].Str?
    ensures var link := item.fields[WebsiteLink].s;
      var id := ItemStep(item).id;
      && Rewrite(item).fields[IdKey] == Str(id)
      && id == LastPiece(link, DataPt)
      && !Contains(id, DataPt)
      && |id| + |DataPt| <= |link|
      && link == link[..|link| - |id| - |DataPt|] + DataPt + id
  {
    var link := item.fields[WebsiteLink].s;
    var id := ItemStep(item).id;
    LastPieceHasNoSeparator(link, DataPt);
    LastPieceFollowsSeparator(link, DataPt);
  }

  /** A record whose "website_link" is "/data_pt/" followed by an id without
      "/data_pt/" gets exactly that id, whatever its "id" was. */
  lemma RealIdFromLink(m: map<string, Json>, realId: string)
    requires !Contains(realId, DataPt)
    ensures Rewrite(Dict(m[WebsiteLink := Str(DataPt + realId)])) ==
            Dict(m[WebsiteLink := Str(DataPt + realId)][IdKey := Str(realId)])
  {
    var link := DataPt + realId;
    LastPieceAfterSeparator(DataPt, realId);
    assert OccursAt(link, DataPt, 0);
  }

  /** `split` resumes after each cut, so when two occurrences of "/data_pt/" overlap
      the new id is not the text after the last occurrence: for
      "/data_pt/data_pt/" the id is "data_pt/", although "/data_pt/" also occurs at
      index 8, after which nothing is left. */
  lemma OverlappingSeparators()
    ensures LastPiece("/data_pt/data_pt/", DataPt) == "data_pt/"
    ensures OccursAt("/data_pt/data_pt/", DataPt, 8)
  {
    var s := "/data_pt/data_pt/";
    assert OccursAt(s, DataPt, 0);
    assert FindFrom(s, DataPt, 9) == -1;
    assert LastCut(s, DataPt, 0) == 9;
    assert s[9..] == "data_pt/";
  }

  /** Records that are dicts whose "website_link", if present, is a string never make
      the loop raise. */
  lemma WellFormedRecordsNeverRaise(items: seq<Json>)
    requires forall j :: 0 <= j < |items| ==>
      items[j].Dict? && (WebsiteLink in items[j].fields ==> items[j].fields[WebsiteLink].Str?)
    ensures FirstFailure(items).None?
  {
    FirstFailureSpec(items);
  }

  /** The `for item in data_list` loop: rewrites the items in place, stopping at the
      first item that raises and reporting its exception. */
  method RewriteIds(a: array<Json>) returns (failure: Option<Exception>)
    modifies a
    ensures failure == FirstFailure(old(a[..]))
    ensures a[..] == RewriteUntilFailure(old(a[..]))
  {
    ghost var items := a[..];
    PassedStart(items);
    var i := 0;
    while i < a.Length
      invariant Passed(items, i, a[..])
    {
      var item := a[i];
      assert item == items[i];
      match ItemStep(item) {
        case Fail(e) =>
          PassedFails(items, i, a[..]);
          return Some(e);
        case SetId(id) =>
          PassedStep(items, i, a[..]);
          a[i] := Dict(item.fields[IdKey := Str(id)]);
        case Keep =>
          PassedStep(items, i, a[..]);
          assert a[..] == a[..][i := Rewrite(items[i])];
      }
      i := i + 1;
    }
    PassedAll(items, a[..]);
    failure := None;
  }

  /** The body of `cached_search_pt` after the client call: the results themselves,
      with "id" repaired in every record of the list they are or wrap, or the
      exception the repair raised. */
  function RepairIds(results: Json): Outcome<Json> {
    var items := NormalizeList(results);
    match FirstFailure(items)
    case Some(e) => Raised(e)
    case None =>
      if !Truthy(results) then Returned(results)
      else if results.List? then Returned(List(RewriteEach(items)))
      else if WrappedList(results).Some? then Returned(Dict(results.fields["data" := List(RewriteEach(items))]))
      else Returned(results)
  }

  /** `cached_search_pt` once the client has returned `results`: picks the list to walk
      (`data_list`), runs the loop over it in place and returns the results. */
  method RepairIdsInPlace(results: Json) returns (r: Outcome<Json>)
    ensures r == RepairIds(results)
  {
    if !Truthy(results) {
      return Returned(results);
    }
    var dataList: seq<Json> := [];
    if results.List? {
      dataList := results.items;
    } else if results.Dict? && "data" in results.fields && results.fields["data"].List? {
      dataList := results.fields["data"].items;
    }
    assert dataList == NormalizeList(results);
    var a := new Json[|dataList|](j requires 0 <= j < |dataList| => dataList[j]);
    assert a[..] == dataList;
    var failure := RewriteIds(a);
    if failure.Some? {
      return Raised(failure.value);
    }
    FirstFailureSpec(dataList);
    if results.List? {
      r := Returned(List(a[..]));
    } else if results.Dict? && "data" in results.fields && results.fields["data"].List? {
      r := Returned(Dict(results.fields["data" := List(a[..])]));
    } else {
      r := Returned(results);
    }
  }

  /** Falsy results, and truthy results that are neither a list nor a dict wrapping a
      list under "data", come back untouched. */
  lemma RepairLeavesOtherShapes(results: Json)
    requires !Truthy(results) || (!results.List? && WrappedList(results).None?)
    ensures RepairIds(results) == Returned(results)
  {
  }

  /** The repair raises exactly when the loop body raises on some record of the list
      that the results are or wrap, and then with the first such record's exception. */
  lemma RepairRaisesIff(results: Json)
    ensures RepairIds(results).Raised? <==>
      exists j :: 0 <= j < |NormalizeList(results)| && ItemStep(NormalizeList(results)[j]).Fail?
    ensures RepairIds(results).Raised? ==> Some(RepairIds(results).error) == FirstFailure(NormalizeList(results))
  {
    FirstFailureSpec(NormalizeList(results));
  }

  /** After a repair that does not raise, the list of records has the same length and
      order, each record being the rewritten record at its position; the shape of the
      results and every key of a wrapping dict other than "data" are unchanged. */
  lemma RepairRewritesRecords(results: Json)
    requires RepairIds(results).Returned?
    ensures var after := RepairIds(results).value;
      && |NormalizeList(after)| == |NormalizeList(results)|
      && (forall j :: 0 <= j < |NormalizeList(results)| ==>
            NormalizeList(after)[j] == Rewrite(NormalizeList(results)[j]))
      && after.List? == results.List? && after.Dict? == results.Dict?
      && (after.Dict? ==>
            && after.fields.Keys == results.fields.Keys
            && forall k :: k in after.fields && k != "data" ==> after.fields[k] == results.fields[k])
  {
    var after := RepairIds(results).value;
    var items := NormalizeList(results);
    if Truthy(results) && results.List? && items != [] {
      assert NormalizeList(after) == RewriteEach(items);
    } else if Truthy(results) && WrappedList(results).Some? {
      assert WrappedList(after) == Some(RewriteEach(items));
      assert Truthy(after) by {
        DictTruthiness(after.fields, "data");
      }
    }
  }
}
