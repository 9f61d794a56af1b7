/** The convergence poller of the indexing test (`wait_for_indexing`) and
    the URL probe (`test_url`). Each GET is replaced by the response it
    received; a loop that the source runs without bound runs here over a
    finite sequence of responses, and running out of them is the explicit
    outcome Exhausted. */
module Convergence {
  import opened Http

  /** The created map: store uuid to the entity that was posted. */
  type CreatedMap = map<UuidField, Entity>

  /** How a polling loop ended. */
  datatype Status =
    | Done       // the loop's exit condition held
    | Crashed    // an exception escaped the loop (it is not caught anywhere)
    | Exhausted  // the responses ran out before the loop ended

  /** `queries` GETs were issued and `sleeps` sleeps taken. */
  datatype Report = Report(status: Status, queries: nat, sleeps: nat)

  /** `res.get('entities', [])` after `res = r.json()`: None when either
      raises (the body does not parse, or it is JSON but not an object).
      The status code is never looked at. */
  function PageOf(body: Body): (page: Option<seq<UuidField>>)
    ensures page.None? <==> GetRaises(body)
    ensures body.Entities? ==> page == Some(body.uuids)
    ensures body.NoEntities? ==> page == Some([])
  {
    match body
    case NotJson => None
    case NotObject => None
    case NoEntities => Some([])
    case Entities(uuids) => Some(uuids)
  }

  /** The keys of `entity_map = {entity.get('uuid'): entity for entity in
      entities}`: duplicates collapse, and only membership matters. */
  function EntityMap(page: seq<UuidField>): (keys: set<UuidField>)
    ensures forall u :: u in keys <==> u in page
    ensures |keys| <= |page|
    decreases |page|
  {
    if page == [] then {}
    else
      var prefix := page[..|page| - 1];
      assert page == prefix + [page[|page| - 1]];
      EntityMap(prefix) + {page[|page| - 1]}
  }

  /** The created uuids a page does not show. */
  function MissingSet(created: CreatedMap, page: seq<UuidField>): (missing: set<UuidField>)
    ensures forall u :: u in missing <==> u in created && u !in page
  {
    set u | u in created.Keys && u !in page
  }

  /** The missing uuids are the created keys outside `entity_map`. */
  lemma MissingSetOfEntityMap(created: CreatedMap, page: seq<UuidField>)
    ensures MissingSet(created, page) == created.Keys - EntityMap(page)
  {
  }

  /** The value `count_missing` takes for one page. */
  function MissingCount(created: CreatedMap, page: seq<UuidField>): (count: nat)
    ensures count <= |created|
    ensures count == 0 <==> forall u :: u in created ==> u in page
  {
    var missing := MissingSet(created, page);
    SubsetSize(missing, created.Keys);
    assert (forall u :: u in created ==> u in page) ==> missing == {};
    |missing|
  }

  lemma SubsetSize<T>(a: set<T>, b: set<T>)
    requires a <= b
    ensures |a| <= |b|
  {
    assert b == a + (b - a);
  }

  /** Visiting one more key adds it to the counted set exactly when it is missing. */
  lemma CountStep<T>(keys: set<T>, todo: set<T>, seen: set<T>, u: T)
    requires todo <= keys && u in todo
    ensures |(keys - (todo - {u})) - seen| == |(keys - todo) - seen| + (if u in seen then 0 else 1)
  {
    var before := (keys - todo) - seen;
    assert (keys - (todo - {u})) - seen == before + ({u} - seen);
    assert u !in before;
  }

  /** The inner loop of `wait_for_indexing`: for every created uuid not in
      `entity_map`, `count_missing += 1`. */
  method CountMissing(created: CreatedMap, page: seq<UuidField>) returns (count: nat)
    ensures count == MissingCount(created, page)
  {
    var entityMap := EntityMap(page);
    count := 0;
    var todo := created.Keys;
    while todo != {}
      invariant todo <= created.Keys
      invariant count == |(created.Keys - todo) - entityMap|
      decreases |todo|
    {
      var uuid :| uuid in todo;
      CountStep(created.Keys, todo, entityMap, uuid);
      if uuid !in entityMap {
        count := count + 1;
      }
      todo := todo - {uuid};
    }
    assert created.Keys - todo == created.Keys;
    MissingSetOfEntityMap(created, page);
  }

  /** The count a response yields, 0 for the response on which the loop crashes. */
  function MissingOf(created: CreatedMap, r: Response): nat {
    match PageOf(r.body)
    case None => 0
    case Some(page) => MissingCount(created, page)
  }

  /** A response ends `wait_for_indexing`: either its page shows every
      created uuid, or `r.json().get` raises on it. */
  predicate StopsWaiting(created: CreatedMap, r: Response) {
    PageOf(r.body).None? || MissingCount(created, PageOf(r.body).value) == 0
  }

  /** The number of responses `wait_for_indexing` consumes without stopping:
      `FirstStop` with `StopsWaiting`, written as a recursion of its own so
      that the loop proof of `WaitForIndexing` does not reason about a
      function value (`WaitStopIsFirstStop` relates the two). */
  function WaitStop(created: CreatedMap, responses: seq<Response>): (k: nat)
    ensures k <= |responses|
    ensures forall j :: 0 <= j < k ==> !StopsWaiting(created, responses[j])
    ensures k < |responses| ==> StopsWaiting(created, responses[k])
    decreases |responses|
  {
    if responses == [] then 0
    else if StopsWaiting(created, responses[0]) then 0
    else 1 + WaitStop(created, responses[1..])
  }

  /** The poller's stopping index is the first index at which `StopsWaiting` holds. */
  lemma {:induction false} WaitStopIsFirstStop(created: CreatedMap, responses: seq<Response>)
    ensures WaitStop(created, responses) == FirstStop(responses, r => StopsWaiting(created, r))
    decreases |responses|
  {
    if responses != [] && !StopsWaiting(created, responses[0]) {
      WaitStopIsFirstStop(created, responses[1..]);
    }
  }

  /** How `wait_for_indexing(created_map, q_url)` ends on these responses:
      it converges at the first page covering every created uuid, having
      slept once after each earlier query. */
  function Wait(created: CreatedMap, responses: seq<Response>): (rep: Report)
    ensures rep.queries <= |responses|
    ensures rep.status == Exhausted <==>
              (rep.queries == |responses| && forall j :: 0 <= j < |responses| ==> !StopsWaiting(created, responses[j]))
    ensures rep.status != Exhausted ==> rep.queries >= 1 && rep.sleeps == rep.queries - 1
    ensures rep.status == Exhausted ==> rep.sleeps == rep.queries
    ensures rep.status == Done <==>
              (rep.queries >= 1 && PageOf(responses[rep.queries - 1].body).Some? &&
               MissingCount(created, PageOf(responses[rep.queries - 1].body).value) == 0)
    ensures rep.status == Crashed <==> rep.queries >= 1 && GetRaises(responses[rep.queries - 1].body)
    ensures forall j :: 0 <= j < rep.queries - 1 ==>
      PageOf(responses[j].body).Some? && MissingCount(created, PageOf(responses[j].body).value) > 0
  {
    var k := WaitStop(created, responses);
    if k == |responses| then Report(Exhausted, k, k)
    else if GetRaises(responses[k].body) then Report(Crashed, k + 1, k)
    else Report(Done, k + 1, k)
  }

  /** The poller stops at response k when no earlier response stops it. */
  lemma WaitStopsAt(created: CreatedMap, responses: seq<Response>, k: nat)
    requires k <= |responses|
    requires forall j :: 0 <= j < k ==> !StopsWaiting(created, responses[j])
    requires k < |responses| ==> StopsWaiting(created, responses[k])
    ensures Wait(created, responses) ==
      if k == |responses| then Report(Exhausted, k, k)
      else if GetRaises(responses[k].body) then Report(Crashed, k + 1, k)
      else Report(Done, k + 1, k)
  {
  }

  /** The `count_missing` values of a run of pages, one per response. */
  function Trace(created: CreatedMap, responses: seq<Response>): (t: seq<nat>)
    ensures |t| == |responses|
    decreases |responses|
  {
    if responses == [] then []
    else Trace(created, responses[..|responses| - 1]) + [MissingOf(created, responses[|responses| - 1])]
  }

  /** Each entry of the trace is the count of its own response. */
  lemma {:induction false} TraceAt(created: CreatedMap, responses: seq<Response>)
    ensures forall j :: 0 <= j < |responses| ==> Trace(created, responses)[j] == MissingOf(created, responses[j])
    decreases |responses|
  {
    if responses != [] {
      var prefix := responses[..|responses| - 1];
      TraceAt(created, prefix);
      assert forall j :: 0 <= j < |prefix| ==> prefix[j] == responses[j];
    }
  }

  /** One more response extends the trace by its count. */
  lemma TraceStep(created: CreatedMap, responses: seq<Response>, i: nat)
    requires i < |responses|
    ensures Trace(created, responses[..i + 1]) == Trace(created, responses[..i]) + [MissingOf(created, responses[i])]
  {
    assert responses[..i + 1][..i] == responses[..i];
  }

  /** The trace of the first n responses, entry by entry. */
  lemma TraceOfPrefix(created: CreatedMap, responses: seq<Response>, n: nat)
    requires n <= |responses|
    ensures forall j :: 0 <= j < n ==> Trace(created, responses[..n])[j] == MissingOf(created, responses[j])
  {
    TraceAt(created, responses[..n]);
    assert forall j :: 0 <= j < n ==> responses[..n][j] == responses[j];
  }

  /** `wait_for_indexing`: poll until `count_missing` is 0. Also returns the
      `count_missing` of every page it computed one for. */
  method WaitForIndexing(created: CreatedMap, responses: seq<Response>)
    returns (report: Report, missing: seq<nat>)
    ensures report == Wait(created, responses)
    ensures |missing| == (if report.status == Crashed then report.queries - 1 else report.queries)
    ensures forall j :: 0 <= j < |missing| ==> missing[j] == MissingOf(created, responses[j])
  {
    var countMissing := 100;
    var i: nat := 0;
    var sleeps: nat := 0;
    missing := [];
    while countMissing > 0
      invariant i <= |responses| && |missing| == i
      invariant missing == Trace(created, responses[..i])
      invariant countMissing > 0 ==> sleeps == i && i <= WaitStop(created, responses)
      invariant countMissing == 0 ==> i >= 1 && sleeps == i - 1 && WaitStop(created, responses) == i - 1 &&
                                      !GetRaises(responses[i - 1].body)
      decreases |responses| - i
    {
      if i == |responses| {
        TraceOfPrefix(created, responses, i);
        return Report(Exhausted, i, sleeps), missing;
      }
      var page := PageOf(responses[i].body);
      if page.None? {
        assert StopsWaiting(created, responses[i]);
        TraceOfPrefix(created, responses, i);
        return Report(Crashed, i + 1, sleeps), missing;
      }
      countMissing := CountMissing(created, page.value);
      TraceStep(created, responses, i);
      missing := missing + [countMissing];
      i := i + 1;
      if countMissing > 0 {
        sleeps := sleeps + 1;
      }
    }
    TraceOfPrefix(created, responses, i);
    report := Report(Done, i, sleeps);
  }

  /** An empty created map (every create failed) is satisfied by the first
      body that is a JSON object: one query, no sleep. */
  lemma EmptyCreatedConvergesAtOnce(responses: seq<Response>)
    requires |responses| >= 1 && !GetRaises(responses[0].body)
    ensures Wait(map[], responses) == Report(Done, 1, 0)
  {
    assert StopsWaiting(map[], responses[0]);
  }

  /** A first page showing every created uuid: converged after one query. */
  lemma CoveringFirstPageConvergesAtOnce(created: CreatedMap, responses: seq<Response>)
    requires |responses| >= 1 && responses[0].body.Entities?
    requires forall u :: u in created ==> u in responses[0].body.uuids
    ensures Wait(created, responses) == Report(Done, 1, 0)
  {
    assert StopsWaiting(created, responses[0]);
  }

  /** Converging at the (k+1)-th query is exactly: k pages that miss something,
      then one that does not. */
  lemma ConvergesAtFirstCoveringPage(created: CreatedMap, responses: seq<Response>, k: nat)
    requires k < |responses|
    ensures Wait(created, responses) == Report(Done, k + 1, k) <==>
      (forall j :: 0 <= j < k ==> PageOf(responses[j].body).Some? && MissingOf(created, responses[j]) > 0) &&
      PageOf(responses[k].body).Some? && MissingOf(created, responses[k]) == 0
  {
    if (forall j :: 0 <= j < k ==> PageOf(responses[j].body).Some? && MissingOf(created, responses[j]) > 0) &&
       PageOf(responses[k].body).Some? && MissingOf(created, responses[k]) == 0
    {
      forall j | 0 <= j < k ensures !StopsWaiting(created, responses[j]) {
        assert MissingOf(created, responses[j]) > 0;
      }
      WaitStopsAt(created, responses, k);
    }
  }

  /** A page showing more uuids misses no more of them. */
  lemma MissingAntitone(created: CreatedMap, page1: seq<UuidField>, page2: seq<UuidField>)
    requires forall u :: u in page1 ==> u in page2
    ensures MissingCount(created, page2) <= MissingCount(created, page1)
  {
    SubsetSize(MissingSet(created, page2), MissingSet(created, page1));
  }

  /** While the index only grows, the counts the poller computes never grow. */
  lemma MissingNeverGrows(created: CreatedMap, responses: seq<Response>, i: nat, j: nat)
    requires i <= j < |responses|
    requires PageOf(responses[i].body).Some? && PageOf(responses[j].body).Some?
    requires forall u :: u in PageOf(responses[i].body).value ==> u in PageOf(responses[j].body).value
    ensures MissingOf(created, responses[j]) <= MissingOf(created, responses[i])
  {
    MissingAntitone(created, PageOf(responses[i].body).value, PageOf(responses[j].body).value);
  }

  /** The outcome depends only on the responses up to the stop. */
  lemma WaitIgnoresLaterResponses(created: CreatedMap, responses: seq<Response>, extra: seq<Response>)
    requires Wait(created, responses).status != Exhausted
    ensures Wait(created, responses + extra) == Wait(created, responses)
  {
    WaitStopIsFirstStop(created, responses);
    WaitStopIsFirstStop(created, responses + extra);
    FirstStopPrefix(responses, extra, r => StopsWaiting(created, r));
  }

  /** `test_url` stops on a 200 response: on a non-empty `entities` list it
      passes; on a body that is not JSON, is JSON but not an object (so that
      `.get` raises), or has no `entities` field (so that `len(None)`
      raises), it crashes. A non-200 response is retried. */
  predicate StopsUrlTest(r: Response) {
    r.status == OK && (r.body.Entities? ==> |r.body.uuids| >= 1)
  }

  /** A response on which `test_url` passes. */
  predicate PassesUrlTest(r: Response) {
    r.status == OK && r.body.Entities? && |r.body.uuids| >= 1
  }

  /** How `test_url(q_url)` ends on these responses. */
  function UrlTest(responses: seq<Response>): (rep: Report)
    ensures rep.queries <= |responses|
    ensures rep.status == Exhausted ==> rep.queries == rep.sleeps == |responses|
    ensures rep.status != Exhausted ==> rep.queries >= 1 && rep.sleeps == rep.queries - 1
    ensures rep.status == Done <==> rep.queries >= 1 && PassesUrlTest(responses[rep.queries - 1])
    ensures rep.status == Crashed <==>
              (rep.queries >= 1 && StopsUrlTest(responses[rep.queries - 1]) && !PassesUrlTest(responses[rep.queries - 1]))
    ensures forall j :: 0 <= j < rep.queries - 1 ==> !StopsUrlTest(responses[j])
  {
    var k := FirstStop(responses, StopsUrlTest);
    if k == |responses| then Report(Exhausted, k, k)
    else if PassesUrlTest(responses[k]) then Report(Done, k + 1, k)
    else Report(Crashed, k + 1, k)
  }

  /** `test_url`: GET until a 200 response lists at least one entity,
      sleeping after every other response. */
  method TestUrl(responses: seq<Response>) returns (report: Report)
    ensures report == UrlTest(responses)
  {
    var testVar := false;
    var i := 0;
    var sleeps := 0;
    while !testVar
      invariant 0 <= i <= |responses|
      invariant !testVar ==> sleeps == i && forall j :: 0 <= j < i ==> !StopsUrlTest(responses[j])
      invariant testVar ==> i >= 1 && sleeps == i - 1 && PassesUrlTest(responses[i - 1])
      invariant testVar ==> forall j :: 0 <= j < i - 1 ==> !StopsUrlTest(responses[j])
      decreases |responses| - i, if testVar then 0 else 1
    {
      if i == |responses| {
        FirstStopUnique(responses, StopsUrlTest, i);
        report := Report(Exhausted, i, sleeps);
        return;
      }
      var r := responses[i];
      i := i + 1;
      if r.status == OK {
        match r.body {
          case NotJson =>
            FirstStopUnique(responses, StopsUrlTest, i - 1);
            report := Report(Crashed, i, sleeps);
            return;
          case NotObject =>
            FirstStopUnique(responses, StopsUrlTest, i - 1);
            report := Report(Crashed, i, sleeps);
            return;
          case NoEntities =>
            FirstStopUnique(responses, StopsUrlTest, i - 1);
            report := Report(Crashed, i, sleeps);
            return;
          case Entities(uuids) =>
            if |uuids| >= 1 {
              testVar := true;
            }
        }
      }
      if !testVar {
        sleeps := sleeps + 1;
      }
    }
    FirstStopUnique(responses, StopsUrlTest, i - 1);
    report := Report(Done, i, sleeps);
  }
}
