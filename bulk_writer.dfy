/** The bulk writer of the indexing test: `test_multiple` builds one work
    item per entity, `create_entity` posts each one, and the `created_map`
    comprehension is meant to keep the successful creates keyed by uuid.
    As written it raises on the first failed create (`CreatedMapAsWritten`);
    `test_multiple` here is stated with the intended filter (`CreatedMap`). The HTTP POSTs
    are replaced by the responses they received, given in work-item order
    (the order in which the worker pool's `map` returns its results). */
module BulkWriter {
  import opened Http
  import Decimal

  const IdField: string := "id"

  /** `(url, entity)`: one create request. */
  datatype WorkItem = WorkItem(url: string, entity: Entity)

  /** `(uuid, entity)`: what a successful create returns. */
  datatype Created = Created(uuid: UuidField, entity: Entity)

  /** The work item for logical id `x`: a copy of the template whose `id`
      field is `str(x)`, addressed to the collection URL. */
  function ItemFor(url: string, template: Entity, x: nat): (w: WorkItem)
    ensures w.url == url
    ensures w.entity.Keys == template.Keys + {IdField}
    ensures w.entity[IdField] == JStr(Decimal.NatToString(x))
    ensures forall k :: k in template && k != IdField ==> w.entity[k] == template[k]
  {
    WorkItem(url, template[IdField := JStr(Decimal.NatToString(x))])
  }

  /** The loop of `test_multiple`: items for ids 1..n, in order. The template
      is a value, so (as with `.copy()` in the source) no item aliases it. */
  method BuildWorkItems(n: nat, url: string, template: Entity) returns (items: seq<WorkItem>)
    ensures |items| == n
    ensures forall i :: 0 <= i < n ==> items[i] == ItemFor(url, template, i + 1)
  {
    items := [];
    for x := 1 to n + 1
      invariant |items| == x - 1
      invariant forall i :: 0 <= i < x - 1 ==> items[i] == ItemFor(url, template, i + 1)
    {
      var entity := template[IdField := JStr(Decimal.NatToString(x))];
      items := items + [WorkItem(url, entity)];
    }
  }

  /** Distinct work items carry distinct ids. */
  lemma ItemIdsDistinct(url: string, template: Entity, x: nat, y: nat)
    requires x != y
    ensures ItemFor(url, template, x).entity[IdField] != ItemFor(url, template, y).entity[IdField]
  {
    Decimal.NatToStringInjective(x, y);
  }

  /** True when `create_entity` returns `(uuid, entity)` for this response:
      HTTP 200 with a non-empty `entities` list. Anything else returns None,
      either explicitly (non-200) or through the caught exception (a body that
      is not JSON or not a JSON object, where `.get` raises, or an empty or
      missing `entities` list, where `entities[0]` raises). */
  predicate CreateSucceeds(r: Response) {
    r.status == OK && r.body.Entities? && |r.body.uuids| > 0
  }

  /** `create_entity(work_item)` given the response to its POST. */
  function CreateEntity(item: WorkItem, r: Response): (res: Option<Created>)
    ensures res.Some? <==> CreateSucceeds(r)
    ensures res.Some? ==> res.value.uuid == r.body.uuids[0] && res.value.entity == item.entity
  {
    if r.status != OK then None
    else match r.body
      case NotJson => None
      case NotObject => None
      case NoEntities => None
      case Entities(uuids) =>
        if |uuids| == 0 then None else Some(Created(uuids[0], item.entity))
  }

  /** The uuids of the successful results. */
  function SucceededUuids(results: seq<Option<Created>>): set<UuidField> {
    set i | 0 <= i < |results| && results[i].Some? :: results[i].value.uuid
  }

  /** The `created_map` comprehension with its evidently intended filter:
      failed results are skipped, and a later result for the same uuid
      replaces an earlier one, as in a Python dict comprehension. */
  function CreatedMap(results: seq<Option<Created>>): (m: map<UuidField, Entity>)
    ensures m.Keys == SucceededUuids(results)
    ensures |m| <= |results|
    decreases |results|
  {
    if results == [] then map[]
    else
      var prev := CreatedMap(results[..|results| - 1]);
      var last := results[|results| - 1];
      assert forall i :: 0 <= i < |results| - 1 ==> results[..|results| - 1][i] == results[i];
      match last
      case None => prev
      case Some(c) => prev[c.uuid := c.entity]
  }

  /** The entry for a uuid is the entity of its last successful result. */
  lemma {:induction false} CreatedMapLastWins(results: seq<Option<Created>>, i: nat)
    requires i < |results| && results[i].Some?
    requires forall j :: i < j < |results| && results[j].Some? ==> results[j].value.uuid != results[i].value.uuid
    ensures results[i].value.uuid in CreatedMap(results)
    ensures CreatedMap(results)[results[i].value.uuid] == results[i].value.entity
    decreases |results|
  {
    if i < |results| - 1 {
      var prefix := results[..|results| - 1];
      forall j | i < j < |prefix| && prefix[j].Some?
        ensures prefix[j].value.uuid != prefix[i].value.uuid
      {
        assert prefix[j] == results[j];
      }
      CreatedMapLastWins(prefix, i);
    }
  }

  /** Every entry of `created_map` is the entity of some successful result. */
  lemma {:induction false} CreatedMapEntriesComeFromResults(results: seq<Option<Created>>, u: UuidField)
    requires u in CreatedMap(results)
    ensures exists i :: 0 <= i < |results| && results[i] == Some(Created(u, CreatedMap(results)[u]))
    decreases |results|
  {
    var n := |results|;
    var prefix := results[..n - 1];
    if results[n - 1].Some? && results[n - 1].value.uuid == u {
      assert results[n - 1] == Some(Created(u, CreatedMap(results)[u]));
    } else {
      CreatedMapEntriesComeFromResults(prefix, u);
      var i :| 0 <= i < |prefix| && prefix[i] == Some(Created(u, CreatedMap(prefix)[u]));
      assert results[i] == prefix[i];
    }
  }

  /** The value of an expression that evaluates or raises a TypeError. */
  datatype Evaluation = Evaluated(m: map<UuidField, Entity>) | TypeError

  /** The comprehension AS WRITTEN, `{res[0]: res[1] for res in responses if
      len(res) > 0}`: a failed create is None, and `len(None)` raises a
      TypeError that aborts the whole comprehension (and the run). */
  function CreatedMapAsWritten(results: seq<Option<Created>>): (e: Evaluation)
    ensures e.TypeError? <==> exists i :: 0 <= i < |results| && results[i].None?
    ensures e.Evaluated? ==> e.m == CreatedMap(results)
    decreases |results|
  {
    if results == [] then Evaluated(map[])
    else
      var prefix := results[..|results| - 1];
      assert forall i :: 0 <= i < |prefix| ==> prefix[i] == results[i];
      match CreatedMapAsWritten(prefix)
      case TypeError => TypeError
      case Evaluated(m) =>
        match results[|results| - 1]
        case None => TypeError
        case Some(c) => Evaluated(m[c.uuid := c.entity])
  }

  /** A single rejected create (HTTP 500 on its POST) is enough for the
      comprehension as written to raise, whereas the intended filter simply
      drops it. */
  lemma FailedCreateRaisesAsWritten(url: string, template: Entity)
    ensures CreatedMapAsWritten([CreateEntity(ItemFor(url, template, 1), Response(500, NotJson))]) == TypeError
    ensures CreatedMap([CreateEntity(ItemFor(url, template, 1), Response(500, NotJson))]) == map[]
  {
    var results := [CreateEntity(ItemFor(url, template, 1), Response(500, NotJson))];
    assert results[0].None?;
  }

  /** The create results of `processes.map(create_entity, work_items)`. */
  function CreateAll(items: seq<WorkItem>, responses: seq<Response>): (results: seq<Option<Created>>)
    requires |responses| == |items|
    ensures |results| == |items|
    ensures forall i :: 0 <= i < |items| ==> results[i] == CreateEntity(items[i], responses[i])
  {
    seq(|items|, i requires 0 <= i < |items| => CreateEntity(items[i], responses[i]))
  }

  /** The uuids the store assigned to the creates it accepted. */
  function AssignedUuids(responses: seq<Response>): set<UuidField> {
    set i | 0 <= i < |responses| && CreateSucceeds(responses[i]) :: responses[i].body.uuids[0]
  }

  /** The work items of `test_multiple(n)`, as a value. */
  function WorkItems(n: nat, url: string, template: Entity): (items: seq<WorkItem>)
    ensures |items| == n
  {
    seq(n, i requires 0 <= i => ItemFor(url, template, i + 1))
  }

  /** What `test_multiple(n)` returns with the intended filter, given the
      response to each POST (as written, it returns this only when every
      create succeeds, and raises otherwise). */
  function WriteAll(n: nat, url: string, template: Entity, responses: seq<Response>): map<UuidField, Entity>
    requires |responses| == n
  {
    CreatedMap(CreateAll(WorkItems(n, url, template), responses))
  }

  /** With the intended filter, the created map is keyed by exactly the uuids
      of the accepted creates, so it has at most n entries. */
  lemma WriteAllKeys(n: nat, url: string, template: Entity, responses: seq<Response>)
    requires |responses| == n
    ensures WriteAll(n, url, template, responses).Keys == AssignedUuids(responses)
    ensures |WriteAll(n, url, template, responses)| <= n
  {
    var results := CreateAll(WorkItems(n, url, template), responses);
    forall u ensures u in SucceededUuids(results) <==> u in AssignedUuids(responses) {
      if u in SucceededUuids(results) {
        var i :| 0 <= i < |results| && results[i].Some? && results[i].value.uuid == u;
        assert CreateSucceeds(responses[i]) && responses[i].body.uuids[0] == u;
      }
      if u in AssignedUuids(responses) {
        var i :| 0 <= i < n && CreateSucceeds(responses[i]) && responses[i].body.uuids[0] == u;
        assert results[i].Some? && results[i].value.uuid == u;
      }
    }
  }

  /** `test_multiple(n)` with the intended filter: build the items, create
      each, keep the successes. */
  method TestMultiple(n: nat, url: string, template: Entity, responses: seq<Response>)
    returns (created: map<UuidField, Entity>)
    requires |responses| == n
    ensures created == WriteAll(n, url, template, responses)
    ensures created.Keys == AssignedUuids(responses)
    ensures |created| <= n
  {
    var items := BuildWorkItems(n, url, template);
    assert items == WorkItems(n, url, template);
    var results := CreateAll(items, responses);
    created := CreatedMap(results);
    WriteAllKeys(n, url, template, responses);
  }

  /** With the intended filter, every entry of the result is a work item's
      entity, i.e. the template with the id of one of 1..n, under a uuid the
      store assigned to it. */
  lemma WriteAllEntries(n: nat, url: string, template: Entity, responses: seq<Response>, u: UuidField)
    requires |responses| == n
    requires u in WriteAll(n, url, template, responses)
    ensures exists i :: 0 <= i < n && CreateSucceeds(responses[i]) && responses[i].body.uuids[0] == u &&
                        WriteAll(n, url, template, responses)[u] == ItemFor(url, template, i + 1).entity
  {
    var items := WorkItems(n, url, template);
    var results := CreateAll(items, responses);
    var m := CreatedMap(results);
    CreatedMapEntriesComeFromResults(results, u);
    var i :| 0 <= i < |results| && results[i] == Some(Created(u, m[u]));
    assert results[i] == CreateEntity(items[i], responses[i]);
    assert CreateSucceeds(responses[i]);
    assert m[u] == items[i].entity;
  }

  /** When every create fails, the intended filter gives the empty map. */
  lemma AllCreatesFail(n: nat, url: string, template: Entity, responses: seq<Response>)
    requires |responses| == n
    requires forall i :: 0 <= i < n ==> !CreateSucceeds(responses[i])
    ensures WriteAll(n, url, template, responses) == map[]
  {
    WriteAllKeys(n, url, template, responses);
    assert AssignedUuids(responses) == {};
  }

  /** As written, the same run raises instead: the first failed create is
      None, and `len(None)` aborts the comprehension. */
  lemma AllCreatesFailRaisesAsWritten(n: nat, url: string, template: Entity, responses: seq<Response>)
    requires |responses| == n && n >= 1
    requires forall i :: 0 <= i < n ==> !CreateSucceeds(responses[i])
    ensures CreatedMapAsWritten(CreateAll(WorkItems(n, url, template), responses)) == TypeError
  {
    var results := CreateAll(WorkItems(n, url, template), responses);
    assert results[0].None?;
  }

  /** A set indexed injectively by 0..n has n elements. */
  lemma {:induction false} InjectiveImageSize(f: seq<UuidField>)
    requires forall i, j :: 0 <= i < j < |f| ==> f[i] != f[j]
    ensures |set i | 0 <= i < |f| :: f[i]| == |f|
    decreases |f|
  {
    if f != [] {
      var prefix := f[..|f| - 1];
      InjectiveImageSize(prefix);
      var s := set i | 0 <= i < |f| :: f[i];
      var sp := set i | 0 <= i < |prefix| :: prefix[i];
      assert s == sp + {f[|f| - 1]};
      assert f[|f| - 1] !in sp;
    }
  }

  /** The store accepts every create. */
  predicate AllAccepted(responses: seq<Response>) {
    forall i :: 0 <= i < |responses| ==> CreateSucceeds(responses[i])
  }

  /** The store assigns distinct uuids to the creates it accepts. */
  predicate DistinctUuids(responses: seq<Response>) {
    forall i, j :: 0 <= i < j < |responses| && CreateSucceeds(responses[i]) && CreateSucceeds(responses[j]) ==>
                     responses[i].body.uuids[0] != responses[j].body.uuids[0]
  }

  /** Distinct uuids for n accepted creates are n uuids. */
  lemma AssignedUuidsSize(responses: seq<Response>)
    requires AllAccepted(responses) && DistinctUuids(responses)
    ensures |AssignedUuids(responses)| == |responses|
  {
    var uuids := seq(|responses|, i requires 0 <= i < |responses| => responses[i].body.uuids[0]);
    InjectiveImageSize(uuids);
    var image := set i | 0 <= i < |uuids| :: uuids[i];
    forall u | u in AssignedUuids(responses) ensures u in image {
      var i :| 0 <= i < |responses| && CreateSucceeds(responses[i]) && responses[i].body.uuids[0] == u;
      assert uuids[i] == u;
    }
    forall u | u in image ensures u in AssignedUuids(responses) {
      var i :| 0 <= i < |uuids| && uuids[i] == u;
      assert CreateSucceeds(responses[i]);
    }
    assert AssignedUuids(responses) == image;
  }

  /** A fully available store that assigns distinct uuids: the result of the
      intended filter has exactly n entries. */
  lemma AllCreatesSucceedSize(n: nat, url: string, template: Entity, responses: seq<Response>)
    requires |responses| == n
    requires AllAccepted(responses) && DistinctUuids(responses)
    ensures |WriteAll(n, url, template, responses)| == n
  {
    WriteAllKeys(n, url, template, responses);
    AssignedUuidsSize(responses);
  }

  /** When every create is accepted the comprehension as written does not
      raise, and it gives the same map as the intended filter. */
  lemma AllCreatesSucceedAsWritten(n: nat, url: string, template: Entity, responses: seq<Response>)
    requires |responses| == n
    requires AllAccepted(responses)
    ensures CreatedMapAsWritten(CreateAll(WorkItems(n, url, template), responses)) ==
            Evaluated(WriteAll(n, url, template, responses))
  {
    var results := CreateAll(WorkItems(n, url, template), responses);
    forall i | 0 <= i < |results| ensures results[i].Some? {
      assert CreateSucceeds(responses[i]);
    }
  }

  /** A store that assigns distinct uuids: with the intended filter, the i-th
      accepted create's uuid is mapped to the entity with id i+1. */
  lemma AcceptedCreateEntry(n: nat, url: string, template: Entity, responses: seq<Response>, i: nat)
    requires |responses| == n
    requires DistinctUuids(responses)
    requires i < n && CreateSucceeds(responses[i])
    ensures responses[i].body.uuids[0] in WriteAll(n, url, template, responses)
    ensures WriteAll(n, url, template, responses)[responses[i].body.uuids[0]] == ItemFor(url, template, i + 1).entity
  {
    var items := WorkItems(n, url, template);
    var results := CreateAll(items, responses);
    assert results[i] == Some(Created(responses[i].body.uuids[0], items[i].entity));
    forall j | i < j < n && results[j].Some? ensures results[j].value.uuid != results[i].value.uuid {
      assert CreateSucceeds(responses[j]);
    }
    CreatedMapLastWins(results, i);
  }
}
