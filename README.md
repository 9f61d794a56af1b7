# Usergrid batch indexing test, modelled in Dafny

`batch_index_test.py` checks a Usergrid deployment for eventual consistency
between writes and the query index. It creates N entities in a fresh
collection through a pool of workers (`test_multiple`, `create_entity`),
is meant to keep the successful creates in a map from store uuid to entity
(`created_map`; as written the comprehension raises on the first failed
create, see "## Findings", and the model states `test_multiple` with the
intended filter), polls a query URL until every created uuid shows up in one
page (`wait_for_indexing`), and then deletes by query until nothing is
left (`clear`). `test_cleared` and `test_url` are two small probes that
the script defines but `main` never calls. `init` builds the collection
URL and the token URL.

The model replaces every HTTP call by the response it received. A response
is a status code and a body: a body that does not parse as JSON (so
`r.json()` raises), JSON that is not an object (a list, a string, `null`:
`r.json()` succeeds but `.get` on it raises), a JSON object without an
`entities` field, or an `entities` list given by the `uuid` field of each
entity. A uuid field is
either a string or absent (Python's `None`). A loop that the source runs
without bound takes a finite sequence of responses. Running out of
responses is its own outcome (`Exhausted`), next to the loop's exit
(`Done`, `Emptied`) and an exception that escapes (`Crashed`).

Modules, one per component of the script:

- `Http`: responses, JSON payloads, and `FirstStop`, the first response at
  which a polling loop stops (`clear` and `test_url` are stated with it;
  `wait_for_indexing` has its own recursion, proved equal to it).
- `Decimal`: `str(x)` for the entity ids, with `int(str(x)) == x`.
- `BulkWriter`: the work-item loop, `create_entity`, the `created_map`
  comprehension and `test_multiple` as a whole.
- `Convergence`: `entity_map`, the `count_missing` loop, `wait_for_indexing`
  and `test_url`.
- `Purge`: `clear` and `test_cleared`.
- `Config`: `init`.

Five behaviours of the code are easy to misread:

- `wait_for_indexing` never looks at the status code. A failed query is "no
  progress" only because its body usually has no `entities`. With an empty
  created map, any response whose body is a JSON object counts as converged.
- A response body that does not parse as JSON makes `r.json()` raise.
  `main` catches only `KeyboardInterrupt`, so such a body in
  `wait_for_indexing` or `clear` ends the run. This is also true on
  `clear`'s error-logging path, which calls `json.dumps(r.json())`. The
  model reports this outcome as `Crashed` (and as `Raised` for the unused
  probe `test_cleared`).
- JSON that is not an object parses, so `json.dumps(r.json())` on the
  non-200 paths of `clear` and `test_cleared` succeeds: a rejected DELETE
  with such a body ends `clear` as `DeleteFailed`. Only the `.get` calls,
  in `wait_for_indexing` and on the 200 paths, raise on it.
- `test_url` evaluates `len(r.json().get('entities'))` on a 200 response.
  When the field is missing this is `len(None)`, which raises.
- `clear` treats the `entities` list of a DELETE response as "entities
  remaining". It deletes again while that list is non-empty.

One observation lies outside the model. The script assigns
`entity_template` twice, and the second payload has no `dataType` field.
The query that `main` polls and purges with selects
`dataType='entitlements'`, so it cannot return the entities just created.
Payload contents are opaque here, so this is not proved.

## Model

| member | source | states |
|---|---|---|
| `Decimal.NatToString` | utils/usergrid-util-python/usergrid_tools/indexing/batch_index_test.py:159 | `str(x)` is a non-empty string of decimal digits with no leading zero for x > 0 |
| `Decimal.DigitsValueOfNatToString` | utils/usergrid-util-python/usergrid_tools/indexing/batch_index_test.py:159 | reading the digits of `str(x)` back gives x (round trip) |
| `Decimal.NatToStringInjective` | utils/usergrid-util-python/usergrid_tools/indexing/batch_index_test.py:159 | `str(a) == str(b)` exactly when a == b |
| `BulkWriter.ItemFor` | utils/usergrid-util-python/usergrid_tools/indexing/batch_index_test.py:158-160 | the work item for id x has the configured URL, the fields of the template plus `id`, `id` equal to `str(x)`, and every other field equal to the template's |
| `BulkWriter.BuildWorkItems` | utils/usergrid-util-python/usergrid_tools/indexing/batch_index_test.py:155-160 | the loop yields exactly n items, item i being the template copy with id `str(i+1)` at the configured URL, in order |
| `BulkWriter.ItemIdsDistinct` | utils/usergrid-util-python/usergrid_tools/indexing/batch_index_test.py:157-159 | work items for different ids carry different `id` fields |
| `BulkWriter.CreateEntity` | utils/usergrid-util-python/usergrid_tools/indexing/batch_index_test.py:118-146 | a create yields a result exactly for HTTP 200 with a non-empty `entities` list; the result is the first entity's uuid with the posted entity; non-200 responses, bodies that do not parse or are not JSON objects, and empty or missing lists yield nothing |
| `BulkWriter.CreatedMap` | utils/usergrid-util-python/usergrid_tools/indexing/batch_index_test.py:164 | the map's keys are exactly the uuids of the successful results, and it has at most as many entries as results |
| `BulkWriter.CreatedMapLastWins` | utils/usergrid-util-python/usergrid_tools/indexing/batch_index_test.py:164 | a uuid maps to the entity of its last successful result |
| `BulkWriter.CreatedMapEntriesComeFromResults` | utils/usergrid-util-python/usergrid_tools/indexing/batch_index_test.py:164 | every entry of the map is some successful result |
| `BulkWriter.CreatedMapAsWritten` | utils/usergrid-util-python/usergrid_tools/indexing/batch_index_test.py:164 | the comprehension as written raises exactly when some create failed, and otherwise equals the filtered map |
| `BulkWriter.FailedCreateRaisesAsWritten` | utils/usergrid-util-python/usergrid_tools/indexing/batch_index_test.py:130-133 | one create answered with HTTP 500 makes the comprehension as written raise, while the intended filter gives the empty map |
| `BulkWriter.CreateAll` | utils/usergrid-util-python/usergrid_tools/indexing/batch_index_test.py:162 | the pool's map gives one create result per work item, in work-item order |
| `BulkWriter.WriteAllKeys` | utils/usergrid-util-python/usergrid_tools/indexing/batch_index_test.py:155-164 | with the intended filter (`CreatedMap`), the keys of `test_multiple`'s result are exactly the uuids of the accepted creates, and the result has at most n entries |
| `BulkWriter.TestMultiple` | utils/usergrid-util-python/usergrid_tools/indexing/batch_index_test.py:149-169 | `test_multiple(n)` with the intended filter returns the created map of its n creates, keyed by the accepted uuids, with at most n entries |
| `BulkWriter.WriteAllEntries` | utils/usergrid-util-python/usergrid_tools/indexing/batch_index_test.py:155-164 | with the intended filter, every entry is an accepted create's uuid mapped to the template with one of the ids 1..n |
| `BulkWriter.AllCreatesFail` | utils/usergrid-util-python/usergrid_tools/indexing/batch_index_test.py:162-164 | when every create fails, the intended filter gives the empty map (as written the run raises: `AllCreatesFailRaisesAsWritten`) |
| `BulkWriter.AllCreatesFailRaisesAsWritten` | utils/usergrid-util-python/usergrid_tools/indexing/batch_index_test.py:162-164 | as written, a run of n >= 1 creates that all fail raises a TypeError instead of returning an empty map |
| `BulkWriter.AllCreatesSucceedAsWritten` | utils/usergrid-util-python/usergrid_tools/indexing/batch_index_test.py:162-164 | when every create is accepted, the comprehension as written does not raise and equals the intended filter |
| `BulkWriter.AssignedUuidsSize` | utils/usergrid-util-python/usergrid_tools/indexing/batch_index_test.py:162-164 | n accepted creates with distinct uuids give n distinct uuids |
| `BulkWriter.AllCreatesSucceedSize` | utils/usergrid-util-python/usergrid_tools/indexing/batch_index_test.py:155-164 | a store that accepts all n creates with distinct uuids yields exactly n entries with the intended filter |
| `BulkWriter.AcceptedCreateEntry` | utils/usergrid-util-python/usergrid_tools/indexing/batch_index_test.py:155-164 | with distinct uuids and the intended filter, the uuid of accepted create i maps to the template with id `str(i+1)` |
| `Convergence.PageOf` | utils/usergrid-util-python/usergrid_tools/indexing/batch_index_test.py:180-182 | a query page is the `entities` list, empty when the field is missing, and undefined (raises) exactly for a body that does not parse or is not a JSON object; the status is ignored |
| `Convergence.EntityMap` | utils/usergrid-util-python/usergrid_tools/indexing/batch_index_test.py:194 | the keys of `entity_map` are exactly the uuids on the page, no more than the page's length |
| `Convergence.MissingSet` | utils/usergrid-util-python/usergrid_tools/indexing/batch_index_test.py:192-197 | a uuid is missing exactly when it is created and not on the page |
| `Convergence.MissingCount` | utils/usergrid-util-python/usergrid_tools/indexing/batch_index_test.py:192-197 | the missing count is at most the created map's size, and it is 0 exactly when every created uuid is on the page |
| `Convergence.CountMissing` | utils/usergrid-util-python/usergrid_tools/indexing/batch_index_test.py:192-200 | the `count_missing += 1` loop over the created map computes the size of the missing set |
| `Convergence.WaitStop` | utils/usergrid-util-python/usergrid_tools/indexing/batch_index_test.py:178-203 | the loop passes over exactly the responses before the first page that covers every created uuid or on which `r.json().get` raises |
| `Convergence.WaitStopIsFirstStop` | utils/usergrid-util-python/usergrid_tools/indexing/batch_index_test.py:178-203 | the poller's stopping index is the first index at which a response stops it, the same notion `clear` and `test_url` are stated with |
| `Convergence.Wait` | utils/usergrid-util-python/usergrid_tools/indexing/batch_index_test.py:172-209 | the poller ends at its first page with missing count 0 (Done), or on a body that does not parse or is not a JSON object (Crashed), or it runs out of responses; all earlier pages miss something; it sleeps once per query before the last |
| `Convergence.WaitForIndexing` | utils/usergrid-util-python/usergrid_tools/indexing/batch_index_test.py:172-209 | the loop started with `count_missing = 100` ends as `Wait` says, and the i-th count it computes is the missing count of the i-th page |
| `Convergence.EmptyCreatedConvergesAtOnce` | utils/usergrid-util-python/usergrid_tools/indexing/batch_index_test.py:175-203 | with an empty created map, the first response whose body is a JSON object converges after one query and no sleep |
| `Convergence.CoveringFirstPageConvergesAtOnce` | utils/usergrid-util-python/usergrid_tools/indexing/batch_index_test.py:175-203 | a first page showing every created uuid converges after one query and no sleep |
| `Convergence.ConvergesAtFirstCoveringPage` | utils/usergrid-util-python/usergrid_tools/indexing/batch_index_test.py:178-209 | convergence at query k+1 with k sleeps holds exactly when the first k pages each miss something and page k+1 misses nothing |
| `Convergence.MissingAntitone` | utils/usergrid-util-python/usergrid_tools/indexing/batch_index_test.py:192-197 | a page that shows more uuids misses no more created ones |
| `Convergence.MissingNeverGrows` | utils/usergrid-util-python/usergrid_tools/indexing/batch_index_test.py:180-197 | while the pages only grow (any two pages that parse, `entities` missing counting as empty), the missing counts never grow |
| `Convergence.WaitIgnoresLaterResponses` | utils/usergrid-util-python/usergrid_tools/indexing/batch_index_test.py:178-209 | once the poller has stopped, later responses do not change its outcome |
| `Convergence.UrlTest` | utils/usergrid-util-python/usergrid_tools/indexing/batch_index_test.py:247-262 | `test_url` passes at the first 200 response with at least one entity; a 200 response without a JSON object holding an `entities` list crashes it; earlier responses are non-200 or empty; it sleeps once per query before the last |
| `Convergence.TestUrl` | utils/usergrid-util-python/usergrid_tools/indexing/batch_index_test.py:247-262 | the loop on `test_var` ends as `UrlTest` says |
| `Purge.Clear` | utils/usergrid-util-python/usergrid_tools/indexing/batch_index_test.py:215-229 | `clear` stops at its first response that is non-200 or lists no entities; the number of DELETE calls is that response's position; that response ends it Crashed if its body does not parse, DeleteFailed if it is otherwise non-200, Crashed if it is a 200 that is not a JSON object, and Emptied otherwise; every earlier response was a 200 with entities left |
| `Purge.ClearStopsOnRejectedDelete` | utils/usergrid-util-python/usergrid_tools/indexing/batch_index_test.py:219-221 | a first DELETE rejected with a non-200 status whose body parses as JSON, an object or not, ends the purge as DeleteFailed after one call |
| `Purge.ClearCallsAtFirstStop` | utils/usergrid-util-python/usergrid_tools/indexing/batch_index_test.py:215-229 | the number of DELETE calls is the index of the first stopping response plus one |
| `Purge.ClearAlreadyEmpty` | utils/usergrid-util-python/usergrid_tools/indexing/batch_index_test.py:225-229 | an already empty store takes exactly one DELETE |
| `Purge.ClearCountsDown` | utils/usergrid-util-python/usergrid_tools/indexing/batch_index_test.py:215-229 | deletes that leave entities, then a 200 with no or an empty `entities` list, give one call per response and end Emptied |
| `Purge.ClearIgnoresLaterResponses` | utils/usergrid-util-python/usergrid_tools/indexing/batch_index_test.py:215-229 | responses after the one that ends the purge do not change it |
| `Purge.ClearResumes` | utils/usergrid-util-python/usergrid_tools/indexing/batch_index_test.py:215-229 | a purge that ran out of responses continues exactly where it stopped |
| `Purge.TestCleared` | utils/usergrid-util-python/usergrid_tools/indexing/batch_index_test.py:232-241 | `test_cleared` warns exactly on a 200 response with a non-empty entity list, the same responses on which `clear` deletes again; it raises exactly on a body that does not parse, or on a 200 body that is not a JSON object |
| `Purge.ClearedStoreDoesNotWarn` | utils/usergrid-util-python/usergrid_tools/indexing/batch_index_test.py:226-241 | `test_cleared`'s warning condition is `clear`'s delete-again condition: a response on which a purge ends Emptied would make `test_cleared` neither warn nor raise |
| `Config.Init` | utils/usergrid-util-python/usergrid_tools/indexing/batch_index_test.py:298-310 | the collection URL is `base_url/org/app/collection` and the token URL is `base_url/org/app/token`, sharing the prefix |
| `Config.UrlsDistinct` | utils/usergrid-util-python/usergrid_tools/indexing/batch_index_test.py:309-310 | the two URLs coincide exactly when the collection is named `token` |
| `Config.CollectionUrlInjective` | utils/usergrid-util-python/usergrid_tools/indexing/batch_index_test.py:305-309 | different collection names give different collection URLs |
| `Config.CollectionName` | utils/usergrid-util-python/usergrid_tools/indexing/batch_index_test.py:305 | the collection name, host then `-index-test-` then timestamp, is 12 characters longer than host and timestamp together |
| `Config.CollectionNeverToken` | utils/usergrid-util-python/usergrid_tools/indexing/batch_index_test.py:305-310 | a collection name of that shape never makes the collection URL equal the token URL |

## Findings

| source | as written | input that shows it | evidently intended | confidence | as-written member | corrected member |
|---|---|---|---|---|---|---|
| utils/usergrid-util-python/usergrid_tools/indexing/batch_index_test.py:164 | `len(res) > 0` is evaluated on every result, and a failed create returns `None`, so `len(None)` raises a TypeError and `test_multiple` aborts | one create answered with HTTP 500 (any non-200, or a 200 whose `entities` list is empty) | failed creates are skipped, and the map holds exactly the successful `(uuid, entity)` results | high; not executed | `BulkWriter.CreatedMapAsWritten`, `BulkWriter.FailedCreateRaisesAsWritten`, `BulkWriter.AllCreatesFailRaisesAsWritten` | `BulkWriter.CreatedMap` (used by `BulkWriter.TestMultiple`) |

## Left out

- The HTTP session, the `requests` calls and JSON decoding are network and
  library code. Each call is a given `Response` value. The request bodies
  that are sent (the entity, the token request) are not modelled.
- The body abstraction keeps only the `uuid` field of each entity. Bodies
  whose `entities` is not a list, whose entities are not objects, or whose
  uuid is a non-string JSON value are not represented.
- The `multiprocessing.Pool` concurrency is left out, including
  `processes.terminate`. `Pool.map` returns results in input order, so the
  creates are a sequential map over the work items.
- `time.sleep`, `datetime` and `socket.gethostname()` are clock and host
  identity. The model counts sleeps and treats the timestamp and host name
  as opaque strings. Elapsed times are not modelled.
- Logging setup and every log and print call are a diagnostic side channel.
  This includes the "missing" figure logged by `wait_for_indexing`, which is
  `len(created_map) - len(entities)` and not the `count_missing` that
  decides the loop.
- `parse_args` and `main` are configuration and authentication plumbing:
  the token request, the `Authorization` header, the query string appended
  to the URL, the batch size 999, and the `KeyboardInterrupt` handling.
- The contents of the two `entity_template` literals are left out. The
  payload is an opaque map with an `id` field.
- The second, dead status check in `create_entity` only chooses between two
  log lines, so it is left out. The script also mixes Python 2 forms
  (`print` statements, `except Exception, e`, `xrange`, `iteritems`) with
  Python 3 f-strings. The model gives each construct its evident meaning.
- Purge.Clear: Python's recursion limit (about 1000 nested `clear` calls)
  would raise a RecursionError on a very long purge. This is not modelled.
- BulkWriter.BuildWorkItems: `.copy()` is a shallow copy, so nested values
  of the payload stay shared with the template. Values cannot alias in
  Dafny, and nothing in the script mutates them, so this is not modelled.
- `utils/usergrid-util-python/setup.py` is packaging metadata and is not
  part of this model.
