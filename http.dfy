/** Abstract HTTP responses of the Usergrid REST API, as the indexing test
    harness sees them, and the one search every polling loop of the harness
    shares: the first response at which the loop stops. */
module Http {

  datatype Option<T> = None | Some(value: T)

  /** A JSON value of an entity payload; the harness treats payloads as opaque. */
  datatype Json =
    | JNull
    | JBool(b: bool)
    | JNum(n: int)
    | JStr(s: string)
    | JList(items: seq<Json>)
    | JObject(fields: map<string, Json>)

  /** An entity payload: a JSON object. */
  type Entity = map<string, Json>

  /** What `entity.get('uuid')` yields for one entity of a response:
      Python's None when the field is absent, otherwise the uuid string. */
  datatype UuidField = NoUuid | Uuid(value: string)

  /** The body of a response, as far as `r.json()` and `.get('entities')` see it. */
  datatype Body =
    | NotJson                          // the body does not parse as JSON: r.json() raises
    | NotObject                        // JSON other than an object (a list, a string, null):
                                       // r.json() succeeds, `.get` on it raises
    | NoEntities                       // a JSON object without an 'entities' field
    | Entities(uuids: seq<UuidField>)  // the 'entities' list, one uuid field per entity

  /** `r.json().get(...)` raises on this body: it does not parse, or it is
      not an object. `json.dumps(r.json())` raises only on the first. */
  predicate GetRaises(b: Body) {
    b.NotJson? || b.NotObject?
  }

  datatype Response = Response(status: int, body: Body)

  const OK: int := 200

  /** The index of the first element of `s` at which `stops` holds, or |s|
      when there is none: the number of responses a polling loop consumes
      without reaching its exit condition. */
  function FirstStop<T>(s: seq<T>, stops: T -> bool): (k: nat)
    ensures k <= |s|
    ensures forall j :: 0 <= j < k ==> !stops(s[j])
    ensures k < |s| ==> stops(s[k])
    decreases |s|
  {
    if s == [] then 0
    else if stops(s[0]) then 0
    else 1 + FirstStop(s[1..], stops)
  }

  /** The three conditions above determine FirstStop. */
  lemma FirstStopUnique<T>(s: seq<T>, stops: T -> bool, k: nat)
    requires k <= |s|
    requires forall j :: 0 <= j < k ==> !stops(s[j])
    requires k < |s| ==> stops(s[k])
    ensures FirstStop(s, stops) == k
  {
  }

  /** Responses after the stop do not matter. */
  lemma {:induction false} FirstStopPrefix<T>(s: seq<T>, extra: seq<T>, stops: T -> bool)
    requires FirstStop(s, stops) < |s|
    ensures FirstStop(s + extra, stops) == FirstStop(s, stops)
  {
    var k := FirstStop(s, stops);
    assert (s + extra)[k] == s[k];
    forall j | 0 <= j < k ensures !stops((s + extra)[j]) {
      assert (s + extra)[j] == s[j];
    }
    FirstStopUnique(s + extra, stops, k);
  }
}
