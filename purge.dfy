/** The purge loop of the indexing test (`clear`) and its verification
    query (`test_cleared`). Each DELETE or GET is replaced by the response it
    received; `clear` recurses once per response over a finite sequence, and
    running out of responses is the explicit outcome Exhausted. */
module Purge {
  import opened Http

  /** How `clear(clear_url)` ended. */
  datatype PurgeStatus =
    | Emptied       // a 200 response listed no entities
    | DeleteFailed  // a non-200 response, logged; the loop stops
    | Crashed       // `r.json()` raised (also while logging an error), or `.get` on a 200
    | Exhausted     // the responses ran out while entities remained

  /** `calls` DELETE requests were issued. */
  datatype PurgeReport = PurgeReport(status: PurgeStatus, calls: nat)

  /** `clear` deletes again after this response: HTTP 200 whose `entities`
      list is non-empty. */
  predicate DeletesAgain(r: Response) {
    r.status == OK && r.body.Entities? && |r.body.uuids| > 0
  }

  /** How `clear` ends on a response after which it does not delete again.
      A non-200 body is only passed to `json.dumps(r.json())`, which raises
      only when it does not parse; a 200 body also needs `.get`. */
  function Terminal(r: Response): PurgeStatus {
    if r.body.NotJson? then Crashed
    else if r.status != OK then DeleteFailed
    else if r.body.NotObject? then Crashed
    else Emptied
  }

  /** `clear(clear_url)`, one recursive call per deleting response. */
  function Clear(responses: seq<Response>): (rep: PurgeReport)
    ensures rep.calls <= |responses|
    ensures rep.status == Exhausted <==>
              (rep.calls == |responses| && forall j :: 0 <= j < |responses| ==> DeletesAgain(responses[j]))
    ensures rep.status != Exhausted ==>
              rep.calls >= 1 && !DeletesAgain(responses[rep.calls - 1]) &&
              rep.status == Terminal(responses[rep.calls - 1])
    ensures forall j :: 0 <= j < rep.calls - 1 ==> DeletesAgain(responses[j])
    decreases |responses|
  {
    if responses == [] then PurgeReport(Exhausted, 0)
    else
      var r := responses[0];
      if r.status != OK then
        if r.body.NotJson? then PurgeReport(Crashed, 1) else PurgeReport(DeleteFailed, 1)
      else
        match r.body
        case NotJson => PurgeReport(Crashed, 1)
        case NotObject => PurgeReport(Crashed, 1)
        case NoEntities => PurgeReport(Emptied, 1)
        case Entities(uuids) =>
          if |uuids| > 0 then
            var rest := Clear(responses[1..]);
            PurgeReport(rest.status, rest.calls + 1)
          else PurgeReport(Emptied, 1)
  }

  /** The number of DELETE calls is the index of the first response that
      is non-200 or lists no entities, plus one. */
  lemma ClearCallsAtFirstStop(responses: seq<Response>)
    requires Clear(responses).status != Exhausted
    ensures Clear(responses).calls == FirstStop(responses, r => !DeletesAgain(r)) + 1
  {
    var rep := Clear(responses);
    FirstStopUnique(responses, r => !DeletesAgain(r), rep.calls - 1);
  }

  /** A store that is already empty takes exactly one DELETE. */
  lemma ClearAlreadyEmpty(responses: seq<Response>)
    requires |responses| >= 1 && responses[0].status == OK
    requires responses[0].body == NoEntities || responses[0].body == Entities([])
    ensures Clear(responses) == PurgeReport(Emptied, 1)
  {
  }

  /** Deletes that leave entities, then one that leaves none: exactly one
      call per response. */
  lemma {:induction false} ClearCountsDown(responses: seq<Response>)
    requires |responses| >= 1
    requires forall j :: 0 <= j < |responses| - 1 ==> DeletesAgain(responses[j])
    requires responses[|responses| - 1].status == OK
    requires responses[|responses| - 1].body == NoEntities || responses[|responses| - 1].body == Entities([])
    ensures Clear(responses) == PurgeReport(Emptied, |responses|)
    decreases |responses|
  {
    if |responses| > 1 {
      var rest := responses[1..];
      forall j | 0 <= j < |rest| - 1 ensures DeletesAgain(rest[j]) {
        assert rest[j] == responses[j + 1];
      }
      ClearCountsDown(rest);
    }
  }

  /** Responses after the one that ends the purge are never requested. */
  lemma {:induction false} ClearIgnoresLaterResponses(responses: seq<Response>, extra: seq<Response>)
    requires Clear(responses).status != Exhausted
    ensures Clear(responses + extra) == Clear(responses)
    decreases |responses|
  {
    assert (responses + extra)[0] == responses[0];
    if DeletesAgain(responses[0]) {
      assert (responses + extra)[1..] == responses[1..] + extra;
      ClearIgnoresLaterResponses(responses[1..], extra);
    }
  }

  /** A purge that ran out of responses continues where it stopped. */
  lemma {:induction false} ClearResumes(responses: seq<Response>, extra: seq<Response>)
    requires Clear(responses).status == Exhausted
    ensures Clear(responses + extra) == PurgeReport(Clear(extra).status, |responses| + Clear(extra).calls)
    decreases |responses|
  {
    if responses == [] {
      assert responses + extra == extra;
    } else {
      assert (responses + extra)[0] == responses[0];
      assert (responses + extra)[1..] == responses[1..] + extra;
      ClearResumes(responses[1..], extra);
    }
  }

  /** A DELETE rejected with a non-200 status whose body parses as JSON
      (an object or not) ends the purge as DeleteFailed after one call. */
  lemma ClearStopsOnRejectedDelete(responses: seq<Response>)
    requires |responses| >= 1 && responses[0].status != OK && !responses[0].body.NotJson?
    ensures Clear(responses) == PurgeReport(DeleteFailed, 1)
  {
  }

  /** What `test_cleared(q_url)` does with its response. */
  datatype Verdict =
    | Warned    // logs 'DID NOT CLEAR'
    | Silent    // nothing to report (or the error body is logged)
    | Raised    // `r.json()` raised, or `.get` on a 200 body that is not an object

  /** `test_cleared`: it warns exactly on a response after which `clear`
      would delete again (HTTP 200 with a non-empty `entities` list). */
  function TestCleared(r: Response): (v: Verdict)
    ensures v == Warned <==> DeletesAgain(r)
    ensures v == Raised <==> r.body.NotJson? || (r.status == OK && r.body.NotObject?)
  {
    if r.status != OK then
      if r.body.NotJson? then Raised else Silent
    else
      match r.body
      case NotJson => Raised
      case NotObject => Raised
      case NoEntities => Silent
      case Entities(uuids) => if |uuids| != 0 then Warned else Silent
  }

  /** `test_cleared`'s warning condition is `clear`'s delete-again
      condition: a response on which a purge ends Emptied would make
      `test_cleared` neither warn nor raise. */
  lemma ClearedStoreDoesNotWarn(responses: seq<Response>)
    requires Clear(responses).status == Emptied
    ensures TestCleared(responses[Clear(responses).calls - 1]) == Silent
  {
  }
}
