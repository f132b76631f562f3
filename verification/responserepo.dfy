/** The response store (internal/repositories/responserepo/responserepo.go):
    per survey ID, the responses in the order they were stored. Locking is
    left out; every operation is one atomic step. */
module ResponseStore {
  import opened Models

  /** Every response is filed under the ID of the survey it answers. */
  ghost predicate FiledBySurvey(m: map<Id, seq<Response>>)
  {
    forall k, i :: k in m && 0 <= i < |m[k]| ==> m[k][i].surveyId == k
  }

  /** The map after `response` is appended under its survey ID. */
  function WithResponse(m: map<Id, seq<Response>>, response: Response): (m': map<Id, seq<Response>>)
    ensures m'.Keys == m.Keys + {response.surveyId}
    ensures response.surveyId !in m ==> m'[response.surveyId] == [response]
    ensures response.surveyId in m ==>
      var before := m[response.surveyId];
      && |m'[response.surveyId]| == |before| + 1
      && m'[response.surveyId][..|before|] == before
      && m'[response.surveyId][|before|] == response
    ensures forall k :: k in m && k != response.surveyId ==> m'[k] == m[k]
  {
    var key := response.surveyId;
    if key in m then m[key := m[key] + [response]] else m[key := [response]]
  }

  /** Appending keeps every response filed under its own survey. */
  lemma WithResponseFiled(m: map<Id, seq<Response>>, response: Response)
    requires FiledBySurvey(m)
    ensures FiledBySurvey(WithResponse(m, response))
  {
    var m': map<Id, seq<Response>> := WithResponse(m, response);
    forall k: Id, i: int | k in m' && 0 <= i < |m'[k]| ensures m'[k][i].surveyId == k {
      if k == response.surveyId && k in m && i < |m[k]| {
        assert m'[k][i] == m'[k][..|m[k]|][i];
      }
    }
  }

  class ResponseRepo {
    var responses: map<Id, seq<Response>>

    /** NewResponseRepo: a nil map gives an empty store. */
    constructor (existingResponses: Option<map<Id, seq<Response>>>)
      ensures existingResponses.None? ==> responses == map[]
      ensures existingResponses.Some? ==> responses == existingResponses.value
    {
      if existingResponses.None? {
        responses := map[];
      } else {
        responses := existingResponses.value;
      }
    }

    /** Appends the response under its survey ID, starting the sequence when
        the key is new; never fails. */
    method Create(response: Response) returns (r: Result<Response>)
      modifies this
      ensures r == Ok(response)
      ensures responses == WithResponse(old(responses), response)
    {
      var key := response.surveyId;
      if key !in responses {
        responses := responses[key := [response]];
        return Ok(response);
      }
      var existing := responses[key];
      existing := existing + [response];
      responses := responses[key := existing];
      r := Ok(response);
    }

    method GetBySurveyID(surveyId: Id) returns (r: Result<seq<Response>>)
      ensures r.Ok? <==> surveyId in responses
      ensures r.Ok? ==> r.value == responses[surveyId]
      ensures r.Err? ==> r.error == NotFound
    {
      if surveyId !in responses {
        return Err(NotFound);
      }
      r := Ok(responses[surveyId]);
    }

    method Entries() returns (m: map<Id, seq<Response>>)
      ensures m == responses
    {
      m := responses;
    }
  }
}
