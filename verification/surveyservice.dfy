/** The survey service (internal/services/surveyservice/surveyservice.go):
    the business rules above the two stores, with ID and clock providers
    injected. */
module Service {
  import opened Models
  import opened Generators
  import opened SurveyStore
  import opened ResponseStore

  /** How many of the first j questions carry no ID yet. */
  function NilsBefore(qs: seq<Question>, j: nat): (n: nat)
    requires j <= |qs|
    ensures n <= j
  {
    if j == 0 then 0
    else NilsBefore(qs, j - 1) + (if qs[j - 1].id.IsNil() then 1 else 0)
  }

  /** NilsBefore counts exactly the positions whose question has no ID. */
  lemma {:induction false} NilsBeforeCounts(qs: seq<Question>, j: nat)
    requires j <= |qs|
    ensures NilsBefore(qs, j) == |set i | 0 <= i < j && qs[i].id.IsNil()|
  {
    if j > 0 {
      NilsBeforeCounts(qs, j - 1);
      var before := set i | 0 <= i < j - 1 && qs[i].id.IsNil();
      var now := set i | 0 <= i < j && qs[i].id.IsNil();
      if qs[j - 1].id.IsNil() {
        assert now == before + {j - 1};
      } else {
        assert now == before;
      }
    }
  }

  /** A nil question ID before position k is counted before k. */
  lemma {:induction false} NilsBeforeGrows(qs: seq<Question>, j: nat, k: nat)
    requires j < k <= |qs| && qs[j].id.IsNil()
    ensures NilsBefore(qs, j) < NilsBefore(qs, k)
    decreases k
  {
    if k - 1 > j {
      NilsBeforeGrows(qs, j, k - 1);
    }
  }

  /** The questions after every question without an ID has drawn one, in
      order, from serial `start` on; questions that have an ID keep it. */
  function Filled(qs: seq<Question>, start: nat): (r: seq<Question>)
    ensures |r| == |qs|
    ensures forall j :: 0 <= j < |qs| ==> r[j].text == qs[j].text && !r[j].id.IsNil()
    ensures forall j :: 0 <= j < |qs| && !qs[j].id.IsNil() ==> r[j] == qs[j]
  {
    seq(|qs|, j requires 0 <= j < |qs| => FilledAt(qs, start, j))
  }

  /** Question j after filling: it draws the next ID only if it has none. */
  function FilledAt(qs: seq<Question>, start: nat, j: nat): Question
    requires j < |qs|
  {
    if qs[j].id.IsNil() then Question(Ksuid(start + NilsBefore(qs, j)), qs[j].text) else qs[j]
  }

  /** The IDs that filling draws are all different and none was drawn
      before `start`. */
  lemma FilledFresh(qs: seq<Question>, start: nat)
    ensures forall j :: 0 <= j < |qs| && qs[j].id.IsNil() ==> Filled(qs, start)[j].id.serial >= start
    ensures forall j, k :: 0 <= j < k < |qs| && qs[j].id.IsNil() && qs[k].id.IsNil() ==>
      Filled(qs, start)[j].id != Filled(qs, start)[k].id
  {
    forall j, k | 0 <= j < k < |qs| && qs[j].id.IsNil() && qs[k].id.IsNil()
      ensures Filled(qs, start)[j].id != Filled(qs, start)[k].id
    {
      NilsBeforeGrows(qs, j, k);
    }
  }

  /** IDs drawn one after another for a survey and then its questions, as
      CreateSurvey draws them, are all non-nil and pairwise distinct. */
  lemma CreatedIdsDistinct(s: Survey, first: nat)
    requires s.id == Ksuid(first)
    requires forall j :: 0 <= j < |s.questions| ==> s.questions[j].id == Ksuid(first + 1 + j)
    ensures !s.id.IsNil()
    ensures forall j :: 0 <= j < |s.questions| ==> !s.questions[j].id.IsNil() && s.questions[j].id != s.id
    ensures forall j, k :: 0 <= j < k < |s.questions| ==> s.questions[j].id != s.questions[k].id
  {
  }

  /** Every stored survey sits under its own ID. */
  ghost predicate KeyedById(m: map<Id, Survey>)
  {
    forall k :: k in m ==> m[k].id == k
  }

  /** Every question of every stored survey has an ID. */
  ghost predicate QuestionsIdentified(m: map<Id, Survey>)
  {
    forall k, j :: k in m && 0 <= j < |m[k].questions| ==> !m[k].questions[j].id.IsNil()
  }

  /** Every stored survey ID was drawn before serial `bound`. */
  ghost predicate KeysIssuedBelow(m: map<Id, Survey>, bound: nat)
  {
    forall k :: k in m ==> k.Ksuid? && k.serial < bound
  }

  /** Every stored survey was last updated before time `t`. */
  ghost predicate UpdatedBefore(m: map<Id, Survey>, t: Time)
  {
    forall k :: k in m ==> m[k].updatedAt < t
  }

  /** Storing an identified survey under its own, already drawn ID, with an
      update stamp before `t`, keeps the store's invariants. */
  lemma StoreKeepsInvariants(m: map<Id, Survey>, s: Survey, bound: nat, t: Time)
    requires KeyedById(m) && QuestionsIdentified(m)
    requires KeysIssuedBelow(m, bound) && UpdatedBefore(m, t)
    requires s.id.Ksuid? && s.id.serial < bound && s.updatedAt < t
    requires forall j :: 0 <= j < |s.questions| ==> !s.questions[j].id.IsNil()
    ensures var m' := m[s.id := s];
      KeyedById(m') && QuestionsIdentified(m') && KeysIssuedBelow(m', bound) && UpdatedBefore(m', t)
  {
  }

  class SurveyService {
    const maxQuestions: int
    const surveyRepo: SurveyRepo
    const responseRepo: ResponseRepo
    const idGenerator: IdSupply
    const timeGenerator: Clock

    /** The state the service's own operations keep: surveys keyed by their
        IDs, drawn from the ID supply, all questions identified, every
        update stamp in the clock's past, and responses filed by survey. */
    ghost predicate Consistent()
      reads surveyRepo, responseRepo, idGenerator, timeGenerator
    {
      && KeyedById(surveyRepo.surveys)
      && QuestionsIdentified(surveyRepo.surveys)
      && KeysIssuedBelow(surveyRepo.surveys, idGenerator.next)
      && UpdatedBefore(surveyRepo.surveys, timeGenerator.reading)
      && FiledBySurvey(responseRepo.responses)
    }

    /** NewSurveyService. */
    constructor (maxQuestions: int, surveyRepo: SurveyRepo, responseRepo: ResponseRepo,
                 idGenerator: IdSupply, timeGenerator: Clock)
      ensures this.maxQuestions == maxQuestions
      ensures this.surveyRepo == surveyRepo && this.responseRepo == responseRepo
      ensures this.idGenerator == idGenerator && this.timeGenerator == timeGenerator
      // a service over empty stores starts in the state its operations keep
      ensures |surveyRepo.surveys| == 0 && |responseRepo.responses| == 0 ==> Consistent()
    {
      this.maxQuestions := maxQuestions;
      this.surveyRepo := surveyRepo;
      this.responseRepo := responseRepo;
      this.idGenerator := idGenerator;
      this.timeGenerator := timeGenerator;
    }

    /** The question loop of CreateSurvey: every question, in order, gets
        the next ID drawn, whatever ID it had. */
    method AssignQuestionIds(questions: seq<Question>) returns (numbered: seq<Question>)
      modifies idGenerator
      ensures |numbered| == |questions|
      ensures forall j :: 0 <= j < |questions| ==>
        numbered[j] == Question(old(idGenerator.Peek(j)), questions[j].text)
      ensures idGenerator.next == old(idGenerator.next) + |questions|
    {
      ghost var start := idGenerator.next;
      numbered := questions;
      var i := 0;
      while i < |numbered|
        modifies idGenerator
        invariant 0 <= i <= |numbered| == |questions|
        invariant idGenerator.next == start + i
        invariant forall j :: 0 <= j < i ==> numbered[j] == Question(Ksuid(start + j), questions[j].text)
        invariant forall j :: i <= j < |numbered| ==> numbered[j] == questions[j]
      {
        var qid := idGenerator.Generate();
        numbered := numbered[i := numbered[i].(id := qid)];
        i := i + 1;
      }
    }

    /** The question loop of UpdateSurvey: only questions without an ID draw
        one, in order. */
    method FillMissingQuestionIds(questions: seq<Question>) returns (filled: seq<Question>)
      modifies idGenerator
      ensures filled == Filled(questions, old(idGenerator.next))
      ensures idGenerator.next == old(idGenerator.next) + NilsBefore(questions, |questions|)
    {
      ghost var start := idGenerator.next;
      filled := questions;
      var i := 0;
      while i < |filled|
        modifies idGenerator
        invariant 0 <= i <= |filled| == |questions|
        invariant idGenerator.next == start + NilsBefore(questions, i)
        invariant forall j :: 0 <= j < i ==> filled[j] == FilledAt(questions, start, j)
        invariant forall j :: i <= j < |filled| ==> filled[j] == questions[j]
      {
        if filled[i].id.IsNil() {
          var qid := idGenerator.Generate();
          filled := filled[i := filled[i].(id := qid)];
        }
        i := i + 1;
      }
    }

    /** Validates, then gives the survey and each question a fresh ID and
        stamps both times with one clock reading before storing it. */
    method CreateSurvey(survey: Survey) returns (r: Result<Survey>)
      modifies surveyRepo, idGenerator, timeGenerator
      // the three checks, in the order the source makes them; none of them
      // touches the store or the providers
      ensures |survey.questions| > maxQuestions ==>
        r == Err(Invalid(TooManyQuestions)) && unchanged(surveyRepo, idGenerator, timeGenerator)
      ensures |survey.questions| <= maxQuestions && |survey.questions| == 0 ==>
        r == Err(Invalid(NoQuestions)) && unchanged(surveyRepo, idGenerator, timeGenerator)
      ensures 0 < |survey.questions| <= maxQuestions && survey.name == "" ==>
        r == Err(Invalid(NoName)) && unchanged(surveyRepo, idGenerator, timeGenerator)
      ensures r.Ok? <==> 0 < |survey.questions| <= maxQuestions && survey.name != ""
      // the survey ID is drawn first, then one ID per question in order
      ensures r.Ok? ==>
        && r.value.id == old(idGenerator.Peek(0))
        && r.value.name == survey.name
        && |r.value.questions| == |survey.questions|
        && (forall j :: 0 <= j < |survey.questions| ==>
              r.value.questions[j] == Question(old(idGenerator.Peek(1 + j)), survey.questions[j].text))
        && idGenerator.next == old(idGenerator.next) + 1 + |survey.questions|
      ensures r.Ok? ==>
        && !r.value.id.IsNil()
        && (forall j :: 0 <= j < |r.value.questions| ==>
              !r.value.questions[j].id.IsNil() && r.value.questions[j].id != r.value.id)
        && (forall j, k :: 0 <= j < k < |r.value.questions| ==>
              r.value.questions[j].id != r.value.questions[k].id)
      // one clock reading for both stamps, after which the clock has moved
      // on; stored under the new ID
      ensures r.Ok? ==>
        && r.value.createdAt == r.value.updatedAt == old(timeGenerator.reading)
        && timeGenerator.reading > old(timeGenerator.reading)
        && surveyRepo.surveys == old(surveyRepo.surveys)[r.value.id := r.value]
      // with the service's state consistent, the new ID was not in use
      ensures old(Consistent()) && r.Ok? ==> r.value.id !in old(surveyRepo.surveys)
      ensures old(Consistent()) ==> Consistent()
    {
      if |survey.questions| > maxQuestions {
        return Err(Invalid(TooManyQuestions));
      }
      if |survey.questions| == 0 {
        return Err(Invalid(NoQuestions));
      }
      if survey.name == "" {
        return Err(Invalid(NoName));
      }
      var surveyId := idGenerator.Generate();
      var questions := AssignQuestionIds(survey.questions);
      var now := timeGenerator.Now();
      var created := survey.(id := surveyId, questions := questions, createdAt := now, updatedAt := now);
      CreatedIdsDistinct(created, old(idGenerator.next));
      r := surveyRepo.Create(created);
    }

    method GetSurvey(id: Id) returns (r: Result<Survey>)
      ensures r.Ok? <==> id in surveyRepo.surveys
      ensures r.Ok? ==> r.value == surveyRepo.surveys[id]
      ensures r.Err? ==> r.error == NotFound
    {
      r := surveyRepo.Get(id);
    }

    /** Takes the ID from the path, fills in only the missing question IDs
        and stamps the update time; no validation. The IDs are drawn and the
        clock read even when the survey turns out to be missing. */
    method UpdateSurvey(id: Id, survey: Survey) returns (r: Result<Survey>)
      modifies surveyRepo, idGenerator, timeGenerator
      ensures idGenerator.next == old(idGenerator.next) + NilsBefore(survey.questions, |survey.questions|)
      ensures timeGenerator.reading > old(timeGenerator.reading)
      ensures id !in old(surveyRepo.surveys) ==>
        r == Err(NotFound) && surveyRepo.surveys == old(surveyRepo.surveys)
      ensures id in old(surveyRepo.surveys) ==>
        var updated := survey.(id := id,
                               questions := Filled(survey.questions, old(idGenerator.next)),
                               updatedAt := old(timeGenerator.reading));
        r == Ok(updated) && surveyRepo.surveys == old(surveyRepo.surveys)[id := updated]
      // with the service's state consistent, the update stamp moves forward
      ensures old(Consistent()) && id in old(surveyRepo.surveys) ==>
        surveyRepo.surveys[id].updatedAt > old(surveyRepo.surveys[id].updatedAt)
      ensures old(Consistent()) ==> Consistent()
    {
      var questions := FillMissingQuestionIds(survey.questions);
      var now := timeGenerator.Now();
      var updated := survey.(id := id, questions := questions, updatedAt := now);
      ghost var before := surveyRepo.surveys;
      r := surveyRepo.Update(id, updated);
      if old(Consistent()) && id in before {
        assert UpdatedBefore(before, old(timeGenerator.reading));
        StoreKeepsInvariants(before, updated, idGenerator.next, timeGenerator.reading);
      }
    }

    /** Removes the survey; its responses stay in the response store. */
    method DeleteSurvey(id: Id) returns (r: Result<()>)
      modifies surveyRepo
      ensures id !in old(surveyRepo.surveys) ==>
        r == Err(NotFound) && surveyRepo.surveys == old(surveyRepo.surveys)
      ensures id in old(surveyRepo.surveys) ==>
        r == Ok(()) && surveyRepo.surveys == old(surveyRepo.surveys) - {id}
      ensures unchanged(responseRepo, idGenerator, timeGenerator)
      ensures old(Consistent()) ==> Consistent()
    {
      r := surveyRepo.Delete(id);
    }

    method GetAllSurveys() returns (r: Result<seq<Survey>>)
      ensures r.Err? <==> |surveyRepo.surveys| == 0
      ensures r.Err? ==> r.error == NotFound
      ensures r.Ok? ==> multiset(r.value) == ValueBag(surveyRepo.surveys)
      ensures r.Ok? ==> |r.value| == |surveyRepo.surveys|
      ensures r.Ok? ==> forall s :: s in r.value <==> s in surveyRepo.surveys.Values
    {
      r := surveyRepo.GetAll();
    }

    /** Checks that the survey exists, then the answer count; only then draws
        an ID, reads the clock and appends the response. */
    method SaveResponse(response: Response) returns (r: Result<Response>)
      modifies responseRepo, idGenerator, timeGenerator
      ensures response.surveyId !in surveyRepo.surveys ==>
        r == Err(NotFound) && unchanged(responseRepo, idGenerator, timeGenerator)
      ensures response.surveyId in surveyRepo.surveys && |response.answers| > maxQuestions ==>
        r == Err(Invalid(TooManyAnswers)) && unchanged(responseRepo, idGenerator, timeGenerator)
      ensures response.surveyId in surveyRepo.surveys && |response.answers| <= maxQuestions ==>
        var saved := response.(id := old(idGenerator.Peek(0)), createdAt := old(timeGenerator.reading));
        && r == Ok(saved)
        && responseRepo.responses == WithResponse(old(responseRepo.responses), saved)
        && idGenerator.next == old(idGenerator.next) + 1
        && timeGenerator.reading > old(timeGenerator.reading)
      ensures unchanged(surveyRepo)
      ensures old(Consistent()) ==> Consistent()
    {
      var found := surveyRepo.Get(response.surveyId);
      if found.Err? {
        return Err(found.error);
      }
      if |response.answers| > maxQuestions {
        return Err(Invalid(TooManyAnswers));
      }
      var responseId := idGenerator.Generate();
      var now := timeGenerator.Now();
      var saved := response.(id := responseId, createdAt := now);
      if FiledBySurvey(responseRepo.responses) {
        WithResponseFiled(responseRepo.responses, saved);
      }
      r := responseRepo.Create(saved);
    }

    method GetResponses(surveyId: Id) returns (r: Result<seq<Response>>)
      ensures r.Ok? <==> surveyId in responseRepo.responses
      ensures r.Ok? ==> r.value == responseRepo.responses[surveyId]
      ensures r.Err? ==> r.error == NotFound
    {
      r := responseRepo.GetBySurveyID(surveyId);
    }

    /** The persistence snapshot of both stores. */
    method Entries() returns (e: DBEntry)
      ensures e.surveys == surveyRepo.surveys
      ensures e.responses == responseRepo.responses
    {
      var responses := responseRepo.Entries();
      var surveys := surveyRepo.Entries();
      e := DBEntry(surveys, responses);
    }
  }

  /** With three questions allowed and one stored survey of two questions,
      the ID supply starting past the stored IDs: the survey is answered
      once and deleted, and its response is still retrievable afterwards. */
  method OrphanedResponseScenario() returns (before: Result<seq<Response>>, afterDelete: Result<seq<Response>>)
    ensures before.Ok? && |before.value| == 1
    ensures |before.value[0].answers| == 2
    ensures before.value[0].answers[0].answer && !before.value[0].answers[1].answer
    ensures before.value[0].id != before.value[0].surveyId
    ensures afterDelete == before
  {
    var sid, q1, q2 := Ksuid(0), Ksuid(1), Ksuid(2);
    var survey := Survey(sid, "S", [Question(q1, "Q1"), Question(q2, "Q2")], 0, 0);
    var surveys := new SurveyRepo(Some(map[sid := survey]));
    var responses := new ResponseRepo(None);
    var ids := new IdSupply(3);
    var clock := new Clock(1);
    var service := new SurveyService(3, surveys, responses, ids, clock);
    var saved := service.SaveResponse(Response(NilId, sid, [Answer(q1, true), Answer(q2, false)], 0));
    before := service.GetResponses(sid);
    var deleted := service.DeleteSurvey(sid);
    afterDelete := service.GetResponses(sid);
  }

  /** A created survey, once deleted, is not found, and deleting it again
      reports NotFound. */
  method DeleteTwiceScenario() returns (lookup: Result<Survey>, secondDelete: Result<()>)
    ensures lookup == Err(NotFound)
    ensures secondDelete == Err(NotFound)
  {
    var surveys := new SurveyRepo(None);
    var responses := new ResponseRepo(None);
    var ids := new IdSupply(0);
    var clock := new Clock(1);
    var service := new SurveyService(3, surveys, responses, ids, clock);
    var created := service.CreateSurvey(Survey(NilId, "S", [Question(NilId, "Q1")], 0, 0));
    assert created.Ok?;
    var deleted := service.DeleteSurvey(created.value.id);
    assert deleted.Ok?;
    lookup := service.GetSurvey(created.value.id);
    secondDelete := service.DeleteSurvey(created.value.id);
  }
}
