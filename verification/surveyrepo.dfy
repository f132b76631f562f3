/** The survey store (internal/repositories/surveyrepo/surveyrepo.go): a map
    from survey ID to survey, updated in place. Locking is left out; every
    operation is one atomic step. */
module SurveyStore {
  import opened Models

  /** Some key of a non-empty map: the entry ValueBag takes out first. */
  ghost function Pick(m: map<Id, Survey>): (k: Id)
    requires |m| != 0
    ensures k in m
  {
    var k :| k in m; k
  }

  /** The surveys of a map counted with multiplicity, one per entry. */
  ghost function ValueBag(m: map<Id, Survey>): multiset<Survey>
    decreases |m|
  {
    if |m| == 0 then multiset{}
    else multiset{m[Pick(m)]} + ValueBag(m - {Pick(m)})
  }

  /** Any entry, not only the one ValueBag picks, can be taken out first. */
  lemma {:induction false} ValueBagRemove(m: map<Id, Survey>, k: Id)
    requires k in m
    ensures ValueBag(m) == multiset{m[k]} + ValueBag(m - {k})
    decreases |m|
  {
    var k' := Pick(m);
    if k' != k {
      var withoutK', withoutK := m - {k'}, m - {k};
      var withoutBoth := withoutK' - {k};
      assert withoutK - {k'} == withoutBoth;
      assert k in withoutK' && withoutK'[k] == m[k];
      assert k' in withoutK && withoutK[k'] == m[k'];
      ValueBagRemove(withoutK', k);
      ValueBagRemove(withoutK, k');
      calc {
        ValueBag(m);
        multiset{m[k']} + ValueBag(withoutK');
        multiset{m[k']} + (multiset{m[k]} + ValueBag(withoutBoth));
        multiset{m[k]} + (multiset{m[k']} + ValueBag(withoutBoth));
        multiset{m[k]} + ValueBag(withoutK);
      }
    }
  }

  /** One survey per entry: the bag is as large as the map. */
  lemma {:induction false} ValueBagSize(m: map<Id, Survey>)
    ensures |ValueBag(m)| == |m|
    decreases |m|
  {
    if |m| != 0 {
      var k := Pick(m);
      ValueBagSize(m - {k});
    }
  }

  /** Every stored survey is in the bag, and nothing else is. */
  lemma {:induction false} ValueBagMembers(m: map<Id, Survey>, s: Survey)
    ensures s in ValueBag(m) <==> s in m.Values
    decreases |m|
  {
    if |m| != 0 {
      var k := Pick(m);
      ValueBagMembers(m - {k}, s);
      assert m.Values == (m - {k}).Values + {m[k]} by {
        forall v | v in m.Values ensures v in (m - {k}).Values + {m[k]} {
          var k2 :| k2 in m && m[k2] == v;
          if k2 != k { assert k2 in m - {k}; }
        }
      }
    }
  }

  /** A sequence holding the map's surveys with their multiplicities has one
      element per entry, and its members are exactly the stored surveys. */
  lemma BagListing(all: seq<Survey>, m: map<Id, Survey>)
    requires multiset(all) == ValueBag(m)
    ensures |all| == |m|
    ensures forall s :: s in all <==> s in m.Values
  {
    ValueBagSize(m);
    assert |multiset(all)| == |all|;
    forall s ensures s in all <==> s in m.Values {
      ValueBagMembers(m, s);
    }
  }

  class SurveyRepo {
    var surveys: map<Id, Survey>

    /** NewSurveyRepo: a nil map gives an empty store. */
    constructor (existingSurveys: Option<map<Id, Survey>>)
      ensures existingSurveys.None? ==> surveys == map[]
      ensures existingSurveys.Some? ==> surveys == existingSurveys.value
    {
      if existingSurveys.None? {
        surveys := map[];
      } else {
        surveys := existingSurveys.value;
      }
    }

    /** Stores the survey under its own ID, overwriting any entry there. */
    method Create(survey: Survey) returns (r: Result<Survey>)
      modifies this
      ensures r == Ok(survey)
      ensures surveys.Keys == old(surveys).Keys + {survey.id}
      ensures surveys[survey.id] == survey
      ensures forall k :: k in old(surveys) && k != survey.id ==> surveys[k] == old(surveys)[k]
    {
      surveys := surveys[survey.id := survey];
      r := Ok(survey);
    }

    method Get(id: Id) returns (r: Result<Survey>)
      ensures r.Ok? <==> id in surveys
      ensures r.Ok? ==> r.value == surveys[id]
      ensures r.Err? ==> r.error == NotFound
    {
      if id !in surveys {
        return Err(NotFound);
      }
      r := Ok(surveys[id]);
    }

    /** Replaces the entry under `id` (not under `survey.id`) wholesale. */
    method Update(id: Id, survey: Survey) returns (r: Result<Survey>)
      modifies this
      ensures id !in old(surveys) ==> r == Err(NotFound) && surveys == old(surveys)
      ensures id in old(surveys) ==> r == Ok(survey) && surveys == old(surveys)[id := survey]
    {
      if id !in surveys {
        return Err(NotFound);
      }
      surveys := surveys[id := survey];
      r := Ok(survey);
    }

    method Delete(id: Id) returns (r: Result<()>)
      modifies this
      ensures id !in old(surveys) ==> r == Err(NotFound) && surveys == old(surveys)
      ensures id in old(surveys) ==> r == Ok(()) && surveys == old(surveys) - {id}
    {
      if id !in surveys {
        return Err(NotFound);
      }
      surveys := surveys - {id};
      r := Ok(());
    }

    /** All surveys, one per entry, in no particular order; an empty store
        is reported as NotFound. */
    method GetAll() returns (r: Result<seq<Survey>>)
      ensures r.Err? <==> |surveys| == 0
      ensures r.Err? ==> r.error == NotFound
      ensures r.Ok? ==> multiset(r.value) == ValueBag(surveys)
      ensures r.Ok? ==> |r.value| == |surveys|
      ensures r.Ok? ==> forall s :: s in r.value <==> s in surveys.Values
    {
      if |surveys| == 0 {
        return Err(NotFound);
      }
      var all: seq<Survey> := [];
      var rest := surveys;
      while |rest| != 0
        invariant multiset(all) + ValueBag(rest) == ValueBag(surveys)
        decreases |rest|
      {
        assert Pick(rest) in rest;
        var k :| k in rest;
        var survey := rest[k];
        ValueBagRemove(rest, k);
        assert multiset(all + [survey]) == multiset(all) + multiset{survey};
        all := all + [survey];
        rest := rest - {k};
      }
      BagListing(all, surveys);
      r := Ok(all);
    }

    method Entries() returns (m: map<Id, Survey>)
      ensures m == surveys
    {
      m := surveys;
    }
  }
}
