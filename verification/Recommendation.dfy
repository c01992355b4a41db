// The whole request path of src/core/content_based.cpp: query the counters and the trends, predict, deal out.

module Recommendation {
  import opened Floats
  import opened Marshaling
  import opened Counters
  import opened UserInterest
  import opened News
  import opened Predictions
  import opened ContentBasedModel

  /** The values of a table of scores that are all defined. */
  function Values(scores: map<int, Number>): map<int, real>
    requires forall c :: c in scores ==> scores[c].Finite?
  {
    map c | c in scores :: scores[c].value
  }

  /** What the query for current interests contributes: nothing for a user without counters. */
  ghost function CurrentOf(t: Tables, user: nat, G: real, categories: set<int>): (m: map<int, real>)
    ensures user !in t.users ==> m == map[]
    ensures user in t.users ==> m.Keys == categories
    ensures user in t.users ==> forall c :: c in categories && Score(t.dist, t.users[user], G, c).Finite? ==>
              m[c] == Score(t.dist, t.users[user], G, c).value
  {
    if user !in t.users then map[] else map c | c in categories :: ScoreValue(t.dist, t.users[user], G)(c)
  }

  lemma ScoresAreDefined(t: Tables, user: nat, G: real, categories: set<int>)
    requires Consistent(t) && G > 0.0
    ensures user in t.users ==> forall c :: c in categories ==> Score(t.dist, t.users[user], G, c).Finite?
    ensures PositiveMap(CurrentOf(t, user, G, categories))
  {
    if user in t.users {
      forall c | c in categories
        ensures Score(t.dist, t.users[user], G, c).Finite? && Score(t.dist, t.users[user], G, c).value > 0.0
      {
        ScoreBounds(t, user, G, c);
      }
    }
  }

  /** A user with counters and no long-term interests is dealt from all categories, by the current scores. */
  lemma MixIsCurrent(t: Tables, user: nat, G: real, categories: set<int>, news: map<int, real>, alpha: real)
    requires Consistent(t) && G > 0.0 && user in t.users && categories != {}
    ensures var mixed := MixMap(map[], CurrentOf(t, user, G, categories), news, categories, alpha);
            && mixed.Keys == categories
            && forall c :: c in categories ==> Score(t.dist, t.users[user], G, c) == Finite(mixed[c])
  {
    hide Score, Consistent;
    ScoresAreDefined(t, user, G, categories);
    assert CurrentOf(t, user, G, categories).Keys != {};
  }

  /** What every operation of the counters and the trends keeps is enough for a request to be served. */
  ghost predicate Ready(interests: UserInterests, trends: NewsTrends)
    reads interests, trends, trends.published
  {
    Consistent(interests.State()) && interests.virtualClicks > 0.0 && PositiveMap(trends.published.entries)
  }

  /**
   * A request for any user. As long as the counters only ever counted up and the published trends came from training,
   * the mix of the distributions is all there is to check: if it has more than n (at most 100) categories the request
   * gets exactly as many categories as it asks for or as the head has, as dealt from a prediction of the
   * mix, and none of them twice within n places.
   */
  method Recommend(cb: ContentBased, interests: UserInterests, trends: NewsTrends, user: nat,
                   longTerm: map<int, real>, requestNum: nat)
    returns (result: Result<seq<int>>)
    requires Ready(interests, trends) && PositiveMap(longTerm) && 0.0 <= cb.alpha <= 1.0
    requires var current := CurrentOf(interests.State(), user, interests.virtualClicks, cb.categories);
             var mixed := MixMap(longTerm, current, trends.published.entries, cb.categories, cb.alpha);
             mixed != map[] ==>
               0 < cb.marshaler.n < |mixed| <= 100 && cb.marshaler.r1 < 1.0 && cb.marshaler.topt <= |mixed|
    ensures var current := CurrentOf(interests.State(), user, interests.virtualClicks, cb.categories);
            var mixed := MixMap(longTerm, current, trends.published.entries, cb.categories, cb.alpha);
            && (result.Corruption? <==> mixed == map[])
            && (result.Ok? ==>
                 && |result.value| == Max(requestNum, HeadOf(mixed, cb.marshaler.r1, cb.marshaler.topt))
                 && DealtFrom(cb.marshaler, mixed, HeadOf(mixed, cb.marshaler.r1, cb.marshaler.topt), result.value)
                 && (forall i :: 0 <= i < |result.value| ==> result.value[i] in mixed)
                 && (forall i, j :: 0 <= i < j < |result.value| && j - i <= cb.marshaler.n ==>
                       result.value[i] != result.value[j]))
  {
    hide Consistent, Score, MixMap;
    ScoresAreDefined(interests.State(), user, interests.virtualClicks, cb.categories);
    var scores := interests.QueryUserCurrentInterests(user, cb.categories);
    var current := if scores.None? then map[] else Values(scores.value);
    assert current == CurrentOf(interests.State(), user, interests.virtualClicks, cb.categories);
    result := cb.MarshalUserInterests(longTerm, current, trends.published.entries, requestNum);
  }
}
