/** POST /api/recommendations (src/app/api/recommendations/route.ts): the guard chain
    (API key, bearer token, stored preferences, request body) and the 24-hour cache
    gate in front of the recommendation generator, with the single whole-record write
    that refreshes the cache. The preference store's read and write and the generator
    are parameters; what the handler did with them is reported in the outcome. */
module RecommendationsRoute {
  import opened Common
  import opened Types
  import Bearer
  import GeminiApi

  /** 24 hours in milliseconds. */
  const DayMs: int := 24 * 60 * 60 * 1000

  /** The route compares `hoursElapsed = ms / (1000 * 60 * 60)` with 24; with exact
      arithmetic that is the same as comparing the milliseconds with one day. */
  lemma HoursElapsedTest(elapsed: int)
    ensures elapsed as real / (1000.0 * 60.0 * 60.0) < 24.0 <==> elapsed < DayMs
  {
  }

  datatype Reply = Reply(status: int, recommendations: seq<Recommendation>, error: Option<string>)

  /** The response, whether the stored preferences were read, how often the generator
      ran, and the one preference write the handler issued, if any. */
  datatype Outcome = Outcome(reply: Reply, storeRead: bool, generatorCalls: nat, written: Option<(string, Preferences)>)

  const KeyMissingMessage := "Gemini API key is not configured. Please set the NEXT_PUBLIC_GEMINI_API_KEY environment variable."
  const AuthRequiredMessage := "Authentication required for personalized recommendations"
  const InvalidTokenMessage := "Invalid authentication token"
  const PreferencesMissingMessage := "User preferences not found"
  const BadJsonMessage := "Invalid request format: Could not parse JSON body"
  const NoRatedGamesMessage := "Please provide at least one rated game for recommendations."

  /** The cache gate: a refresh time, a non-empty cache, and less than a day since the refresh. */
  predicate IsFresh(p: Preferences, now: Stamp) {
    && p.lastRecommendationRefresh.Some?
    && p.cachedRecommendations.Some?
    && |p.cachedRecommendations.value| > 0
    && now - p.lastRecommendationRefresh.value < DayMs
  }

  /** `{ ...userPreferences, lastRecommendationRefresh: now, cachedRecommendations: recommendations }`. */
  function Refreshed(p: Preferences, now: Stamp, recs: seq<Recommendation>): Preferences {
    p.(lastRecommendationRefresh := Some(now), cachedRecommendations := Some(recs))
  }

  predicate HasRatedGames(r: RecommendationRequest) {
    r.ratedGames.Some? && |r.ratedGames.value| > 0
  }

  function Failure(status: int, message: string): Reply {
    Reply(status, [], Some(message))
  }

  /** The handler. `load` is the preference read (None: not found), `body` is None when the
      body is not JSON, `generate` is the generator, `write` is the preference write, whose
      answer the handler ignores. */
  function Post(keyConfigured: bool, header: Option<string>, verify: string -> Option<string>,
                load: string -> Option<Preferences>, body: Option<RecommendationRequest>, now: Stamp,
                generate: RecommendationRequest -> GeminiApi.GenResult,
                write: (string, Preferences) -> Option<Preferences>): (o: Outcome)
    ensures !keyConfigured ==> o == Outcome(Failure(500, KeyMissingMessage), false, 0, None)
    ensures keyConfigured && Bearer.Authenticate(header, verify).None? ==>
      o.reply.status == 401 && o.reply.recommendations == [] && !o.storeRead && o.generatorCalls == 0 && o.written.None?
    ensures o.storeRead <==> keyConfigured && Bearer.Authenticate(header, verify).Some?
    ensures o.generatorCalls <= 1 && (o.written.Some? ==> o.generatorCalls == 1)
    ensures o.storeRead && load(Bearer.Authenticate(header, verify).value).None? ==>
      o == Outcome(Failure(404, PreferencesMissingMessage), true, 0, None)
    ensures o.storeRead && load(Bearer.Authenticate(header, verify).value).Some? && body.None? ==>
      o == Outcome(Failure(400, BadJsonMessage), true, 0, None)
    ensures o.storeRead && load(Bearer.Authenticate(header, verify).value).Some? && body.Some? && !HasRatedGames(body.value) ==>
      o == Outcome(Failure(400, NoRatedGamesMessage), true, 0, None)
    ensures o.storeRead && load(Bearer.Authenticate(header, verify).value).Some? && body.Some? && HasRatedGames(body.value) ==>
      var user := Bearer.Authenticate(header, verify).value;
      var p := load(user).value;
      if IsFresh(p, now) then
        o == Outcome(Reply(200, p.cachedRecommendations.value, None), true, 0, None)
      else
        && o.generatorCalls == 1
        && match generate(body.value)
           case Generated(recs) => o.reply == Reply(200, recs, None) && o.written == Some((user, Refreshed(p, now, recs)))
           case GenerationFailed(m) => o.reply == Failure(500, m) && o.written.None?
    ensures o.reply.status == 200 ==> o.reply.error.None?
  {
    if !keyConfigured then Outcome(Failure(500, KeyMissingMessage), false, 0, None)
    else if Bearer.TokenOf(header).None? then Outcome(Failure(401, AuthRequiredMessage), false, 0, None)
    else if Bearer.Authenticate(header, verify).None? then Outcome(Failure(401, InvalidTokenMessage), false, 0, None)
    else
      var user := Bearer.Authenticate(header, verify).value;
      match load(user)
      case None => Outcome(Failure(404, PreferencesMissingMessage), true, 0, None)
      case Some(p) =>
        match body
        case None => Outcome(Failure(400, BadJsonMessage), true, 0, None)
        case Some(request) =>
          if !HasRatedGames(request) then Outcome(Failure(400, NoRatedGamesMessage), true, 0, None)
          else if IsFresh(p, now) then Outcome(Reply(200, p.cachedRecommendations.value, None), true, 0, None)
          else
            match generate(request)
            case GenerationFailed(m) => Outcome(Failure(500, m), true, 1, None)
            case Generated(recs) =>
              var _ := write(user, Refreshed(p, now, recs));
              Outcome(Reply(200, recs, None), true, 1, Some((user, Refreshed(p, now, recs))))
  }

  /** The gate looks at the stored record only: any two requests that both carry rated
      games get the same decision and, when the cache is fresh, the same reply. */
  lemma GateIgnoresRequest(header: Option<string>, verify: string -> Option<string>,
                           load: string -> Option<Preferences>, r1: RecommendationRequest, r2: RecommendationRequest,
                           now: Stamp, generate: RecommendationRequest -> GeminiApi.GenResult,
                           write: (string, Preferences) -> Option<Preferences>)
    requires HasRatedGames(r1) && HasRatedGames(r2)
    ensures Post(true, header, verify, load, Some(r1), now, generate, write).generatorCalls
         == Post(true, header, verify, load, Some(r2), now, generate, write).generatorCalls
    ensures Post(true, header, verify, load, Some(r1), now, generate, write).generatorCalls == 0 ==>
      Post(true, header, verify, load, Some(r1), now, generate, write)
        == Post(true, header, verify, load, Some(r2), now, generate, write)
  {
  }

  /** A failed write changes nothing in the response: the handler discards the answer. */
  lemma WriteAnswerIgnored(keyConfigured: bool, header: Option<string>, verify: string -> Option<string>,
                           load: string -> Option<Preferences>, body: Option<RecommendationRequest>, now: Stamp,
                           generate: RecommendationRequest -> GeminiApi.GenResult,
                           w1: (string, Preferences) -> Option<Preferences>, w2: (string, Preferences) -> Option<Preferences>)
    ensures Post(keyConfigured, header, verify, load, body, now, generate, w1)
         == Post(keyConfigured, header, verify, load, body, now, generate, w2)
  {
  }

  /** Stale to fresh: once a generation that produced recommendations has been written
      back, every request in the following 24 hours is served from the cache, without
      the generator and without a write, whatever the generator would now answer. */
  lemma {:induction false} RefreshServesCacheForADay(
    header: Option<string>, verify: string -> Option<string>, load: string -> Option<Preferences>,
    request: RecommendationRequest, now: Stamp, generate: RecommendationRequest -> GeminiApi.GenResult,
    write: (string, Preferences) -> Option<Preferences>,
    later: Stamp, request2: RecommendationRequest, generate2: RecommendationRequest -> GeminiApi.GenResult)
    requires Bearer.Authenticate(header, verify).Some? && HasRatedGames(request) && HasRatedGames(request2)
    requires var o := Post(true, header, verify, load, Some(request), now, generate, write);
      o.written.Some? && |o.reply.recommendations| > 0
    requires now <= later < now + DayMs
    ensures var o := Post(true, header, verify, load, Some(request), now, generate, write);
      var user := Bearer.Authenticate(header, verify).value;
      var load2 := (u: string) => if u == user then Some(o.written.value.1) else load(u);
      var o2 := Post(true, header, verify, load2, Some(request2), later, generate2, write);
      o2.generatorCalls == 0 && o2.written.None? && o2.reply == o.reply
  {
    var o := Post(true, header, verify, load, Some(request), now, generate, write);
    var user := Bearer.Authenticate(header, verify).value;
    var p := load(user).value;
    assert generate(request).Generated?;
    var recs := generate(request).recommendations;
    assert o.written.value.1 == Refreshed(p, now, recs);
    assert IsFresh(Refreshed(p, now, recs), later);
  }

  /** A failed generation leaves the stored record as it was, so the next request runs
      the generator again; a generation that produced nothing is written, but an empty
      cache is never served. */
  lemma {:induction false} FailureStaysStale(
    header: Option<string>, verify: string -> Option<string>, load: string -> Option<Preferences>,
    request: RecommendationRequest, now: Stamp, generate: RecommendationRequest -> GeminiApi.GenResult,
    write: (string, Preferences) -> Option<Preferences>, later: Stamp)
    requires Bearer.Authenticate(header, verify).Some? && HasRatedGames(request)
    requires load(Bearer.Authenticate(header, verify).value).Some?
    requires Post(true, header, verify, load, Some(request), now, generate, write).generatorCalls == 1
    requires later >= now
    ensures generate(request).GenerationFailed? ==>
      Post(true, header, verify, load, Some(request), now, generate, write).written.None?
    ensures generate(request).GenerationFailed? ==>
      Post(true, header, verify, load, Some(request), later, generate, write).generatorCalls == 1
    ensures generate(request) == GeminiApi.Generated([]) ==>
      var o := Post(true, header, verify, load, Some(request), now, generate, write);
      var user := Bearer.Authenticate(header, verify).value;
      var load2 := (u: string) => if u == user then Some(o.written.value.1) else load(u);
      Post(true, header, verify, load2, Some(request), later, generate, write).generatorCalls == 1
  {
    var user := Bearer.Authenticate(header, verify).value;
    var p := load(user).value;
    assert !IsFresh(p, now);
    assert !IsFresh(p, later);
  }
}
