/** POST /api/user/games/rate (src/app/api/user/games/rate/route.ts): the bearer
    guard, the body and half-star checks, the rated-game record and the mapping of the
    store's answer to 404 or 200. The store operation `rateGameForUser` is a parameter. */
module RateRoute {
  import opened Common
  import opened Types
  import Bearer

  /** `x % 1` in JavaScript: the remainder truncates toward zero, so it has the sign of `x`. */
  function JsRemainderOne(x: real): (r: real)
    ensures 0.0 <= x ==> 0.0 <= r < 1.0
    ensures x < 0.0 ==> -1.0 < r <= 0.0
    ensures r == 0.0 <==> x.Floor as real == x
  {
    if x >= 0.0 then x - x.Floor as real
    else
      var f := (-x).Floor;
      assert f as real <= -x < f as real + 1.0;
      assert f as real == -x ==> x.Floor == -f;
      assert x.Floor as real <= x < x.Floor as real + 1.0;
      x + f as real
  }

  /** The route's rating test, negated: `rating < 0 || rating > 5 || (rating * 2) % 1 !== 0`. */
  predicate IsHalfStar(rating: real) {
    !(rating < 0.0 || rating > 5.0 || JsRemainderOne(rating * 2.0) != 0.0)
  }

  /** The accepted ratings are exactly the eleven values 0, 0.5, ..., 5. */
  lemma HalfStarIsStep(rating: real)
    ensures IsHalfStar(rating) ==> 0 <= (2.0 * rating).Floor <= 10
    ensures IsHalfStar(rating) ==> rating == (2.0 * rating).Floor as real / 2.0
  {
  }

  lemma {:induction false} EveryStepIsHalfStar(k: int)
    requires 0 <= k <= 10
    ensures IsHalfStar(k as real / 2.0)
  {
    var r := k as real / 2.0;
    assert r * 2.0 == k as real;
    assert (r * 2.0).Floor == k;
  }

  lemma HalfStarExamples()
    ensures IsHalfStar(0.0) && IsHalfStar(0.5) && IsHalfStar(5.0)
    ensures !IsHalfStar(0.25) && !IsHalfStar(5.5) && !IsHalfStar(-0.5)
  {
    assert (0.5 * 2.0).Floor == 1;
    assert (0.25 * 2.0).Floor == 0;
  }

  /** The `game` object of a request. A client may send a game that it has rated
      before, so stale `rating` and `dateRated` fields may be present on it. */
  datatype GameBody = GameBody(game: Game, rating: Option<real>, dateRated: Option<Stamp>)

  /** The parsed request body; `rating` is None when it is not a number. */
  datatype RateBody = RateBody(game: Option<GameBody>, rating: Option<real>)

  /** `{ ...body.game, rating: body.rating, dateRated: new Date() }`. */
  function RatedGameOf(body: GameBody, rating: real, now: Stamp): RatedGame {
    RatedGame(body.game, rating, Some(now))
  }

  /** The spread lets the request's rating and clock win over any stale fields of the game. */
  lemma RequestRatingOverrides(b: GameBody, rating: real, now: Stamp)
    ensures RatedGameOf(b, rating, now).rating == rating
    ensures RatedGameOf(b, rating, now).dateRated == Some(now)
    ensures RatedGameOf(b, rating, now).game == b.game
    ensures forall stale: Option<real>, when: Option<Stamp> ::
      RatedGameOf(GameBody(b.game, stale, when), rating, now) == RatedGameOf(b, rating, now)
  {
  }

  datatype Reply = Reply(status: int, success: bool, message: Option<string>, preferences: Option<Preferences>)

  /** The response and the one store call the handler made, if any. */
  datatype Outcome = Outcome(reply: Reply, storeCall: Option<(string, RatedGame)>)

  const NoTokenMessage := "No token provided"
  const InvalidTokenMessage := "Invalid token"
  const InvalidBodyMessage := "Invalid game or rating data"
  const InvalidRatingMessage := "Rating must be between 0 and 5 in half-star increments (0, 0.5, 1, 1.5, etc.)"
  const UserNotFoundMessage := "User not found"
  const InternalErrorMessage := "Internal server error"

  function Failure(status: int, message: string): Reply {
    Reply(status, false, Some(message), None)
  }

  /** Whether a parsed body passes both input checks. */
  predicate Acceptable(b: RateBody) {
    b.game.Some? && b.rating.Some? && IsHalfStar(b.rating.value)
  }

  /** The handler. `body` is None when the request body is not JSON (the handler's catch
      gives 500); `rateGameForUser` answers None for an unknown user. */
  function Post(header: Option<string>, verify: string -> Option<string>, body: Option<RateBody>,
                now: Stamp, rateGameForUser: (string, RatedGame) -> Option<Preferences>): (o: Outcome)
    ensures Bearer.Authenticate(header, verify).None? ==> o.reply.status == 401 && o.storeCall.None?
    ensures Bearer.TokenOf(header).None? ==> o.reply.message == Some(NoTokenMessage)
    ensures o.reply.status == 400 <==>
      Bearer.Authenticate(header, verify).Some? && body.Some? && !Acceptable(body.value)
    ensures o.reply.status == 500 <==> Bearer.Authenticate(header, verify).Some? && body.None?
    ensures o.storeCall.Some? <==>
      Bearer.Authenticate(header, verify).Some? && body.Some? && Acceptable(body.value)
    ensures o.storeCall.Some? ==>
      var user := Bearer.Authenticate(header, verify).value;
      var g := RatedGameOf(body.value.game.value, body.value.rating.value, now);
      && o.storeCall.value == (user, g)
      && (rateGameForUser(user, g).None? ==> o.reply == Failure(404, UserNotFoundMessage))
      && (rateGameForUser(user, g).Some? ==> o.reply == Reply(200, true, None, rateGameForUser(user, g)))
  {
    if Bearer.TokenOf(header).None? then Outcome(Failure(401, NoTokenMessage), None)
    else if Bearer.Authenticate(header, verify).None? then Outcome(Failure(401, InvalidTokenMessage), None)
    else
      var user := Bearer.Authenticate(header, verify).value;
      match body
      case None => Outcome(Failure(500, InternalErrorMessage), None)
      case Some(b) =>
        if b.game.None? || b.rating.None? then Outcome(Failure(400, InvalidBodyMessage), None)
        else if !IsHalfStar(b.rating.value) then Outcome(Failure(400, InvalidRatingMessage), None)
        else
          var g := RatedGameOf(b.game.value, b.rating.value, now);
          match rateGameForUser(user, g)
          case None => Outcome(Failure(404, UserNotFoundMessage), Some((user, g)))
          case Some(p) => Outcome(Reply(200, true, None, Some(p)), Some((user, g)))
  }

  /** The candidate ratings that pass and fail the route, as constants. */
  lemma RatingVerdicts(header: Option<string>, verify: string -> Option<string>, g: GameBody,
                       now: Stamp, store: (string, RatedGame) -> Option<Preferences>)
    requires Bearer.Authenticate(header, verify).Some?
    ensures Post(header, verify, Some(RateBody(Some(g), Some(0.5))), now, store).storeCall.Some?
    ensures Post(header, verify, Some(RateBody(Some(g), Some(0.25))), now, store).reply.status == 400
    ensures Post(header, verify, Some(RateBody(Some(g), Some(5.5))), now, store).reply.status == 400
    ensures Post(header, verify, Some(RateBody(Some(g), Some(-0.5))), now, store).reply.status == 400
  {
    HalfStarExamples();
  }
}
