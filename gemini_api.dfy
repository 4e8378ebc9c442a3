/** The prompt side of the recommendation generator (src/utils/geminiApi.ts): the API
    key guard, the grouping of rated titles by rating, the fixed descending list of
    labelled lines, the default count, and the handling of the model's reply. The model
    call and `JSON.parse` are parameters. */
module GeminiApi {
  import opened Common
  import opened Types

  /** The ratings that get a line, in the order the lines are written. */
  const PossibleRatings: seq<real> := [5.0, 4.5, 4.0, 3.5, 3.0, 2.5, 2.0, 1.5, 1.0, 0.5]

  /** `getRatingDescription`. Its default branch prints the number with JavaScript's
      number-to-string conversion, which `numberText` stands for. */
  function RatingLabel(rating: real, numberText: real -> string): string {
    if rating == 5.0 then "5-star games (absolutely loved)"
    else if rating == 4.5 then "4.5-star games (almost loved)"
    else if rating == 4.0 then "4-star games (really liked)"
    else if rating == 3.5 then "3.5-star games (liked quite a bit)"
    else if rating == 3.0 then "3-star games (enjoyed/neutral)"
    else if rating == 2.5 then "2.5-star games (mixed feelings)"
    else if rating == 2.0 then "2-star games (didn't love)"
    else if rating == 1.5 then "1.5-star games (didn't really like)"
    else if rating == 1.0 then "1-star games (disliked)"
    else if rating == 0.5 then "0.5-star games (really disliked)"
    else numberText(rating) + "-star games"
  }

  /** The ten listed ratings have fixed labels, one per rating, that never go through
      number formatting. */
  lemma ListedLabelsFixed(i: nat, j: nat, t1: real -> string, t2: real -> string)
    requires i < |PossibleRatings| && j < |PossibleRatings|
    ensures RatingLabel(PossibleRatings[i], t1) == RatingLabel(PossibleRatings[i], t2)
    ensures i != j ==> RatingLabel(PossibleRatings[i], t1) != RatingLabel(PossibleRatings[j], t1)
  {
  }

  // ----- grouping -----

  /** The titles of the games rated `rating`, in input order. */
  function TitlesRated(games: seq<RatedGame>, rating: real): seq<string> {
    if games == [] then []
    else
      var last := games[|games| - 1];
      TitlesRated(games[..|games| - 1], rating) + (if last.rating == rating then [last.game.title] else [])
  }

  function RatingsOf(games: seq<RatedGame>): set<real> {
    set i | 0 <= i < |games| :: games[i].rating
  }

  /** The `gamesByRating` dictionary: one key per rating that occurs. */
  function Groups(games: seq<RatedGame>): map<real, seq<string>> {
    map r | r in RatingsOf(games) :: TitlesRated(games, r)
  }

  lemma {:induction false} TitlesRatedAppend(a: seq<RatedGame>, b: seq<RatedGame>, rating: real)
    ensures TitlesRated(a + b, rating) == TitlesRated(a, rating) + TitlesRated(b, rating)
    decreases |b|
  {
    if b == [] {
      assert a + b == a;
    } else {
      var b' := b[..|b| - 1];
      assert (a + b)[..|a + b| - 1] == a + b';
      TitlesRatedAppend(a, b', rating);
    }
  }

  /** A rating that occurs has a non-empty group. */
  lemma {:induction false} TitlesRatedNonEmpty(games: seq<RatedGame>, i: nat)
    requires i < |games|
    ensures games[i].game.title in TitlesRated(games, games[i].rating)
  {
    var r := games[i].rating;
    assert games == games[..i] + [games[i]] + games[i + 1..];
    TitlesRatedAppend(games[..i] + [games[i]], games[i + 1..], r);
    TitlesRatedAppend(games[..i], [games[i]], r);
    assert [games[i]][..0] == [];
  }

  /** Every title lands in the group of its own rating, and every group belongs to a
      rating that occurs. */
  lemma GroupPlacement(games: seq<RatedGame>)
    ensures forall i | 0 <= i < |games| ::
      games[i].rating in Groups(games) && games[i].game.title in Groups(games)[games[i].rating]
    ensures forall r | r in Groups(games) :: exists i | 0 <= i < |games| :: games[i].rating == r
  {
    forall i | 0 <= i < |games|
      ensures games[i].game.title in Groups(games)[games[i].rating]
    {
      TitlesRatedNonEmpty(games, i);
    }
  }

  lemma GroupsSnoc(s: seq<RatedGame>, g: RatedGame)
    ensures var old_ := Groups(s);
      Groups(s + [g]) ==
        old_[g.rating := (if g.rating in old_ then old_[g.rating] else []) + [g.game.title]]
  {
    var old_ := Groups(s);
    var t := s + [g];
    assert t[..|t| - 1] == s;
    assert RatingsOf(t) == RatingsOf(s) + {g.rating} by {
      forall r | r in RatingsOf(t) ensures r in RatingsOf(s) + {g.rating} {
        var i :| 0 <= i < |t| && t[i].rating == r;
        if i < |s| { assert s[i] == t[i]; }
      }
      forall r | r in RatingsOf(s) ensures r in RatingsOf(t) {
        var i :| 0 <= i < |s| && s[i].rating == r;
        assert t[i] == s[i];
      }
      assert t[|s|] == g;
    }
    if g.rating !in old_ && TitlesRated(s, g.rating) != [] {
      TitlesRatedOccurs(s, g.rating);
    }
    var new_ := old_[g.rating := (if g.rating in old_ then old_[g.rating] else []) + [g.game.title]];
    forall r | r in RatingsOf(t) ensures Groups(t)[r] == new_[r] {
      assert TitlesRated(t, r) == TitlesRated(s, r) + (if g.rating == r then [g.game.title] else []);
    }
    assert Groups(t).Keys == new_.Keys;
  }

  lemma {:induction false} TitlesRatedOccurs(games: seq<RatedGame>, rating: real)
    requires TitlesRated(games, rating) != []
    ensures rating in RatingsOf(games)
  {
    var pre := games[..|games| - 1];
    if games[|games| - 1].rating != rating {
      TitlesRatedOccurs(pre, rating);
      var i :| 0 <= i < |pre| && pre[i].rating == rating;
      assert games[i] == pre[i];
    }
  }

  /** The `reduce` that builds `gamesByRating`. */
  method GroupByRating(games: seq<RatedGame>) returns (groups: map<real, seq<string>>)
    ensures groups == Groups(games)
  {
    groups := map[];
    var i := 0;
    while i < |games|
      invariant 0 <= i <= |games|
      invariant groups == Groups(games[..i])
    {
      var g := games[i];
      if g.rating !in groups {
        groups := groups[g.rating := []];
      }
      groups := groups[g.rating := groups[g.rating] + [g.game.title]];
      GroupsSnoc(games[..i], g);
      assert games[..i + 1] == games[..i] + [g];
      i := i + 1;
    }
    assert games[..|games|] == games;
  }

  // ----- descriptions -----

  predicate HasTitles(groups: map<real, seq<string>>, rating: real) {
    rating in groups && |groups[rating]| > 0
  }

  /** `${getRatingDescription(rating)}: ${titles.join(', ')}`. */
  function Line(groups: map<real, seq<string>>, rating: real, numberText: real -> string): string
    requires rating in groups
  {
    RatingLabel(rating, numberText) + ": " + Join(groups[rating], ", ")
  }

  /** The lines the loop over `ratings` pushes: one per rating with a non-empty group. */
  function DescriptionLines(groups: map<real, seq<string>>, ratings: seq<real>, numberText: real -> string): seq<string> {
    if ratings == [] then []
    else
      var r := ratings[|ratings| - 1];
      DescriptionLines(groups, ratings[..|ratings| - 1], numberText)
        + (if HasTitles(groups, r) then [Line(groups, r, numberText)] else [])
  }

  /** The ratings among `ratings` that get a line, in order. */
  function DescribedRatings(groups: map<real, seq<string>>, ratings: seq<real>): (rs: seq<real>)
    ensures forall k | 0 <= k < |rs| :: HasTitles(groups, rs[k])
    ensures forall r | r in rs :: r in ratings
  {
    if ratings == [] then []
    else
      var r := ratings[|ratings| - 1];
      DescribedRatings(groups, ratings[..|ratings| - 1]) + (if HasTitles(groups, r) then [r] else [])
  }

  predicate StrictlyDescending(rs: seq<real>) {
    forall i, j | 0 <= i < j < |rs| :: rs[i] > rs[j]
  }

  /** Line `k` is the line of the `k`-th described rating. */
  lemma {:induction false} LinesOfDescribed(groups: map<real, seq<string>>, ratings: seq<real>, numberText: real -> string)
    ensures var lines := DescriptionLines(groups, ratings, numberText);
      var rs := DescribedRatings(groups, ratings);
      && |lines| == |rs|
      && (forall k | 0 <= k < |rs| :: lines[k] == Line(groups, rs[k], numberText))
  {
    if ratings != [] {
      LinesOfDescribed(groups, ratings[..|ratings| - 1], numberText);
    }
  }

  /** Every listed rating that has titles gets a line. */
  lemma {:induction false} DescribedComplete(groups: map<real, seq<string>>, ratings: seq<real>)
    ensures forall r | r in ratings && HasTitles(groups, r) :: r in DescribedRatings(groups, ratings)
  {
    if ratings != [] {
      var pre := ratings[..|ratings| - 1];
      DescribedComplete(groups, pre);
      var last := ratings[|ratings| - 1];
      forall x | x in ratings && HasTitles(groups, x) ensures x in DescribedRatings(groups, ratings) {
        if x != last {
          var i :| 0 <= i < |ratings| && ratings[i] == x;
          assert pre[i] == x;
        }
      }
    }
  }

  /** When the listed ratings descend, so do the ratings of the lines. */
  lemma {:induction false} DescribedDescending(groups: map<real, seq<string>>, ratings: seq<real>)
    requires StrictlyDescending(ratings)
    ensures StrictlyDescending(DescribedRatings(groups, ratings))
  {
    if ratings != [] {
      var pre := ratings[..|ratings| - 1];
      var last := ratings[|ratings| - 1];
      assert StrictlyDescending(pre);
      DescribedDescending(groups, pre);
      var rs := DescribedRatings(groups, pre);
      forall y | y in rs ensures y > last {
        var i :| 0 <= i < |pre| && pre[i] == y;
        assert ratings[i] == y;
      }
      var all := DescribedRatings(groups, ratings);
      forall i, j | 0 <= i < j < |all| ensures all[i] > all[j] {
        if j == |rs| {
          assert all[i] == rs[i] && rs[i] in rs;
        } else {
          assert all[i] == rs[i] && all[j] == rs[j];
        }
      }
    }
  }

  /** The groups decide the lines only through the listed ratings. */
  lemma {:induction false} DescriptionLinesAgree(g1: map<real, seq<string>>, g2: map<real, seq<string>>,
                                                 ratings: seq<real>, numberText: real -> string)
    requires forall r | r in ratings ::
      HasTitles(g1, r) == HasTitles(g2, r) && (HasTitles(g1, r) ==> g1[r] == g2[r])
    ensures DescriptionLines(g1, ratings, numberText) == DescriptionLines(g2, ratings, numberText)
  {
    if ratings != [] {
      var pre := ratings[..|ratings| - 1];
      assert forall r | r in pre :: r in ratings;
      DescriptionLinesAgree(g1, g2, pre, numberText);
    }
  }

  /** The `for` loop over the ten listed ratings. */
  method Describe(groups: map<real, seq<string>>, numberText: real -> string) returns (lines: seq<string>)
    ensures lines == DescriptionLines(groups, PossibleRatings, numberText)
  {
    lines := [];
    for i := 0 to |PossibleRatings|
      invariant lines == DescriptionLines(groups, PossibleRatings[..i], numberText)
    {
      var rating := PossibleRatings[i];
      if rating in groups && |groups[rating]| > 0 {
        lines := lines + [RatingLabel(rating, numberText) + ": " + Join(groups[rating], ", ")];
      }
      assert PossibleRatings[..i + 1][..i] == PossibleRatings[..i];
    }
    assert PossibleRatings[..|PossibleRatings|] == PossibleRatings;
  }

  /** The rated-games text of the prompt for a list of rated games. */
  function RatedGamesText(games: seq<RatedGame>, numberText: real -> string): string {
    Join(DescriptionLines(Groups(games), PossibleRatings, numberText), "\n")
  }

  /** A game whose rating is not one of the ten listed values (0, say) adds nothing to
      the prompt. */
  lemma UnlistedRatingSilent(games: seq<RatedGame>, g: RatedGame, numberText: real -> string)
    requires g.rating !in PossibleRatings
    ensures RatedGamesText(games + [g], numberText) == RatedGamesText(games, numberText)
  {
    GroupsSnoc(games, g);
    DescriptionLinesAgree(Groups(games + [g]), Groups(games), PossibleRatings, numberText);
  }

  /** The lines follow the order 5, 4.5, ..., 0.5 and there is one per rating with games. */
  lemma LinesDescend(games: seq<RatedGame>, numberText: real -> string)
    ensures var lines := DescriptionLines(Groups(games), PossibleRatings, numberText);
      var rs := DescribedRatings(Groups(games), PossibleRatings);
      && StrictlyDescending(rs)
      && |lines| == |rs|
      && (forall k | 0 <= k < |rs| :: lines[k] == Line(Groups(games), rs[k], numberText))
      && (forall i | 0 <= i < |games| && games[i].rating in PossibleRatings :: games[i].rating in rs)
  {
    LinesOfDescribed(Groups(games), PossibleRatings, numberText);
    DescribedComplete(Groups(games), PossibleRatings);
    DescribedDescending(Groups(games), PossibleRatings);
    GroupPlacement(games);
  }

  // ----- the request -----

  /** `request.count || 5`: a missing count and a count of 0 both become 5. */
  function CountOrDefault(count: Option<real>): (c: real)
    ensures count.Some? && count.value != 0.0 ==> c == count.value
    ensures count.None? || count.value == 0.0 ==> c == 5.0
  {
    if count.Some? && count.value != 0.0 then count.value else 5.0
  }

  /** The two variable parts of the prompt text. */
  datatype Prompt = Prompt(count: real, ratedGamesText: string)

  /** What the model call gives: its `text`, an undefined `text`, or an exception. */
  datatype ModelReply = Text(text: string) | UndefinedText | ModelError(message: string)

  /** What `JSON.parse` gives. */
  datatype Parsed = Parsed(recommendations: seq<Recommendation>) | ParseError(message: string)

  datatype GenResult = Generated(recommendations: seq<Recommendation>) | GenerationFailed(message: string)

  const MissingKeyMessage := "API key is not configured"
  const UndefinedTextMessage := "Received undefined text from API response (structured output)."
  const InvalidJsonPrefix := "Invalid JSON in API response (structured output): "
  /** The engine's TypeError when `request.ratedGames` is undefined and `reduce` is read from it. */
  const NoRatedGamesMessage := "Cannot read properties of undefined (reading 'reduce')"

  /** The inner `try`: an undefined text is thrown and then wrapped like a parse error;
      parsed output is returned as it is. */
  function ReadReply(reply: ModelReply, parse: string -> Parsed): (r: GenResult)
    ensures reply.Text? && parse(reply.text).Parsed? ==> r == Generated(parse(reply.text).recommendations)
    ensures reply.Text? && parse(reply.text).ParseError? ==>
      r == GenerationFailed(InvalidJsonPrefix + parse(reply.text).message)
    ensures reply.UndefinedText? ==> r == GenerationFailed(InvalidJsonPrefix + UndefinedTextMessage)
    ensures reply.ModelError? ==> r == GenerationFailed(reply.message)
  {
    match reply
    case ModelError(m) => GenerationFailed(m)
    case UndefinedText => GenerationFailed(InvalidJsonPrefix + UndefinedTextMessage)
    case Text(t) =>
      match parse(t)
      case Parsed(recs) => Generated(recs)
      case ParseError(m) => GenerationFailed(InvalidJsonPrefix + m)
  }

  /** `generateGameRecommendations`. `model` is the model call, `parse` is `JSON.parse`;
      the prompt passed to the model is returned beside the result. */
  method GenerateRecommendations(apiKey: string, request: RecommendationRequest, numberText: real -> string,
                                 model: Prompt -> ModelReply, parse: string -> Parsed)
    returns (result: GenResult, prompt: Option<Prompt>)
    ensures apiKey == "" ==> result == GenerationFailed(MissingKeyMessage) && prompt.None?
    ensures apiKey != "" && request.ratedGames.None? ==>
      result == GenerationFailed(NoRatedGamesMessage) && prompt.None?
    ensures apiKey != "" && request.ratedGames.Some? ==>
      && prompt == Some(Prompt(CountOrDefault(request.count), RatedGamesText(request.ratedGames.value, numberText)))
      && result == ReadReply(model(prompt.value), parse)
  {
    if apiKey == "" {
      return GenerationFailed(MissingKeyMessage), None;
    }
    if request.ratedGames.None? {
      return GenerationFailed(NoRatedGamesMessage), None;
    }
    var groups := GroupByRating(request.ratedGames.value);
    var lines := Describe(groups, numberText);
    var count := if request.count.Some? && request.count.value != 0.0 then request.count.value else 5.0;
    var p := Prompt(count, Join(lines, "\n"));
    result := ReadReply(model(p), parse);
    prompt := Some(p);
  }
}
