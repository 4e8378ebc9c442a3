/** The records the application passes around (src/types/index.ts, src/types/auth.ts).
    Times are integer milliseconds since the epoch; ratings are JavaScript numbers,
    modelled as reals. */
module Types {
  import opened Common

  type Stamp = int

  /** A platform or genre reference of a game. */
  datatype Tag = Tag(id: int, name: string)

  datatype Game = Game(
    id: string,
    title: string,
    coverImage: Option<string>,
    platforms: seq<Tag>,
    genres: seq<Tag>,
    firstReleaseDate: Option<int>)

  /** A game together with the user's star rating (0.5 to 5 in half steps). */
  datatype RatedGame = RatedGame(game: Game, rating: real, dateRated: Option<Stamp>)

  /** One entry produced by the recommendation generator. */
  datatype Recommendation = Recommendation(game: Game, explanation: string, matchScore: Option<real>)

  /** The per-user record kept on the server: the ratings and the recommendation cache. */
  datatype Preferences = Preferences(
    ratedGames: seq<RatedGame>,
    lastRecommendationRefresh: Option<Stamp>,
    cachedRecommendations: Option<seq<Recommendation>>)

  /** `{ ratedGames: [] }`. */
  const EmptyPreferences := Preferences([], None, None)

  /** The body of a recommendation request; either field may be missing. */
  datatype RecommendationRequest = RecommendationRequest(ratedGames: Option<seq<RatedGame>>, count: Option<real>)

  /** The public user record, without the password. */
  datatype User = User(id: string, email: string, username: string, createdAt: string)

  /** A user record as stored, with its password (or hash). */
  datatype StoredUser = StoredUser(user: User, password: string)

  /** `const { password, ...rest } = stored`. */
  function WithoutPassword(s: StoredUser): User {
    s.user
  }

  /** The body of the login and registration responses. */
  datatype AuthResponse = AuthResponse(success: bool, message: string, user: Option<User>, token: Option<string>)

  datatype GameNote = GameNote(
    id: string,
    gameId: string,
    userId: string,
    note: string,
    createdAt: string,
    updatedAt: string)
}
