/** The client-side preference state (src/contexts/PreferencesContext.tsx): the rating
    lookup, the rule that sends non-numeric game ids through a title lookup, and the
    server-first, local-fallback discipline of every edit and of synchronisation.
    Server replies and title lookups are inputs; the local-storage operations the
    provider imports (`rateGame`, `removeGameRating`, `loadUserPreferences`) are
    function parameters or values. */
module PreferencesContext {
  import opened Common
  import opened Types

  /** `preferences.ratedGames.find(g => g.id === gameId)`, then its rating or 0. */
  function RatingOf(games: seq<RatedGame>, id: string): (r: real)
    ensures (forall i | 0 <= i < |games| :: games[i].game.id != id) ==> r == 0.0
    ensures forall i | 0 <= i < |games| && games[i].game.id == id ::
      (forall j | 0 <= j < i :: games[j].game.id != id) ==> r == games[i].rating
  {
    if games == [] then 0.0
    else if games[0].game.id == id then games[0].rating
    else
      var r := RatingOf(games[1..], id);
      assert forall i | 1 <= i < |games| :: games[i] == games[1..][i - 1];
      r
  }

  /** A later duplicate of an id never changes the rating reported for it. */
  lemma {:induction false} RatingOfIgnoresLaterEntries(games: seq<RatedGame>, extra: seq<RatedGame>, id: string)
    requires exists i | 0 <= i < |games| :: games[i].game.id == id
    ensures RatingOf(games + extra, id) == RatingOf(games, id)
  {
    if games[0].game.id != id {
      assert (games + extra)[1..] == games[1..] + extra;
      var i :| 0 <= i < |games| && games[i].game.id == id;
      assert games[1..][i - 1] == games[i];
      RatingOfIgnoresLaterEntries(games[1..], extra, id);
    }
  }

  predicate IsHexDigit(c: char) {
    IsDecimalDigit(c) || 'a' <= c <= 'f' || 'A' <= c <= 'F'
  }

  /** The string without its leading white space. */
  function TrimStart(s: string): (r: string)
    ensures |r| <= |s| && r == s[|s| - |r|..]
    ensures forall i | 0 <= i < |s| - |r| :: IsJsWhitespace(s[i])
    ensures r == [] || !IsJsWhitespace(r[0])
  {
    if s != [] && IsJsWhitespace(s[0]) then
      var r := TrimStart(s[1..]);
      assert forall i | 1 <= i < |s| :: s[i] == s[1..][i - 1];
      r
    else s
  }

  /** `isNaN(parseInt(s))` with no radix: after leading white space and one optional sign,
      a `0x`/`0X` prefix selects radix 16, and the result is NaN exactly when no digit of
      the chosen radix follows. */
  function ParseIntIsNaN(s: string): (nan: bool)
    ensures var t := TrimStart(s); |t| > 0 && IsDecimalDigit(t[0]) && !(|t| > 1 && (t[1] == 'x' || t[1] == 'X')) ==> !nan
    ensures (forall i | 0 <= i < |s| :: IsJsWhitespace(s[i])) ==> nan
  {
    var t := TrimStart(s);
    var u := if |t| > 0 && (t[0] == '-' || t[0] == '+') then t[1..] else t;
    if |u| >= 2 && u[0] == '0' && (u[1] == 'x' || u[1] == 'X') then !(|u| > 2 && IsHexDigit(u[2]))
    else !(|u| > 0 && IsDecimalDigit(u[0]))
  }

  /** Ids with a numeric prefix are kept, "42-x" included. */
  lemma NumericPrefixExample()
    ensures !ParseIntIsNaN("42-x")
  {
    var s := "42-x";
    assert s[0] == '4' && s[1] == '2' && TrimStart(s) == s;
  }

  /** Leading white space and a sign are skipped. */
  lemma SignedExample()
    ensures !ParseIntIsNaN(" -7")
  {
    var s := " -7";
    assert s[0] == ' ' && s[1] == '-' && s[2] == '7';
    assert s[1..][0] == '-' && TrimStart(s[1..]) == s[1..];
    assert TrimStart(s) == s[1..] && s[1..][1..] == "7";
  }

  /** A `0x` prefix reads hexadecimal digits, and is NaN without one. */
  lemma HexExamples()
    ensures !ParseIntIsNaN("0xff") && ParseIntIsNaN("0x")
  {
    var s, t := "0xff", "0x";
    assert s[0] == '0' && s[1] == 'x' && s[2] == 'f' && TrimStart(s) == s;
    assert t[0] == '0' && t[1] == 'x' && |t| == 2 && TrimStart(t) == t;
  }

  /** A generated, title-like id is not a number. */
  lemma TitleIdExample()
    ensures ParseIntIsNaN("witcher-3")
  {
    var s := "witcher-3";
    assert s[0] == 'w' && TrimStart(s) == s;
  }

  /** What `getGameIdByTitle` gave: a number, null, or a thrown error. */
  datatype Lookup = FoundId(id: int) | NoMatch | LookupFailed

  /** The game that is rated, and whether the title lookup ran. */
  datatype Resolution = Resolution(game: Game, lookedUp: bool)

  /** The start of `handleRateGame`: a game whose id does not parse as an integer is looked
      up by title; a truthy (non-zero) id found replaces its id as `igdbId.toString()`. */
  function ResolveGame(game: Game, lookup: Lookup): (r: Resolution)
    ensures r.lookedUp <==> ParseIntIsNaN(game.id)
    ensures !ParseIntIsNaN(game.id) ==> r.game == game
    ensures r.game == game.(id := r.game.id)
    ensures r.game != game <==> ParseIntIsNaN(game.id) && lookup.FoundId? && lookup.id != 0
    ensures r.game != game ==> r.game.id == IntToDecimal(lookup.id)
  {
    if !ParseIntIsNaN(game.id) then Resolution(game, false)
    else
      match lookup
      case FoundId(n) =>
        if n != 0 then
          IntToDecimalIsNumeric(n);
          Resolution(game.(id := IntToDecimal(n)), true)
        else Resolution(game, true)
      case _ => Resolution(game, true)
  }

  /** `n.toString()` always parses as an integer. */
  lemma IntToDecimalIsNumeric(n: int)
    ensures !ParseIntIsNaN(IntToDecimal(n))
  {
    var s := IntToDecimal(n);
    assert !IsJsWhitespace(s[0]);
    assert TrimStart(s) == s;
    if n < 0 {
      assert |s[1..]| >= 2 ==> IsDecimalDigit(s[1..][1]);
    } else {
      assert |s| >= 2 ==> IsDecimalDigit(s[1]);
    }
  }

  /** Resolving is idempotent once an id was found: the new id is numeric, so a second
      rating of the same game does not look it up again, whatever the lookup would say. */
  lemma ResolveIdempotent(game: Game, lookup: Lookup, lookup2: Lookup)
    requires ResolveGame(game, lookup).game != game
    ensures ResolveGame(ResolveGame(game, lookup).game, lookup2) == Resolution(ResolveGame(game, lookup).game, false)
  {
    IntToDecimalIsNumeric(lookup.id);
  }

  /** A fetch to one of the preference endpoints: a response with its status flag and the
      parsed `success` and `preferences` fields, or a thrown error (network or JSON). */
  datatype ServerReply = Response(ok: bool, success: bool, preferences: Option<Preferences>) | Thrown

  /** `response.ok && data.success && data.preferences`. */
  predicate Accepted(r: ServerReply) {
    r.Response? && r.ok && r.success && r.preferences.Some?
  }

  /** The preferences an edit or a sync ends with: the server's when there is a user and the
      server accepted, and what the local operation gives otherwise. */
  function Settle(signedIn: bool, reply: ServerReply, local: Preferences): (p: Preferences)
    ensures p == local || (Accepted(reply) && p == reply.preferences.value)
    ensures p != local ==> signedIn && Accepted(reply)
  {
    if signedIn && Accepted(reply) then reply.preferences.value else local
  }

  /** Signed out, the server's answer never matters; signed in, every answer other than an
      accepted one yields the local result. */
  lemma SettleFallback(reply: ServerReply, local: Preferences)
    ensures Settle(false, reply, local) == local
    ensures !Accepted(reply) ==> Settle(true, reply, local) == local
    ensures Accepted(reply) ==> Settle(true, reply, local) == reply.preferences.value
    ensures Settle(true, Response(true, false, Some(EmptyPreferences)), local) == local
    ensures Settle(true, Response(false, true, Some(EmptyPreferences)), local) == local
  {
  }

  /** `savePreferencesToServer`: without a user the record is saved locally; with one it is
      PUT, and saved locally when the PUT throws or its status is not ok. */
  datatype SaveEffect = SaveEffect(putSent: bool, savedLocally: Option<Preferences>)

  function SaveToServer(signedIn: bool, reply: ServerReply, newPrefs: Preferences): (e: SaveEffect)
    ensures e.putSent == signedIn
    ensures e.savedLocally.Some? ==> e.savedLocally.value == newPrefs
    ensures e.savedLocally.None? <==> signedIn && reply.Response? && reply.ok
  {
    if !signedIn then SaveEffect(false, Some(newPrefs))
    else if reply.Response? && reply.ok then SaveEffect(true, None)
    else SaveEffect(true, Some(newPrefs))
  }

  /** The edit is never dropped: it reaches the server or the local copy. Unlike an edit's
      reply, the save looks at the status only, not at `success`. */
  lemma SaveNeverDropped(signedIn: bool, reply: ServerReply, newPrefs: Preferences)
    ensures SaveToServer(signedIn, reply, newPrefs).savedLocally == Some(newPrefs)
         || (signedIn && reply.Response? && reply.ok)
    ensures SaveToServer(true, Response(true, false, None), newPrefs).savedLocally.None?
    ensures !Accepted(Response(true, false, None))
  {
  }

  /** The `PreferencesProvider` state. */
  class Provider {
    var preferences: Preferences

    constructor ()
      ensures preferences == EmptyPreferences
    {
      preferences := EmptyPreferences;
    }

    /** `handleGetGameRating`. */
    function GetGameRating(id: string): real
      reads this
    {
      RatingOf(preferences.ratedGames, id)
    }

    /** `handleRateGame`. `reply` is the answer of the rate endpoint, `rateLocal` the local
        `rateGame`. Returns the game that was rated, whether the title lookup ran, whether
        the server was asked, and whether the local operation ran. */
    method RateGame(game: Game, rating: real, signedIn: bool, lookup: Lookup, reply: ServerReply,
                    rateLocal: (Game, real) -> Preferences)
      returns (rated: Game, lookedUp: bool, sent: bool, localRun: bool)
      modifies this
      ensures ResolveGame(game, lookup) == Resolution(rated, lookedUp)
      ensures sent == signedIn
      ensures localRun <==> !(signedIn && Accepted(reply))
      ensures preferences == Settle(signedIn, reply, rateLocal(rated, rating))
    {
      var resolution := ResolveGame(game, lookup);
      rated, lookedUp := resolution.game, resolution.lookedUp;
      if !signedIn {
        sent, localRun := false, true;
        preferences := rateLocal(rated, rating);
        return;
      }
      sent := true;
      if Accepted(reply) {
        localRun := false;
        preferences := reply.preferences.value;
      } else {
        localRun := true;
        preferences := rateLocal(rated, rating);
      }
    }

    /** `removeGameFromLists`, with `removeLocal` the local `removeGameRating`. */
    method RemoveGameFromLists(gameId: string, signedIn: bool, reply: ServerReply, removeLocal: string -> Preferences)
      returns (sent: bool, localRun: bool)
      modifies this
      ensures sent == signedIn
      ensures localRun <==> !(signedIn && Accepted(reply))
      ensures preferences == Settle(signedIn, reply, removeLocal(gameId))
    {
      if !signedIn {
        sent, localRun := false, true;
        preferences := removeLocal(gameId);
        return;
      }
      sent := true;
      if Accepted(reply) {
        localRun := false;
        preferences := reply.preferences.value;
      } else {
        localRun := true;
        preferences := removeLocal(gameId);
      }
    }

    /** `syncPreferences`, with `localPrefs` what loading the local copy gives. */
    method SyncPreferences(signedIn: bool, reply: ServerReply, localPrefs: Preferences) returns (fetched: bool)
      modifies this
      ensures fetched == signedIn
      ensures preferences == Settle(signedIn, reply, localPrefs)
    {
      fetched := signedIn;
      if signedIn && Accepted(reply) {
        preferences := reply.preferences.value;
      } else {
        preferences := localPrefs;
      }
    }
  }
}
