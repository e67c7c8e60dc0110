/** The Scoreboard of src/game-service.ts:18-58. A scoreboard is a value that
    wraps the list of running games in the order they were started; every
    operation that changes it gives back a new list and leaves the old one as it
    was, which Dafny's sequence values give for free. */
module GameService {
  import opened Games
  import opened Ranking

  /** `Scoreboard(games)`: the factory only captures the list, so a scoreboard is
      its list of games. */
  type Scoreboard = seq<Game>

  /** finishGame: the games whose id differs from `id`, in their order. */
  function FinishGame(games: Scoreboard, id: string): (r: Scoreboard)
    ensures forall g :: g in r <==> g in games && g.id != id
    ensures multiset(r) <= multiset(games)
    ensures (forall g | g in games :: g.id != id) ==> r == games
  {
    if games == [] then []
    else
      var rest := FinishGame(games[1..], id);
      assert games == [games[0]] + games[1..];
      if games[0].id == id then rest else [games[0]] + rest
  }

  /** The `find` of addPoints: the first game with the id, if there is one. */
  function FindGame(games: Scoreboard, id: string): (r: Option<nat>)
    ensures r.None? <==> forall g | g in games :: g.id != id
    ensures r.Some? ==> r.value < |games| && games[r.value].id == id
    ensures r.Some? ==> forall k | 0 <= k < r.value :: games[k].id != id
  {
    if games == [] then None
    else if games[0].id == id then Some(0)
    else match FindGame(games[1..], id)
      case None => None
      case Some(k) => Some(k + 1)
  }

  /** Game `k` is the first one with this id. */
  predicate FirstWithId(games: Scoreboard, k: nat, id: string)
    requires k < |games|
  {
    games[k].id == id && forall i | 0 <= i < k :: games[i].id != id
  }

  /** addPoints: the first game with the id gains `points` on `side`; every other
      game is kept as it is. An unknown id leaves the list as it was. */
  function AddPoints(games: Scoreboard, id: string, side: Side, points: int): (r: Scoreboard)
    ensures |r| == |games|
    ensures forall k | 0 <= k < |games| ::
      r[k] == if FirstWithId(games, k, id) then WithPoints(games[k], side, points) else games[k]
    ensures (forall g | g in games :: g.id != id) ==> r == games
  {
    match FindGame(games, id)
    case None => games
    case Some(k) => games[k := WithPoints(games[k], side, points)]
  }

  /** teamPlaying: some game has one of `teams` on either side. */
  function TeamPlaying(games: Scoreboard, teams: seq<string>): (b: bool)
    ensures b <==> exists g :: g in games && Involves(g, teams)
  {
    if games == [] then false
    else Involves(games[0], teams) || TeamPlaying(games[1..], teams)
  }

  /** The 0-0 game startGame pushes; `id` stands for the value nanoid() returns. */
  function NewGame(home: string, away: string, id: string): Game {
    Game(Team(home, 0), Team(away, 0), id)
  }

  /** startGame: the old list with one more game at the end, between `home` and
      `away`, at 0-0, under the supplied id. Nothing is checked. */
  function StartGame(games: Scoreboard, home: string, away: string, id: string): (r: Scoreboard)
    ensures |r| == |games| + 1 && r[..|games|] == games
    ensures r[|games|].home == Team(home, 0) && r[|games|].away == Team(away, 0)
    ensures r[|games|].id == id
  {
    games + [NewGame(home, away, id)]
  }

  /** getGames: copy the list, reverse the copy, and sort it in place by
      descending total with the stable sortByTotalScore. */
  method GetGames(games: Scoreboard) returns (summary: seq<Game>)
    ensures summary == Ranked(games)
    ensures multiset(summary) == multiset(games)
    ensures NonIncreasing(summary)
    ensures forall t :: KeepTotal(summary, t) == Reversed(KeepTotal(games, t))
  {
    var copy := new Game[|games|](k requires 0 <= k < |games| => games[k]);
    assert copy[..] == games;
    ReverseInPlace(copy);
    SortByTotalScore(copy);
    summary := copy[..];
    RankedOrdered(games);
    forall t ensures KeepTotal(summary, t) == Reversed(KeepTotal(games, t)) {
      RankedTies(games, t);
    }
  }

  // Properties of a list of games. The application keeps NoTeamTwice,
  // ScoresNonNegative (while points are non-negative) and UniqueIds; it does not
  // keep NoSelfGames, since its start guard lets a team play itself.

  /** No team appears in two games at once. */
  ghost predicate NoTeamTwice(games: Scoreboard) {
    forall i, j | 0 <= i < j < |games| :: !Involves(games[j], Names(games[i]))
  }

  /** No game has a team on both sides. */
  ghost predicate NoSelfGames(games: Scoreboard) {
    forall g | g in games :: g.home.name != g.away.name
  }

  ghost predicate ScoresNonNegative(games: Scoreboard) {
    forall g | g in games :: g.home.score >= 0 && g.away.score >= 0
  }

  /** Ids identify games: no two games share one. */
  ghost predicate UniqueIds(games: Scoreboard) {
    forall i, j | 0 <= i < j < |games| :: games[i].id != games[j].id
  }

  /** The invariants the application keeps. */
  ghost predicate Kept(games: Scoreboard) {
    NoTeamTwice(games) && ScoresNonNegative(games) && UniqueIds(games)
  }

  /** The id is not in use, as a fresh nanoid() is not. */
  ghost predicate FreshId(games: Scoreboard, id: string) {
    forall g | g in games :: g.id != id
  }

  // The start guard of the application (src/app.tsx:116-127).

  datatype Alert = BothNamesRequired | TeamAlreadyPlaying

  datatype StartOutcome = Started(games: Scoreboard) | Alerted(alert: Alert)

  /** handleAddNew: alert when a name is empty or a team already plays, and start
      the game otherwise. */
  function HandleAddNew(games: Scoreboard, home: string, away: string, id: string): (r: StartOutcome)
    ensures r == Alerted(BothNamesRequired) <==> home == [] || away == []
    ensures r == Alerted(TeamAlreadyPlaying) <==>
      home != [] && away != [] && exists g :: g in games && Involves(g, [home, away])
    ensures r.Started? ==> r.games == StartGame(games, home, away, id)
  {
    if home == [] || away == [] then Alerted(BothNamesRequired)
    else if TeamPlaying(games, [home, away]) then Alerted(TeamAlreadyPlaying)
    else Started(StartGame(games, home, away, id))
  }

  /** A game the guard lets through keeps every team in at most one game and keeps
      the scores non-negative and the ids unique. The list is free of self-games
      afterwards exactly when it was before and the two names differ, which the
      guard does not check. */
  lemma HandleAddNewPreserves(games: Scoreboard, home: string, away: string, id: string)
    requires Kept(games) && FreshId(games, id)
    requires HandleAddNew(games, home, away, id).Started?
    ensures Kept(HandleAddNew(games, home, away, id).games)
    ensures NoSelfGames(HandleAddNew(games, home, away, id).games) <==> NoSelfGames(games) && home != away
  {
    var r := HandleAddNew(games, home, away, id).games;
    var n := |games|;
    assert r == games + [NewGame(home, away, id)];
    assert forall g | g in games :: !Involves(g, [home, away]);
    forall i, j | 0 <= i < j < |r| ensures !Involves(r[j], Names(r[i])) {
      if j == n {
        assert r[i] in games;
      } else {
        assert r[i] == games[i] && r[j] == games[j];
      }
    }
    assert r[n] in r;
    assert forall g | g in r :: g in games || g == r[n];
  }

  /** The application's own seed, "mae" against "mae", passes the guard: the core
      and the guard both accept a team playing itself. */
  lemma GuardAdmitsSelfGame()
    ensures HandleAddNew([], "mae", "mae", "1") == Started([NewGame("mae", "mae", "1")])
    ensures !NoSelfGames(HandleAddNew([], "mae", "mae", "1").games)
  {
    var r := HandleAddNew([], "mae", "mae", "1").games;
    assert r[0] in r;
  }

  /** Scoring keeps the teams and the ids in place, so it keeps every team in at
      most one game and the ids unique; with non-negative points it keeps the
      scores non-negative. */
  lemma AddPointsPreserves(games: Scoreboard, id: string, side: Side, points: int)
    requires Kept(games)
    ensures NoTeamTwice(AddPoints(games, id, side, points))
    ensures UniqueIds(AddPoints(games, id, side, points))
    ensures points >= 0 ==> ScoresNonNegative(AddPoints(games, id, side, points))
  {
    var r := AddPoints(games, id, side, points);
    assert forall k | 0 <= k < |games| :: Names(r[k]) == Names(games[k]) && r[k].id == games[k].id;
    forall i, j | 0 <= i < j < |r| ensures !Involves(r[j], Names(r[i])) {
      assert !Involves(games[j], Names(games[i]));
    }
    if points >= 0 {
      forall g | g in r ensures g.home.score >= 0 && g.away.score >= 0 {
        var k :| 0 <= k < |r| && r[k] == g;
        assert games[k] in games;
      }
    }
  }

  /** Scoring never renames a team, so a list has a self-game after scoring
      exactly when it had one before. */
  lemma AddPointsKeepsSelfGames(games: Scoreboard, id: string, side: Side, points: int)
    ensures NoSelfGames(AddPoints(games, id, side, points)) <==> NoSelfGames(games)
  {
    var r := AddPoints(games, id, side, points);
    assert forall k | 0 <= k < |games| :: Names(r[k]) == Names(games[k]);
    if NoSelfGames(games) {
      forall g | g in r ensures g.home.name != g.away.name {
        var k :| 0 <= k < |r| && r[k] == g;
        assert games[k] in games;
      }
    }
    if NoSelfGames(r) {
      forall g | g in games ensures g.home.name != g.away.name {
        var k :| 0 <= k < |games| && games[k] == g;
        assert r[k] in r;
      }
    }
  }

  /** The invariants of a list, split into its first game and the rest. */
  /** What the invariants ask of a list's first game and of the rest. */
  ghost predicate KeptCons(g: Game, rest: Scoreboard) {
    && Kept(rest)
    && g.home.score >= 0 && g.away.score >= 0
    && forall h | h in rest :: !Involves(h, Names(g)) && h.id != g.id
  }

  lemma KeptTail(games: Scoreboard)
    requires games != [] && Kept(games)
    ensures KeptCons(games[0], games[1..])
  {
    var g, rest := games[0], games[1..];
    forall i, j | 0 <= i < j < |rest| ensures !Involves(rest[j], Names(rest[i])) && rest[i].id != rest[j].id {
      assert rest[i] == games[i + 1] && rest[j] == games[j + 1];
    }
    forall h | h in rest ensures !Involves(h, Names(g)) && h.id != g.id {
      var j :| 0 <= j < |rest| && rest[j] == h;
      assert games[j + 1] == h;
    }
    assert g in games;
  }

  lemma KeptFromCons(g: Game, rest: Scoreboard)
    requires KeptCons(g, rest)
    ensures Kept([g] + rest)
  {
    var games := [g] + rest;
    forall i, j | 0 <= i < j < |games| ensures !Involves(games[j], Names(games[i])) && games[i].id != games[j].id {
      if i == 0 {
        assert games[j] == rest[j - 1];
      } else {
        assert games[i] == rest[i - 1] && games[j] == rest[j - 1];
      }
    }
  }

  /** Removing games keeps every invariant, and never adds a self-game. */
  lemma {:induction false} FinishGamePreserves(games: Scoreboard, id: string)
    requires Kept(games)
    ensures Kept(FinishGame(games, id))
    ensures NoSelfGames(games) ==> NoSelfGames(FinishGame(games, id))
  {
    if games != [] {
      KeptTail(games);
      FinishGamePreserves(games[1..], id);
      var tail := FinishGame(games[1..], id);
      if games[0].id != id {
        assert FinishGame(games, id) == [games[0]] + tail;
        KeptFromCons(games[0], tail);
      }
    }
  }

  /** finishGame filters each part of a list on its own: the kept games stay in
      their original order, whether or not ids repeat. */
  lemma ConcatAssoc(x: seq<Game>, y: seq<Game>, z: seq<Game>)
    ensures x + (y + z) == (x + y) + z
  {
  }

  lemma SplitHead(a: seq<Game>, b: seq<Game>)
    requires a != []
    ensures a == [a[0]] + a[1..] && a + b == [a[0]] + (a[1..] + b)
  {
  }

  lemma FinishGameCons(g: Game, rest: Scoreboard, id: string)
    ensures FinishGame([g] + rest, id) == (if g.id == id then [] else [g]) + FinishGame(rest, id)
  {
    assert ([g] + rest)[0] == g && ([g] + rest)[1..] == rest;
  }

  lemma {:induction false} FinishGameAppend(a: Scoreboard, b: Scoreboard, id: string)
    ensures FinishGame(a + b, id) == FinishGame(a, id) + FinishGame(b, id)
  {
    if a == [] {
      assert a + b == b;
    } else {
      var g, rest := a[0], a[1..];
      var head := if g.id == id then [] else [g];
      calc {
        FinishGame(a + b, id);
        { SplitHead(a, b); FinishGameCons(g, rest + b, id); }
        head + FinishGame(rest + b, id);
        { FinishGameAppend(rest, b, id); }
        head + (FinishGame(rest, id) + FinishGame(b, id));
        { ConcatAssoc(head, FinishGame(rest, id), FinishGame(b, id)); }
        (head + FinishGame(rest, id)) + FinishGame(b, id);
        { FinishGameCons(g, rest, id); }
        FinishGame(a, id) + FinishGame(b, id);
      }
    }
  }

  lemma FinishGameRemovesFirst(games: Scoreboard)
    requires UniqueIds(games) && games != []
    ensures FinishGame(games, games[0].id) == games[1..]
  {
    var id, rest := games[0].id, games[1..];
    assert FreshId(rest, id) by {
      forall g | g in rest ensures g.id != id {
        var j :| 0 <= j < |rest| && rest[j] == g;
        assert games[j + 1] == g;
      }
    }
  }

  lemma {:induction false} FinishGameRemovesAt(games: Scoreboard, k: nat)
    requires UniqueIds(games) && k < |games|
    ensures FinishGame(games, games[k].id) == games[..k] + games[k + 1..]
  {
    var id, rest := games[k].id, games[1..];
    if k == 0 {
      FinishGameRemovesFirst(games);
      assert games[..0] + games[1..] == rest;
    } else {
      assert UniqueIds(rest) by {
        forall i, j | 0 <= i < j < |rest| ensures rest[i].id != rest[j].id {
          assert rest[i] == games[i + 1] && rest[j] == games[j + 1];
        }
      }
      assert rest[k - 1] == games[k];
      calc {
        FinishGame(games, id);
        { assert games[0].id != id; }
        [games[0]] + FinishGame(rest, id);
        { FinishGameRemovesAt(rest, k - 1); }
        [games[0]] + (rest[..k - 1] + rest[k..]);
        { assert games[..k] == [games[0]] + rest[..k - 1]; assert games[k + 1..] == rest[k..]; }
        games[..k] + games[k + 1..];
      }
    }
  }

  /** Scoring never changes which teams play, so the guard answers the same
      before and after. */
  lemma AddPointsKeepsTeamPlaying(games: Scoreboard, id: string, side: Side, points: int, teams: seq<string>)
    ensures TeamPlaying(AddPoints(games, id, side, points), teams) == TeamPlaying(games, teams)
  {
    var r := AddPoints(games, id, side, points);
    assert forall k | 0 <= k < |games| :: Names(r[k]) == Names(games[k]);
    if TeamPlaying(games, teams) {
      var g :| g in games && Involves(g, teams);
      var k :| 0 <= k < |games| && games[k] == g;
      assert r[k] in r;
    }
    if TeamPlaying(r, teams) {
      var g :| g in r && Involves(g, teams);
      var k :| 0 <= k < |r| && r[k] == g;
      assert games[k] in games;
    }
  }
}
