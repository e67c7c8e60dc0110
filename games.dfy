/** The records a scoreboard is made of (src/game-service.ts:5-7) and the
    comparator its summary is ranked with (src/game-service.ts:9-16). */
module Games {

  datatype Option<T> = None | Some(value: T)

  /** One side of a game: a team's name and the points it has scored. */
  datatype Team = Team(name: string, score: int)

  /** A running game. Its identity is `id`; two games are never compared by content. */
  datatype Game = Game(home: Team, away: Team, id: string)

  /** The side that scores: the `"home" | "away"` argument of addPoints. */
  datatype Side = Home | Away

  /** The ranking key of a game. */
  function Total(g: Game): int {
    g.home.score + g.away.score
  }

  /** The two team names a game involves. */
  function Names(g: Game): seq<string> {
    [g.home.name, g.away.name]
  }

  /** The `some` callback of teamPlaying: one of the game's teams is among `teams`. */
  predicate Involves(g: Game, teams: seq<string>) {
    g.home.name in teams || g.away.name in teams
  }

  /** sortByTotalScore: a negative answer puts `a` first, a positive one puts `b`
      first, and zero keeps them in the order they came in. */
  function CompareTotals(a: Game, b: Game): (c: int)
    ensures c < 0 <==> Total(a) > Total(b)
    ensures c > 0 <==> Total(a) < Total(b)
    ensures -1 <= c <= 1
  {
    var aTotal := a.home.score + a.away.score;
    var bTotal := b.home.score + b.away.score;
    if aTotal > bTotal then -1
    else if aTotal < bTotal then 1
    else 0
  }

  /** `game[team].score += points`: the chosen side gains `points`; its name, the
      other side and the id stay as they were. */
  function WithPoints(g: Game, side: Side, points: int): (r: Game)
    ensures r.id == g.id && Names(r) == Names(g)
    ensures Total(r) == Total(g) + points
    ensures side == Home ==> r.away == g.away && r.home.score == g.home.score + points
    ensures side == Away ==> r.home == g.home && r.away.score == g.away.score + points
  {
    match side
    case Home => g.(home := g.home.(score := g.home.score + points))
    case Away => g.(away := g.away.(score := g.away.score + points))
  }
}
