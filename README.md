# Scoreboard: a Dafny model

This project models the scoreboard core of the scoreboarder application
(`src/game-service.ts`). A scoreboard is a value that holds the games in
progress, in the order they were started. Each game has an id and a home and
an away side, and each side has a team name and a score. Every operation
gives back a new scoreboard and leaves the old one as it was:

- `finishGame` removes a game by id;
- `addPoints` adds points to one side of the first game with the id;
- `teamPlaying` asks whether any of the given teams is playing;
- `startGame` appends a 0-0 game under a fresh id;
- `getGames` gives the summary. It copies the list, reverses the copy, and
  stably sorts it by descending total score, so tied games come out most
  recently started first.

The application guards `startGame` (`src/app.tsx:116-127`). It rejects an
empty team name and a team that is already playing. The model includes this
guard because the invariants depend on it.

Modules:

- `Games` (`games.dfy`): the `Team`, `Game` and `Side` records, the total
  score, the comparator `sortByTotalScore` (`CompareTotals`) and the score
  update of `addPoints` (`WithPoints`).
- `Ranking` (`ranking.dfy`): the ranking is specified as functions.
  `Reversed` reverses a list. `Insert` and `Sort` are a stable insertion sort
  that uses the comparator. `Ranked` is `Sort(Reversed(games))`. Lemmas prove
  that the ranking is a permutation, that it is ordered by non-increasing
  total, how it breaks ties, and that these properties determine it. The
  in-place `reverse()` and `sort()` the source runs on its copy are array
  methods, proved to compute `Reversed` and `Sort`.
- `GameService` (`game_service.dfy`): the five operations over
  `type Scoreboard = seq<Game>`, and the start guard `HandleAddNew`. It also
  defines the invariants the application keeps (`Kept`: no team in two games,
  non-negative scores, unique ids), with lemmas that the operations preserve
  them. A separate property, `NoSelfGames`, is tracked on its own, because
  the application does not keep it.
- `Scenarios` (`scenarios.dfy`): the outcomes the component tests in
  `cypress/component/app.cy.tsx` expect, proved about the model.

Notes on the modelling:

- `Scoreboard(games)` only captures the list, so a scoreboard is its list of
  games. `src/app.tsx:2` imports the factory under the name
  `createScoreboard`; the model treats it as the same factory. Because
  sequences are values, the old scoreboard is never changed by an operation.
- `nanoid()` becomes an `id` parameter of `StartGame`. The promise that it
  never repeats becomes the `FreshId` hypothesis of the lemmas about unique
  ids.
- Scores and points are unbounded integers. `addPoints` does not check
  `points`, so the model accepts any integer. Non-negative scores are kept
  when `points >= 0` (`AddPointsPreserves`).
- JavaScript's `Array.prototype.sort` is stable, but its algorithm is not
  specified. The model uses insertion sort. The lemmas show that any stable
  sort by this comparator gives the same result (`RankedIsOnlyRanking`).
- The invariant "no team in two games at once" (`NoTeamTwice`) is kept by
  every guarded start. The guard does not check that the home and away names
  differ, so it lets a team play itself. `GuardAdmitsSelfGame` shows that the
  guard of `src/app.tsx:116-127` admits "mae" against "mae". That pair is the
  seed the application in `src/main.tsx:94-100` starts with. That
  application's own `onAddNew` (`src/main.tsx:103-105`) calls `startGame`
  with no guard at all. So the invariants `Kept` leaves out `NoSelfGames`.
  The lemmas show that a guarded start keeps `NoSelfGames` exactly when it
  held before and the two names differ. Scoring and finishing never break it.

## Model

| member | source | states |
|---|---|---|
| `Games.CompareTotals` | src/game-service.ts:9-16 | the comparator is negative exactly when the first game has the larger total and positive exactly when it has the smaller total, and it is always -1, 0 or 1 |
| `Games.WithPoints` | src/game-service.ts:29 | scoring adds `points` to the chosen side only; the other side, both names and the id stay the same, and the total grows by `points` |
| `GameService.FinishGame` | src/game-service.ts:19-21 | the result holds exactly the games whose id differs from `id`; it is a sub-multiset of the input; an unknown id gives back the same list |
| `GameService.FinishGameRemovesAt` | src/game-service.ts:19-21 | with unique ids, finishing the game at position k gives the list with position k cut out and the other games in their original order |
| `GameService.FinishGameAppend` | src/game-service.ts:19-21 | finishing filters each part of a list on its own, so the kept games stay in their original order for every list, repeated ids included |
| `GameService.FinishGamePreserves` | src/game-service.ts:19-21 | finishing a game keeps the invariants (no team in two games, non-negative scores, unique ids) and never introduces a self-game |
| `GameService.FindGame` | src/game-service.ts:25-27 | the `find` of addPoints: None exactly when no game has the id; otherwise the first index whose game has the id |
| `GameService.AddPoints` | src/game-service.ts:22-32 | same length; the first game with the id gains `points` on the chosen side and every other game is unchanged; an unknown id gives back the same list |
| `GameService.AddPointsPreserves` | src/game-service.ts:22-31 | scoring keeps no team in two games and unique ids for any points, and keeps the scores non-negative when the points are non-negative |
| `GameService.AddPointsKeepsSelfGames` | src/game-service.ts:29 | scoring renames no team, so the list is free of self-games after scoring exactly when it was before |
| `GameService.AddPointsKeepsTeamPlaying` | src/game-service.ts:29 | scoring never changes the answer of teamPlaying for any list of names |
| `GameService.TeamPlaying` | src/game-service.ts:33-37 | true exactly when some game has one of the given names as its home or away team |
| `GameService.StartGame` | src/game-service.ts:38-54 | the old games stay as a prefix, and exactly one game is added at the end: the given home and away names, both scores 0, the given id |
| `GameService.GetGames` | src/game-service.ts:55-57 | copy, reverse and in-place stable sort give `Ranked(games)`: a permutation of the games, ordered by non-increasing total, with each tie group in reverse start order |
| `GameService.HandleAddNew` | src/app.tsx:116-127 | alerts "both names required" exactly when a name is empty, and "already playing" exactly when both names are given and a team is playing; otherwise it starts the game |
| `GameService.HandleAddNewPreserves` | src/app.tsx:116-127 | a start the guard lets through, with a fresh id, keeps no team in two games, non-negative scores and unique ids; the list is free of self-games afterwards exactly when it was before and the names differ |
| `GameService.GuardAdmitsSelfGame` | src/app.tsx:116-127 | the guard lets "mae" play "mae", and the resulting list breaks no-self-games |
| `Ranking.ReversedAt` | src/game-service.ts:56 | position k of the reversed list holds position n-1-k of the input |
| `Ranking.ReversedPermutes` | src/game-service.ts:56 | reversing keeps the same games |
| `Ranking.InsertPermutes` | src/game-service.ts:56 | one insertion step adds exactly the inserted game |
| `Ranking.InsertSorted` | src/game-service.ts:9-16 | inserting into a list ordered by non-increasing total keeps it ordered |
| `Ranking.SortPermutes` | src/game-service.ts:56 | the sort is a permutation of its input |
| `Ranking.SortSorted` | src/game-service.ts:9-16 | the sort is ordered by non-increasing total |
| `Ranking.RankedOrdered` | src/game-service.ts:56 | the summary is a permutation of the stored games, ordered by non-increasing total |
| `Ranking.InsertStable` | src/game-service.ts:9-16 | insertion puts the new game at the end of its tie group and leaves every other tie group unchanged |
| `Ranking.SortStable` | src/game-service.ts:56 | the sort keeps every tie group in input order (stability) |
| `Ranking.KeepTotalReversed` | src/game-service.ts:56 | each tie group of the reversed list is the reversed tie group |
| `Ranking.RankedTies` | src/game-service.ts:56 | each tie group of the summary is that group in reverse start order: most recently started first |
| `Ranking.RankingUnique` | src/game-service.ts:9-16 | two lists ordered by non-increasing total that agree on every tie group are equal |
| `Ranking.RankedIsOnlyRanking` | src/game-service.ts:56 | any list ordered by non-increasing total, with each tie group in reverse start order, is the summary |
| `Ranking.PrecedesKeepTotal` | src/game-service.ts:56 | two games with the same total keep their relative order in their tie group |
| `Ranking.PrecedesFromKeepTotal` | src/game-service.ts:56 | the order within a tie group is the order in the full list |
| `Ranking.PrecedesReversed` | src/game-service.ts:56 | reversing swaps the relative order of two games |
| `Ranking.TieBreak` | src/game-service.ts:56 | of two stored games i < j with equal totals, the summary lists game j before game i |
| `Ranking.ReverseInPlace` | src/game-service.ts:56 | the in-place `reverse()` leaves the array holding the reversed list |
| `Ranking.InsertAt` | src/game-service.ts:56 | one pass of the in-place sort turns the prefix up to index i into the stable insertion of element i, and leaves the rest of the array unchanged |
| `Ranking.SortByTotalScore` | src/game-service.ts:56 | the in-place `sort(sortByTotalScore)` leaves the array holding the stable sort of its contents |
| `Scenarios.SummaryByScore` | cypress/component/app.cy.tsx:91-119 | the fixture Mexico 0-5, Poland 10-2, Portugal 2-2 ranks Poland, Mexico, Portugal |
| `Scenarios.SummaryTiesByRecency` | cypress/component/app.cy.tsx:121-146 | with Uruguay 6-6 and Argentina 6-6 added, the ranking is Argentina, Uruguay, Poland, Mexico, Portugal |
| `Scenarios.ThreeStarts` | cypress/component/app.cy.tsx:30-36 | three guarded starts with distinct teams all succeed, and the summary lists three games |
| `Scenarios.FinishFirstOfTwo` | src/game-service.ts:19-21 | start two games and finish the first by its id: only the second remains |
| `Scenarios.HomeTwoAwayOne` | cypress/component/app.cy.tsx:65-76 | start a game, score home twice and away once: the only game is home 2-1 away |
| `Scenarios.FinishRemovesStarted` | cypress/component/app.cy.tsx:79-87 | starting a game and then finishing it leaves an empty scoreboard |
| `Scenarios.SecondStartAlerts` | cypress/component/app.cy.tsx:38-50 | starting "a" against "b" twice: the first start succeeds, the second alerts "already playing" |
| `Scenarios.EmptyNamesAlert` | cypress/component/app.cy.tsx:51-62 | empty names alert "both names required" |

## Left out

- React components, forms, `alert` dialogs, DOM updates and the
  `useState`/`useMemo` wiring of `src/app.tsx` and `src/main.tsx` are UI code.
  Only the start guard of `handleAddNew` is modelled, as `HandleAddNew`.
  An alert is modelled as a returned value.
- `nanoid` id generation is a foreign library. Ids are supplied as
  parameters; their freshness is a hypothesis (`FreshId`).
- `immer`'s `produce` is a foreign copy-on-write library. Dafny sequence
  values already leave the old scoreboard untouched.
- `createNewGame` from `@mainshum/scoreboard` is a foreign package used only
  for the `Game` type. The record is defined directly.
- JavaScript `number` semantics are not modelled. Scores and points are
  unbounded integers, with no floating point, NaN or overflow.
- `Array.prototype.sort`'s own algorithm is not modelled. Its stable-sort
  contract is modelled by insertion sort.
- The Cypress DOM helpers are not modelled. Only the outcomes the tests
  expect are stated, in `Scenarios`.
- `tailwind.config.js` is styling configuration.
