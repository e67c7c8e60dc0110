/** The component tests of cypress/component/app.cy.tsx, as facts about the model:
    the fixtures they mount and the outcome they expect. */
module Scenarios {
  import opened Games
  import opened Ranking
  import opened GameService

  function Mexico(): Game { Game(Team("Mexico", 0), Team("Canada", 5), "1") }
  function Poland(): Game { Game(Team("Poland", 10), Team("Ecuador", 2), "2") }
  function Portugal(): Game { Game(Team("Portugal", 2), Team("Chile", 2), "3") }
  function Uruguay(): Game { Game(Team("Uruguay", 6), Team("Italy", 6), "4") }
  function Argentina(): Game { Game(Team("Argentina", 6), Team("Australia", 6), "5") }

  lemma InsertStays(s: seq<Game>, x: Game)
    requires s == [] || Total(s[|s| - 1]) >= Total(x)
    ensures Insert(s, x) == s + [x]
  {
  }

  lemma InsertPasses(s: seq<Game>, x: Game, y: Game)
    requires Total(y) < Total(x)
    ensures Insert(s + [y], x) == Insert(s, x) + [y]
  {
    assert (s + [y])[..|s|] == s;
  }

  lemma SortStep(s: seq<Game>, x: Game)
    ensures Sort(s + [x]) == Insert(Sort(s), x)
  {
    assert (s + [x])[..|s|] == s;
  }

  lemma ReversedStep(x: Game, s: seq<Game>)
    ensures Reversed([x] + s) == Reversed(s) + [x]
  {
    assert ([x] + s)[1..] == s;
  }

  lemma ReversedThree(a: Game, b: Game, c: Game)
    ensures Reversed([a, b, c]) == [c, b, a]
  {
    calc {
      Reversed([a, b, c]);
      { assert [a, b, c] == [a] + [b, c]; ReversedStep(a, [b, c]); }
      Reversed([b, c]) + [a];
      { assert [b, c] == [b] + [c]; ReversedStep(b, [c]); }
      Reversed([c]) + [b] + [a];
      { assert [c] == [c] + []; ReversedStep(c, []); }
      [c, b, a];
    }
  }

  lemma SortOne(a: Game)
    ensures Sort([a]) == [a]
  {
    assert [a] == [] + [a];
    SortStep([], a);
    InsertStays([], a);
  }

  lemma SortTwoSwaps(c: Game, b: Game)
    requires Total(c) < Total(b)
    ensures Sort([c, b]) == [b, c]
  {
    assert [c, b] == [c] + [b];
    SortStep([c], b);
    SortOne(c);
    assert [c] == [] + [c];
    InsertPasses([], b, c);
    InsertStays([], b);
  }

  /** Three games with totals 5, 12 and 4, started in that order. */
  lemma RankThree(a: Game, b: Game, c: Game)
    requires Total(a) == 5 && Total(b) == 12 && Total(c) == 4
    ensures Ranked([a, b, c]) == [b, a, c]
  {
    ReversedThree(a, b, c);
    SortTwoSwaps(c, b);
    assert [c, b, a] == [c, b] + [a];
    SortStep([c, b], a);
    assert [b, c] == [b] + [c];
    InsertPasses([b], a, c);
    InsertStays([b], a);
  }

  /** All totals differ: the summary is ordered by total alone, 12, 5, 4. */
  lemma SummaryByScore()
    ensures Ranked([Mexico(), Poland(), Portugal()]) == [Poland(), Mexico(), Portugal()]
  {
    RankThree(Mexico(), Poland(), Portugal());
  }

  lemma ReversedFive(a: Game, b: Game, c: Game, d: Game, e: Game)
    ensures Reversed([a, b, c, d, e]) == [e, d, c, b, a]
  {
    assert [a, b, c, d, e] == [a, b] + [c, d, e];
    ReversedAppend([a, b], [c, d, e]);
    ReversedThree(c, d, e);
    assert [a, b] == [a] + [b];
    ReversedStep(a, [b]);
    assert [b] == [b] + [];
    ReversedStep(b, []);
  }

  lemma SortThreeTies(c: Game, d: Game, e: Game)
    requires Total(c) == 4 && Total(d) == 12 && Total(e) == 12
    ensures Sort([e, d, c]) == [e, d, c]
  {
    assert Sort([e, d]) == [e, d] by {
      assert [e, d] == [e] + [d];
      SortStep([e], d);
      SortOne(e);
      InsertStays([e], d);
    }
    assert [e, d, c] == [e, d] + [c];
    SortStep([e, d], c);
    InsertStays([e, d], c);
  }

  /** Totals 5, 12, 4, 12, 12, started in that order. */
  lemma RankFive(a: Game, b: Game, c: Game, d: Game, e: Game)
    requires Total(a) == 5 && Total(b) == 12 && Total(c) == 4 && Total(d) == 12 && Total(e) == 12
    ensures Ranked([a, b, c, d, e]) == [e, d, b, a, c]
  {
    ReversedFive(a, b, c, d, e);
    assert Sort([e, d, c, b]) == [e, d, b, c] by {
      SortThreeTies(c, d, e);
      assert [e, d, c, b] == [e, d, c] + [b];
      SortStep([e, d, c], b);
      assert [e, d, c] == [e, d] + [c];
      InsertPasses([e, d], b, c);
      InsertStays([e, d], b);
    }
    assert Sort([e, d, c, b, a]) == [e, d, b, a, c] by {
      assert [e, d, c, b, a] == [e, d, c, b] + [a];
      SortStep([e, d, c, b], a);
      assert [e, d, b, c] == [e, d, b] + [c];
      InsertPasses([e, d, b], a, c);
      InsertStays([e, d, b], a);
    }
  }

  /** Two more games with total 12 started after the others: among the three
      games with total 12 the most recently started comes first. */
  lemma SummaryTiesByRecency()
    ensures Ranked([Mexico(), Poland(), Portugal(), Uruguay(), Argentina()])
         == [Argentina(), Uruguay(), Poland(), Mexico(), Portugal()]
  {
    RankFive(Mexico(), Poland(), Portugal(), Uruguay(), Argentina());
  }

  /** A guarded start with both names given and neither team playing succeeds. */
  lemma StartAdmitted(games: Scoreboard, home: string, away: string, id: string)
    requires home != [] && away != []
    requires forall g | g in games :: !Involves(g, [home, away])
    ensures HandleAddNew(games, home, away, id) == Started(games + [NewGame(home, away, id)])
  {
  }

  /** Three guarded starts with distinct teams each succeed, and the summary
      lists three games. */
  lemma ThreeStarts(id0: string, id1: string, id2: string)
    ensures HandleAddNew([], "home0", "away0", id0)
         == Started([NewGame("home0", "away0", id0)])
    ensures HandleAddNew([NewGame("home0", "away0", id0)], "home1", "away1", id1)
         == Started([NewGame("home0", "away0", id0), NewGame("home1", "away1", id1)])
    ensures HandleAddNew([NewGame("home0", "away0", id0), NewGame("home1", "away1", id1)], "home2", "away2", id2)
         == Started([NewGame("home0", "away0", id0), NewGame("home1", "away1", id1), NewGame("home2", "away2", id2)])
    ensures |Ranked([NewGame("home0", "away0", id0), NewGame("home1", "away1", id1), NewGame("home2", "away2", id2)])| == 3
  {
    var g0, g1, g2 := NewGame("home0", "away0", id0), NewGame("home1", "away1", id1), NewGame("home2", "away2", id2);
    StartAdmitted([], "home0", "away0", id0);
    assert "home0" != "home1" && "home0" != "away1" && "away0" != "home1" && "away0" != "away1" by {
      assert "home0"[4] != "home1"[4] && "away0"[4] != "away1"[4] && "home0"[0] != "away1"[0] && "away0"[0] != "home1"[0];
    }
    StartAdmitted([g0], "home1", "away1", id1);
    assert [g0] + [g1] == [g0, g1];
    assert "home0" != "home2" && "home0" != "away2" && "away0" != "home2" && "away0" != "away2"
        && "home1" != "home2" && "home1" != "away2" && "away1" != "home2" && "away1" != "away2" by {
      assert "home0"[4] != "home2"[4] && "away0"[4] != "away2"[4] && "home1"[4] != "home2"[4] && "away1"[4] != "away2"[4];
      assert "home0"[0] != "away2"[0] && "away0"[0] != "home2"[0] && "home1"[0] != "away2"[0] && "away1"[0] != "home2"[0];
    }
    StartAdmitted([g0, g1], "home2", "away2", id2);
    assert [g0, g1] + [g2] == [g0, g1, g2];
    RankedOrdered([g0, g1, g2]);
    assert |multiset(Ranked([g0, g1, g2]))| == 3;
  }

  /** Two games started, the first finished by its id: only the second remains. */
  lemma FinishFirstOfTwo(id1: string, id2: string)
    requires id1 != id2
    ensures FinishGame(StartGame(StartGame([], "a", "b", id1), "c", "d", id2), id1)
         == [NewGame("c", "d", id2)]
  {
    var s := StartGame(StartGame([], "a", "b", id1), "c", "d", id2);
    assert s == [NewGame("a", "b", id1), NewGame("c", "d", id2)];
    assert UniqueIds(s);
    FinishGameRemovesAt(s, 0);
    assert s[..0] + s[1..] == [NewGame("c", "d", id2)];
  }

  /** One game, the home side scores twice and the away side once: 2-1. */
  lemma HomeTwoAwayOne(id: string)
    ensures AddPoints(AddPoints(AddPoints(StartGame([], "home", "away", id), id, Home, 1), id, Home, 1), id, Away, 1)
         == [Game(Team("home", 2), Team("away", 1), id)]
  {
    var s0 := StartGame([], "home", "away", id);
    assert s0 == [NewGame("home", "away", id)];
    var s1 := AddPoints(s0, id, Home, 1);
    assert FirstWithId(s0, 0, id);
    assert s1 == [Game(Team("home", 1), Team("away", 0), id)];
    var s2 := AddPoints(s1, id, Home, 1);
    assert FirstWithId(s1, 0, id);
    assert s2 == [Game(Team("home", 2), Team("away", 0), id)];
    assert FirstWithId(s2, 0, id);
  }

  /** A started game, once finished, is no longer on the scoreboard. */
  lemma FinishRemovesStarted(id: string)
    ensures FinishGame(StartGame([], "home", "away", id), id) == []
  {
    assert StartGame([], "home", "away", id) == [NewGame("home", "away", id)];
  }

  /** Starting the same pair twice: the second start is refused with the alert. */
  lemma SecondStartAlerts(id1: string, id2: string)
    ensures HandleAddNew([], "a", "b", id1) == Started([NewGame("a", "b", id1)])
    ensures HandleAddNew([NewGame("a", "b", id1)], "a", "b", id2) == Alerted(TeamAlreadyPlaying)
  {
    assert Involves(NewGame("a", "b", id1), ["a", "b"]);
  }

  /** Empty names are refused with the alert that asks for both. */
  lemma EmptyNamesAlert(games: Scoreboard, id: string)
    ensures HandleAddNew(games, "", "", id) == Alerted(BothNamesRequired)
  {
  }
}
