/** The ranking behind getGames (src/game-service.ts:55-57): the list is copied,
    reversed, and stably sorted by descending total with sortByTotalScore. The
    specification is given as functions (Reversed, Insert, Sort, Ranked); the
    in-place steps the source performs on its copy are methods on an array that
    are proved to compute those functions. */
module Ranking {
  import opened Games

  /** The list in the opposite order. */
  function Reversed(s: seq<Game>): (r: seq<Game>)
    ensures |r| == |s|
  {
    if s == [] then [] else Reversed(s[1..]) + [s[0]]
  }

  lemma {:induction false} ReversedPermutes(s: seq<Game>)
    ensures multiset(Reversed(s)) == multiset(s)
  {
    if s != [] {
      assert s == [s[0]] + s[1..];
      ReversedPermutes(s[1..]);
    }
  }

  lemma {:induction false} ReversedAt(s: seq<Game>, k: nat)
    requires k < |s|
    ensures Reversed(s)[k] == s[|s| - 1 - k]
  {
    if k < |s| - 1 {
      ReversedAt(s[1..], k);
    }
  }

  /** Every game comes no later than any game with a larger total. */
  ghost predicate NonIncreasing(s: seq<Game>) {
    forall i, j | 0 <= i < j < |s| :: Total(s[i]) >= Total(s[j])
  }

  /** One step of a stable insertion sort: `x` goes after every game whose total is
      at least its own, and before the games with a smaller total behind them. The
      walk goes from the back, as the in-place loop does. */
  function Insert(s: seq<Game>, x: Game): seq<Game>
  {
    if s == [] || CompareTotals(s[|s| - 1], x) <= 0 then s + [x]
    else Insert(s[..|s| - 1], x) + [s[|s| - 1]]
  }

  /** Stable insertion sort by descending total, taking the games from the front. */
  function Sort(s: seq<Game>): seq<Game>
  {
    if s == [] then [] else Insert(Sort(s[..|s| - 1]), s[|s| - 1])
  }

  /** The summary getGames returns for the stored list `games`. */
  function Ranked(games: seq<Game>): seq<Game>
  {
    Sort(Reversed(games))
  }

  lemma {:induction false} InsertPermutes(s: seq<Game>, x: Game)
    ensures multiset(Insert(s, x)) == multiset(s) + multiset{x}
  {
    if s != [] && CompareTotals(s[|s| - 1], x) > 0 {
      assert s == s[..|s| - 1] + [s[|s| - 1]];
      InsertPermutes(s[..|s| - 1], x);
    }
  }

  lemma {:induction false} InsertSorted(s: seq<Game>, x: Game)
    requires NonIncreasing(s)
    ensures NonIncreasing(Insert(s, x))
  {
    if s != [] && CompareTotals(s[|s| - 1], x) > 0 {
      var front, last := s[..|s| - 1], s[|s| - 1];
      var r := Insert(s, x);
      assert r == Insert(front, x) + [last];
      assert NonIncreasing(front) by {
        forall i, j | 0 <= i < j < |front| ensures Total(front[i]) >= Total(front[j]) {
          assert front[i] == s[i] && front[j] == s[j];
        }
      }
      InsertSorted(front, x);
      InsertPermutes(front, x);
      forall i | 0 <= i < |r| - 1 ensures Total(r[i]) >= Total(last) {
        assert r[i] in multiset(Insert(front, x));
        if r[i] != x {
          assert r[i] in multiset(front);
          var k :| 0 <= k < |front| && front[k] == r[i];
          assert front[k] == s[k];
        }
      }
    }
  }

  /** Sort returns a rearrangement of its input. */
  lemma {:induction false} SortPermutes(s: seq<Game>)
    ensures multiset(Sort(s)) == multiset(s)
  {
    if s != [] {
      assert s == s[..|s| - 1] + [s[|s| - 1]];
      SortPermutes(s[..|s| - 1]);
      InsertPermutes(Sort(s[..|s| - 1]), s[|s| - 1]);
    }
  }

  /** Sort orders by non-increasing total. */
  lemma {:induction false} SortSorted(s: seq<Game>)
    ensures NonIncreasing(Sort(s))
  {
    if s != [] {
      SortSorted(s[..|s| - 1]);
      InsertSorted(Sort(s[..|s| - 1]), s[|s| - 1]);
    }
  }

  /** The summary is a rearrangement of the stored games, ordered by non-increasing
      total. */
  lemma RankedOrdered(games: seq<Game>)
    ensures multiset(Ranked(games)) == multiset(games)
    ensures NonIncreasing(Ranked(games))
  {
    ReversedPermutes(games);
    SortPermutes(Reversed(games));
    SortSorted(Reversed(games));
  }

  /** The games with total `t`, in the order they come in. */
  function KeepTotal(s: seq<Game>, t: int): seq<Game>
  {
    if s == [] then []
    else (if Total(s[0]) == t then [s[0]] else []) + KeepTotal(s[1..], t)
  }

  lemma {:induction false} KeepTotalAppend(a: seq<Game>, b: seq<Game>, t: int)
    ensures KeepTotal(a + b, t) == KeepTotal(a, t) + KeepTotal(b, t)
  {
    if a == [] {
      assert a + b == b;
    } else {
      var ab := a + b;
      var head := if Total(a[0]) == t then [a[0]] else [];
      assert ab[0] == a[0] && ab[1..] == a[1..] + b;
      assert KeepTotal(ab, t) == head + KeepTotal(a[1..] + b, t);
      KeepTotalAppend(a[1..], b, t);
      assert head + (KeepTotal(a[1..], t) + KeepTotal(b, t))
          == (head + KeepTotal(a[1..], t)) + KeepTotal(b, t);
    }
  }

  lemma KeepTotalHead(s: seq<Game>)
    requires s != []
    ensures KeepTotal(s, Total(s[0])) == [s[0]] + KeepTotal(s[1..], Total(s[0]))
  {
  }

  lemma {:induction false} KeepTotalIn(s: seq<Game>, t: int, g: Game)
    requires g in KeepTotal(s, t)
    ensures g in s && Total(g) == t
  {
    if !(Total(s[0]) == t && g == s[0]) {
      KeepTotalIn(s[1..], t, g);
    }
  }

  lemma {:induction false} KeepTotalMember(s: seq<Game>, t: int, g: Game)
    requires g in s && Total(g) == t
    ensures g in KeepTotal(s, t)
  {
    if s[0] != g {
      KeepTotalMember(s[1..], t, g);
    }
  }

  lemma {:induction false} ReversedAppend(a: seq<Game>, b: seq<Game>)
    ensures Reversed(a + b) == Reversed(b) + Reversed(a)
  {
    if a == [] {
      assert a + b == b;
    } else {
      assert (a + b)[0] == a[0] && (a + b)[1..] == a[1..] + b;
      ReversedAppend(a[1..], b);
    }
  }

  lemma {:induction false} KeepTotalReversed(s: seq<Game>, t: int)
    ensures KeepTotal(Reversed(s), t) == Reversed(KeepTotal(s, t))
  {
    if s != [] {
      var head := if Total(s[0]) == t then [s[0]] else [];
      assert KeepTotal([s[0]], t) == head by {
        assert [s[0]][1..] == [];
      }
      assert Reversed(head) == head by {
        if head != [] {
          assert head[1..] == [];
        }
      }
      calc {
        KeepTotal(Reversed(s), t);
        KeepTotal(Reversed(s[1..]) + [s[0]], t);
        { KeepTotalAppend(Reversed(s[1..]), [s[0]], t); }
        KeepTotal(Reversed(s[1..]), t) + head;
        { KeepTotalReversed(s[1..], t); }
        Reversed(KeepTotal(s[1..], t)) + Reversed(head);
        { ReversedAppend(head, KeepTotal(s[1..], t)); }
        Reversed(head + KeepTotal(s[1..], t));
        Reversed(KeepTotal(s, t));
      }
    }
  }

  /** Inserting a game adds it at the end of its own tie group and leaves every
      other tie group as it was: Insert is stable. */
  lemma {:induction false} InsertStable(s: seq<Game>, x: Game, t: int)
    ensures KeepTotal(Insert(s, x), t) == KeepTotal(s, t) + KeepTotal([x], t)
  {
    if s == [] || CompareTotals(s[|s| - 1], x) <= 0 {
      KeepTotalAppend(s, [x], t);
    } else {
      var front, last := s[..|s| - 1], s[|s| - 1];
      assert s == front + [last];
      InsertStable(front, x, t);
      KeepTotalAppend(Insert(front, x), [last], t);
      KeepTotalAppend(front, [last], t);
    }
  }

  /** Sort keeps every tie group in its input order. */
  lemma {:induction false} SortStable(s: seq<Game>, t: int)
    ensures KeepTotal(Sort(s), t) == KeepTotal(s, t)
  {
    if s != [] {
      var front, last := s[..|s| - 1], s[|s| - 1];
      assert s == front + [last];
      SortStable(front, t);
      InsertStable(Sort(front), last, t);
      KeepTotalAppend(front, [last], t);
    }
  }

  /** Ties come out most recently started first: within every total, the summary
      lists the games in the reverse of their order in the stored list. */
  lemma RankedTies(games: seq<Game>, t: int)
    ensures KeepTotal(Ranked(games), t) == Reversed(KeepTotal(games, t))
  {
    SortStable(Reversed(games), t);
    KeepTotalReversed(games, t);
  }

  lemma NonIncreasingTail(r: seq<Game>)
    requires r != [] && NonIncreasing(r)
    ensures NonIncreasing(r[1..])
  {
    forall i, j | 0 <= i < j < |r| - 1 ensures Total(r[1..][i]) >= Total(r[1..][j]) {
      assert r[1..][i] == r[i + 1] && r[1..][j] == r[j + 1];
    }
  }

  /** The first game of a list ordered by non-increasing total has the largest total. */
  lemma NonIncreasingHead(r: seq<Game>, g: Game)
    requires r != [] && NonIncreasing(r) && g in r
    ensures Total(r[0]) >= Total(g)
  {
    var k :| 0 <= k < |r| && r[k] == g;
    if k > 0 {
      assert Total(r[0]) >= Total(r[k]);
    }
  }

  /** Two ordered lists that agree on the tie groups of both their first games
      start with the same game. */
  lemma SameHead(r1: seq<Game>, r2: seq<Game>)
    requires r1 != [] && r2 != [] && NonIncreasing(r1) && NonIncreasing(r2)
    requires KeepTotal(r1, Total(r1[0])) == KeepTotal(r2, Total(r1[0]))
    requires KeepTotal(r1, Total(r2[0])) == KeepTotal(r2, Total(r2[0]))
    ensures r1[0] == r2[0]
  {
    var t1, t2 := Total(r1[0]), Total(r2[0]);
    KeepTotalHead(r1);
    assert r1[0] in KeepTotal(r2, t1);
    KeepTotalIn(r2, t1, r1[0]);
    NonIncreasingHead(r2, r1[0]);
    KeepTotalHead(r2);
    assert r2[0] in KeepTotal(r1, t2);
    KeepTotalIn(r1, t2, r2[0]);
    NonIncreasingHead(r1, r2[0]);
    assert t1 == t2;
    assert KeepTotal(r1, t1)[0] == r1[0] && KeepTotal(r2, t1)[0] == r2[0];
  }

  lemma SameTail(r1: seq<Game>, r2: seq<Game>)
    requires r1 != [] && r2 != [] && r1[0] == r2[0]
    requires forall t :: KeepTotal(r1, t) == KeepTotal(r2, t)
    ensures forall t :: KeepTotal(r1[1..], t) == KeepTotal(r2[1..], t)
  {
    forall t ensures KeepTotal(r1[1..], t) == KeepTotal(r2[1..], t) {
      var head := if Total(r1[0]) == t then [r1[0]] else [];
      assert KeepTotal(r1, t) == head + KeepTotal(r1[1..], t);
      assert KeepTotal(r2, t) == head + KeepTotal(r2[1..], t);
      assert KeepTotal(r1, t) == KeepTotal(r2, t);
      assert KeepTotal(r1[1..], t) == KeepTotal(r1, t)[|head|..];
      assert KeepTotal(r2[1..], t) == KeepTotal(r2, t)[|head|..];
    }
  }

  /** Two lists ordered by non-increasing total that agree on every tie group are
      the same list. */
  lemma {:induction false} RankingUnique(r1: seq<Game>, r2: seq<Game>)
    requires NonIncreasing(r1) && NonIncreasing(r2)
    requires forall t :: KeepTotal(r1, t) == KeepTotal(r2, t)
    ensures r1 == r2
  {
    if r1 == [] && r2 != [] {
      KeepTotalHead(r2);
    } else if r1 != [] && r2 == [] {
      KeepTotalHead(r1);
    } else if r1 != [] && r2 != [] {
      SameHead(r1, r2);
      SameTail(r1, r2);
      NonIncreasingTail(r1);
      NonIncreasingTail(r2);
      RankingUnique(r1[1..], r2[1..]);
      assert r1 == [r1[0]] + r1[1..] && r2 == [r2[0]] + r2[1..];
    }
  }

  /** The ranking rule determines the summary: any list ordered by non-increasing
      total that lists every tie group most recent first is the summary. */
  lemma RankedIsOnlyRanking(games: seq<Game>, r: seq<Game>)
    requires NonIncreasing(r)
    requires forall t :: KeepTotal(r, t) == Reversed(KeepTotal(games, t))
    ensures r == Ranked(games)
  {
    forall t ensures KeepTotal(r, t) == KeepTotal(Ranked(games), t) {
      RankedTies(games, t);
    }
    RankedOrdered(games);
    RankingUnique(r, Ranked(games));
  }

  /** `x` comes somewhere before `y` in `s`. */
  ghost predicate Precedes(s: seq<Game>, x: Game, y: Game) {
    exists p, q | 0 <= p < q < |s| :: s[p] == x && s[q] == y
  }

  lemma PrecedesPrepend(a: seq<Game>, b: seq<Game>, x: Game, y: Game)
    requires Precedes(b, x, y)
    ensures Precedes(a + b, x, y)
  {
    var p, q :| 0 <= p < q < |b| && b[p] == x && b[q] == y;
    assert (a + b)[|a| + p] == x && (a + b)[|a| + q] == y;
  }

  lemma {:induction false} PrecedesKeepTotal(s: seq<Game>, t: int, x: Game, y: Game)
    requires Precedes(s, x, y) && Total(x) == t && Total(y) == t
    ensures Precedes(KeepTotal(s, t), x, y)
  {
    var p, q :| 0 <= p < q < |s| && s[p] == x && s[q] == y;
    if p == 0 {
      assert s[1..][q - 1] == y;
      KeepTotalMember(s[1..], t, y);
      var k :| 0 <= k < |KeepTotal(s[1..], t)| && KeepTotal(s[1..], t)[k] == y;
      assert KeepTotal(s, t) == [x] + KeepTotal(s[1..], t);
      assert KeepTotal(s, t)[0] == x && KeepTotal(s, t)[k + 1] == y;
    } else {
      assert s[1..][p - 1] == x && s[1..][q - 1] == y;
      PrecedesKeepTotal(s[1..], t, x, y);
      PrecedesPrepend(if Total(s[0]) == t then [s[0]] else [], KeepTotal(s[1..], t), x, y);
    }
  }

  lemma PrecedesCons(h: Game, r: seq<Game>, x: Game, y: Game)
    requires Precedes([h] + r, x, y)
    ensures (x == h && y in r) || Precedes(r, x, y)
  {
    var s := [h] + r;
    var p, q :| 0 <= p < q < |s| && s[p] == x && s[q] == y;
    assert s[q] == r[q - 1];
    if p > 0 {
      assert s[p] == r[p - 1];
    }
  }

  lemma PrecedesHead(h: Game, r: seq<Game>, y: Game)
    requires y in r
    ensures Precedes([h] + r, h, y)
  {
    var k :| 0 <= k < |r| && r[k] == y;
    assert ([h] + r)[0] == h && ([h] + r)[k + 1] == y;
  }

  lemma {:induction false} PrecedesFromKeepTotal(s: seq<Game>, t: int, x: Game, y: Game)
    requires Precedes(KeepTotal(s, t), x, y)
    ensures Precedes(s, x, y)
  {
    var head, rest := s[0], s[1..];
    var keptRest := KeepTotal(rest, t);
    assert s == [head] + rest;
    if Total(head) == t {
      assert KeepTotal(s, t) == [head] + keptRest;
      PrecedesCons(head, keptRest, x, y);
      if x == head && y in keptRest {
        KeepTotalIn(rest, t, y);
        PrecedesHead(head, rest, y);
      } else {
        PrecedesFromKeepTotal(rest, t, x, y);
        PrecedesPrepend([head], rest, x, y);
      }
    } else {
      assert KeepTotal(s, t) == keptRest;
      PrecedesFromKeepTotal(rest, t, x, y);
      PrecedesPrepend([head], rest, x, y);
    }
  }

  lemma PrecedesReversed(s: seq<Game>, x: Game, y: Game)
    requires Precedes(s, x, y)
    ensures Precedes(Reversed(s), y, x)
  {
    var p, q :| 0 <= p < q < |s| && s[p] == x && s[q] == y;
    ReversedAt(s, |s| - 1 - q);
    ReversedAt(s, |s| - 1 - p);
  }

  /** The tie-break in terms of positions: of two stored games with the same
      total, the later one is listed before the earlier one. */
  lemma TieBreak(games: seq<Game>, i: nat, j: nat)
    requires i < j < |games| && Total(games[i]) == Total(games[j])
    ensures Precedes(Ranked(games), games[j], games[i])
  {
    var t := Total(games[i]);
    PrecedesKeepTotal(games, t, games[i], games[j]);
    PrecedesReversed(KeepTotal(games, t), games[i], games[j]);
    RankedTies(games, t);
    PrecedesFromKeepTotal(Ranked(games), t, games[j], games[i]);
  }

  /** `reverse()` on the copied array, in place. */
  method ReverseInPlace(a: array<Game>)
    modifies a
    ensures a[..] == Reversed(old(a[..]))
  {
    ghost var input := a[..];
    var lo, hi := 0, a.Length - 1;
    while lo < hi
      invariant 0 <= lo <= a.Length && hi == a.Length - 1 - lo
      invariant forall k | 0 <= k < lo :: a[k] == input[a.Length - 1 - k]
      invariant forall k | hi < k < a.Length :: a[k] == input[a.Length - 1 - k]
      invariant forall k | lo <= k <= hi :: a[k] == input[k]
    {
      a[lo], a[hi] := a[hi], a[lo];
      lo, hi := lo + 1, hi - 1;
    }
    forall k | 0 <= k < a.Length ensures a[k] == Reversed(input)[k] {
      ReversedAt(input, k);
    }
  }

  /** Where Insert puts `x`: after position `j` when every game from `j` on ranks
      after `x` and the one before `j`, if any, does not. */
  lemma {:induction false} InsertPosition(s: seq<Game>, j: nat, x: Game)
    requires j <= |s| && (j == 0 || CompareTotals(s[j - 1], x) <= 0)
    requires forall k | j <= k < |s| :: CompareTotals(s[k], x) > 0
    ensures Insert(s, x) == s[..j] + [x] + s[j..]
  {
    if j < |s| {
      var front := s[..|s| - 1];
      assert front[..j] == s[..j];
      if j > 0 {
        assert front[j - 1] == s[j - 1];
      }
      InsertPosition(front, j, x);
      assert s[j..] == front[j..] + [s[|s| - 1]];
    }
  }

  /** The array contents after one pass of the insertion sort, as a sequence. */
  lemma Placed(b: seq<Game>, sorted: seq<Game>, x: Game, j: nat)
    requires j <= |sorted| < |b| && b[j] == x
    requires forall k | 0 <= k < j :: b[k] == sorted[k]
    requires forall k | j < k <= |sorted| :: b[k] == sorted[k - 1]
    ensures b[..|sorted| + 1] == sorted[..j] + [x] + sorted[j..]
  {
    var placed := sorted[..j] + [x] + sorted[j..];
    forall k | 0 <= k <= |sorted| ensures b[k] == placed[k] {
      if k > j {
        assert placed[k] == sorted[k - 1];
      }
    }
  }

  lemma SortPrefix(s: seq<Game>, i: nat)
    requires i < |s|
    ensures Sort(s[..i + 1]) == Insert(Sort(s[..i]), s[i])
  {
    assert s[..i + 1][..i] == s[..i];
  }

  /** One pass of the insertion sort: the game at index `i` moves down past the
      games the comparator ranks after it. */
  method InsertAt(a: array<Game>, i: nat)
    requires i < a.Length
    modifies a
    ensures a[..i + 1] == Insert(old(a[..i]), old(a[i]))
    ensures a[i + 1..] == old(a[i + 1..])
  {
    ghost var sorted := a[..i];
    var x := a[i];
    var j := i;
    while j > 0 && CompareTotals(a[j - 1], x) > 0
      invariant 0 <= j <= i
      invariant forall k | 0 <= k < j :: a[k] == sorted[k]
      invariant forall k | j < k <= i :: a[k] == sorted[k - 1]
      invariant forall k | i < k < a.Length :: a[k] == old(a[k])
      invariant forall k | j <= k < i :: CompareTotals(sorted[k], x) > 0
    {
      a[j] := a[j - 1];
      j := j - 1;
    }
    a[j] := x;
    InsertPosition(sorted, j, x);
    Placed(a[..], sorted, x, j);
  }

  /** `sort(sortByTotalScore)` on the array, in place: an insertion sort that moves
      a game forward only past games the comparator puts after it, so games the
      comparator calls equal keep their order. */
  method SortByTotalScore(a: array<Game>)
    modifies a
    ensures a[..] == Sort(old(a[..]))
  {
    ghost var input := a[..];
    var i := 0;
    while i < a.Length
      invariant 0 <= i <= a.Length
      invariant a[..i] == Sort(input[..i])
      invariant a[i..] == input[i..]
    {
      InsertAt(a, i);
      SortPrefix(input, i);
      i := i + 1;
    }
    assert input[..a.Length] == input;
  }
}
